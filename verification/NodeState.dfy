/**
 Split node state: controller configuration, worker inventory and worker telemetry are
 validated apart and joined into the node the scheduler sees. GPUs are joined by stable
 id, or by position where the inventory has none.
 */
module NodeState {
  import opened Text
  import opened Uuids
  import opened Jobs
  import opened Sums

  const PROTOCOL_VERSION: u32 := 1
  const MIN_TEMPERATURE := -100
  const MAX_TEMPERATURE := 200

  // ---------------------------------------------------------------- documents

  datatype NodeTransport =
    | Local
    | Managed(endpoint: string, credentialRef: string)
    | Ssh(host: string, port: nat, username: string, sshCredentialRef: string)

  datatype NodeStatus = Online | Degraded | Draining | Offline

  datatype GpuDevice = GpuDevice(vendor: GpuVendor, model: string, totalVram: u64, availableVram: u64,
      allocatable: bool)

  datatype NodeResources = NodeResources(
    logicalCpuCores: u32, availableCpuCores: u32, memory: u64, availableMemory: u64, disk: u64, availableDisk: u64,
    gpus: seq<GpuDevice>)

  datatype NodeLoad = NodeLoad(cpuPercent: nat, queueDepth: u32, runningJobs: u32)

  datatype Node = Node(
    id: Uuid, name: string, enabled: bool, transport: NodeTransport, os: OperatingSystem, arch: Architecture,
    status: NodeStatus, capabilities: set<string>, resources: NodeResources, load: NodeLoad, priority: int,
    labels: map<string, string>, cachedSources: set<string>, lastSeenAt: Option<int>)

  datatype DesiredState = Active | DesiredDraining

  datatype CapacityPolicy = CapacityPolicy(
    maxConcurrentJobs: u32, allocatableCpuCores: Option<u32>, allocatableCpuPercent: Option<nat>,
    memoryLimit: Option<u64>,
    allowedJobKinds: set<JobKind>, allowOnBattery: bool, maxCpuPercent: Option<nat>, maxCpuEwmaPercent: Option<nat>,
    maxMemoryPercent: Option<nat>, maxTemperature: Option<int>)

  const DEFAULT_CAPACITY: CapacityPolicy := CapacityPolicy(1, None, None, None, {}, false, None, None, None, None)

  datatype NodeConfig = NodeConfig(
    name: string, enabled: bool, priority: int, labels: map<string, string>, desiredState: DesiredState,
    capacity: CapacityPolicy)

  datatype GpuInventory = GpuInventory(
    vendor: GpuVendor, model: string, totalVram: u64, stableId: Option<string>, driverVersion: Option<string>)

  datatype ContainmentBackend =
    | Legacy | LinuxSubreaperProcessGroup | MacosProcessGroup | WindowsJobObject | UnsupportedContainment

  datatype HostileBackend =
    | HostileDisabled | LinuxCgroupV2DedicatedIdentity | WindowsJobObjectExternalGuard
    | MacosExternalReconciliation | HostileUnsupported

  datatype HostileIsolation = HostileIsolation(
    optIn: bool, ready: bool, backend: HostileBackend, dedicatedIdentity: bool, externalReconciliation: bool,
    protectedGuardState: bool, workerStateIsolated: bool, reasonCode: Option<string>)

  datatype Containment = Containment(backend: ContainmentBackend, version: string, maxSafeSlots: u32,
      hostile: HostileIsolation)

  const DEFAULT_CONTAINMENT: Containment :=
    Containment(Legacy, "unknown", 1, HostileIsolation(false, false, HostileDisabled, false, false, false, false, None))

  datatype NodeInventory = NodeInventory(
    transport: NodeTransport, os: OperatingSystem, arch: Architecture, capabilities: set<string>, logicalCpuCores: u32,
    memory: u64, disk: u64, gpus: seq<GpuInventory>, cpuModel: string, toolVersions: map<string, string>,
    workerVersion: string, protocolVersion: u32, containment: Containment)

  datatype GpuTelemetry = GpuTelemetry(
    availableVram: u64, allocatable: bool, stableId: Option<string>, utilization: Option<nat>, temperature: Option<int>)

  datatype PowerSource = Ac | Battery | UnknownPower

  datatype NodeTelemetry = NodeTelemetry(
    status: NodeStatus, availableCpuCores: u32, availableMemory: u64, availableDisk: u64, gpus: seq<GpuTelemetry>,
    load: NodeLoad, cachedSources: set<string>, observedAt: int, bootGeneration: u64, bootId: Uuid, sequence: u64,
    cpuEwmaPercent: nat, activeRunIds: seq<Uuid>, powerSource: PowerSource, batteryCharge: Option<nat>,
    batteryCharging: Option<bool>, temperature: Option<int>)

  // ---------------------------------------------------------------- what the documents must satisfy

  predicate GoodText(s: string, max: nat) {
    !Blank(s) && |s| <= max && !HasControl(s)
  }

  predicate GoodOption(s: Option<string>, max: nat) {
    s.Some? ==> GoodText(s.value, max)
  }

  predicate GoodPercent(p: Option<nat>) {
    p.Some? ==> 0 < p.value <= 100
  }

  predicate GoodTemperature(t: Option<int>) {
    t.Some? ==> MIN_TEMPERATURE <= t.value <= MAX_TEMPERATURE
  }

  predicate ValidCapacity(c: CapacityPolicy) {
    && c.maxConcurrentJobs != 0 && c.allocatableCpuCores != Some(0) && c.memoryLimit != Some(0)
    && GoodPercent(c.allocatableCpuPercent) && GoodPercent(c.maxCpuPercent)
    && GoodPercent(c.maxCpuEwmaPercent) && GoodPercent(c.maxMemoryPercent)
    && GoodTemperature(c.maxTemperature)
  }

  predicate ValidConfig(c: NodeConfig) {
    && GoodText(c.name, 128)
    && (forall k :: k in c.labels ==> GoodText(k, 128) && |c.labels[k]| <= 1_024 && !HasControl(c.labels[k]))
    && ValidCapacity(c.capacity)
  }

  predicate ValidHostile(h: HostileIsolation) {
    && GoodOption(h.reasonCode, 128)
    && (if !h.optIn then
          && !h.ready && h.backend == HostileDisabled && !h.dedicatedIdentity && !h.externalReconciliation
          && !h.protectedGuardState && !h.workerStateIsolated && h.reasonCode.None?
        else
          && h.backend != HostileDisabled
          && (h.ready ==>
                && h.dedicatedIdentity && h.externalReconciliation && h.protectedGuardState && h.workerStateIsolated
                && h.reasonCode.None? && h.backend != MacosExternalReconciliation && h.backend != HostileUnsupported)
          && (!h.ready ==> h.reasonCode.Some?))
  }

  predicate GoodGpu(g: GpuInventory) {
    GoodText(g.model, 512) && g.totalVram != 0 && GoodOption(g.stableId, 256) && GoodOption(g.driverVersion, 128)
  }

  predicate UniqueInventoryIds(gpus: seq<GpuInventory>) {
    forall i, j :: 0 <= i < j < |gpus| && gpus[i].stableId.Some? ==> gpus[i].stableId != gpus[j].stableId
  }

  predicate ValidInventory(v: NodeInventory) {
    && (forall c :: c in v.capabilities ==> !Blank(c))
    && (forall i :: 0 <= i < |v.gpus| ==> GoodGpu(v.gpus[i])) && UniqueInventoryIds(v.gpus)
    && GoodText(v.cpuModel, 512) && GoodText(v.workerVersion, 128) && v.protocolVersion == PROTOCOL_VERSION
    && (forall k :: k in v.toolVersions ==> GoodText(k, 128) && GoodText(v.toolVersions[k], 512))
    && GoodText(v.containment.version, 128) && v.containment.maxSafeSlots == 1
    && ValidHostile(v.containment.hostile)
  }

  predicate GoodGpuReading(g: GpuTelemetry) {
    && (g.utilization.Some? ==> g.utilization.value <= 100)
    && GoodTemperature(g.temperature) && GoodOption(g.stableId, 256)
  }

  predicate UniqueTelemetryIds(gpus: seq<GpuTelemetry>) {
    forall i, j :: 0 <= i < j < |gpus| && gpus[i].stableId.Some? ==> gpus[i].stableId != gpus[j].stableId
  }

  predicate UniqueRuns(ids: seq<Uuid>) {
    (forall i :: 0 <= i < |ids| ==> ids[i] != NIL) && forall i, j :: 0 <= i < j < |ids| ==> ids[i] != ids[j]
  }

  predicate ValidShape(t: NodeTelemetry) {
    && t.load.cpuPercent <= 100 && t.cpuEwmaPercent <= 100
    && (t.batteryCharge.Some? ==> t.batteryCharge.value <= 100)
    && GoodTemperature(t.temperature)
    && UniqueRuns(t.activeRunIds)
    && (forall i :: 0 <= i < |t.gpus| ==> GoodGpuReading(t.gpus[i])) && UniqueTelemetryIds(t.gpus)
  }

  // ---------------------------------------------------------------- the duplicate-detecting loops

  method CheckCapacity(c: CapacityPolicy) returns (ok: bool)
    ensures ok <==> ValidCapacity(c)
  {
    if c.maxConcurrentJobs == 0 {
      return false;
    }
    if c.allocatableCpuCores == Some(0) {
      return false;
    }
    if c.memoryLimit == Some(0) {
      return false;
    }
    var percents := [c.allocatableCpuPercent, c.maxCpuPercent, c.maxCpuEwmaPercent, c.maxMemoryPercent];
    for i := 0 to 4
      invariant forall j :: 0 <= j < i ==> GoodPercent(percents[j])
    {
      if percents[i].Some? && (percents[i].value == 0 || percents[i].value > 100) {
        assert !GoodPercent(percents[i]);
        return false;
      }
    }
    assert GoodPercent(percents[0]) && GoodPercent(percents[1]) && GoodPercent(percents[2]) && GoodPercent(percents[3]);
    if c.maxTemperature.Some? && !(-100 <= c.maxTemperature.value <= 200) {
      return false;
    }
    return true;
  }

  method CheckConfig(c: NodeConfig) returns (ok: bool)
    ensures ok <==> ValidConfig(c)
  {
    hide ValidCapacity;
    if Blank(c.name) || |c.name| > 128 || HasControl(c.name) {
      return false;
    }
    if exists k :: k in c.labels &&
        (Blank(k) || |k| > 128 || |c.labels[k]| > 1_024 || HasControl(k) || HasControl(c.labels[k])) {
      return false;
    }
    ok := CheckCapacity(c.capacity);
  }

  /** The early exits of the hostile-isolation check. */
  method CheckHostile(h: HostileIsolation) returns (ok: bool)
    ensures ok <==> ValidHostile(h)
  {
    hide Blank, HasControl;
    if h.reasonCode.Some?
        && (Blank(h.reasonCode.value) || |h.reasonCode.value| > 128 || HasControl(h.reasonCode.value)) {
      return false;
    }
    if !h.optIn {
      if || h.ready || h.backend != HostileDisabled || h.dedicatedIdentity || h.externalReconciliation
         || h.protectedGuardState || h.workerStateIsolated || h.reasonCode.Some? {
        return false;
      }
      return true;
    }
    if h.backend == HostileDisabled {
      return false;
    }
    if h.ready &&
       (|| !h.dedicatedIdentity || !h.externalReconciliation || !h.protectedGuardState || !h.workerStateIsolated
        || h.reasonCode.Some? || h.backend == MacosExternalReconciliation || h.backend == HostileUnsupported) {
      return false;
    }
    if !h.ready && h.reasonCode.None? {
      return false;
    }
    return true;
  }

  method CheckInventory(v: NodeInventory) returns (ok: bool)
    ensures ok <==> ValidInventory(v)
  {
    hide ValidHostile, GoodGpu, UniqueInventoryIds, HasControl, Blank;
    if exists c :: c in v.capabilities && Blank(c) {
      return false;
    }
    var gpusOk := CheckInventoryGpus(v.gpus);
    if !gpusOk {
      return false;
    }
    if Blank(v.cpuModel) || |v.cpuModel| > 512 || HasControl(v.cpuModel) {
      return false;
    }
    if Blank(v.workerVersion) || |v.workerVersion| > 128 || HasControl(v.workerVersion) {
      return false;
    }
    if v.protocolVersion != 1 {
      return false;
    }
    if exists k :: k in v.toolVersions &&
        (|| Blank(k) || |k| > 128 || Blank(v.toolVersions[k]) || |v.toolVersions[k]| > 512
         || HasControl(k) || HasControl(v.toolVersions[k])) {
      return false;
    }
    var version := v.containment.version;
    if Blank(version) || |version| > 128 || HasControl(version) || v.containment.maxSafeSlots != 1 {
      return false;
    }
    ok := CheckHostile(v.containment.hostile);
  }

  /** The GPU part of `NodeInventory::validate`: well-formed devices with distinct ids. */
  method CheckInventoryGpus(gpus: seq<GpuInventory>) returns (ok: bool)
    ensures ok <==> (forall i :: 0 <= i < |gpus| ==> GoodGpu(gpus[i])) && UniqueInventoryIds(gpus)
  {
    hide GoodText;
    var gpuIds: set<string> := {};
    for i := 0 to |gpus|
      invariant forall j :: 0 <= j < i ==> GoodGpu(gpus[j])
      invariant forall j, k :: 0 <= j < k < i && gpus[j].stableId.Some? ==> gpus[j].stableId != gpus[k].stableId
      invariant forall id :: id in gpuIds <==> exists j :: 0 <= j < i && gpus[j].stableId == Some(id)
    {
      var gpu := gpus[i];
      if !GoodText(gpu.model, 512) || gpu.totalVram == 0 {
        return false;
      }
      if gpu.stableId.Some? {
        if !GoodText(gpu.stableId.value, 256) || gpu.stableId.value in gpuIds {
          return false;
        }
        gpuIds := gpuIds + {gpu.stableId.value};
      }
      if !GoodOption(gpu.driverVersion, 128) {
        return false;
      }
    }
    return true;
  }

  /** The loops of `validate_shape` over runs and GPU readings. */
  method CheckShape(t: NodeTelemetry) returns (ok: bool)
    ensures ok <==> ValidShape(t)
  {
    hide GoodText;
    if t.load.cpuPercent > 100 || t.cpuEwmaPercent > 100 {
      return false;
    }
    if t.batteryCharge.Some? && t.batteryCharge.value > 100 {
      return false;
    }
    if !GoodTemperature(t.temperature) {
      return false;
    }
    var runsOk := CheckRuns(t.activeRunIds);
    if !runsOk {
      return false;
    }
    ok := CheckReadings(t.gpus);
  }

  method CheckRuns(ids: seq<Uuid>) returns (ok: bool)
    ensures ok <==> UniqueRuns(ids)
  {
    var activeRuns: set<Uuid> := {};
    for i := 0 to |ids|
      invariant forall j :: 0 <= j < i ==> ids[j] != NIL
      invariant forall j, k :: 0 <= j < k < i ==> ids[j] != ids[k]
      invariant forall id :: id in activeRuns <==> exists j :: 0 <= j < i && ids[j] == id
    {
      if ids[i] == NIL || ids[i] in activeRuns {
        return false;
      }
      activeRuns := activeRuns + {ids[i]};
    }
    return true;
  }

  method CheckReadings(gpus: seq<GpuTelemetry>) returns (ok: bool)
    ensures ok <==> (forall i :: 0 <= i < |gpus| ==> GoodGpuReading(gpus[i])) && UniqueTelemetryIds(gpus)
  {
    hide GoodText;
    var stableIds: set<string> := {};
    for i := 0 to |gpus|
      invariant forall j :: 0 <= j < i ==> GoodGpuReading(gpus[j])
      invariant forall j, k :: 0 <= j < k < i && gpus[j].stableId.Some? ==> gpus[j].stableId != gpus[k].stableId
      invariant forall id :: id in stableIds <==> exists j :: 0 <= j < i && gpus[j].stableId == Some(id)
    {
      var gpu := gpus[i];
      if gpu.utilization.Some? && gpu.utilization.value > 100 {
        return false;
      }
      if !GoodTemperature(gpu.temperature) {
        return false;
      }
      if gpu.stableId.Some? {
        if !GoodText(gpu.stableId.value, 256) || gpu.stableId.value in stableIds {
          return false;
        }
        stableIds := stableIds + {gpu.stableId.value};
      }
    }
    return true;
  }

  // ---------------------------------------------------------------- the GPU join

  /** Position of the first reading with that id. */
  function FirstWithId(gpus: seq<GpuTelemetry>, id: string, from: nat): (r: Option<nat>)
    requires from <= |gpus|
    ensures r.Some? ==> from <= r.value < |gpus| && gpus[r.value].stableId == Some(id)
    ensures r.None? ==> forall i :: from <= i < |gpus| ==> gpus[i].stableId != Some(id)
    decreases |gpus| - from
  {
    if from == |gpus| then None
    else if gpus[from].stableId == Some(id) then Some(from)
    else FirstWithId(gpus, id, from + 1)
  }

  /** `gpu_for_inventory`: the position of the reading that belongs to an inventory GPU. */
  function JoinAt(readings: seq<GpuTelemetry>, index: nat, gpu: GpuInventory): (r: Option<nat>)
    ensures r.Some? ==> r.value < |readings|
  {
    if gpu.stableId.None? then (if index < |readings| then Some(index) else None)
    else FirstWithId(readings, gpu.stableId.value, 0)
  }

  /** Every inventory GPU has a reading, and no reading claims more memory than its GPU has. */
  predicate Joins(gpus: seq<GpuInventory>, readings: seq<GpuTelemetry>) {
    && |readings| == |gpus|
    && forall i :: 0 <= i < |gpus| ==>
         && JoinAt(readings, i, gpus[i]).Some?
         && readings[JoinAt(readings, i, gpus[i]).value].availableVram <= gpus[i].totalVram
  }

  predicate ValidTelemetry(t: NodeTelemetry, v: NodeInventory) {
    && ValidShape(t)
    && t.availableCpuCores <= v.logicalCpuCores && t.availableMemory <= v.memory && t.availableDisk <= v.disk
    && Joins(v.gpus, t.gpus)
  }

  /** `NodeTelemetry::validate`: shape, totals, and the lookup for every inventory GPU. */
  method CheckTelemetry(t: NodeTelemetry, v: NodeInventory) returns (ok: bool)
    ensures ok <==> ValidTelemetry(t, v)
  {
    hide ValidShape;
    var shapeOk := CheckShape(t);
    if !shapeOk {
      return false;
    }
    if t.availableCpuCores > v.logicalCpuCores || t.availableMemory > v.memory || t.availableDisk > v.disk {
      return false;
    }
    if |t.gpus| != |v.gpus| {
      return false;
    }
    for i := 0 to |v.gpus|
      invariant forall j :: 0 <= j < i ==>
        JoinAt(t.gpus, j, v.gpus[j]).Some?
            && t.gpus[JoinAt(t.gpus, j, v.gpus[j]).value].availableVram <= v.gpus[j].totalVram
    {
      var at := JoinAt(t.gpus, i, v.gpus[i]);
      if at.None? {
        return false;
      }
      if t.gpus[at.value].availableVram > v.gpus[i].totalVram {
        return false;
      }
    }
    return true;
  }

  /** The reading of a device: the one with its id if it has one, and otherwise the one at its place. */
  lemma JoinExact(readings: seq<GpuTelemetry>, index: nat, gpu: GpuInventory)
    requires UniqueTelemetryIds(readings)
    ensures gpu.stableId.None? ==> JoinAt(readings, index, gpu) == if index < |readings| then Some(index) else None
    ensures gpu.stableId.Some? ==> forall i :: 0 <= i < |readings| ==>
      (readings[i].stableId == gpu.stableId <==> JoinAt(readings, index, gpu) == Some(i))
  {
  }

  function JoinMap(gpus: seq<GpuInventory>, readings: seq<GpuTelemetry>): (p: seq<nat>)
    requires Joins(gpus, readings)
    ensures |p| == |gpus| && forall i :: 0 <= i < |p| ==>
        JoinAt(readings, i, gpus[i]) == Some(p[i]) && p[i] < |readings|
  {
    seq(|gpus|, i requires 0 <= i < |gpus| => JoinAt(readings, i, gpus[i]).value)
  }

  /** A reading at the position of an inventory GPU without id carries the id of another GPU. */
  predicate Contested(gpus: seq<GpuInventory>, readings: seq<GpuTelemetry>) {
    exists i, j :: 0 <= i < |gpus| && 0 <= j < |gpus| && i < |readings| &&
      gpus[i].stableId.None? && gpus[j].stableId.Some? && readings[i].stableId == gpus[j].stableId
  }

  /** No two GPUs share a reading -- exactly when no reading is contested. */
  lemma JoinInjectiveIffUncontested(gpus: seq<GpuInventory>, readings: seq<GpuTelemetry>)
    requires UniqueInventoryIds(gpus) && UniqueTelemetryIds(readings) && Joins(gpus, readings)
    ensures Distinct(JoinMap(gpus, readings)) <==> !Contested(gpus, readings)
  {
    var p := JoinMap(gpus, readings);
    if Contested(gpus, readings) {
      var i, j :| 0 <= i < |gpus| && 0 <= j < |gpus| && i < |readings| &&
        gpus[i].stableId.None? && gpus[j].stableId.Some? && readings[i].stableId == gpus[j].stableId;
      assert p[i] == i;
      assert readings[p[j]].stableId == gpus[j].stableId;
      assert p[j] == i;
      assert i != j;
    } else {
      forall i, j | 0 <= i < j < |p|
        ensures p[i] != p[j]
      {
        if gpus[i].stableId.Some? && gpus[j].stableId.Some? {
          assert readings[p[i]].stableId == gpus[i].stableId && readings[p[j]].stableId == gpus[j].stableId;
        }
      }
    }
  }

  /** The readings as they appear on the merged node. */
  function Joined(gpus: seq<GpuInventory>, readings: seq<GpuTelemetry>): seq<GpuTelemetry>
    requires Joins(gpus, readings)
  {
    Pick(readings, JoinMap(gpus, readings))
  }

  function Available(g: GpuTelemetry): nat {
    g.availableVram
  }

  /** Uncontested readings all appear, each once, so the node's free memory is the reported one. */
  lemma JoinConserves(gpus: seq<GpuInventory>, readings: seq<GpuTelemetry>)
    requires UniqueInventoryIds(gpus) && UniqueTelemetryIds(readings) && Joins(gpus, readings)
        && !Contested(gpus, readings)
    ensures multiset(Joined(gpus, readings)) == multiset(readings)
    ensures Sum(Available, Joined(gpus, readings)) == Sum(Available, readings)
  {
    JoinInjectiveIffUncontested(gpus, readings);
    PickAll(readings, JoinMap(gpus, readings));
    SumPermuted(Available, Joined(gpus, readings), readings);
  }

  /** With ids on every GPU, or on none, nothing is ever contested. */
  lemma UniformIdsUncontested(gpus: seq<GpuInventory>, readings: seq<GpuTelemetry>)
    requires (forall i :: 0 <= i < |gpus| ==> gpus[i].stableId.Some?)
        || (forall i :: 0 <= i < |gpus| ==> gpus[i].stableId.None?)
    ensures !Contested(gpus, readings)
  {
  }

  function MixedGpus(vendor: GpuVendor): seq<GpuInventory> {
    [GpuInventory(vendor, "m", 8, Some("A"), None), GpuInventory(vendor, "m", 8, None, None)]
  }

  const MIXED_READINGS: seq<GpuTelemetry> :=
    [GpuTelemetry(0, true, None, None, None), GpuTelemetry(8, true, Some("A"), None, None)]

  /** An identified and a positional device that both get the second reading. */
  lemma MixedJoin(vendor: GpuVendor)
    ensures forall i :: 0 <= i < 2 ==> GoodGpu(MixedGpus(vendor)[i]) && GoodGpuReading(MIXED_READINGS[i])
    ensures UniqueInventoryIds(MixedGpus(vendor)) && UniqueTelemetryIds(MIXED_READINGS)
    ensures Joins(MixedGpus(vendor), MIXED_READINGS)
    ensures Joined(MixedGpus(vendor), MIXED_READINGS) == [MIXED_READINGS[1], MIXED_READINGS[1]]
  {
    var gpus, readings := MixedGpus(vendor), MIXED_READINGS;
    ShortTexts();
    assert FirstWithId(readings, "A", 1) == Some(1);
    assert JoinAt(readings, 0, gpus[0]) == Some(1) && JoinAt(readings, 1, gpus[1]) == Some(1);
  }

  lemma ShortTexts()
    ensures GoodText("m", 128) && GoodText("m", 512) && GoodText("A", 256)
  {
    assert "m"[0] in "m" && "A"[0] in "A";
  }

  // ---------------------------------------------------------------- splitting and merging

  function ConfigOf(node: Node): NodeConfig {
    NodeConfig(node.name, node.enabled, node.priority, node.labels, Active, DEFAULT_CAPACITY)
  }

  function InventoryOf(node: Node): NodeInventory {
    NodeInventory(
      node.transport, node.os, node.arch, node.capabilities,
      node.resources.logicalCpuCores, node.resources.memory, node.resources.disk,
      seq(|node.resources.gpus|, i requires 0 <= i < |node.resources.gpus| =>
        GpuInventory(node.resources.gpus[i].vendor, node.resources.gpus[i].model, node.resources.gpus[i].totalVram,
            None, None)),
      "unknown", map[], "unknown", PROTOCOL_VERSION, DEFAULT_CONTAINMENT)
  }

  function TelemetryOf(node: Node, fallbackObservedAt: int): NodeTelemetry {
    NodeTelemetry(
      node.status, node.resources.availableCpuCores, node.resources.availableMemory, node.resources.availableDisk,
      seq(|node.resources.gpus|, i requires 0 <= i < |node.resources.gpus| =>
        GpuTelemetry(node.resources.gpus[i].availableVram, node.resources.gpus[i].allocatable, None, None, None)),
      node.load, node.cachedSources, if node.lastSeenAt.Some? then node.lastSeenAt.value else fallbackObservedAt,
      0, NIL, 0, node.load.cpuPercent, [], UnknownPower, None, None, None)
  }

  datatype Availability = IsAvailable | IsDegraded | IsDraining | IsDisabled | IsOffline | IsStale

  /** Spans in nanoseconds; a freshness limit beyond chrono's range is cut to its maximum. */
  const LONGEST_SPAN: int := 0x7FFF_FFFF_FFFF_FFFF * 1_000_000

  predicate Stale(receivedAt: int, now: int, ttl: nat) {
    now - receivedAt > (if ttl > LONGEST_SPAN then LONGEST_SPAN else ttl)
  }

  function Derive(config: NodeConfig, telemetry: NodeTelemetry, receivedAt: int, now: int, ttl: nat): Availability {
    if !config.enabled then IsDisabled
    else if config.desiredState == DesiredDraining then IsDraining
    else if Stale(receivedAt, now, ttl) then IsStale
    else
      match telemetry.status
      case Online => IsAvailable
      case Degraded => IsDegraded
      case Draining => IsDraining
      case Offline => IsOffline
  }

  datatype MergeView = MergeView(
    id: Uuid, config: NodeConfig, inventory: NodeInventory, telemetry: NodeTelemetry, receivedAt: int,
        availability: Availability)

  datatype StateError = NilNodeId | InvalidConfig | InvalidInventory | InvalidTelemetry

  datatype Result<T> = Ok(value: T) | Err(error: StateError)

  function Check(config: NodeConfig, inventory: NodeInventory, telemetry: NodeTelemetry): (r: Result<()>)
    ensures r.Ok? <==> ValidConfig(config) && ValidInventory(inventory) && ValidTelemetry(telemetry, inventory)
    ensures r.Err? ==>
      match r.error
      case InvalidConfig => !ValidConfig(config)
      case InvalidInventory => !ValidInventory(inventory)
      case InvalidTelemetry => !ValidTelemetry(telemetry, inventory)
      case NilNodeId => false
  {
    if !ValidConfig(config) then Err(InvalidConfig)
    else if !ValidInventory(inventory) then Err(InvalidInventory)
    else if !ValidTelemetry(telemetry, inventory) then Err(InvalidTelemetry)
    else Ok(())
  }

  function Merge(id: Uuid, config: NodeConfig, inventory: NodeInventory, telemetry: NodeTelemetry,
                 receivedAt: int, now: int, ttl: nat): (r: Result<MergeView>)
    ensures r == Err(NilNodeId) <==> id == NIL
    ensures r.Ok? <==> id != NIL && Check(config, inventory, telemetry).Ok?
  {
    if id == NIL then Err(NilNodeId)
    else if Check(config, inventory, telemetry).Err? then Err(Check(config, inventory, telemetry).error)
    else Ok(MergeView(id, config, inventory, telemetry, receivedAt, Derive(config, telemetry, receivedAt, now, ttl)))
  }

  function Device(gpu: GpuInventory, reading: GpuTelemetry): GpuDevice {
    GpuDevice(gpu.vendor, gpu.model, gpu.totalVram, reading.availableVram, reading.allocatable)
  }

  function StatusOf(view: MergeView): NodeStatus {
    match view.availability
    case IsAvailable => Online
    case IsDegraded => Degraded
    case IsDraining => Draining
    case IsDisabled => view.telemetry.status
    case IsOffline => Offline
    case IsStale => Offline
  }

  /** Every accepted pair can be joined, so the lookup in here never fails. */
  function ToNode(view: MergeView): (r: Result<Node>)
    ensures r.Ok? ==>
              && |r.value.resources.gpus| == |view.inventory.gpus|
              && forall i :: 0 <= i < |r.value.resources.gpus| ==>
                   r.value.resources.gpus[i].availableVram <= r.value.resources.gpus[i].totalVram
  {
    var checked := Check(view.config, view.inventory, view.telemetry);
    if checked.Err? then Err(checked.error)
    else
      var v, t := view.inventory, view.telemetry;
      var devices := seq(|v.gpus|,
          i requires 0 <= i < |v.gpus| => Device(v.gpus[i], t.gpus[JoinAt(t.gpus, i, v.gpus[i]).value]));
      Ok(Node(
        view.id, view.config.name, view.config.enabled, v.transport, v.os, v.arch, StatusOf(view), v.capabilities,
        NodeResources(v.logicalCpuCores, t.availableCpuCores, v.memory, t.availableMemory, v.disk, t.availableDisk,
            devices),
        t.load, view.config.priority, view.config.labels, t.cachedSources, Some(view.receivedAt)))
  }

  function FreeVram(g: GpuDevice): nat {
    g.availableVram
  }

  /** The scheduler sees exactly the free GPU memory the worker reported, whatever the order of the readings. */
  lemma NodeConservesVram(view: MergeView)
    requires ToNode(view).Ok? && !Contested(view.inventory.gpus, view.telemetry.gpus)
    ensures Sum(FreeVram, ToNode(view).value.resources.gpus) == Sum(Available, view.telemetry.gpus)
  {
    hide ValidConfig, ValidHostile, GoodGpu, GoodGpuReading, UniqueRuns;
    var gpus, readings := view.inventory.gpus, view.telemetry.gpus;
    JoinConserves(gpus, readings);
    NodeSum(view);
  }

  /** The node's free memory is that of the joined readings, contested or not. */
  lemma NodeSum(view: MergeView)
    requires ToNode(view).Ok?
    ensures Joins(view.inventory.gpus, view.telemetry.gpus)
    ensures Sum(FreeVram, ToNode(view).value.resources.gpus) ==
        Sum(Available, Joined(view.inventory.gpus, view.telemetry.gpus))
  {
    hide ValidConfig, ValidInventory, ValidShape;
    SameSums(ToNode(view).value.resources.gpus, Joined(view.inventory.gpus, view.telemetry.gpus));
  }

  const MIXED_CONFIG: NodeConfig := NodeConfig("m", true, 0, map[], Active, DEFAULT_CAPACITY)

  function MixedInventory(vendor: GpuVendor): NodeInventory {
    NodeInventory(Local, Linux, X86_64, {}, 1, 1, 1, MixedGpus(vendor), "m", map[], "m", PROTOCOL_VERSION,
                  DEFAULT_CONTAINMENT.(version := "m"))
  }

  const MIXED_TELEMETRY: NodeTelemetry :=
    NodeTelemetry(Online, 1, 1, 1, MIXED_READINGS, NodeLoad(0, 0, 0), {}, 0, 0, NIL, 0, 0, [], UnknownPower, None,
        None, None)

  lemma MixedDocumentsAccepted(vendor: GpuVendor)
    ensures Check(MIXED_CONFIG, MixedInventory(vendor), MIXED_TELEMETRY).Ok?
  {
    hide GoodGpu, GoodGpuReading, UniqueInventoryIds, UniqueTelemetryIds, Joins, GoodText;
    ShortTexts();
    MixedJoin(vendor);
  }

  /** Whole documents with mixed ids that are accepted, and whose merged node has twice the reported free memory. */
  lemma MixedIdsCountTwice(vendor: GpuVendor, id: Uuid, receivedAt: int)
    requires id != NIL
    ensures
      var merged := Merge(id, MIXED_CONFIG, MixedInventory(vendor), MIXED_TELEMETRY, receivedAt, receivedAt, 0);
      && merged.Ok? && ToNode(merged.value).Ok?
      && Sum(FreeVram, ToNode(merged.value).value.resources.gpus) == 2 * Sum(Available, MIXED_READINGS) == 16
  {
    hide Check, ToNode, Joins, Joined, MixedGpus, Sum;
    MixedDocumentsAccepted(vendor);
    MixedJoin(vendor);
    MixedSums();
    var merged := Merge(id, MIXED_CONFIG, MixedInventory(vendor), MIXED_TELEMETRY, receivedAt, receivedAt, 0).value;
    Converts(merged);
    NodeSum(merged);
  }

  lemma Converts(view: MergeView)
    requires Check(view.config, view.inventory, view.telemetry).Ok?
    ensures ToNode(view).Ok?
  {
    hide Check;
  }

  lemma MixedSums()
    ensures Sum(Available, [MIXED_READINGS[1], MIXED_READINGS[1]]) == 16 && Sum(Available, MIXED_READINGS) == 8
  {
    assert [MIXED_READINGS[1], MIXED_READINGS[1]][1..] == [MIXED_READINGS[1]]
        && MIXED_READINGS[1..] == [MIXED_READINGS[1]];
    assert Sum(Available, [MIXED_READINGS[1]]) == 8;
  }

  lemma {:induction false} SameSums(devices: seq<GpuDevice>, readings: seq<GpuTelemetry>)
    requires |devices| == |readings| && forall i :: 0 <= i < |devices| ==>
        devices[i].availableVram == readings[i].availableVram
    ensures Sum(FreeVram, devices) == Sum(Available, readings)
  {
    if devices == [] {
    } else {
      SameSums(devices[1..], readings[1..]);
    }
  }

  /**
   Splitting a node, merging the parts and converting back returns the node, except that
   it was last seen when the report arrived and is offline if it is enabled and stale.
   */
  lemma SplitMergeRoundTrip(node: Node, fallback: int, receivedAt: int, now: int, ttl: nat)
    requires node.id != NIL
    requires Check(ConfigOf(node), InventoryOf(node), TelemetryOf(node, fallback)).Ok?
    ensures
      var merged := Merge(node.id, ConfigOf(node), InventoryOf(node), TelemetryOf(node, fallback), receivedAt, now,
          ttl);
      && merged.Ok?
      && ToNode(merged.value) ==
           Ok(node.(lastSeenAt := Some(receivedAt),
                    status := if node.enabled && Stale(receivedAt, now, ttl) then Offline else node.status))
  {
    hide ValidConfig, ValidInventory, ValidShape;
    var v, t := InventoryOf(node), TelemetryOf(node, fallback);
    var view := MergeView(node.id, ConfigOf(node), v, t, receivedAt, Derive(ConfigOf(node), t, receivedAt, now, ttl));
    assert forall i :: 0 <= i < |v.gpus| ==> JoinAt(t.gpus, i, v.gpus[i]) == Some(i);
    assert ToNode(view).value.resources.gpus == node.resources.gpus;
  }

  /**
   The status the scheduler sees: a disabled node as it reports itself, an enabled one as
   draining whenever its operator wants that, offline once its report is older than the
   freshness limit, and otherwise as reported.
   */
  lemma StatusExact(id: Uuid, config: NodeConfig, inventory: NodeInventory, telemetry: NodeTelemetry,
                    receivedAt: int, now: int, ttl: nat)
    requires id != NIL && Check(config, inventory, telemetry).Ok?
    ensures
      var merged := Merge(id, config, inventory, telemetry, receivedAt, now, ttl);
      && merged.Ok? && ToNode(merged.value).Ok?
      && var status := ToNode(merged.value).value.status;
         && (!config.enabled ==> status == telemetry.status)
         && (config.enabled && config.desiredState == DesiredDraining ==> status == Draining)
         && (config.enabled && config.desiredState == Active && ttl <= LONGEST_SPAN ==>
               status == if now - receivedAt > ttl then Offline else telemetry.status)
  {
    hide Check;
    var merged := Merge(id, config, inventory, telemetry, receivedAt, now, ttl).value;
    Converts(merged);
    StatusKept(merged);
  }

  lemma StatusKept(view: MergeView)
    requires ToNode(view).Ok?
    ensures ToNode(view).value.status == StatusOf(view)
  {
    hide ValidConfig, ValidInventory, ValidTelemetry;
  }

  /** Without a newer report a stale node stays stale; a drained or disabled one is never called stale. */
  lemma StaleStaysStale(config: NodeConfig, telemetry: NodeTelemetry, receivedAt: int, now: int, later: int, ttl: nat)
    requires now <= later && Derive(config, telemetry, receivedAt, now, ttl).IsStale?
    ensures Derive(config, telemetry, receivedAt, later, ttl).IsStale?
    ensures forall t :: Derive(config, telemetry, receivedAt, t, ttl).IsStale? <==> Stale(receivedAt, t, ttl)
  {
  }
}
