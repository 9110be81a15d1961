/**
 Job documents: the fields of a job, how serde writes them, and the identity of a job --
 the hash of its normalized document in canonical text.
 */
module Jobs {
  import opened Text
  import opened Utf8
  import opened Uuids
  import opened CanonicalJson
  import opened ResourceKeys
  import opened Documents

  datatype OperatingSystem = Windows | Linux | Macos
  datatype Architecture = X86_64 | Aarch64
  datatype GpuVendor = Nvidia | Amd | Intel | Apple
  datatype JobKind = ShellJob | BuildJob | TestJob | LintJob | ContainerJob | GpuJob | BatchJob
  datatype Shell = Powershell | Bash | Zsh | Cmd
  datatype PlacementPolicy = Balanced | Performance | Manual

  datatype JobOrigin = JobOrigin(codexSessionId: Option<string>, projectId: Option<string>, workspaceId: Option<string>)

  datatype SourceSpec =
    | Git(repository: string, revision: string)
    | Snapshot(digest: string, sizeBytes: Option<u64>)

  datatype GpuRequirement = GpuRequirement(vendor: Option<GpuVendor>, minVramMib: Option<u64>, exclusive: bool)

  datatype JobRequirements = JobRequirements(
    os: Option<OperatingSystem>,
    arch: Option<Architecture>,
    capabilities: set<string>,
    minCpuCores: Option<u32>,
    minMemoryMib: Option<u64>,
    minDiskMib: Option<u64>,
    gpu: Option<GpuRequirement>)

  datatype GpuResourceRequest = GpuResourceRequest(
    deviceId: Option<string>,
    vendor: Option<GpuVendor>,
    vramMib: u64,
    exclusive: bool)

  datatype ResourceRequest = ResourceRequest(
    slots: u32,
    cpuCores: u32,
    memoryMib: u64,
    diskMib: u64,
    gpu: Option<GpuResourceRequest>)

  datatype JobStep = JobStep(
    name: string,
    shell: Option<Shell>,
    script: string,
    workingDirectory: Option<string>,
    timeoutSeconds: Option<u64>)

  datatype ArtifactSpec = ArtifactSpec(include_: seq<string>, exclude: seq<string>, retentionDays: Option<u32>)

  datatype JobSpec = JobSpec(
    apiVersion: string,
    id: Uuid,
    origin: Option<JobOrigin>,
    kind: JobKind,
    source: SourceSpec,
    requirements: JobRequirements,
    resourceRequest: Option<ResourceRequest>,
    steps: seq<JobStep>,
    artifacts: ArtifactSpec,
    timeoutSeconds: Option<u64>,
    placementPolicy: PlacementPolicy,
    preferredNodeId: Option<Uuid>)

  /** Scheduler-equivalent defaults, applied before a job is hashed. */
  function Normalize(job: JobSpec): JobSpec {
    if job.requirements.minCpuCores.None?
    then job.(requirements := job.requirements.(minCpuCores := Some(1)))
    else job
  }

  // ---------------------------------------------------------------- names on the wire

  function OsName(os: OperatingSystem): string {
    match os case Windows => "windows" case Linux => "linux" case Macos => "macos"
  }

  function ArchName(arch: Architecture): string {
    match arch case X86_64 => "x86_64" case Aarch64 => "aarch64"
  }

  function VendorName(vendor: GpuVendor): string {
    match vendor case Nvidia => "nvidia" case Amd => "amd" case Intel => "intel" case Apple => "apple"
  }

  function KindName(kind: JobKind): string {
    match kind
    case ShellJob => "shell" case BuildJob => "build" case TestJob => "test" case LintJob => "lint"
    case ContainerJob => "container" case GpuJob => "gpu" case BatchJob => "batch"
  }

  function ShellName(shell: Shell): string {
    match shell case Powershell => "powershell" case Bash => "bash" case Zsh => "zsh" case Cmd => "cmd"
  }

  function PolicyName(policy: PlacementPolicy): string {
    match policy case Balanced => "balanced" case Performance => "performance" case Manual => "manual"
  }

  // ---------------------------------------------------------------- documents

  /** The wire spelling of resource-unit keys: preview.100 wrote `Mib`, now `MiB`. */
  datatype Spelling = Preview100 | Current

  function MaybeText(o: Option<string>): Option<Json> {
    if o.None? then None else Some(Str(o.value))
  }

  function MaybeNum(o: Option<nat>): Option<Json> {
    if o.None? then None else Some(Num(o.value))
  }

  function Texts(ss: seq<string>): Json {
    Arr(seq(|ss|, i requires 0 <= i < |ss| => Str(ss[i])))
  }

  function MaybeVendor(o: Option<GpuVendor>): Option<Json> {
    if o.None? then None else Some(Str(VendorName(o.value)))
  }

  const ORIGIN_KEYS: seq<string> := ["codexSessionId", "projectId", "workspaceId"]

  function OriginValues(o: JobOrigin): seq<Option<Json>> {
    [MaybeText(o.codexSessionId), MaybeText(o.projectId), MaybeText(o.workspaceId)]
  }

  function EncodeOrigin(o: JobOrigin): Json {
    Struct(ORIGIN_KEYS, OriginValues(o))
  }

  const GIT_KEYS: seq<string> := ["repository", "revision", "type"]
  const SNAPSHOT_KEYS: seq<string> := ["digest", "sizeBytes", "type"]

  function SourceKeys(source: SourceSpec): seq<string> {
    if source.Git? then GIT_KEYS else SNAPSHOT_KEYS
  }

  function SourceValues(source: SourceSpec): seq<Option<Json>> {
    match source
    case Git(repository, revision) => [Some(Str(repository)), Some(Str(revision)), Some(Str("git"))]
    case Snapshot(digest, sizeBytes) => [Some(Str(digest)), MaybeNum(sizeBytes), Some(Str("snapshot"))]
  }

  function EncodeSource(source: SourceSpec): Json {
    Struct(SourceKeys(source), SourceValues(source))
  }

  function GpuRequirementKeys(sp: Spelling): seq<string> {
    if sp.Current? then ["exclusive", "minVramMiB", "vendor"] else ["exclusive", "minVramMib", "vendor"]
  }

  function GpuRequirementValues(g: GpuRequirement): seq<Option<Json>> {
    [Some(Bool(g.exclusive)), MaybeNum(g.minVramMib), MaybeVendor(g.vendor)]
  }

  function EncodeGpuRequirement(g: GpuRequirement, sp: Spelling): Json {
    Struct(GpuRequirementKeys(sp), GpuRequirementValues(g))
  }

  function RequirementKeys(sp: Spelling): (keys: seq<string>)
    ensures |keys| == 7
  {
    if sp.Current? then ["arch", "capabilities", "gpu", "minCpuCores", "minDiskMiB", "minMemoryMiB", "os"]
    else ["arch", "capabilities", "gpu", "minCpuCores", "minDiskMib", "minMemoryMib", "os"]
  }

  function RequirementValues(r: JobRequirements, sp: Spelling): (values: seq<Option<Json>>)
    ensures |values| == 7
  {
    [if r.arch.None? then None else Some(Str(ArchName(r.arch.value))),
     Some(Texts(Sorted(r.capabilities))),
     if r.gpu.None? then None else Some(EncodeGpuRequirement(r.gpu.value, sp)),
     MaybeNum(r.minCpuCores),
     MaybeNum(r.minDiskMib),
     MaybeNum(r.minMemoryMib),
     if r.os.None? then None else Some(Str(OsName(r.os.value)))]
  }

  function EncodeRequirements(r: JobRequirements, sp: Spelling): Json {
    Struct(RequirementKeys(sp), RequirementValues(r, sp))
  }

  function GpuRequestKeys(sp: Spelling): seq<string> {
    if sp.Current? then ["deviceId", "exclusive", "vendor", "vramMiB"]
        else ["deviceId", "exclusive", "vendor", "vramMib"]
  }

  function GpuRequestValues(g: GpuResourceRequest): seq<Option<Json>> {
    [MaybeText(g.deviceId), Some(Bool(g.exclusive)), MaybeVendor(g.vendor), Some(Num(g.vramMib))]
  }

  function EncodeGpuRequest(g: GpuResourceRequest, sp: Spelling): Json {
    Struct(GpuRequestKeys(sp), GpuRequestValues(g))
  }

  function RequestKeys(sp: Spelling): seq<string> {
    if sp.Current? then ["cpuCores", "diskMiB", "gpu", "memoryMiB", "slots"]
    else ["cpuCores", "diskMib", "gpu", "memoryMib", "slots"]
  }

  function RequestValues(r: ResourceRequest, sp: Spelling): seq<Option<Json>> {
    [Some(Num(r.cpuCores)), Some(Num(r.diskMib)),
     if r.gpu.None? then None else Some(EncodeGpuRequest(r.gpu.value, sp)),
     Some(Num(r.memoryMib)), Some(Num(r.slots))]
  }

  function EncodeRequest(r: ResourceRequest, sp: Spelling): Json {
    Struct(RequestKeys(sp), RequestValues(r, sp))
  }

  const STEP_KEYS: seq<string> := ["name", "script", "shell", "timeoutSeconds", "workingDirectory"]

  function StepValues(s: JobStep): seq<Option<Json>> {
    [Some(Str(s.name)), Some(Str(s.script)),
     if s.shell.None? then None else Some(Str(ShellName(s.shell.value))),
     MaybeNum(s.timeoutSeconds), MaybeText(s.workingDirectory)]
  }

  function EncodeStep(s: JobStep): Json {
    Struct(STEP_KEYS, StepValues(s))
  }

  function EncodeSteps(steps: seq<JobStep>): Json {
    Arr(seq(|steps|, i requires 0 <= i < |steps| => EncodeStep(steps[i])))
  }

  const ARTIFACT_KEYS: seq<string> := ["exclude", "include", "retentionDays"]

  function ArtifactValues(a: ArtifactSpec): seq<Option<Json>> {
    [Some(Texts(a.exclude)), Some(Texts(a.include_)), MaybeNum(a.retentionDays)]
  }

  function EncodeArtifacts(a: ArtifactSpec): Json {
    Struct(ARTIFACT_KEYS, ArtifactValues(a))
  }

  const JOB_KEYS_HEAD: seq<string> := ["apiVersion", "artifacts", "id", "kind", "origin", "placementPolicy"]
  const JOB_KEYS_TAIL: seq<string> := ["preferredNodeId", "requirements", "resourceRequest", "source", "steps",
      "timeoutSeconds"]

  function JobKeys(): (keys: seq<string>)
    ensures |keys| == 12
  {
    JOB_KEYS_HEAD + JOB_KEYS_TAIL
  }

  function JobValues(j: JobSpec, sp: Spelling): (values: seq<Option<Json>>)
    ensures |values| == 12
  {
    [Some(Str(j.apiVersion)),
     Some(EncodeArtifacts(j.artifacts)),
     Some(Str(Uuids.Print(j.id))),
     Some(Str(KindName(j.kind))),
     if j.origin.None? then None else Some(EncodeOrigin(j.origin.value)),
     Some(Str(PolicyName(j.placementPolicy))),
     if j.preferredNodeId.None? then None else Some(Str(Uuids.Print(j.preferredNodeId.value))),
     Some(EncodeRequirements(j.requirements, sp)),
     if j.resourceRequest.None? then None else Some(EncodeRequest(j.resourceRequest.value, sp)),
     Some(EncodeSource(j.source)),
     Some(EncodeSteps(j.steps)),
     MaybeNum(j.timeoutSeconds)]
  }

  /** The document of a job, as `serde_json::to_value` builds it. */
  function EncodeJob(j: JobSpec, sp: Spelling): Json {
    Struct(JobKeys(), JobValues(j, sp))
  }

  // ---------------------------------------------------------------- key order and spelling

  lemma OriginKeyFacts()
    ensures SpelledOlder(ORIGIN_KEYS, ORIGIN_KEYS)
  {
    assert SpelledOlder(["codexSessionId", "projectId", "workspaceId"],
                        ["codexSessionId", "projectId", "workspaceId"]);
  }

  lemma GitKeyFacts()
    ensures SpelledOlder(GIT_KEYS, GIT_KEYS)
  {
    assert SpelledOlder(["repository", "revision", "type"],
                        ["repository", "revision", "type"]);
  }

  lemma SnapshotKeyFacts()
    ensures SpelledOlder(SNAPSHOT_KEYS, SNAPSHOT_KEYS)
  {
    assert SpelledOlder(["digest", "sizeBytes", "type"],
                        ["digest", "sizeBytes", "type"]);
  }

  lemma StepKeyFacts()
    ensures SpelledOlder(STEP_KEYS, STEP_KEYS)
  {
    assert SpelledOlder(["name", "script", "shell", "timeoutSeconds", "workingDirectory"],
                        ["name", "script", "shell", "timeoutSeconds", "workingDirectory"]);
  }

  lemma ArtifactKeyFacts()
    ensures SpelledOlder(ARTIFACT_KEYS, ARTIFACT_KEYS)
  {
    assert SpelledOlder(["exclude", "include", "retentionDays"],
                        ["exclude", "include", "retentionDays"]);
  }

  lemma GpuRequirementKeyFacts()
    ensures SpelledOlder(GpuRequirementKeys(Current), GpuRequirementKeys(Preview100))
  {
    assert SpelledOlder(["exclusive", "minVramMiB", "vendor"],
                        ["exclusive", "minVramMib", "vendor"]);
  }

  lemma RequirementKeyFacts()
    ensures SpelledOlder(RequirementKeys(Current), RequirementKeys(Preview100))
        && Ascending(RequirementKeys(Preview100))
  {
    RequirementKeysInOrder();
    RequirementKeysRenamed();
    InOrderIsAscending(RequirementKeys(Preview100));
  }

  lemma RequirementKeysInOrder()
    ensures InOrder(RequirementKeys(Current)) && InOrder(RequirementKeys(Preview100))
  {
    CurrentRequirementKeysInOrder();
    OlderRequirementKeysInOrder();
  }

  lemma CurrentRequirementKeysInOrder()
    ensures InOrder(RequirementKeys(Current))
  {
    assert Less("minCpuCores", "minDiskMiB") && Less("minDiskMiB", "minMemoryMiB");
    assert InOrder(["minCpuCores", "minDiskMiB", "minMemoryMiB", "os"]);
    assert InOrder(["arch", "capabilities", "gpu", "minCpuCores", "minDiskMiB", "minMemoryMiB", "os"]);
  }

  lemma OlderRequirementKeysInOrder()
    ensures InOrder(RequirementKeys(Preview100))
  {
    assert Less("minCpuCores", "minDiskMib") && Less("minDiskMib", "minMemoryMib");
    assert InOrder(["minCpuCores", "minDiskMib", "minMemoryMib", "os"]);
    assert InOrder(["arch", "capabilities", "gpu", "minCpuCores", "minDiskMib", "minMemoryMib", "os"]);
  }

  lemma RequirementKeysRenamed()
    ensures EachRenamed(RequirementKeys(Current), RequirementKeys(Preview100))
  {
    assert EachRenamed(["arch", "capabilities", "gpu", "minCpuCores", "minDiskMiB", "minMemoryMiB", "os"],
                       ["arch", "capabilities", "gpu", "minCpuCores", "minDiskMib", "minMemoryMib", "os"]);
  }

  lemma GpuRequestKeyFacts()
    ensures SpelledOlder(GpuRequestKeys(Current), GpuRequestKeys(Preview100))
  {
    assert SpelledOlder(["deviceId", "exclusive", "vendor", "vramMiB"],
                        ["deviceId", "exclusive", "vendor", "vramMib"]);
  }

  lemma RequestKeyFacts()
    ensures SpelledOlder(RequestKeys(Current), RequestKeys(Preview100))
  {
    assert SpelledOlder(["cpuCores", "diskMiB", "gpu", "memoryMiB", "slots"],
                        ["cpuCores", "diskMib", "gpu", "memoryMib", "slots"]);
  }

  lemma JobKeyFacts()
    ensures SpelledOlder(JobKeys(), JobKeys()) && Ascending(JobKeys())
  {
    JobKeysHeadFacts();
    JobKeysTailFacts();
    assert Less("placementPolicy", "preferredNodeId");
    SpelledOlderAppend(JOB_KEYS_HEAD, JOB_KEYS_HEAD, JOB_KEYS_TAIL, JOB_KEYS_TAIL);
    InOrderIsAscending(JobKeys());
  }

  lemma JobKeysHeadFacts()
    ensures SpelledOlder(JOB_KEYS_HEAD, JOB_KEYS_HEAD)
  {
    assert SpelledOlder(["apiVersion", "artifacts", "id", "kind", "origin", "placementPolicy"],
                        ["apiVersion", "artifacts", "id", "kind", "origin", "placementPolicy"]);
  }

  lemma JobKeysTailFacts()
    ensures SpelledOlder(JOB_KEYS_TAIL, JOB_KEYS_TAIL)
  {
    assert SpelledOlder(["preferredNodeId", "requirements", "resourceRequest", "source", "steps", "timeoutSeconds"],
                        ["preferredNodeId", "requirements", "resourceRequest", "source", "steps", "timeoutSeconds"]);
  }

  // ---------------------------------------------------------------- documents determine jobs

  // ---------------------------------------------------------------- the spelling migration

  lemma TextsProject(ss: seq<string>)
    ensures Project(Texts(ss)) == Texts(ss)
  {
    assert ProjectItems(Texts(ss).items) == Texts(ss).items;
  }

  lemma ScalarStructProject(keys: seq<string>, values: seq<Option<Json>>)
    requires SpelledOlder(keys, keys) && |keys| == |values|
    requires forall i :: 0 <= i < |values| ==> ProjectValue(values[i]) == values[i]
    ensures Project(Struct(keys, values)) == Struct(keys, values)
  {
    StructProject(keys, keys, values, values);
  }

  lemma OriginProject(o: JobOrigin)
    ensures Project(EncodeOrigin(o)) == EncodeOrigin(o)
  {
    OriginKeyFacts();
    ScalarStructProject(ORIGIN_KEYS, OriginValues(o));
  }

  lemma SourceProject(source: SourceSpec)
    ensures Project(EncodeSource(source)) == EncodeSource(source)
  {
    GitKeyFacts();
    SnapshotKeyFacts();
    ScalarStructProject(SourceKeys(source), SourceValues(source));
  }

  lemma GpuRequirementProject(g: GpuRequirement)
    ensures Project(EncodeGpuRequirement(g, Current)) == EncodeGpuRequirement(g, Preview100)
  {
    GpuRequirementKeyFacts();
    StructProject(GpuRequirementKeys(Current), GpuRequirementKeys(Preview100), GpuRequirementValues(g),
        GpuRequirementValues(g));
  }

  lemma RequirementsProject(r: JobRequirements)
    ensures Project(EncodeRequirements(r, Current)) == EncodeRequirements(r, Preview100)
  {
    hide SpelledOlder, Struct, Project;
    RequirementKeyFacts();
    RequirementValuesProject(r);
    StructProject(RequirementKeys(Current), RequirementKeys(Preview100),
                  RequirementValues(r, Current), RequirementValues(r, Preview100));
  }

  lemma RequirementValuesProject(r: JobRequirements)
    ensures forall i :: 0 <= i < 7 ==>
        ProjectValue(RequirementValues(r, Current)[i]) == RequirementValues(r, Preview100)[i]
  {
    hide EncodeGpuRequirement, ArchName, OsName, Texts, Sorted;
    TextsProject(Sorted(r.capabilities));
    if r.gpu.Some? {
      GpuRequirementProject(r.gpu.value);
    }
  }

  lemma GpuRequestProject(g: GpuResourceRequest)
    ensures Project(EncodeGpuRequest(g, Current)) == EncodeGpuRequest(g, Preview100)
  {
    GpuRequestKeyFacts();
    StructProject(GpuRequestKeys(Current), GpuRequestKeys(Preview100), GpuRequestValues(g), GpuRequestValues(g));
  }

  lemma RequestProject(r: ResourceRequest)
    ensures Project(EncodeRequest(r, Current)) == EncodeRequest(r, Preview100)
  {
    RequestKeyFacts();
    if r.gpu.Some? {
      GpuRequestProject(r.gpu.value);
    }
    StructProject(RequestKeys(Current), RequestKeys(Preview100), RequestValues(r, Current),
        RequestValues(r, Preview100));
  }

  lemma StepsProject(steps: seq<JobStep>)
    ensures Project(EncodeSteps(steps)) == EncodeSteps(steps)
  {
    var items := EncodeSteps(steps).items;
    forall i | 0 <= i < |items|
      ensures Project(items[i]) == items[i]
    {
      StepKeyFacts();
      ScalarStructProject(STEP_KEYS, StepValues(steps[i]));
    }
    assert ProjectItems(items) == items;
  }

  lemma ArtifactsProject(a: ArtifactSpec)
    ensures Project(EncodeArtifacts(a)) == EncodeArtifacts(a)
  {
    ArtifactKeyFacts();
    TextsProject(a.exclude);
    TextsProject(a.include_);
    ScalarStructProject(ARTIFACT_KEYS, ArtifactValues(a));
  }

  lemma JobValuesProject(j: JobSpec)
    ensures forall i :: 0 <= i < 12 ==> ProjectValue(JobValues(j, Current)[i]) == JobValues(j, Preview100)[i]
  {
    hide EncodeArtifacts, EncodeOrigin, EncodeRequirements, EncodeRequest, EncodeSource, EncodeSteps;
    hide KindName, PolicyName, Uuids.Print;
    ArtifactsProject(j.artifacts);
    if j.origin.Some? {
      OriginProject(j.origin.value);
    }
    RequirementsProject(j.requirements);
    if j.resourceRequest.Some? {
      RequestProject(j.resourceRequest.value);
    }
    SourceProject(j.source);
    StepsProject(j.steps);
  }

  /** The projection of today's document is the document preview.100 wrote. */
  lemma JobProject(j: JobSpec)
    ensures Project(EncodeJob(j, Current)) == EncodeJob(j, Preview100)
  {
    JobKeyFacts();
    JobValuesProject(j);
    StructProject(JobKeys(), JobKeys(), JobValues(j, Current), JobValues(j, Preview100));
  }

  // ---------------------------------------------------------------- the identity of a job

  /** The bytes that are hashed. */
  ghost function CanonicalBytes(job: JobSpec): seq<byte> {
    Utf8.Encode(CanonicalText(Project(EncodeJob(Normalize(job), Current))))
  }

  /** The bytes preview.100 hashed: its own spelling, no projection. */
  ghost function Preview100Bytes(job: JobSpec): seq<byte> {
    Utf8.Encode(CanonicalText(EncodeJob(Normalize(job), Preview100)))
  }

  /** The spelling migration left every job's hashed bytes unchanged. */
  lemma MigrationKeepsBytes(job: JobSpec)
    ensures CanonicalBytes(job) == Preview100Bytes(job)
  {
    JobProject(Normalize(job));
  }

  /** Normalizing first makes no difference. */
  lemma NormalizeKeepsBytes(job: JobSpec)
    ensures CanonicalBytes(Normalize(job)) == CanonicalBytes(job)
  {
    assert Normalize(Normalize(job)) == Normalize(job);
  }

  /** `canonical_job_digest`, for any hash of the bytes. */
  method CanonicalJobDigest(job: JobSpec, sha256Hex: seq<byte> -> string) returns (digest: string)
    ensures digest == sha256Hex(CanonicalBytes(job))
  {
    var value := EncodeJob(Normalize(job), Current);
    value := ProjectInPlace(value);
    var canonical := new Output();
    WriteCanonical(value, canonical);
    assert "" + CanonicalText(value) == CanonicalText(value);
    digest := sha256Hex(Utf8.Encode(canonical.text));
  }
}
