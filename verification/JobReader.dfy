/**
 A reader of job documents, written from the wire names and types of the job structs: it
 looks members up by name. Reading back every written job fixes which value goes where,
 and reading the hashed bytes gives the job with its defaults filled in.
 */
module JobReader {
  import opened Text
  import opened Uuids
  import opened Jobs
  import opened CanonicalJson
  import opened Documents
  import ResourceKeys
  import JsonReader
  import Utf8

  datatype Parsed<+T> = Bad | Good(value: T) {
    predicate IsFailure() { Bad? }
    function PropagateFailure<U>(): Parsed<U> requires Bad? { Bad }
    function Extract(): T requires Good? { value }
  }

  // ---------------------------------------------------------------- members

  predicate Has(v: Json, key: string) {
    v.Obj? && key in v.fields
  }

  /** The object has no other members. */
  function Only(v: Json, keys: seq<string>): Parsed<()> {
    if v.Obj? && forall k :: k in v.fields ==> k in keys then Good(()) else Bad
  }

  function ReadStr(v: Json): Parsed<string> {
    if v.Str? then Good(v.s) else Bad
  }

  function ReadU32(v: Json): Parsed<u32> {
    if v.Num? && 0 <= v.n < 0x1_0000_0000 then Good(v.n) else Bad
  }

  function ReadU64(v: Json): Parsed<u64> {
    if v.Num? && 0 <= v.n < 0x1_0000_0000_0000_0000 then Good(v.n) else Bad
  }

  function ReadBool(v: Json): Parsed<bool> {
    if v.Bool? then Good(v.b) else Bad
  }

  function ReadAll<T>(f: Json -> Parsed<T>, items: seq<Json>): Parsed<seq<T>> {
    if items == [] then Good([])
    else
      var first :- f(items[0]);
      var rest :- ReadAll(f, items[1..]);
      Good([first] + rest)
  }

  function ReadArray<T>(f: Json -> Parsed<T>, v: Json): Parsed<seq<T>> {
    if v.Arr? then ReadAll(f, v.items) else Bad
  }

  function ReadTexts(v: Json): Parsed<seq<string>> {
    ReadArray(ReadStr, v)
  }

  function Required<T>(f: Json -> Parsed<T>, v: Json, key: string): Parsed<T> {
    if Has(v, key) then f(v.fields[key]) else Bad
  }

  function Optional<T>(f: Json -> Parsed<T>, v: Json, key: string): Parsed<Option<T>> {
    if !v.Obj? then Bad
    else if key !in v.fields then Good(None)
    else
      var x :- f(v.fields[key]);
      Good(Some(x))
  }

  // ---------------------------------------------------------------- the structs

  function ReadOs(v: Json): Parsed<OperatingSystem> {
    if v == Str("windows") then Good(Windows)
    else if v == Str("linux") then Good(Linux)
    else if v == Str("macos") then Good(Macos)
    else Bad
  }

  function ReadArch(v: Json): Parsed<Architecture> {
    if v == Str("x86_64") then Good(X86_64) else if v == Str("aarch64") then Good(Aarch64) else Bad
  }

  function ReadVendor(v: Json): Parsed<GpuVendor> {
    if v == Str("nvidia") then Good(Nvidia)
    else if v == Str("amd") then Good(Amd)
    else if v == Str("intel") then Good(Intel)
    else if v == Str("apple") then Good(Apple)
    else Bad
  }

  function ReadKind(v: Json): Parsed<JobKind> {
    if v == Str("shell") then Good(ShellJob)
    else if v == Str("build") then Good(BuildJob)
    else if v == Str("test") then Good(TestJob)
    else if v == Str("lint") then Good(LintJob)
    else if v == Str("container") then Good(ContainerJob)
    else if v == Str("gpu") then Good(GpuJob)
    else if v == Str("batch") then Good(BatchJob)
    else Bad
  }

  function ReadShell(v: Json): Parsed<Shell> {
    if v == Str("powershell") then Good(Powershell)
    else if v == Str("bash") then Good(Bash)
    else if v == Str("zsh") then Good(Zsh)
    else if v == Str("cmd") then Good(Cmd)
    else Bad
  }

  function ReadPolicy(v: Json): Parsed<PlacementPolicy> {
    if v == Str("balanced") then Good(Balanced)
    else if v == Str("performance") then Good(Performance)
    else if v == Str("manual") then Good(Manual)
    else Bad
  }

  function ReadId(v: Json): Parsed<Uuid> {
    var s :- ReadStr(v);
    var id := Uuids.Read(s);
    if id.Some? then Good(id.value) else Bad
  }

  function ReadOrigin(v: Json): Parsed<JobOrigin> {
    var _ :- Only(v, ["codexSessionId", "projectId", "workspaceId"]);
    var session :- Optional(ReadStr, v, "codexSessionId");
    var project :- Optional(ReadStr, v, "projectId");
    var workspace :- Optional(ReadStr, v, "workspaceId");
    Good(JobOrigin(session, project, workspace))
  }

  function ReadSource(v: Json): Parsed<SourceSpec> {
    var tag :- Required(ReadStr, v, "type");
    if tag == "git" then
      var _ :- Only(v, ["repository", "revision", "type"]);
      var repository :- Required(ReadStr, v, "repository");
      var revision :- Required(ReadStr, v, "revision");
      Good(Git(repository, revision))
    else if tag == "snapshot" then
      var _ :- Only(v, ["digest", "sizeBytes", "type"]);
      var digest :- Required(ReadStr, v, "digest");
      var size :- Optional(ReadU64, v, "sizeBytes");
      Good(Snapshot(digest, size))
    else Bad
  }

  function ReadGpuRequirement(v: Json): Parsed<GpuRequirement> {
    var _ :- Only(v, ["exclusive", "minVramMib", "vendor"]);
    var vendor :- Optional(ReadVendor, v, "vendor");
    var vram :- Optional(ReadU64, v, "minVramMib");
    var exclusive :- Required(ReadBool, v, "exclusive");
    Good(GpuRequirement(vendor, vram, exclusive))
  }

  function ReadRequirements(v: Json): Parsed<JobRequirements> {
    var _ :- Only(v, ["arch", "capabilities", "gpu", "minCpuCores", "minDiskMib", "minMemoryMib", "os"]);
    var os :- Optional(ReadOs, v, "os");
    var arch :- Optional(ReadArch, v, "arch");
    var capabilities :- Required(ReadTexts, v, "capabilities");
    var cores :- Optional(ReadU32, v, "minCpuCores");
    var memory :- Optional(ReadU64, v, "minMemoryMib");
    var disk :- Optional(ReadU64, v, "minDiskMib");
    var gpu :- Optional(ReadGpuRequirement, v, "gpu");
    if Ascending(capabilities)
    then Good(JobRequirements(os, arch, (set c | c in capabilities), cores, memory, disk, gpu))
    else Bad
  }

  function ReadGpuRequest(v: Json): Parsed<GpuResourceRequest> {
    var _ :- Only(v, ["deviceId", "exclusive", "vendor", "vramMib"]);
    var device :- Optional(ReadStr, v, "deviceId");
    var vendor :- Optional(ReadVendor, v, "vendor");
    var vram :- Required(ReadU64, v, "vramMib");
    var exclusive :- Required(ReadBool, v, "exclusive");
    Good(GpuResourceRequest(device, vendor, vram, exclusive))
  }

  function ReadRequest(v: Json): Parsed<ResourceRequest> {
    var _ :- Only(v, ["cpuCores", "diskMib", "gpu", "memoryMib", "slots"]);
    var slots :- Required(ReadU32, v, "slots");
    var cores :- Required(ReadU32, v, "cpuCores");
    var memory :- Required(ReadU64, v, "memoryMib");
    var disk :- Required(ReadU64, v, "diskMib");
    var gpu :- Optional(ReadGpuRequest, v, "gpu");
    Good(ResourceRequest(slots, cores, memory, disk, gpu))
  }

  function ReadStep(v: Json): Parsed<JobStep> {
    var _ :- Only(v, ["name", "script", "shell", "timeoutSeconds", "workingDirectory"]);
    var name :- Required(ReadStr, v, "name");
    var shell :- Optional(ReadShell, v, "shell");
    var script :- Required(ReadStr, v, "script");
    var directory :- Optional(ReadStr, v, "workingDirectory");
    var timeout :- Optional(ReadU64, v, "timeoutSeconds");
    Good(JobStep(name, shell, script, directory, timeout))
  }

  function ReadSteps(v: Json): Parsed<seq<JobStep>> {
    ReadArray(ReadStep, v)
  }

  function ReadArtifacts(v: Json): Parsed<ArtifactSpec> {
    var _ :- Only(v, ["exclude", "include", "retentionDays"]);
    var include_ :- Required(ReadTexts, v, "include");
    var exclude :- Required(ReadTexts, v, "exclude");
    var retention :- Optional(ReadU32, v, "retentionDays");
    Good(ArtifactSpec(include_, exclude, retention))
  }

  function ReadJob(v: Json): Parsed<JobSpec> {
    var _ :- Only(v, ["apiVersion", "artifacts", "id", "kind", "origin", "placementPolicy", "preferredNodeId",
                      "requirements", "resourceRequest", "source", "steps", "timeoutSeconds"]);
    var apiVersion :- Required(ReadStr, v, "apiVersion");
    var id :- Required(ReadId, v, "id");
    var origin :- Optional(ReadOrigin, v, "origin");
    var kind :- Required(ReadKind, v, "kind");
    var source :- Required(ReadSource, v, "source");
    var requirements :- Required(ReadRequirements, v, "requirements");
    var request :- Optional(ReadRequest, v, "resourceRequest");
    var steps :- Required(ReadSteps, v, "steps");
    var artifacts :- Required(ReadArtifacts, v, "artifacts");
    var timeout :- Optional(ReadU64, v, "timeoutSeconds");
    var policy :- Required(ReadPolicy, v, "placementPolicy");
    var node :- Optional(ReadId, v, "preferredNodeId");
    Good(JobSpec(apiVersion, id, origin, kind, source, requirements, request, steps, artifacts, timeout, policy, node))
  }

  // ---------------------------------------------------------------- reading back what was written

  lemma MemberAt(keys: seq<string>, values: seq<Option<Json>>, i: nat)
    requires |keys| == |values| && i < |keys| && InOrder(keys)
    ensures Has(Struct(keys, values), keys[i]) <==> values[i].Some?
    ensures values[i].Some? ==> Struct(keys, values).fields[keys[i]] == values[i].value
  {
    hide Less, InOrder;
    InOrderIsAscending(keys);
    var members := Documents.Fields(keys, values);
    assert Keys(members) == keys;
    Lookup(members, i);
  }

  lemma RequiredBack<T>(f: Json -> Parsed<T>, keys: seq<string>, values: seq<Option<Json>>, i: nat, x: T)
    requires |keys| == |values| && i < |keys| && InOrder(keys)
    requires values[i].Some? && f(values[i].value) == Good(x)
    ensures Required(f, Struct(keys, values), keys[i]) == Good(x)
  {
    hide InOrder, Struct;
    MemberAt(keys, values, i);
  }

  lemma OptionalBack<T>(f: Json -> Parsed<T>, keys: seq<string>, values: seq<Option<Json>>, i: nat, o: Option<T>)
    requires |keys| == |values| && i < |keys| && InOrder(keys)
    requires values[i].Some? <==> o.Some?
    requires o.Some? ==> f(values[i].value) == Good(o.value)
    ensures Optional(f, Struct(keys, values), keys[i]) == Good(o)
  {
    hide InOrder;
    MemberAt(keys, values, i);
  }

  lemma OnlyItsKeys(keys: seq<string>, values: seq<Option<Json>>)
    requires |keys| == |values|
    ensures Only(Struct(keys, values), keys) == Good(())
  {
    var members := Documents.Fields(keys, values);
    forall k | k in ObjectOf(members)
      ensures k in keys
    {
      ObjectKeys(members, k);
      var i :| 0 <= i < |members| && members[i].key == k;
      assert keys[i] == k;
    }
  }

  lemma {:induction false} ReadAllBack<T>(f: Json -> Parsed<T>, items: seq<Json>, values: seq<T>)
    requires |items| == |values| && forall i :: 0 <= i < |items| ==> f(items[i]) == Good(values[i])
    ensures ReadAll(f, items) == Good(values)
  {
    if items == [] {
    } else {
      ReadAllBack(f, items[1..], values[1..]);
      assert values == [values[0]] + values[1..];
    }
  }

  lemma ReadTextsBack(ss: seq<string>)
    ensures ReadTexts(Texts(ss)) == Good(ss)
  {
    ReadAllBack(ReadStr, Texts(ss).items, ss);
  }

  lemma NamesBack(os: OperatingSystem, arch: Architecture, vendor: GpuVendor, shell: Shell, policy: PlacementPolicy)
    ensures ReadOs(Str(OsName(os))) == Good(os) && ReadArch(Str(ArchName(arch))) == Good(arch)
    ensures ReadVendor(Str(VendorName(vendor))) == Good(vendor) && ReadShell(Str(ShellName(shell))) == Good(shell)
    ensures ReadPolicy(Str(PolicyName(policy))) == Good(policy)
  {
  }

  lemma KindBack(kind: JobKind)
    ensures ReadKind(Str(KindName(kind))) == Good(kind)
  {
  }

  lemma OriginBack(o: JobOrigin)
    ensures ReadOrigin(EncodeOrigin(o)) == Good(o)
  {
    OriginKeyFacts();
    hide Struct, Only, Required, Optional, InOrder, Less;
    var keys, values := ["codexSessionId", "projectId", "workspaceId"], OriginValues(o);
    assert ORIGIN_KEYS == keys;
    OnlyItsKeys(keys, values);
    OptionalBack(ReadStr, keys, values, 0, o.codexSessionId);
    OptionalBack(ReadStr, keys, values, 1, o.projectId);
    OptionalBack(ReadStr, keys, values, 2, o.workspaceId);
  }

  lemma GitBack(source: SourceSpec)
    requires source.Git?
    ensures ReadSource(EncodeSource(source)) == Good(source)
  {
    GitKeyFacts();
    hide Struct, Only, Required, Optional, InOrder, Less;
    var keys, values := ["repository", "revision", "type"], SourceValues(source);
    assert SourceKeys(source) == keys;
    OnlyItsKeys(keys, values);
    RequiredBack(ReadStr, keys, values, 0, source.repository);
    RequiredBack(ReadStr, keys, values, 1, source.revision);
    RequiredBack(ReadStr, keys, values, 2, "git");
  }

  lemma SnapshotBack(source: SourceSpec)
    requires source.Snapshot?
    ensures ReadSource(EncodeSource(source)) == Good(source)
  {
    SnapshotKeyFacts();
    hide Struct, Only, Required, Optional, InOrder, Less;
    var keys, values := ["digest", "sizeBytes", "type"], SourceValues(source);
    assert SourceKeys(source) == keys;
    OnlyItsKeys(keys, values);
    RequiredBack(ReadStr, keys, values, 0, source.digest);
    OptionalBack(ReadU64, keys, values, 1, source.sizeBytes);
    RequiredBack(ReadStr, keys, values, 2, "snapshot");
    assert |"git"| != |"snapshot"|;
  }

  lemma SourceBack(source: SourceSpec)
    ensures ReadSource(EncodeSource(source)) == Good(source)
  {
    if source.Git? {
      GitBack(source);
    } else {
      SnapshotBack(source);
    }
  }

  lemma GpuRequirementBack(g: GpuRequirement)
    ensures ReadGpuRequirement(EncodeGpuRequirement(g, Preview100)) == Good(g)
  {
    GpuRequirementKeyFacts();
    hide Struct, Only, Required, Optional, InOrder, Less;
    hide VendorName, ReadVendor;
    var keys, values := ["exclusive", "minVramMib", "vendor"], GpuRequirementValues(g);
    assert GpuRequirementKeys(Preview100) == keys;
    OnlyItsKeys(keys, values);
    VendorBack(g.vendor);
    RequiredBack(ReadBool, keys, values, 0, g.exclusive);
    OptionalBack(ReadU64, keys, values, 1, g.minVramMib);
    OptionalBack(ReadVendor, keys, values, 2, g.vendor);
  }

  lemma VendorBack(vendor: Option<GpuVendor>)
    ensures vendor.Some? ==> ReadVendor(Str(VendorName(vendor.value))) == Good(vendor.value)
  {
    if vendor.Some? {
      NamesBack(Linux, X86_64, vendor.value, Bash, Balanced);
    }
  }

  lemma GpuRequestBack(g: GpuResourceRequest)
    ensures ReadGpuRequest(EncodeGpuRequest(g, Preview100)) == Good(g)
  {
    GpuRequestKeyFacts();
    hide Struct, Only, Required, Optional, InOrder, Less;
    hide VendorName, ReadVendor;
    var keys, values := ["deviceId", "exclusive", "vendor", "vramMib"], GpuRequestValues(g);
    assert GpuRequestKeys(Preview100) == keys;
    OnlyItsKeys(keys, values);
    VendorBack(g.vendor);
    OptionalBack(ReadStr, keys, values, 0, g.deviceId);
    RequiredBack(ReadBool, keys, values, 1, g.exclusive);
    OptionalBack(ReadVendor, keys, values, 2, g.vendor);
    RequiredBack(ReadU64, keys, values, 3, g.vramMib);
  }

  lemma RequestBack(r: ResourceRequest)
    ensures ReadRequest(EncodeRequest(r, Preview100)) == Good(r)
  {
    RequestKeyFacts();
    hide Struct, Only, Required, Optional, InOrder, Less;
    hide EncodeGpuRequest, ReadGpuRequest;
    var keys, values := ["cpuCores", "diskMib", "gpu", "memoryMib", "slots"], RequestValues(r, Preview100);
    assert RequestKeys(Preview100) == keys;
    OnlyItsKeys(keys, values);
    if r.gpu.Some? {
      GpuRequestBack(r.gpu.value);
    }
    RequiredBack(ReadU32, keys, values, 0, r.cpuCores);
    RequiredBack(ReadU64, keys, values, 1, r.diskMib);
    OptionalBack(ReadGpuRequest, keys, values, 2, r.gpu);
    RequiredBack(ReadU64, keys, values, 3, r.memoryMib);
    RequiredBack(ReadU32, keys, values, 4, r.slots);
  }

  lemma RequirementValuesBack(r: JobRequirements)
    ensures var v := RequirementValues(r, Preview100);
      && v[1].Some? && ReadTexts(v[1].value) == Good(Sorted(r.capabilities))
      && (v[0].Some? <==> r.arch.Some?) && (r.arch.Some? ==> ReadArch(v[0].value) == Good(r.arch.value))
      && (v[2].Some? <==> r.gpu.Some?) && (r.gpu.Some? ==> ReadGpuRequirement(v[2].value) == Good(r.gpu.value))
      && (v[6].Some? <==> r.os.Some?) && (r.os.Some? ==> ReadOs(v[6].value) == Good(r.os.value))
  {
    hide EncodeGpuRequirement, ReadGpuRequirement, Texts, ReadTexts, Sorted, OsName, ArchName, ReadOs, ReadArch;
    ReadTextsBack(Sorted(r.capabilities));
    if r.gpu.Some? {
      GpuRequirementBack(r.gpu.value);
    }
    if r.os.Some? {
      NamesBack(r.os.value, X86_64, Nvidia, Bash, Balanced);
    }
    if r.arch.Some? {
      NamesBack(Linux, r.arch.value, Nvidia, Bash, Balanced);
    }
  }

  lemma RequirementNumbers(r: JobRequirements)
    ensures var v := RequirementValues(r, Preview100);
      v[3] == MaybeNum(r.minCpuCores) && v[4] == MaybeNum(r.minDiskMib) && v[5] == MaybeNum(r.minMemoryMib)
  {
    hide EncodeGpuRequirement, Texts, Sorted, OsName, ArchName;
  }

  lemma RequirementsBack(r: JobRequirements)
    ensures ReadRequirements(EncodeRequirements(r, Preview100)) == Good(r)
  {
    RequirementKeysInOrder();
    hide Struct, Only, Required, Optional, InOrder, Less;
    hide RequirementValues, ReadTexts, ReadOs, ReadArch, ReadGpuRequirement, Sorted;
    var keys := ["arch", "capabilities", "gpu", "minCpuCores", "minDiskMib", "minMemoryMib", "os"];
    var values := RequirementValues(r, Preview100);
    assert RequirementKeys(Preview100) == keys;
    OnlyItsKeys(keys, values);
    RequirementValuesBack(r);
    RequirementNumbers(r);
    OptionalBack(ReadArch, keys, values, 0, r.arch);
    RequiredBack(ReadTexts, keys, values, 1, Sorted(r.capabilities));
    OptionalBack(ReadGpuRequirement, keys, values, 2, r.gpu);
    OptionalBack(ReadU32, keys, values, 3, r.minCpuCores);
    OptionalBack(ReadU64, keys, values, 4, r.minDiskMib);
    OptionalBack(ReadU64, keys, values, 5, r.minMemoryMib);
    OptionalBack(ReadOs, keys, values, 6, r.os);
    assert (set c | c in Sorted(r.capabilities)) == r.capabilities;
  }

  lemma StepBack(s: JobStep)
    ensures ReadStep(EncodeStep(s)) == Good(s)
  {
    StepKeyFacts();
    hide Struct, Only, Required, Optional, InOrder, Less;
    hide ShellName, ReadShell;
    var keys, values := ["name", "script", "shell", "timeoutSeconds", "workingDirectory"], StepValues(s);
    assert STEP_KEYS == keys;
    OnlyItsKeys(keys, values);
    if s.shell.Some? {
      NamesBack(Linux, X86_64, Nvidia, s.shell.value, Balanced);
    }
    RequiredBack(ReadStr, keys, values, 0, s.name);
    RequiredBack(ReadStr, keys, values, 1, s.script);
    OptionalBack(ReadShell, keys, values, 2, s.shell);
    OptionalBack(ReadU64, keys, values, 3, s.timeoutSeconds);
    OptionalBack(ReadStr, keys, values, 4, s.workingDirectory);
  }

  lemma StepsBack(steps: seq<JobStep>)
    ensures ReadSteps(EncodeSteps(steps)) == Good(steps)
  {
    hide EncodeStep, ReadStep;
    forall i | 0 <= i < |steps|
      ensures ReadStep(EncodeSteps(steps).items[i]) == Good(steps[i])
    {
      StepBack(steps[i]);
    }
    ReadAllBack(ReadStep, EncodeSteps(steps).items, steps);
  }

  lemma ArtifactsBack(a: ArtifactSpec)
    ensures ReadArtifacts(EncodeArtifacts(a)) == Good(a)
  {
    ArtifactKeyFacts();
    hide Struct, Only, Required, Optional, InOrder, Less;
    hide Texts, ReadTexts;
    var keys, values := ["exclude", "include", "retentionDays"], ArtifactValues(a);
    assert ARTIFACT_KEYS == keys;
    OnlyItsKeys(keys, values);
    ReadTextsBack(a.include_);
    ReadTextsBack(a.exclude);
    RequiredBack(ReadTexts, keys, values, 0, a.exclude);
    RequiredBack(ReadTexts, keys, values, 1, a.include_);
    OptionalBack(ReadU32, keys, values, 2, a.retentionDays);
  }

  lemma IdBack(id: Uuid)
    ensures ReadId(Str(Uuids.Print(id))) == Good(id)
  {
    Uuids.ReadBack(id);
  }

  /** Which value stands at which place of the member list. */
  lemma JobValuesAt(j: JobSpec)
    ensures var v := JobValues(j, Preview100);
      && v[0] == Some(Str(j.apiVersion)) && v[1] == Some(EncodeArtifacts(j.artifacts))
      && v[2] == Some(Str(Uuids.Print(j.id))) && v[3] == Some(Str(KindName(j.kind)))
      && v[5] == Some(Str(PolicyName(j.placementPolicy)))
          && v[7] == Some(EncodeRequirements(j.requirements, Preview100))
      && v[9] == Some(EncodeSource(j.source)) && v[10] == Some(EncodeSteps(j.steps))
          && v[11] == MaybeNum(j.timeoutSeconds)
    ensures var v := JobValues(j, Preview100);
      && v[4] == (if j.origin.None? then None else Some(EncodeOrigin(j.origin.value)))
      && v[6] == (if j.preferredNodeId.None? then None else Some(Str(Uuids.Print(j.preferredNodeId.value))))
      && v[8] == (if j.resourceRequest.None? then None else Some(EncodeRequest(j.resourceRequest.value, Preview100)))
  {
    hide EncodeArtifacts, EncodeOrigin, EncodeRequirements, EncodeRequest, EncodeSource, EncodeSteps;
    hide KindName, PolicyName, Uuids.Print;
  }

  lemma JobHeadBack(j: JobSpec)
    ensures var v := EncodeJob(j, Preview100);
      && Required(ReadStr, v, "apiVersion") == Good(j.apiVersion)
      && Required(ReadArtifacts, v, "artifacts") == Good(j.artifacts)
      && Required(ReadId, v, "id") == Good(j.id)
      && Required(ReadKind, v, "kind") == Good(j.kind)
      && Optional(ReadOrigin, v, "origin") == Good(j.origin)
      && Required(ReadPolicy, v, "placementPolicy") == Good(j.placementPolicy)
  {
    JobKeyFacts();
    hide Struct, Required, Optional, InOrder, Less, JobKeys, JobValues;
    hide EncodeArtifacts, EncodeOrigin, EncodeRequirements, EncodeRequest, EncodeSource, EncodeSteps;
    hide KindName, PolicyName, Uuids.Print, ReadArtifacts, ReadId, ReadKind, ReadPolicy, ReadRequirements;
    hide ReadSource, ReadSteps, ReadOrigin, ReadRequest;
    JobKeyNames();
    JobValuesAt(j);
    ArtifactsBack(j.artifacts);
    IdBack(j.id);
    KindBack(j.kind);
    NamesBack(Linux, X86_64, Nvidia, Bash, j.placementPolicy);
    if j.origin.Some? {
      OriginBack(j.origin.value);
    }
    var keys, values := JobKeys(), JobValues(j, Preview100);
    RequiredBack(ReadStr, keys, values, 0, j.apiVersion);
    RequiredBack(ReadArtifacts, keys, values, 1, j.artifacts);
    RequiredBack(ReadId, keys, values, 2, j.id);
    RequiredBack(ReadKind, keys, values, 3, j.kind);
    OptionalBack(ReadOrigin, keys, values, 4, j.origin);
    RequiredBack(ReadPolicy, keys, values, 5, j.placementPolicy);
  }

  lemma JobTailBack(j: JobSpec)
    ensures var v := EncodeJob(j, Preview100);
      && Required(ReadRequirements, v, "requirements") == Good(j.requirements)
      && Required(ReadSource, v, "source") == Good(j.source)
      && Required(ReadSteps, v, "steps") == Good(j.steps)
  {
    JobKeyFacts();
    hide Struct, Required, Optional, InOrder, Less, JobKeys, JobValues;
    hide EncodeArtifacts, EncodeOrigin, EncodeRequirements, EncodeRequest, EncodeSource, EncodeSteps;
    hide KindName, PolicyName, Uuids.Print, ReadArtifacts, ReadId, ReadKind, ReadPolicy, ReadRequirements;
    hide ReadSource, ReadSteps, ReadOrigin, ReadRequest;
    JobKeyNames();
    JobValuesAt(j);
    RequirementsBack(j.requirements);
    SourceBack(j.source);
    StepsBack(j.steps);
    var keys, values := JobKeys(), JobValues(j, Preview100);
    RequiredBack(ReadRequirements, keys, values, 7, j.requirements);
    RequiredBack(ReadSource, keys, values, 9, j.source);
    RequiredBack(ReadSteps, keys, values, 10, j.steps);
  }

  lemma JobOptionsBack(j: JobSpec)
    ensures var v := EncodeJob(j, Preview100);
      && Optional(ReadId, v, "preferredNodeId") == Good(j.preferredNodeId)
      && Optional(ReadRequest, v, "resourceRequest") == Good(j.resourceRequest)
      && Optional(ReadU64, v, "timeoutSeconds") == Good(j.timeoutSeconds)
  {
    JobKeyFacts();
    hide Struct, Required, Optional, InOrder, Less, JobKeys, JobValues;
    hide EncodeArtifacts, EncodeOrigin, EncodeRequirements, EncodeRequest, EncodeSource, EncodeSteps;
    hide KindName, PolicyName, Uuids.Print, ReadArtifacts, ReadId, ReadKind, ReadPolicy, ReadRequirements;
    hide ReadSource, ReadSteps, ReadOrigin, ReadRequest;
    JobKeyNames();
    JobValuesAt(j);
    if j.preferredNodeId.Some? {
      IdBack(j.preferredNodeId.value);
    }
    if j.resourceRequest.Some? {
      RequestBack(j.resourceRequest.value);
    }
    var keys, values := JobKeys(), JobValues(j, Preview100);
    OptionalBack(ReadId, keys, values, 6, j.preferredNodeId);
    OptionalBack(ReadRequest, keys, values, 8, j.resourceRequest);
    OptionalBack(ReadU64, keys, values, 11, j.timeoutSeconds);
  }

  /** Every job is read back from its document. */
  lemma JobReadsBack(j: JobSpec)
    ensures ReadJob(EncodeJob(j, Preview100)) == Good(j)
  {
    hide Only, Required, Optional, Struct, JobKeys, JobValues;
    JobHeadBack(j);
    JobTailBack(j);
    JobOptionsBack(j);
    JobKeyNames();
    OnlyItsKeys(JobKeys(), JobValues(j, Preview100));
  }

  lemma JobKeyNames()
    ensures JobKeys() == ["apiVersion", "artifacts", "id", "kind", "origin", "placementPolicy", "preferredNodeId",
                          "requirements", "resourceRequest", "source", "steps", "timeoutSeconds"]
  {
  }

  /** The bytes that are hashed, read as text, as JSON and as a job. */
  function ReadJobBytes(bytes: seq<Utf8.byte>): Option<JobSpec> {
    var text := Utf8.Decode(bytes);
    if text.None? then None
    else
      var document := JsonReader.ReadText(text.value);
      if document.None? then None
      else
        var job := ReadJob(document.value);
        if job.Bad? then None else Some(job.value)
  }

  /** The job with one core where it names no number of cores. */
  function WithCores(j: JobSpec): JobSpec {
    match j.requirements.minCpuCores
    case None => j.(requirements := j.requirements.(minCpuCores := Some(1)))
    case Some(_) => j
  }

  /** Reading the hashed bytes of any job gives that job with its core count filled in. */
  lemma BytesReadBack(j: JobSpec)
    ensures ReadJobBytes(CanonicalBytes(j)) == Some(WithCores(j))
  {
    hide ReadJob, EncodeJob, Utf8.Encode, Utf8.Decode, JsonReader.ReadText, CanonicalText, ResourceKeys.Project;
    MigrationKeepsBytes(j);
    var document := EncodeJob(Normalize(j), Preview100);
    Utf8.DecodeEncoded(CanonicalText(document));
    JsonReader.CanonicalTextReadsBack(document);
    JobReadsBack(Normalize(j));
  }

  /** Documents are equal only for equal jobs. */
  lemma JobInjective(a: JobSpec, b: JobSpec)
    requires EncodeJob(a, Preview100) == EncodeJob(b, Preview100)
    ensures a == b
  {
    JobReadsBack(a);
    JobReadsBack(b);
  }

  /** The hashed bytes are equal exactly for jobs with equal normal forms. */
  lemma BytesIdentifyNormalForm(a: JobSpec, b: JobSpec)
    ensures CanonicalBytes(a) == CanonicalBytes(b) <==> Normalize(a) == Normalize(b)
  {
    hide ReadJobBytes;
    BytesReadBack(a);
    BytesReadBack(b);
  }

  /**
   Two jobs have the same bytes exactly when they agree once a missing core count is read
   as one; so the default and its absence are the same job.
   */
  lemma SameBytesExactly(a: JobSpec, b: JobSpec)
    ensures CanonicalBytes(a) == CanonicalBytes(b) <==> WithCores(a) == WithCores(b)
    ensures CanonicalBytes(a.(requirements := a.requirements.(minCpuCores := None)))
         == CanonicalBytes(a.(requirements := a.requirements.(minCpuCores := Some(1))))
  {
    hide CanonicalBytes;
    BytesIdentifyNormalForm(a, b);
    var without := a.(requirements := a.requirements.(minCpuCores := None));
    var with := a.(requirements := a.requirements.(minCpuCores := Some(1)));
    BytesIdentifyNormalForm(without, with);
  }
}
