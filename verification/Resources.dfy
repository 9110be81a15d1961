/**
 Consumable capacity: the request derived from legacy requirements, the check that an
 explicit request does not weaken them, and what normalizing a job leaves unchanged.
 */
module Resources {
  import opened Text
  import opened Jobs

  datatype ResourceError =
    | ZeroRequirement(field: string) | ZeroResourceRequest(field: string) | WeakensLegacy | InvalidGpuDeviceId

  function OrElse<T>(o: Option<T>, default: T): T {
    if o.Some? then o.value else default
  }

  function FromLegacy(r: JobRequirements): ResourceRequest {
    ResourceRequest(
      1,
      OrElse(r.minCpuCores, 1),
      OrElse(r.minMemoryMib, 0),
      OrElse(r.minDiskMib, 0),
      if r.gpu.None? then None
      else Some(GpuResourceRequest(None, r.gpu.value.vendor, OrElse(r.gpu.value.minVramMib, 0), r.gpu.value.exclusive)))
  }

  function Effective(job: JobSpec): ResourceRequest {
    if job.resourceRequest.Some? then job.resourceRequest.value else FromLegacy(job.requirements)
  }

  predicate BadDeviceId(id: Option<string>) {
    id.Some? && (Blank(id.value) || |id.value| > 256 || HasControl(id.value))
  }

  predicate DeviceIdOk(request: ResourceRequest) {
    request.gpu.Some? ==> !BadDeviceId(request.gpu.value.deviceId)
  }

  function ValidateRequest(request: ResourceRequest, legacy: JobRequirements): Option<ResourceError> {
    if request.slots == 0 then Some(ZeroResourceRequest("slots"))
    else if request.cpuCores == 0 then Some(ZeroResourceRequest("cpuCores"))
    else if || request.cpuCores < OrElse(legacy.minCpuCores, 1)
            || request.memoryMib < OrElse(legacy.minMemoryMib, 0)
            || request.diskMib < OrElse(legacy.minDiskMib, 0) then Some(WeakensLegacy)
    else if !DeviceIdOk(request) then Some(InvalidGpuDeviceId)
    else if legacy.gpu.None? then None
    else if request.gpu.None? then Some(WeakensLegacy)
    else
      var wanted, required := request.gpu.value, legacy.gpu.value;
      if || wanted.vramMib < OrElse(required.minVramMib, 0)
         || (required.exclusive && !wanted.exclusive)
         || (wanted.vendor.Some? && required.vendor.Some? && wanted.vendor != required.vendor) then Some(WeakensLegacy)
      else if required.vendor.Some? && wanted.vendor.None? then Some(WeakensLegacy)
      else None
  }

  /** `a` asks for no more than `b` in any dimension. */
  predicate AtMost(a: ResourceRequest, b: ResourceRequest) {
    && a.slots <= b.slots && a.cpuCores <= b.cpuCores && a.memoryMib <= b.memoryMib && a.diskMib <= b.diskMib
    && (a.gpu.Some? ==>
          && b.gpu.Some?
          && a.gpu.value.vramMib <= b.gpu.value.vramMib
          && (a.gpu.value.exclusive ==> b.gpu.value.exclusive)
          && (a.gpu.value.vendor.Some? ==> a.gpu.value.vendor == b.gpu.value.vendor))
  }

  /**
   A request is accepted exactly when it is at least the derived one, asks for a core and
   names no malformed device: the derived request is the least accepted one. Requirements
   that ask for zero cores derive a request that is refused.
   */
  lemma DerivedRequestIsLeast(r: JobRequirements, q: ResourceRequest)
    ensures ValidateRequest(q, r).None? <==> AtMost(FromLegacy(r), q) && q.cpuCores > 0 && DeviceIdOk(q)
    ensures ValidateRequest(FromLegacy(r), r).None? <==> r.minCpuCores != Some(0)
    ensures AtMost(FromLegacy(r), FromLegacy(r))
  {
  }

  /** A device may be named by visible text of at most 256 characters without control characters. */
  lemma DeviceIds(q: ResourceRequest)
    ensures DeviceIdOk(q) <==>
      (q.gpu.Some? && q.gpu.value.deviceId.Some? ==>
         var id := q.gpu.value.deviceId.value;
         (exists c :: c in id && !IsWhitespace(c)) && |id| <= 256 && forall c :: c in id ==> !IsControl(c))
  {
  }

  /** What an error of the request check says is wrong. */
  predicate RequestDefect(q: ResourceRequest, r: JobRequirements, e: ResourceError) {
    match e
    case ZeroResourceRequest(field) => (field == "slots" && q.slots == 0) || (field == "cpuCores" && q.cpuCores == 0)
    case WeakensLegacy => !AtMost(FromLegacy(r), q)
    case InvalidGpuDeviceId => !DeviceIdOk(q)
    case ZeroRequirement(_) => false
  }

  lemma RequestErrorsNameDefects(q: ResourceRequest, r: JobRequirements)
    ensures ValidateRequest(q, r).Some? ==> RequestDefect(q, r, ValidateRequest(q, r).value)
  {
  }

  /** The derived request in plain numbers, and no device or dimension besides. */
  lemma DerivedRequest(r: JobRequirements)
    ensures var q := FromLegacy(r);
      && q.slots == 1 && q.cpuCores == (match r.minCpuCores case None => 1 case Some(n) => n)
      && q.memoryMib == (match r.minMemoryMib case None => 0 case Some(n) => n)
      && q.diskMib == (match r.minDiskMib case None => 0 case Some(n) => n)
      && (q.gpu.Some? <==> r.gpu.Some?) && (q.gpu.Some? ==> q.gpu.value.deviceId.None?)
  {
  }

  /**
   An explicit request is used as it is, and one that validation accepts is at least what
   the legacy requirements ask for; without one the derived request is used.
   */
  lemma EffectiveCoversLegacy(job: JobSpec)
    ensures job.resourceRequest.Some? ==> Effective(job) == job.resourceRequest.value
    ensures job.resourceRequest.None? ==> Effective(job) == FromLegacy(job.requirements)
    ensures (job.resourceRequest.Some? ==> ValidateRequest(job.resourceRequest.value, job.requirements).None?) ==>
      AtMost(FromLegacy(job.requirements), Effective(job))
  {
    DerivedRequestIsLeast(job.requirements, Effective(job));
  }

  function FirstZero(r: JobRequirements): Option<ResourceError> {
    if r.minCpuCores == Some(0) then Some(ZeroRequirement("minCpuCores"))
    else if r.minMemoryMib == Some(0) then Some(ZeroRequirement("minMemoryMiB"))
    else if r.minDiskMib == Some(0) then Some(ZeroRequirement("minDiskMiB"))
    else if r.gpu.Some? && r.gpu.value.minVramMib == Some(0) then Some(ZeroRequirement("minVramMiB"))
    else None
  }

  /** A zero minimum is refused, whichever it is, and the error names one that is zero. */
  lemma ZeroMinimaRefused(r: JobRequirements)
    ensures FirstZero(r).None? <==>
      && r.minCpuCores != Some(0) && r.minMemoryMib != Some(0) && r.minDiskMib != Some(0)
      && (r.gpu.Some? ==> r.gpu.value.minVramMib != Some(0))
    ensures FirstZero(r).Some? ==>
      || (FirstZero(r).value == ZeroRequirement("minCpuCores") && r.minCpuCores == Some(0))
      || (FirstZero(r).value == ZeroRequirement("minMemoryMiB") && r.minMemoryMib == Some(0))
      || (FirstZero(r).value == ZeroRequirement("minDiskMiB") && r.minDiskMib == Some(0))
      || (FirstZero(r).value == ZeroRequirement("minVramMiB") && r.gpu.Some? && r.gpu.value.minVramMib == Some(0))
  {
  }

  /** The fields of a job that are checked before its resources, and those checked after. */
  datatype Early = Early(
    apiVersion: string,
    origin: Option<JobOrigin>,
    steps: seq<JobStep>,
    timeoutSeconds: Option<u64>,
    capabilities: set<string>)

  datatype Late = Late(artifacts: ArtifactSpec, source: SourceSpec)

  function EarlyOf(job: JobSpec): Early {
    Early(job.apiVersion, job.origin, job.steps, job.timeoutSeconds, job.requirements.capabilities)
  }

  function LateOf(job: JobSpec): Late {
    Late(job.artifacts, job.source)
  }

  /**
   `JobSpec::validate`: the resource checks in the middle of the others. Those are any
   functions of the fields they read in the source.
   */
  function ValidateJob<E>(before: Early -> Option<E>, wrap: ResourceError -> E, after: Late -> Option<E>,
                          job: JobSpec): Option<E> {
    var legacy, request := job.requirements, job.resourceRequest;
    if before(EarlyOf(job)).Some? then before(EarlyOf(job))
    else if FirstZero(legacy).Some? then Some(wrap(FirstZero(legacy).value))
    else if request.Some? && ValidateRequest(request.value, legacy).Some? then
      Some(wrap(ValidateRequest(request.value, legacy).value))
    else after(LateOf(job))
  }

  /** Normalizing changes neither the outcome of validation, error included, nor the request. */
  lemma NormalizeKeepsMeaning<E>(before: Early -> Option<E>, wrap: ResourceError -> E, after: Late -> Option<E>,
                                 job: JobSpec)
    ensures ValidateJob(before, wrap, after, Normalize(job)) == ValidateJob(before, wrap, after, job)
    ensures Effective(Normalize(job)) == Effective(job)
  {
    assert EarlyOf(Normalize(job)) == EarlyOf(job) && LateOf(Normalize(job)) == LateOf(job);
  }
}
