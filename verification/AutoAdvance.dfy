/**
 Unattended provisioning in the renderer: the effect that arms timers for records at an
 automatic checkpoint, the timer callback that starts a call, and the promise that ends
 it. Browser timers and outstanding promises are modelled beside the component's own
 refs, so that "one timer or one call per record, two at most" is about what really runs.
 */
module AutoAdvance {
  import opened Text
  import opened Uuids

  const MAX_CONCURRENCY := 2
  const FIRST_DELAY := 500
  const LONGEST_DELAY := 8_000
  const DEADLINE := 600_000

  datatype Progress = Progress(revision: nat, delayMs: int, startedAt: int)

  /** A displayed record at an automatic checkpoint. */
  datatype Candidate = Candidate(id: Uuid, revision: nat)

  /** What a timer callback captured when it was armed. */
  datatype Closure = Closure(candidate: Candidate, progress: Progress)

  /** An outstanding promise; settled once its `then` or `catch` has run, gone after `finally`. */
  datatype Call = Call(closure: Closure, settled: bool)

  datatype State = State(
    timers: map<Uuid, nat>,           // autoTimers: record to timer handle
    inFlight: set<Uuid>,              // autoInFlight
    progress: map<Uuid, Progress>,    // autoAdvance
    armed: map<nat, Closure>,         // the browser's pending timers
    calls: map<nat, Call>,            // the outstanding promises
    nextId: nat)                      // handles and calls below this number have been used

  predicate UniqueCandidates(cs: seq<Candidate>) {
    forall i, j :: 0 <= i < j < |cs| ==> cs[i].id != cs[j].id
  }

  // ---------------------------------------------------------------- the effect

  function RevisionOf(cs: seq<Candidate>, id: Uuid): (r: Option<nat>)
    ensures r.Some? ==> Candidate(id, r.value) in cs
    ensures r.None? <==> forall c :: c in cs ==> c.id != id
  {
    if cs == [] then None
    else if cs[0].id == id then Some(cs[0].revision)
    else
      assert cs == [cs[0]] + cs[1..];
      RevisionOf(cs[1..], id)
  }

  function ClearTimers(s: State): State {
    s.(timers := map[], armed := s.armed - s.timers.Values)
  }

  /** The timer still belongs to a candidate at the revision it was armed for. */
  predicate StillWanted(s: State, cs: seq<Candidate>, id: Uuid) {
    RevisionOf(cs, id).Some? && id in s.progress && s.progress[id].revision == RevisionOf(cs, id).value
  }

  function DropStaleTimers(s: State, cs: seq<Candidate>): State {
    var kept := map id | id in s.timers && StillWanted(s, cs, id) :: s.timers[id];
    s.(timers := kept,
       armed := map h | h in s.armed && (h in s.timers.Values ==> h in kept.Values) :: s.armed[h])
  }

  function DropProgress(s: State, cs: seq<Candidate>): State {
    s.(progress := map id | id in s.progress && RevisionOf(cs, id).Some? :: s.progress[id])
  }

  /** The progress entry a candidate continues or begins. */
  function ProgressFor(s: State, c: Candidate, now: int): Progress {
    if c.id in s.progress && s.progress[c.id].revision == c.revision then s.progress[c.id]
    else Progress(c.revision, FIRST_DELAY, if c.id in s.progress then s.progress[c.id].startedAt else now)
  }

  /** Clock readings: when an entry is created, and when its deadline is checked. */
  datatype Clock = Clock(start: Uuid -> int, check: Uuid -> int)

  function ArmTimers(s: State, cs: seq<Candidate>, available: nat, clock: Clock): State
    decreases |cs|
  {
    if cs == [] || available == 0 then s
    else if cs[0].id in s.inFlight || cs[0].id in s.timers then ArmTimers(s, cs[1..], available, clock)
    else
      var c := cs[0];
      var progress := ProgressFor(s, c, clock.start(c.id));
      var recorded := s.(progress := s.progress[c.id := progress]);
      if clock.check(c.id) - progress.startedAt > DEADLINE then ArmTimers(recorded, cs[1..], available, clock)
      else ArmTimers(Armed(recorded, c, progress), cs[1..], available - 1, clock)
  }

  function Armed(s: State, c: Candidate, progress: Progress): State {
    s.(timers := s.timers[c.id := s.nextId], armed := s.armed[s.nextId := Closure(c, progress)], nextId := s.nextId + 1)
  }

  function Available(s: State): nat {
    if MAX_CONCURRENCY >= |s.inFlight| + |s.timers| then MAX_CONCURRENCY - |s.inFlight| - |s.timers| else 0
  }

  function AfterEffect(s: State, cs: seq<Candidate>, operation: bool, clock: Clock): State {
    if operation then ClearTimers(s)
    else
      var cleaned := DropProgress(DropStaleTimers(s, cs), cs);
      ArmTimers(cleaned, cs, Available(cleaned), clock)
  }

  // ---------------------------------------------------------------- timers and promises

  predicate AtLimit(s: State) {
    |s.inFlight| >= MAX_CONCURRENCY
  }

  function AfterFire(s: State, handle: nat): State
    requires handle in s.armed
  {
    var closure := s.armed[handle];
    var fired := s.(armed := s.armed - {handle}, timers := s.timers - {closure.candidate.id});
    if AtLimit(fired) then fired
    else
      fired.(inFlight := s.inFlight + {closure.candidate.id},
             calls := s.calls[s.nextId := Call(closure, false)], nextId := s.nextId + 1)
  }

  /** `then`: `next` is the returned revision if the record is still at an automatic checkpoint. */
  function AfterSuccess(s: State, call: nat, next: Option<nat>): State
    requires call in s.calls
  {
    var closure := s.calls[call].closure;
    var id := closure.candidate.id;
    var settled := s.(calls := s.calls[call := Call(closure, true)]);
    if next.Some? then
      var doubled := if closure.progress.delayMs * 2 < LONGEST_DELAY then closure.progress.delayMs * 2
          else LONGEST_DELAY;
      settled.(progress := s.progress[id := Progress(next.value, doubled, closure.progress.startedAt)])
    else settled.(progress := s.progress - {id})
  }

  function AfterFailure(s: State, call: nat): State
    requires call in s.calls
  {
    s.(calls := s.calls[call := Call(s.calls[call].closure, true)])
  }

  /** `finally` */
  function AfterFinally(s: State, call: nat): State
    requires call in s.calls
  {
    s.(calls := s.calls - {call}, inFlight := s.inFlight - {s.calls[call].closure.candidate.id})
  }

  /** `runAction` on a selected record withdraws its timer and forgets its progress. */
  function AfterAction(s: State, id: Uuid): State {
    s.(timers := s.timers - {id},
       armed := if id in s.timers then s.armed - {s.timers[id]} else s.armed,
       progress := s.progress - {id})
  }

  datatype Step =
    | RunEffect(candidates: seq<Candidate>, operation: bool, clock: Clock)
    | FireTimer(handle: nat)
    | CallSucceeds(call: nat, next: Option<nat>)
    | CallFails(call: nat)
    | CallFinishes(call: nat)
    | UserActs(id: Uuid)
    | Unmount

  predicate Enabled(s: State, step: Step) {
    match step
    case RunEffect(cs, operation, clock) => UniqueCandidates(cs)
    case FireTimer(handle) => handle in s.armed
    case CallSucceeds(call, next) => call in s.calls && !s.calls[call].settled
    case CallFails(call) => call in s.calls && !s.calls[call].settled
    case CallFinishes(call) => call in s.calls && s.calls[call].settled
    case UserActs(id) => true
    case Unmount => true
  }

  function After(s: State, step: Step): State
    requires Enabled(s, step)
  {
    match step
    case RunEffect(cs, operation, clock) => AfterEffect(s, cs, operation, clock)
    case FireTimer(handle) => AfterFire(s, handle)
    case CallSucceeds(call, next) => AfterSuccess(s, call, next)
    case CallFails(call) => AfterFailure(s, call)
    case CallFinishes(call) => AfterFinally(s, call)
    case UserActs(id) => AfterAction(s, id)
    case Unmount => ClearTimers(s)
  }

  // ---------------------------------------------------------------- the invariant

  predicate IsDelay(d: int) {
    d == 500 || d == 1_000 || d == 2_000 || d == 4_000 || d == 8_000
  }

  /** The refs know exactly the timers the browser has armed, each under its own record. */
  predicate TimersMatch(s: State) {
    && (forall id :: id in s.timers ==> s.timers[id] in s.armed && s.armed[s.timers[id]].candidate.id == id)
    && (forall h :: h in s.armed ==> s.armed[h].candidate.id in s.timers && s.timers[s.armed[h].candidate.id] == h)
  }

  /** The in-flight set is exactly the records of the outstanding calls, one call each. */
  predicate CallsMatch(s: State) {
    OneCallEach(s.calls, s.inFlight)
  }

  predicate OneCallEach(calls: map<nat, Call>, inFlight: set<Uuid>) {
    && (forall k :: k in calls ==> calls[k].closure.candidate.id in inFlight)
    && (forall id :: id in inFlight ==> exists k :: k in calls && calls[k].closure.candidate.id == id)
    && (forall k, l :: k in calls && l in calls && k != l ==>
        calls[k].closure.candidate.id != calls[l].closure.candidate.id)
  }

  lemma AddCall(calls: map<nat, Call>, inFlight: set<Uuid>, k: nat, call: Call)
    requires OneCallEach(calls, inFlight) && k !in calls && call.closure.candidate.id !in inFlight
    ensures OneCallEach(calls[k := call], inFlight + {call.closure.candidate.id})
  {
    var more := calls[k := call];
    assert more[k] == call;
    forall id | id in inFlight
      ensures exists l :: l in more && more[l].closure.candidate.id == id
    {
      var l :| l in calls && calls[l].closure.candidate.id == id;
      assert more[l] == calls[l];
    }
  }

  lemma SettleCall(calls: map<nat, Call>, inFlight: set<Uuid>, k: nat)
    requires OneCallEach(calls, inFlight) && k in calls
    ensures OneCallEach(calls[k := Call(calls[k].closure, true)], inFlight)
  {
    var settled := calls[k := Call(calls[k].closure, true)];
    assert forall l :: l in calls ==> settled[l].closure == calls[l].closure;
    forall id | id in inFlight
      ensures exists l :: l in settled && settled[l].closure.candidate.id == id
    {
      var l :| l in calls && calls[l].closure.candidate.id == id;
      assert settled[l].closure == calls[l].closure;
    }
  }

  lemma RemoveCall(calls: map<nat, Call>, inFlight: set<Uuid>, k: nat)
    requires OneCallEach(calls, inFlight) && k in calls
    ensures OneCallEach(calls - {k}, inFlight - {calls[k].closure.candidate.id})
  {
    var fewer := calls - {k};
    forall id | id in inFlight && id != calls[k].closure.candidate.id
      ensures exists l :: l in fewer && fewer[l].closure.candidate.id == id
    {
      var l :| l in calls && calls[l].closure.candidate.id == id;
      assert fewer[l] == calls[l];
    }
  }

  predicate Bounded(s: State) {
    |s.timers| + |s.inFlight| <= MAX_CONCURRENCY && s.timers.Keys !! s.inFlight
  }

  /** A timer, and a call until it settles, agrees with the record's progress entry. */
  predicate ProgressMatches(s: State) {
    && (forall id :: id in s.progress ==> IsDelay(s.progress[id].delayMs))
    && (forall h :: h in s.armed ==>
          s.armed[h].candidate.id in s.progress && s.progress[s.armed[h].candidate.id] == s.armed[h].progress)
    && (forall k :: k in s.calls ==>
          && IsDelay(s.calls[k].closure.progress.delayMs)
          && (!s.calls[k].settled && s.calls[k].closure.candidate.id in s.progress ==>
                s.progress[s.calls[k].closure.candidate.id] == s.calls[k].closure.progress))
  }

  predicate Unused(s: State) {
    (forall h :: h in s.armed ==> h < s.nextId) && (forall k :: k in s.calls ==> k < s.nextId)
  }

  predicate Invariant(s: State) {
    TimersMatch(s) && CallsMatch(s) && Bounded(s) && ProgressMatches(s) && Unused(s)
  }

  /** No entry that survives a change has its start time moved. */
  predicate StartsKept(s: State, s': State) {
    forall id :: id in s.progress && id in s'.progress ==> s'.progress[id].startedAt == s.progress[id].startedAt
  }

  lemma ClearKeeps(s: State)
    requires Invariant(s)
    ensures Invariant(ClearTimers(s)) && StartsKept(s, ClearTimers(s))
    ensures ClearTimers(s).armed == map[]
  {
    var t := ClearTimers(s);
    forall h | h in s.armed
      ensures h in s.timers.Values
    {
      assert s.timers[s.armed[h].candidate.id] == h;
    }
    assert t.armed == map[];
  }

  lemma MapSize(small: map<Uuid, nat>, big: map<Uuid, nat>)
    requires small.Keys <= big.Keys
    ensures |small| <= |big|
  {
    assert big.Keys == small.Keys + (big.Keys - small.Keys);
    assert |small.Keys| == |small| && |big.Keys| == |big|;
  }

  lemma DropStaleArmed(s: State, cs: seq<Candidate>, h: nat)
    requires TimersMatch(s) && h in s.armed
    ensures h in DropStaleTimers(s, cs).armed <==> StillWanted(s, cs, s.armed[h].candidate.id)
  {
    hide StillWanted;
    var t := DropStaleTimers(s, cs);
    var id := s.armed[h].candidate.id;
    assert s.timers[id] == h;
    if StillWanted(s, cs, id) {
      assert t.timers[id] == h;
    }
  }

  lemma DropStaleTimersMatch(s: State, cs: seq<Candidate>)
    requires Invariant(s)
    ensures TimersMatch(DropStaleTimers(s, cs)) && Unused(DropStaleTimers(s, cs))
  {
    hide StillWanted, CallsMatch, ProgressMatches, Bounded;
    var t := DropStaleTimers(s, cs);
    forall h | h in s.armed
      ensures h in t.armed <==> StillWanted(s, cs, s.armed[h].candidate.id)
    {
      DropStaleArmed(s, cs, h);
    }
    assert forall id :: id in t.timers ==> t.timers[id] == s.timers[id];
  }

  lemma DropStaleProgressMatches(s: State, cs: seq<Candidate>)
    requires Invariant(s)
    ensures ProgressMatches(DropStaleTimers(s, cs)) && CallsMatch(DropStaleTimers(s, cs))
  {
    hide StillWanted, IsDelay, TimersMatch, Bounded;
  }

  lemma DropStaleKeeps(s: State, cs: seq<Candidate>)
    requires Invariant(s)
    ensures Invariant(DropStaleTimers(s, cs)) && StartsKept(s, DropStaleTimers(s, cs))
    ensures forall id :: id in DropStaleTimers(s, cs).timers ==> RevisionOf(cs, id).Some?
  {
    hide StillWanted, IsDelay, TimersMatch, CallsMatch, ProgressMatches, Unused;
    var t := DropStaleTimers(s, cs);
    DropStaleTimersMatch(s, cs);
    DropStaleProgressMatches(s, cs);
    MapSize(t.timers, s.timers);
    forall id | id in t.timers
      ensures RevisionOf(cs, id).Some?
    {
      WantedIsCandidate(s, cs, id);
    }
  }

  lemma WantedIsCandidate(s: State, cs: seq<Candidate>, id: Uuid)
    requires StillWanted(s, cs, id)
    ensures RevisionOf(cs, id).Some?
  {
  }

  lemma DropProgressKeeps(s: State, cs: seq<Candidate>)
    requires Invariant(s) && forall id :: id in s.timers ==> RevisionOf(cs, id).Some?
    ensures Invariant(DropProgress(s, cs)) && StartsKept(s, DropProgress(s, cs))
  {
    hide IsDelay, RevisionOf;
  }

  lemma RecordKeeps(s: State, c: Candidate, now: int)
    requires Invariant(s) && c.id !in s.inFlight && c.id !in s.timers
    ensures Invariant(s.(progress := s.progress[c.id := ProgressFor(s, c, now)]))
    ensures StartsKept(s, s.(progress := s.progress[c.id := ProgressFor(s, c, now)]))
  {
    var t := s.(progress := s.progress[c.id := ProgressFor(s, c, now)]);
    assert ProgressMatches(t);
  }

  predicate CanArm(s: State, c: Candidate) {
    && Invariant(s) && c.id !in s.inFlight && c.id !in s.timers
    && |s.timers| + |s.inFlight| < MAX_CONCURRENCY && c.id in s.progress
  }

  lemma ArmKeepsTimers(s: State, c: Candidate)
    requires CanArm(s, c)
    ensures TimersMatch(Armed(s, c, s.progress[c.id])) && Unused(Armed(s, c, s.progress[c.id]))
  {
    hide CallsMatch, ProgressMatches, Bounded;
  }

  lemma ArmKeepsCalls(s: State, c: Candidate)
    requires CanArm(s, c)
    ensures CallsMatch(Armed(s, c, s.progress[c.id])) && ProgressMatches(Armed(s, c, s.progress[c.id]))
  {
    hide TimersMatch, Bounded, IsDelay;
  }

  lemma ArmKeepsBound(s: State, c: Candidate)
    requires CanArm(s, c)
    ensures Bounded(Armed(s, c, s.progress[c.id])) && |Armed(s, c, s.progress[c.id]).timers| == |s.timers| + 1
  {
    hide TimersMatch, CallsMatch, ProgressMatches, Unused;
    OneMore(s.timers, c.id, s.nextId);
  }

  lemma OneMore(timers: map<Uuid, nat>, id: Uuid, handle: nat)
    requires id !in timers
    ensures |timers[id := handle]| == |timers| + 1
  {
    assert timers[id := handle].Keys == timers.Keys + {id};
    assert |timers[id := handle]| == |timers[id := handle].Keys| && |timers| == |timers.Keys|;
  }

  lemma ArmKeeps(s: State, c: Candidate)
    requires CanArm(s, c)
    ensures Invariant(Armed(s, c, s.progress[c.id])) && |Armed(s, c, s.progress[c.id]).timers| == |s.timers| + 1
  {
    hide TimersMatch, CallsMatch, ProgressMatches, Bounded, Unused;
    ArmKeepsTimers(s, c);
    ArmKeepsCalls(s, c);
    ArmKeepsBound(s, c);
  }

  lemma ArmLeaves(s: State, c: Candidate, progress: Progress)
    ensures Armed(s, c, progress).progress == s.progress && Armed(s, c, progress).inFlight == s.inFlight
  {
  }

  /** Arming creates progress entries for candidates only. */
  lemma {:induction false} ArmTimersAdds(s: State, cs: seq<Candidate>, available: nat, clock: Clock, id: Uuid)
    requires id in ArmTimers(s, cs, available, clock).progress && id !in s.progress
    ensures RevisionOf(cs, id).Some?
    decreases |cs|
  {
    if cs != [] && available > 0 && cs[0].id != id {
      if cs[0].id in s.inFlight || cs[0].id in s.timers {
        ArmTimersAdds(s, cs[1..], available, clock, id);
      } else {
        var c := cs[0];
        var progress := ProgressFor(s, c, clock.start(c.id));
        var recorded := s.(progress := s.progress[c.id := progress]);
        if clock.check(c.id) - progress.startedAt > DEADLINE {
          ArmTimersAdds(recorded, cs[1..], available, clock, id);
        } else {
          ArmTimersAdds(Armed(recorded, c, progress), cs[1..], available - 1, clock, id);
        }
      }
    }
  }

  lemma {:induction false} ArmTimersKeeps(s: State, cs: seq<Candidate>, available: nat, clock: Clock)
    requires Invariant(s) && |s.timers| + |s.inFlight| + available <= MAX_CONCURRENCY
    ensures Invariant(ArmTimers(s, cs, available, clock))
    ensures forall id :: id in s.progress ==>
              id in ArmTimers(s, cs, available, clock).progress
              && ArmTimers(s, cs, available, clock).progress[id].startedAt == s.progress[id].startedAt
    decreases |cs|
  {
    hide Invariant, Armed;
    if cs != [] && available > 0 {
      if cs[0].id in s.inFlight || cs[0].id in s.timers {
        ArmTimersKeeps(s, cs[1..], available, clock);
      } else {
        var c := cs[0];
        var progress := ProgressFor(s, c, clock.start(c.id));
        var recorded := s.(progress := s.progress[c.id := progress]);
        RecordKeeps(s, c, clock.start(c.id));
        if clock.check(c.id) - progress.startedAt > DEADLINE {
          ArmTimersKeeps(recorded, cs[1..], available, clock);
        } else {
          assert CanArm(recorded, c);
          ArmKeeps(recorded, c);
          ArmLeaves(recorded, c, progress);
          ArmTimersKeeps(Armed(recorded, c, progress), cs[1..], available - 1, clock);
        }
      }
    }
  }

  lemma EffectKeeps(s: State, cs: seq<Candidate>, operation: bool, clock: Clock)
    requires Invariant(s)
    ensures Invariant(AfterEffect(s, cs, operation, clock)) && StartsKept(s, AfterEffect(s, cs, operation, clock))
  {
    hide ArmTimers, TimersMatch, OneCallEach, ProgressMatches, Unused, RevisionOf;
    if operation {
      ClearKeeps(s);
    } else {
      DropStaleKeeps(s, cs);
      var dropped := DropStaleTimers(s, cs);
      DropProgressKeeps(dropped, cs);
      var cleaned := DropProgress(dropped, cs);
      ArmTimersKeeps(cleaned, cs, Available(cleaned), clock);
      forall id | id in AfterEffect(s, cs, operation, clock).progress && id in s.progress
        ensures id in cleaned.progress
      {
        if id !in cleaned.progress {
          ArmTimersAdds(cleaned, cs, Available(cleaned), clock, id);
        }
      }
    }
  }

  // ---------------------------------------------------------------- the other steps

  /** A firing timer never finds the concurrency limit reached. */
  lemma FireNeverAtLimit(s: State, handle: nat)
    requires Invariant(s) && handle in s.armed
    ensures |s.timers| == |s.timers - {s.armed[handle].candidate.id}| + 1
    ensures !AtLimit(s)
  {
    var id := s.armed[handle].candidate.id;
    assert s.timers.Keys == (s.timers - {id}).Keys + {id};
    assert |s.timers| == |s.timers.Keys| && |s.timers - {id}| == |(s.timers - {id}).Keys|;
  }

  lemma FireKeeps(s: State, handle: nat)
    requires Invariant(s) && handle in s.armed
    ensures Invariant(AfterFire(s, handle)) && StartsKept(s, AfterFire(s, handle))
  {
    hide TimersMatch, OneCallEach, ProgressMatches, Unused;
    FireNeverAtLimit(s, handle);
    FireKeepsTimers(s, handle);
    FireKeepsCalls(s, handle);
    FireKeepsProgress(s, handle);
    FireKeepsBound(s, handle);
  }

  lemma FireKeepsBound(s: State, handle: nat)
    requires Invariant(s) && handle in s.armed && !AtLimit(s)
    requires |s.timers| == |s.timers - {s.armed[handle].candidate.id}| + 1
    ensures Bounded(AfterFire(s, handle))
  {
    hide OneCallEach, ProgressMatches, Unused;
    var id := s.armed[handle].candidate.id;
    assert |s.inFlight + {id}| <= |s.inFlight| + 1;
  }

  lemma FireKeepsTimers(s: State, handle: nat)
    requires Invariant(s) && handle in s.armed && !AtLimit(s)
    ensures TimersMatch(AfterFire(s, handle)) && Unused(AfterFire(s, handle))
  {
    hide CallsMatch, ProgressMatches, Bounded;
  }

  lemma FireKeepsCalls(s: State, handle: nat)
    requires Invariant(s) && handle in s.armed && !AtLimit(s)
    ensures CallsMatch(AfterFire(s, handle))
  {
    hide OneCallEach, ProgressMatches;
    assert s.timers[s.armed[handle].candidate.id] == handle;
    AddCall(s.calls, s.inFlight, s.nextId, Call(s.armed[handle], false));
  }

  lemma FireKeepsProgress(s: State, handle: nat)
    requires Invariant(s) && handle in s.armed && !AtLimit(s)
    ensures ProgressMatches(AfterFire(s, handle))
  {
    hide IsDelay, CallsMatch, Bounded, TimersMatch;
  }

  lemma SuccessKeeps(s: State, call: nat, next: Option<nat>)
    requires Invariant(s) && call in s.calls && !s.calls[call].settled
    ensures Invariant(AfterSuccess(s, call, next)) && StartsKept(s, AfterSuccess(s, call, next))
  {
    hide OneCallEach, TimersMatch, ProgressMatches, Bounded, Unused, StartsKept;
    SettleCall(s.calls, s.inFlight, call);
    SameTimers(s, AfterSuccess(s, call, next));
    SuccessKeepsProgress(s, call, next);
    SuccessKeepsBound(s, call, next);
    SuccessKeepsStarts(s, call, next);
  }

  lemma SuccessKeepsBound(s: State, call: nat, next: Option<nat>)
    requires Bounded(s) && Unused(s) && call in s.calls
    ensures Bounded(AfterSuccess(s, call, next)) && Unused(AfterSuccess(s, call, next))
  {
  }

  lemma SuccessKeepsStarts(s: State, call: nat, next: Option<nat>)
    requires ProgressMatches(s) && call in s.calls && !s.calls[call].settled
    ensures StartsKept(s, AfterSuccess(s, call, next))
  {
    hide IsDelay;
  }

  lemma SameTimers(s: State, t: State)
    requires TimersMatch(s) && t.timers == s.timers && t.armed == s.armed
    ensures TimersMatch(t)
  {
  }

  lemma CallHasNoTimer(s: State, call: nat)
    requires Invariant(s) && call in s.calls
    ensures forall h :: h in s.armed ==> s.armed[h].candidate.id != s.calls[call].closure.candidate.id
    ensures forall k :: k in s.calls && k != call ==>
        s.calls[k].closure.candidate.id != s.calls[call].closure.candidate.id
  {
    hide ProgressMatches, Unused;
    var id := s.calls[call].closure.candidate.id;
    assert id in s.inFlight && id !in s.timers;
  }

  lemma SuccessKeepsProgress(s: State, call: nat, next: Option<nat>)
    requires Invariant(s) && call in s.calls
    ensures ProgressMatches(AfterSuccess(s, call, next))
  {
    hide OneCallEach, TimersMatch, Bounded, Unused;
    CallHasNoTimer(s, call);
  }

  lemma FailureKeeps(s: State, call: nat)
    requires Invariant(s) && call in s.calls
    ensures Invariant(AfterFailure(s, call)) && StartsKept(s, AfterFailure(s, call))
  {
    hide OneCallEach, TimersMatch, ProgressMatches, Unused;
    SettleCall(s.calls, s.inFlight, call);
    SameTimers(s, AfterFailure(s, call));
    FailureKeepsProgress(s, call);
  }

  lemma FailureKeepsProgress(s: State, call: nat)
    requires ProgressMatches(s) && Unused(s) && call in s.calls
    ensures ProgressMatches(AfterFailure(s, call)) && Unused(AfterFailure(s, call))
  {
    hide IsDelay;
  }

  lemma FinallyKeeps(s: State, call: nat)
    requires Invariant(s) && call in s.calls
    ensures Invariant(AfterFinally(s, call)) && StartsKept(s, AfterFinally(s, call))
  {
    hide OneCallEach, TimersMatch, ProgressMatches, Unused, Bounded;
    RemoveCall(s.calls, s.inFlight, call);
    SameTimers(s, AfterFinally(s, call));
    FinallyKeepsBound(s, call);
    FinallyKeepsProgress(s, call);
  }

  lemma FinallyKeepsBound(s: State, call: nat)
    requires Bounded(s) && call in s.calls
    ensures Bounded(AfterFinally(s, call))
  {
    var t := AfterFinally(s, call);
    assert s.inFlight == t.inFlight + (s.inFlight - t.inFlight);
  }

  lemma FinallyKeepsProgress(s: State, call: nat)
    requires ProgressMatches(s) && Unused(s) && call in s.calls
    ensures ProgressMatches(AfterFinally(s, call)) && Unused(AfterFinally(s, call))
  {
    hide IsDelay;
  }

  lemma ActionKeeps(s: State, id: Uuid)
    requires Invariant(s)
    ensures Invariant(AfterAction(s, id)) && StartsKept(s, AfterAction(s, id))
  {
    hide OneCallEach, TimersMatch, ProgressMatches, Unused;
    MapSize(AfterAction(s, id).timers, s.timers);
    ActionKeepsTimers(s, id);
    ActionKeepsProgress(s, id);
  }

  lemma ActionKeepsTimers(s: State, id: Uuid)
    requires Invariant(s)
    ensures TimersMatch(AfterAction(s, id)) && Unused(AfterAction(s, id))
  {
    hide OneCallEach, ProgressMatches, Bounded;
  }

  lemma ActionKeepsProgress(s: State, id: Uuid)
    requires Invariant(s)
    ensures ProgressMatches(AfterAction(s, id))
  {
    hide OneCallEach, Bounded, IsDelay;
    var t := AfterAction(s, id);
    assert forall h :: h in t.armed ==> t.armed[h].candidate.id != id;
  }

  /** Every step keeps the invariant and moves no start time. */
  lemma StepKeeps(s: State, step: Step)
    requires Invariant(s) && Enabled(s, step)
    ensures Invariant(After(s, step)) && StartsKept(s, After(s, step))
  {
    hide Invariant, StartsKept;
    match step
    case RunEffect(cs, operation, clock) => EffectKeeps(s, cs, operation, clock);
    case FireTimer(handle) => FireKeeps(s, handle);
    case CallSucceeds(call, next) => SuccessKeeps(s, call, next);
    case CallFails(call) => FailureKeeps(s, call);
    case CallFinishes(call) => FinallyKeeps(s, call);
    case UserActs(id) => ActionKeeps(s, id);
    case Unmount => ClearKeeps(s);
  }

  // ---------------------------------------------------------------- runs

  const START: State := State(map[], {}, map[], map[], map[], 0)

  predicate Execution(states: seq<State>, steps: seq<Step>) {
    && |states| == |steps| + 1 && states[0] == START
    && forall i :: 0 <= i < |steps| ==> Enabled(states[i], steps[i]) && states[i + 1] == After(states[i], steps[i])
  }

  /** In every reachable state the invariant holds. */
  lemma {:induction false} Reachable(states: seq<State>, steps: seq<Step>, i: nat)
    requires Execution(states, steps) && i <= |steps|
    ensures Invariant(states[i])
  {
    if i > 0 {
      hide Invariant;
      Reachable(states, steps, i - 1);
      assert states[i - 1 + 1] == After(states[i - 1], steps[i - 1]);
      StepKeeps(states[i - 1], steps[i - 1]);
    }
  }

  /** What runs at any time: at most two timers and calls together, never two for one record. */
  lemma AtMostTwoAtOnce(states: seq<State>, steps: seq<Step>, i: nat)
    requires Execution(states, steps) && i <= |steps|
    ensures |states[i].armed| + |states[i].calls| <= 2
    ensures forall h, g :: h in states[i].armed && g in states[i].armed && h != g ==>
              states[i].armed[h].candidate.id != states[i].armed[g].candidate.id
    ensures forall k, l :: k in states[i].calls && l in states[i].calls && k != l ==>
              states[i].calls[k].closure.candidate.id != states[i].calls[l].closure.candidate.id
    ensures forall h, k :: h in states[i].armed && k in states[i].calls ==>
              states[i].armed[h].candidate.id != states[i].calls[k].closure.candidate.id
  {
    hide ProgressMatches, Unused, After, Enabled;
    Reachable(states, steps, i);
    FewAtOnce(states[i]);
  }

  lemma FewAtOnce(s: State)
    requires Invariant(s)
    ensures |s.armed| + |s.calls| <= MAX_CONCURRENCY
  {
    hide ProgressMatches, Unused;
    var timerIds := map h | h in s.armed :: s.armed[h].candidate.id;
    var callIds := map k | k in s.calls :: s.calls[k].closure.candidate.id;
    InjectionSize(timerIds, s.timers.Keys);
    InjectionSize(callIds, s.inFlight);
    assert timerIds.Keys == s.armed.Keys && callIds.Keys == s.calls.Keys;
    assert |timerIds.Keys| == |timerIds| && |s.armed.Keys| == |s.armed| && |s.timers.Keys| == |s.timers|;
    assert |callIds.Keys| == |callIds| && |s.calls.Keys| == |s.calls|;
  }

  lemma {:induction false} InjectionSize(m: map<nat, Uuid>, target: set<Uuid>)
    requires forall k :: k in m ==> m[k] in target
    requires forall k, l :: k in m && l in m && k != l ==> m[k] != m[l]
    ensures |m| <= |target|
  {
    if m == map[] {
    } else {
      var k :| k in m;
      InjectionSize(m - {k}, target - {m[k]});
      assert m.Keys == (m - {k}).Keys + {k};
      assert |m| == |m.Keys| && |m - {k}| == |(m - {k}).Keys|;
    }
  }

  /** Every timer that runs was set for one of the five backoff delays, between half a second and eight seconds. */
  lemma EveryDelayInRange(states: seq<State>, steps: seq<Step>, i: nat, h: nat)
    requires Execution(states, steps) && i <= |steps| && h in states[i].armed
    ensures IsDelay(states[i].armed[h].progress.delayMs)
    ensures 500 <= states[i].armed[h].progress.delayMs <= 8_000
  {
    Reachable(states, steps, i);
  }

  /** The branch for an exhausted limit in the timer callback is never taken. */
  lemma LimitBranchNeverTaken(states: seq<State>, steps: seq<Step>, i: nat)
    requires Execution(states, steps) && i < |steps| && steps[i].FireTimer?
    ensures !AtLimit(states[i])
    ensures states[i].armed[steps[i].handle].candidate.id in states[i + 1].inFlight
  {
    Reachable(states, steps, i);
    assert Enabled(states[i], steps[i]) && states[i + 1] == After(states[i], steps[i]);
    FireNeverAtLimit(states[i], steps[i].handle);
  }

  predicate LivesThroughout(states: seq<State>, id: Uuid, i: nat, j: nat)
    requires i <= j < |states|
  {
    forall k :: i <= k <= j ==> id in states[k].progress
  }

  /** While a progress entry lives its start time does not move. */
  lemma {:induction false} StartNeverMoves(states: seq<State>, steps: seq<Step>, id: Uuid, i: nat, j: nat)
    requires Execution(states, steps) && i <= j <= |steps| && LivesThroughout(states, id, i, j)
    ensures states[j].progress[id].startedAt == states[i].progress[id].startedAt
    decreases j - i
  {
    hide Invariant, After, Enabled;
    if i < j {
      Reachable(states, steps, j - 1);
      assert states[j - 1 + 1] == After(states[j - 1], steps[j - 1]);
      StepKeeps(states[j - 1], steps[j - 1]);
      StartNeverMoves(states, steps, id, i, j - 1);
    }
  }

  /** A timer is armed only within ten minutes of its record's start. */
  lemma {:induction false} ArmedWithinDeadline(s: State, cs: seq<Candidate>, available: nat, clock: Clock, h: nat)
    requires h in ArmTimers(s, cs, available, clock).armed && h !in s.armed
    requires forall g :: g in s.armed ==> g < s.nextId
    ensures
      var closure := ArmTimers(s, cs, available, clock).armed[h];
      clock.check(closure.candidate.id) - closure.progress.startedAt <= 600_000
    decreases |cs|
  {
    if cs != [] && available > 0 {
      if cs[0].id in s.inFlight || cs[0].id in s.timers {
        ArmedWithinDeadline(s, cs[1..], available, clock, h);
      } else {
        var c := cs[0];
        var progress := ProgressFor(s, c, clock.start(c.id));
        var recorded := s.(progress := s.progress[c.id := progress]);
        if clock.check(c.id) - progress.startedAt > DEADLINE {
          ArmedWithinDeadline(recorded, cs[1..], available, clock, h);
        } else {
          var next := Armed(recorded, c, progress);
          ArmTimersLeaves(next, cs[1..], available - 1, clock, s.nextId);
          if h != s.nextId {
            ArmedWithinDeadline(next, cs[1..], available - 1, clock, h);
          }
        }
      }
    }
  }

  lemma {:induction false} ArmTimersLeaves(s: State, cs: seq<Candidate>, available: nat, clock: Clock, h: nat)
    requires h in s.armed && h < s.nextId
    ensures h in ArmTimers(s, cs, available, clock).armed && ArmTimers(s, cs, available, clock).armed[h] == s.armed[h]
    decreases |cs|
  {
    if cs != [] && available > 0 {
      if cs[0].id in s.inFlight || cs[0].id in s.timers {
        ArmTimersLeaves(s, cs[1..], available, clock, h);
      } else {
        var c := cs[0];
        var progress := ProgressFor(s, c, clock.start(c.id));
        var recorded := s.(progress := s.progress[c.id := progress]);
        if clock.check(c.id) - progress.startedAt > DEADLINE {
          ArmTimersLeaves(recorded, cs[1..], available, clock, h);
        } else {
          ArmTimersLeaves(Armed(recorded, c, progress), cs[1..], available - 1, clock, h);
        }
      }
    }
  }

  // ---------------------------------------------------------------- the effect as the component runs it

  /** The component's refs, beside the browser's timers and the outstanding promises. */
  class AdvanceRefs {
    var autoTimers: map<Uuid, nat>
    var autoInFlight: set<Uuid>
    var autoAdvance: map<Uuid, Progress>
    var armed: map<nat, Closure>
    var calls: map<nat, Call>
    var nextId: nat

    ghost function View(): State
      reads this
    {
      State(autoTimers, autoInFlight, autoAdvance, armed, calls, nextId)
    }

    constructor ()
      ensures View() == START
    {
      autoTimers, autoInFlight, autoAdvance, armed, calls, nextId := map[], {}, map[], map[], map[], 0;
    }

    method ClearTimeout(handle: nat)
      modifies this`armed
      ensures armed == old(armed) - {handle}
    {
      armed := armed - {handle};
    }

    /** First loop: withdraw timers whose record moved on or is no longer a candidate. */
    method DropStale(candidates: seq<Candidate>)
      requires Invariant(View())
      modifies this`autoTimers, this`armed
      ensures View() == DropStaleTimers(old(View()), candidates)
    {
      hide TimersLeft, ArmedLeft, OneCallEach, ProgressMatches, RevisionOf;
      ghost var s := View();
      NothingDroppedYet(s, candidates);
      var todo := autoTimers.Keys;
      while todo != {}
        invariant todo <= s.timers.Keys
        invariant autoTimers == TimersLeft(s, candidates, todo)
        invariant armed == ArmedLeft(s, candidates, todo)
      {
        var id :| id in todo;
        DropOne(s, candidates, todo, id);
        todo := todo - {id};
        var candidate := RevisionOf(candidates, id);
        if candidate.None? || id !in autoAdvance || autoAdvance[id].revision != candidate.value {
          ClearTimeout(autoTimers[id]);
          autoTimers := autoTimers - {id};
        }
      }
      AllDropped(s, candidates);
    }

    /** The whole effect: withdraw, forget, arm while there is room. */
    method RunEffect(candidates: seq<Candidate>, operation: bool, clock: Clock)
      requires Invariant(View())
      modifies this
      ensures View() == AfterEffect(old(View()), candidates, operation, clock)
      ensures Invariant(View())
    {
      hide Invariant, StartsKept, ArmTimers, RevisionOf, DropStaleTimers;
      ghost var s := View();
      EffectKeeps(s, candidates, operation, clock);
      if operation {
        armed := armed - autoTimers.Values;
        autoTimers := map[];
        return;
      }
      DropStale(candidates);
      autoAdvance := map id | id in autoAdvance && RevisionOf(candidates, id).Some? :: autoAdvance[id];
      assert View() == DropProgress(DropStaleTimers(s, candidates), candidates);
      var available := if MAX_CONCURRENCY >= |autoInFlight| + |autoTimers|
          then MAX_CONCURRENCY - |autoInFlight| - |autoTimers| else 0;
      ArmAll(candidates, available, clock);
    }

    /** Last loop: arm a timer for each idle candidate until the room is used up. */
    method ArmAll(candidates: seq<Candidate>, room: nat, clock: Clock)
      modifies this
      ensures View() == ArmTimers(old(View()), candidates, room, clock)
    {
      hide ArmTimers;
      ghost var target := ArmTimers(View(), candidates, room, clock);
      var available := room;
      assert candidates[0..] == candidates;
      var i := 0;
      while i < |candidates| && available > 0
        invariant i <= |candidates|
        invariant ArmTimers(View(), candidates[i..], available, clock) == target
        decreases |candidates| - i
      {
        var candidate := candidates[i];
        ArmUnfold(View(), candidates, i, available, clock);
        i := i + 1;
        if candidate.id in autoInFlight || candidate.id in autoTimers {
          continue;
        }
        var progress :=
          if candidate.id in autoAdvance && autoAdvance[candidate.id].revision == candidate.revision
              then autoAdvance[candidate.id]
          else Progress(candidate.revision, FIRST_DELAY,
                        if candidate.id in autoAdvance then autoAdvance[candidate.id].startedAt
                            else clock.start(candidate.id));
        autoAdvance := autoAdvance[candidate.id := progress];
        if clock.check(candidate.id) - progress.startedAt > DEADLINE {
          continue;
        }
        available := available - 1;
        armed := armed[nextId := Closure(candidate, progress)];
        autoTimers := autoTimers[candidate.id := nextId];
        nextId := nextId + 1;
      }
      ArmEnds(View(), candidates[i..], available, clock);
    }
  }

  lemma ArmEnds(s: State, cs: seq<Candidate>, available: nat, clock: Clock)
    requires cs == [] || available == 0
    ensures ArmTimers(s, cs, available, clock) == s
  {
  }

  lemma ArmUnfold(s: State, cs: seq<Candidate>, i: nat, available: nat, clock: Clock)
    requires i < |cs| && available > 0
    ensures
      var c := cs[i];
      var progress := ProgressFor(s, c, clock.start(c.id));
      var recorded := s.(progress := s.progress[c.id := progress]);
      ArmTimers(s, cs[i..], available, clock) ==
        if c.id in s.inFlight || c.id in s.timers then ArmTimers(s, cs[i + 1..], available, clock)
        else if clock.check(c.id) - progress.startedAt > DEADLINE
            then ArmTimers(recorded, cs[i + 1..], available, clock)
        else ArmTimers(Armed(recorded, c, progress), cs[i + 1..], available - 1, clock)
  {
    assert cs[i..][0] == cs[i] && cs[i..][1..] == cs[i + 1..];
  }

  /** The timers left while the records in `todo` have not been looked at. */
  ghost function TimersLeft(s: State, cs: seq<Candidate>, todo: set<Uuid>): map<Uuid, nat> {
    map id | id in s.timers && (id in todo || StillWanted(s, cs, id)) :: s.timers[id]
  }

  ghost function ArmedLeft(s: State, cs: seq<Candidate>, todo: set<Uuid>): map<nat, Closure> {
    map h | h in s.armed
        && (s.armed[h].candidate.id in todo || StillWanted(s, cs, s.armed[h].candidate.id)) :: s.armed[h]
  }

  lemma NothingDroppedYet(s: State, cs: seq<Candidate>)
    requires TimersMatch(s)
    ensures TimersLeft(s, cs, s.timers.Keys) == s.timers && ArmedLeft(s, cs, s.timers.Keys) == s.armed
  {
  }

  lemma DropOne(s: State, cs: seq<Candidate>, todo: set<Uuid>, id: Uuid)
    requires TimersMatch(s) && id in todo && todo <= s.timers.Keys
    ensures id in TimersLeft(s, cs, todo) && TimersLeft(s, cs, todo)[id] == s.timers[id]
    ensures StillWanted(s, cs, id) ==>
              TimersLeft(s, cs, todo - {id}) == TimersLeft(s, cs, todo)
                  && ArmedLeft(s, cs, todo - {id}) == ArmedLeft(s, cs, todo)
    ensures !StillWanted(s, cs, id) ==>
              && TimersLeft(s, cs, todo - {id}) == TimersLeft(s, cs, todo) - {id}
              && ArmedLeft(s, cs, todo - {id}) == ArmedLeft(s, cs, todo) - {s.timers[id]}
  {
    hide StillWanted;
  }

  lemma AllDropped(s: State, cs: seq<Candidate>)
    requires TimersMatch(s)
    ensures TimersLeft(s, cs, {}) == DropStaleTimers(s, cs).timers
        && ArmedLeft(s, cs, {}) == DropStaleTimers(s, cs).armed
  {
    hide StillWanted;
    forall h | h in s.armed
      ensures h in DropStaleTimers(s, cs).armed <==> StillWanted(s, cs, s.armed[h].candidate.id)
    {
      DropStaleArmed(s, cs, h);
    }
  }
}
