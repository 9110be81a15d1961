/**
 What each step of the automatic advance does for the user, said without the functions
 that compute it: which timers stay and which are armed, that no free slot is left idle,
 what a finished call leaves behind, and the backoff over whole runs.
 */
module AdvanceSteps {
  import opened Text
  import opened Uuids
  import opened AutoAdvance

  // ---------------------------------------------------------------- the effect

  /** While an operation runs no timer is armed; calls, entries and the in-flight set are left alone. */
  lemma OperationSuspends(s: State, cs: seq<Candidate>, clock: Clock)
    requires Invariant(s)
    ensures var t := AfterEffect(s, cs, true, clock);
      && t.armed == map[] && t.timers == map[]
      && t.progress == s.progress && t.inFlight == s.inFlight && t.calls == s.calls
  {
    ClearKeeps(s);
  }

  /** The record of an entry is a candidate, and the entry is for the candidate's revision. */
  predicate Current(cs: seq<Candidate>, id: Uuid, progress: Progress) {
    exists c :: c in cs && c.id == id && c.revision == progress.revision
  }

  lemma CurrentRevision(cs: seq<Candidate>, id: Uuid, progress: Progress)
    requires UniqueCandidates(cs)
    ensures Current(cs, id, progress) <==> RevisionOf(cs, id) == Some(progress.revision)
  {
    if RevisionOf(cs, id).Some? {
      var c := Candidate(id, RevisionOf(cs, id).value);
      assert c in cs;
      forall d | d in cs && d.id == id
        ensures d == c
      {
        var i :| 0 <= i < |cs| && cs[i] == c;
        var j :| 0 <= j < |cs| && cs[j] == d;
      }
    }
  }

  /** A timer that is armed already stays exactly when its record is still at the revision it was armed for. */
  lemma TimerStaysWhileCurrent(s: State, cs: seq<Candidate>, h: nat)
    requires Invariant(s) && UniqueCandidates(cs) && h in s.armed
    ensures h in DropStaleTimers(s, cs).armed <==> Current(cs, s.armed[h].candidate.id, s.armed[h].progress)
  {
    hide OneCallEach, Unused, IsDelay;
    DropStaleArmed(s, cs, h);
    CurrentRevision(cs, s.armed[h].candidate.id, s.armed[h].progress);
  }

  /** Arming changes an entry only to begin it anew with the first delay. */
  predicate Begun(s: State, id: Uuid, progress: Progress) {
    progress.delayMs == 500 || (id in s.progress && progress == s.progress[id])
  }

  /** What the arming loop adds: timers for listed records that had none, for their listed revision. */
  lemma {:induction false} ArmingAdds(s: State, cs: seq<Candidate>, available: nat, clock: Clock)
    requires forall g :: g in s.armed ==> g < s.nextId
    ensures var t := ArmTimers(s, cs, available, clock);
      && (forall h :: h in s.armed ==> h in t.armed && t.armed[h] == s.armed[h])
      && (forall h :: h in t.armed && h !in s.armed ==>
            && t.armed[h].candidate in cs && t.armed[h].progress.revision == t.armed[h].candidate.revision
            && t.armed[h].candidate.id !in s.inFlight && t.armed[h].candidate.id !in s.timers)
      && (forall id :: id in t.progress ==> Begun(s, id, t.progress[id]))
      && t.inFlight == s.inFlight && t.calls == s.calls
    decreases |cs|
  {
    if cs == [] || available == 0 {
    } else {
      var c := cs[0];
      assert forall d :: d in cs[1..] ==> d in cs;
      var progress := ProgressFor(s, c, clock.start(c.id));
      var recorded := s.(progress := s.progress[c.id := progress]);
      if c.id in s.inFlight || c.id in s.timers {
        ArmingAdds(s, cs[1..], available, clock);
      } else if clock.check(c.id) - progress.startedAt > DEADLINE {
        ArmingAdds(recorded, cs[1..], available, clock);
      } else {
        ArmingAdds(Armed(recorded, c, progress), cs[1..], available - 1, clock);
      }
    }
  }

  /** The record is being worked on, or has used up its ten minutes. */
  predicate Served(s: State, clock: Clock, id: Uuid) {
    || id in s.inFlight || id in s.timers
    || (id in s.progress && clock.check(id) - s.progress[id].startedAt > 600_000)
  }

  lemma {:induction false} ArmingKeepsServed(s: State, cs: seq<Candidate>, available: nat, clock: Clock, id: Uuid)
    requires Served(s, clock, id) && forall c :: c in cs ==> c.id != id || id in s.inFlight || id in s.timers
    ensures Served(ArmTimers(s, cs, available, clock), clock, id)
    decreases |cs|
  {
    if cs == [] || available == 0 {
    } else {
      var c := cs[0];
      assert forall d :: d in cs[1..] ==> d in cs;
      var progress := ProgressFor(s, c, clock.start(c.id));
      var recorded := s.(progress := s.progress[c.id := progress]);
      if c.id in s.inFlight || c.id in s.timers {
        ArmingKeepsServed(s, cs[1..], available, clock, id);
      } else if clock.check(c.id) - progress.startedAt > DEADLINE {
        ArmingKeepsServed(recorded, cs[1..], available, clock, id);
      } else {
        ArmingKeepsServed(Armed(recorded, c, progress), cs[1..], available - 1, clock, id);
      }
    }
  }

  /** The arming loop leaves no slot idle: it fills all the room there is, or serves every record listed. */
  lemma {:induction false} NoSlotLeftIdle(s: State, cs: seq<Candidate>, available: nat, clock: Clock)
    requires UniqueCandidates(cs)
    ensures var t := ArmTimers(s, cs, available, clock);
      |t.timers| == |s.timers| + available || forall c :: c in cs ==> Served(t, clock, c.id)
    decreases |cs|, 0
  {
    hide Served, ProgressFor, ArmTimers, UniqueCandidates;
    if cs == [] || available == 0 {
      ArmEnds(s, cs, available, clock);
    } else {
      var c, rest := cs[0], cs[1..];
      RestUnique(cs);
      ArmUnfold(s, cs, 0, available, clock);
      assert cs[0..] == cs;
      var progress := ProgressFor(s, c, clock.start(c.id));
      var recorded := s.(progress := s.progress[c.id := progress]);
      if c.id in s.inFlight || c.id in s.timers {
        IdleNowhere(s, c, rest, available, clock);
      } else if clock.check(c.id) - progress.startedAt > DEADLINE {
        IdleNowhere(recorded, c, rest, available, clock);
      } else {
        OneMore(s.timers, c.id, s.nextId);
        IdleNowhere(Armed(recorded, c, progress), c, rest, available - 1, clock);
      }
      assert forall d :: d in cs ==> d == c || d in rest;
    }
  }

  /** One candidate is served already; the rest follows. */
  lemma {:induction false} IdleNowhere(s: State, c: Candidate, rest: seq<Candidate>, available: nat, clock: Clock)
    requires UniqueCandidates(rest) && forall d :: d in rest ==> d.id != c.id
    requires || c.id in s.inFlight || c.id in s.timers
             || (c.id in s.progress && clock.check(c.id) - s.progress[c.id].startedAt > DEADLINE)
    ensures var t := ArmTimers(s, rest, available, clock);
      || |t.timers| == |s.timers| + available
      || (Served(t, clock, c.id) && forall d :: d in rest ==> Served(t, clock, d.id))
    decreases |rest|, 1
  {
    hide Served, ArmTimers, UniqueCandidates;
    ServedBy(s, clock, c.id);
    NoSlotLeftIdle(s, rest, available, clock);
    ArmingKeepsServed(s, rest, available, clock, c.id);
  }

  lemma ServedBy(s: State, clock: Clock, id: Uuid)
    requires || id in s.inFlight || id in s.timers
             || (id in s.progress && clock.check(id) - s.progress[id].startedAt > DEADLINE)
    ensures Served(s, clock, id)
  {
  }

  lemma RestUnique(cs: seq<Candidate>)
    requires UniqueCandidates(cs) && cs != []
    ensures UniqueCandidates(cs[1..]) && forall c :: c in cs[1..] ==> c.id != cs[0].id
  {
    forall c | c in cs[1..]
      ensures c.id != cs[0].id
    {
      var i :| 0 <= i < |cs[1..]| && cs[1..][i] == c;
      assert cs[i + 1] == c;
    }
  }

  /**
   The effect outside an operation: every armed timer is for a listed record at its listed
   revision, entries are kept or begun anew and only for listed records, and either two
   records are being worked on or every listed one is served.
   */
  lemma EffectServes(s: State, cs: seq<Candidate>, clock: Clock)
    requires Invariant(s) && UniqueCandidates(cs)
    ensures var t := AfterEffect(s, cs, false, clock);
      && (forall h :: h in t.armed ==> Current(cs, t.armed[h].candidate.id, t.armed[h].progress))
      && (forall h :: h in s.armed && Current(cs, s.armed[h].candidate.id, s.armed[h].progress) ==>
            h in t.armed && t.armed[h] == s.armed[h])
      && (forall id :: id in t.progress ==> RevisionOf(cs, id).Some? && Begun(s, id, t.progress[id]))
      && (|t.timers| + |t.inFlight| == 2 || forall c :: c in cs ==> Served(t, clock, c.id))
  {
    hide Invariant, ArmTimers, Current, Served, DropStaleTimers;
    var dropped := DropStaleTimers(s, cs);
    var cleaned := DropProgress(dropped, cs);
    DropStaleKeeps(s, cs);
    DropProgressKeeps(dropped, cs);
    Room(cleaned);
    ArmingAdds(cleaned, cs, Available(cleaned), clock);
    NoSlotLeftIdle(cleaned, cs, Available(cleaned), clock);
    EntriesListed(cleaned, cs, Available(cleaned), clock);
    StaleDropped(s, cs);
    forall h | h in s.armed
      ensures h in dropped.armed <==> Current(cs, s.armed[h].candidate.id, s.armed[h].progress)
    {
      TimerStaysWhileCurrent(s, cs, h);
    }
    var t := ArmTimers(cleaned, cs, Available(cleaned), clock);
    forall h | h in t.armed && h !in cleaned.armed
      ensures Current(cs, t.armed[h].candidate.id, t.armed[h].progress)
    {
      ListedIsCurrent(cs, t.armed[h]);
    }
  }

  lemma ListedIsCurrent(cs: seq<Candidate>, closure: Closure)
    requires closure.candidate in cs && closure.progress.revision == closure.candidate.revision
    ensures Current(cs, closure.candidate.id, closure.progress)
  {
  }

  lemma Room(s: State)
    requires Invariant(s)
    ensures |s.timers| + |s.inFlight| + Available(s) == 2
    ensures forall g :: g in s.armed ==> g < s.nextId
  {
  }

  lemma StaleDropped(s: State, cs: seq<Candidate>)
    ensures var t := DropStaleTimers(s, cs);
      && t.progress == s.progress && t.inFlight == s.inFlight && t.calls == s.calls
      && forall h :: h in t.armed ==> h in s.armed && t.armed[h] == s.armed[h]
  {
  }

  lemma EntriesListed(s: State, cs: seq<Candidate>, available: nat, clock: Clock)
    requires forall id :: id in s.progress ==> RevisionOf(cs, id).Some?
    ensures forall id :: id in ArmTimers(s, cs, available, clock).progress ==> RevisionOf(cs, id).Some?
  {
    forall id | id in ArmTimers(s, cs, available, clock).progress && id !in s.progress
      ensures RevisionOf(cs, id).Some?
    {
      ArmTimersAdds(s, cs, available, clock, id);
    }
  }

  // ---------------------------------------------------------------- timers, calls and actions

  /** A timer that fires becomes a call for what it captured; nothing else changes. */
  lemma FireStartsCall(s: State, handle: nat)
    requires Invariant(s) && handle in s.armed
    ensures var t, closure := AfterFire(s, handle), s.armed[handle];
      && handle !in t.armed && closure.candidate.id !in t.timers && closure.candidate.id in t.inFlight
      && (exists call: nat :: call !in s.calls && t.calls == s.calls[call := Call(closure, false)])
      && t.progress == s.progress
          && (forall h :: h in s.armed && h != handle ==> h in t.armed && t.armed[h] == s.armed[h])
  {
    FireNeverAtLimit(s, handle);
    assert s.nextId !in s.calls;
  }

  /** `min(500 * 2^k, 8000)` */
  function Backoff(k: nat): int {
    if k == 0 then 500 else if Backoff(k - 1) >= 4_000 then 8_000 else 2 * Backoff(k - 1)
  }

  /**
   A call that succeeds and leaves its record at a checkpoint stores the returned revision,
   the same start, and twice its delay up to eight seconds; otherwise the entry is forgotten.
   */
  lemma SuccessBacksOff(s: State, call: nat, next: Option<nat>)
    requires call in s.calls
    ensures var t, closure := AfterSuccess(s, call, next), s.calls[call].closure;
      var id, delay := closure.candidate.id, closure.progress.delayMs;
      && (next.None? ==> t.progress == s.progress - {id})
      && (next.Some? ==>
            && id in t.progress && t.progress[id].revision == next.value
            && t.progress[id].startedAt == closure.progress.startedAt
            && t.progress[id].delayMs == (if delay >= 4_000 then 8_000 else 2 * delay))
      && (forall other :: other != id ==> (other in t.progress <==> other in s.progress))
      && (forall other :: other != id && other in s.progress ==> t.progress[other] == s.progress[other])
      && t.timers == s.timers && t.armed == s.armed && t.inFlight == s.inFlight
  {
  }

  /** A call that fails leaves its entry, so it is tried again after the same delay; ending a call frees its slot. */
  lemma CallEnds(s: State, call: nat)
    requires Invariant(s) && call in s.calls
    ensures AfterFailure(s, call).progress == s.progress && AfterFailure(s, call).inFlight == s.inFlight
    ensures var t := AfterFinally(s, call);
      && s.calls[call].closure.candidate.id !in t.inFlight && call !in t.calls && t.progress == s.progress
      && |t.inFlight| == |s.inFlight| - 1 && t.timers == s.timers && t.armed == s.armed
  {
    var id := s.calls[call].closure.candidate.id;
    assert s.inFlight == (s.inFlight - {id}) + {id};
  }

  /** An action on a record withdraws its timer and forgets its entry, and touches no other record. */
  lemma ActionWithdraws(s: State, id: Uuid)
    requires Invariant(s)
    ensures var t := AfterAction(s, id);
      && id !in t.timers && id !in t.progress && (forall h :: h in t.armed ==> t.armed[h].candidate.id != id)
      && (forall h :: h in s.armed && s.armed[h].candidate.id != id ==> h in t.armed && t.armed[h] == s.armed[h])
      && (forall other :: other in s.progress && other != id ==>
          other in t.progress && t.progress[other] == s.progress[other])
      && t.inFlight == s.inFlight && t.calls == s.calls
  {
    hide OneCallEach, ProgressMatches, Bounded, Unused;
  }

  // ---------------------------------------------------------------- the backoff over runs

  /** How many successful calls in a row stand behind each entry, timer and call. */
  datatype Levels = Levels(entries: map<Uuid, nat>, timers: map<nat, nat>, calls: map<nat, nat>)

  function Succeeded(s: State, step: Step): Option<Uuid> {
    if step.CallSucceeds? && step.next.Some? && step.call in s.calls then Some(s.calls[step.call].closure.candidate.id)
    else None
  }

  function EntryLevel(l: Levels, s: State, step: Step, s': State, id: Uuid): nat
    requires id in s'.progress
  {
    if Succeeded(s, step) == Some(id) then (if step.call in l.calls then l.calls[step.call] + 1 else 0)
    else if id in s.progress && s'.progress[id] == s.progress[id] && id in l.entries then l.entries[id]
    else 0
  }

  /** An entry gains one by a success and starts at none; timers and calls take over what they captured. */
  function NextLevels(l: Levels, s: State, step: Step, s': State): Levels {
    var entries := map id | id in s'.progress :: EntryLevel(l, s, step, s', id);
    var timers := map h | h in s'.armed ::
      if h in l.timers && h in s.armed then l.timers[h]
      else if s'.armed[h].candidate.id in entries then entries[s'.armed[h].candidate.id] else 0;
    var calls := map c | c in s'.calls ::
      if c in l.calls && c in s.calls then l.calls[c]
      else if step.FireTimer? && step.handle in l.timers then l.timers[step.handle] else 0;
    Levels(entries, timers, calls)
  }

  predicate BackedOff(s: State, l: Levels) {
    && l.entries.Keys == s.progress.Keys && l.timers.Keys == s.armed.Keys && l.calls.Keys == s.calls.Keys
    && (forall id :: id in s.progress ==> s.progress[id].delayMs == Backoff(l.entries[id]))
    && (forall h :: h in s.armed ==> s.armed[h].progress.delayMs == Backoff(l.timers[h]))
    && (forall c :: c in s.calls ==> s.calls[c].closure.progress.delayMs == Backoff(l.calls[c]))
  }

  function LevelsAt(states: seq<State>, steps: seq<Step>, i: nat): Levels
    requires |states| == |steps| + 1 && i <= |steps|
  {
    if i == 0 then Levels(map[], map[], map[])
    else NextLevels(LevelsAt(states, steps, i - 1), states[i - 1], steps[i - 1], states[i])
  }

  lemma EntriesBackedOff(s: State, l: Levels, step: Step, id: Uuid)
    requires Invariant(s) && Enabled(s, step) && BackedOff(s, l) && id in After(s, step).progress
    ensures After(s, step).progress[id].delayMs == Backoff(EntryLevel(l, s, step, After(s, step), id))
  {
    hide Invariant, AfterEffect, AfterSuccess, AfterFire;
    var s' := After(s, step);
    match step
    case RunEffect(cs, operation, clock) =>
      EntriesBegun(s, cs, operation, clock, id);
      assert Backoff(0) == 500;
    case FireTimer(handle) =>
      FireStartsCall(s, handle);
    case CallSucceeds(call, next) =>
      SuccessBacksOff(s, call, next);
      assert Backoff(l.calls[call] + 1) == if Backoff(l.calls[call]) >= 4_000 then 8_000
          else 2 * Backoff(l.calls[call]);
    case _ =>
  }

  lemma EntriesBegun(s: State, cs: seq<Candidate>, operation: bool, clock: Clock, id: Uuid)
    requires Invariant(s) && UniqueCandidates(cs) && id in AfterEffect(s, cs, operation, clock).progress
    ensures Begun(s, id, AfterEffect(s, cs, operation, clock).progress[id])
  {
    hide Invariant, AfterEffect, Begun;
    if operation {
      OperationSuspends(s, cs, clock);
      KeptIsBegun(s, id);
    } else {
      EffectServes(s, cs, clock);
    }
  }

  lemma KeptIsBegun(s: State, id: Uuid)
    requires id in s.progress
    ensures Begun(s, id, s.progress[id])
  {
  }

  /** A call of the next state was there before, or is the timer that fired. */
  lemma CallsCome(s: State, step: Step, c: nat)
    requires Invariant(s) && Enabled(s, step) && c in After(s, step).calls
    ensures c in s.calls ==> After(s, step).calls[c].closure == s.calls[c].closure
    ensures c !in s.calls ==> step.FireTimer? && After(s, step).calls[c].closure == s.armed[step.handle]
  {
    hide Invariant;
    match step
    case RunEffect(cs, operation, clock) => CallsLeft(s, cs, operation, clock);
    case FireTimer(_) => NumberFree(s);
    case _ =>
  }

  lemma NumberFree(s: State)
    requires Invariant(s)
    ensures s.nextId !in s.calls
  {
  }

  lemma CallsLeft(s: State, cs: seq<Candidate>, operation: bool, clock: Clock)
    ensures AfterEffect(s, cs, operation, clock).calls == s.calls
  {
    var cleaned := DropProgress(DropStaleTimers(s, cs), cs);
    ArmingLeavesCalls(cleaned, cs, Available(cleaned), clock);
  }

  lemma {:induction false} ArmingLeavesCalls(s: State, cs: seq<Candidate>, available: nat, clock: Clock)
    ensures ArmTimers(s, cs, available, clock).calls == s.calls
    decreases |cs|
  {
    if cs == [] || available == 0 {
    } else {
      var c := cs[0];
      var progress := ProgressFor(s, c, clock.start(c.id));
      var recorded := s.(progress := s.progress[c.id := progress]);
      ArmingLeavesCalls(s, cs[1..], available, clock);
      ArmingLeavesCalls(recorded, cs[1..], available, clock);
      ArmingLeavesCalls(Armed(recorded, c, progress), cs[1..], available - 1, clock);
    }
  }

  /** A timer of the next state was there before with the same closure, or captured the entry as it now is. */
  lemma TimersCome(s: State, step: Step, h: nat)
    requires Invariant(s) && Enabled(s, step) && h in After(s, step).armed
    ensures h in s.armed ==> After(s, step).armed[h] == s.armed[h]
    ensures var id := After(s, step).armed[h].candidate.id;
      id in After(s, step).progress && After(s, step).progress[id] == After(s, step).armed[h].progress
  {
    hide Invariant, AfterEffect;
    StepKeeps(s, step);
    Captured(After(s, step), h);
    match step
    case RunEffect(cs, operation, clock) =>
      if h in s.armed {
        TimersLeft(s, cs, operation, clock, h);
      }
    case _ =>
  }

  lemma Captured(s: State, h: nat)
    requires Invariant(s) && h in s.armed
    ensures s.armed[h].candidate.id in s.progress && s.progress[s.armed[h].candidate.id] == s.armed[h].progress
  {
  }

  lemma TimersLeft(s: State, cs: seq<Candidate>, operation: bool, clock: Clock, h: nat)
    requires Invariant(s) && h in s.armed && h in AfterEffect(s, cs, operation, clock).armed
    ensures AfterEffect(s, cs, operation, clock).armed[h] == s.armed[h]
  {
    hide Invariant, ArmTimers;
    if operation {
    } else {
      var cleaned := DropProgress(DropStaleTimers(s, cs), cs);
      HandlesUsed(s);
      if h in cleaned.armed {
        ArmTimersLeaves(cleaned, cs, Available(cleaned), clock, h);
      } else {
        NewHandles(cleaned, cs, Available(cleaned), clock, h);
      }
    }
  }

  lemma HandlesUsed(s: State)
    requires Invariant(s)
    ensures forall h :: h in s.armed ==> h < s.nextId
  {
  }

  lemma {:induction false} NewHandles(s: State, cs: seq<Candidate>, available: nat, clock: Clock, h: nat)
    requires h < s.nextId && h !in s.armed
    ensures h !in ArmTimers(s, cs, available, clock).armed
    decreases |cs|
  {
    if cs == [] || available == 0 {
    } else {
      var c := cs[0];
      var progress := ProgressFor(s, c, clock.start(c.id));
      var recorded := s.(progress := s.progress[c.id := progress]);
      NewHandles(s, cs[1..], available, clock, h);
      NewHandles(recorded, cs[1..], available, clock, h);
      NewHandles(Armed(recorded, c, progress), cs[1..], available - 1, clock, h);
    }
  }

  lemma StepBacksOff(s: State, l: Levels, step: Step)
    requires Invariant(s) && Enabled(s, step) && BackedOff(s, l)
    ensures BackedOff(After(s, step), NextLevels(l, s, step, After(s, step)))
  {
    hide Invariant, After, EntryLevel, Backoff;
    var s' := After(s, step);
    forall id | id in s'.progress
      ensures s'.progress[id].delayMs == Backoff(EntryLevel(l, s, step, s', id))
    {
      EntriesBackedOff(s, l, step, id);
    }
    forall h | h in s'.armed
      ensures h in s.armed ==> s'.armed[h] == s.armed[h]
      ensures s'.armed[h].candidate.id in s'.progress
      ensures s'.progress[s'.armed[h].candidate.id] == s'.armed[h].progress
    {
      TimersCome(s, step, h);
    }
    forall c | c in s'.calls
      ensures c in s.calls ==> s'.calls[c].closure == s.calls[c].closure
      ensures c !in s.calls ==> step.FireTimer? && step.handle in s.armed && s'.calls[c].closure == s.armed[step.handle]
    {
      CallsCome(s, step, c);
    }
  }

  /**
   In every reachable state the delay of every entry, timer and call is 500 ms doubled for
   each successful call in a row behind it, up to 8000 ms.
   */
  lemma {:induction false} BackoffExact(states: seq<State>, steps: seq<Step>, i: nat)
    requires Execution(states, steps) && i <= |steps|
    ensures BackedOff(states[i], LevelsAt(states, steps, i))
  {
    hide Invariant, After, Enabled, NextLevels, BackedOff;
    if i == 0 {
      NothingYet();
    } else {
      BackoffExact(states, steps, i - 1);
      Reachable(states, steps, i - 1);
      assert Enabled(states[i - 1], steps[i - 1]) && states[i - 1 + 1] == After(states[i - 1], steps[i - 1]);
      StepBacksOff(states[i - 1], LevelsAt(states, steps, i - 1), steps[i - 1]);
    }
  }

  lemma NothingYet()
    ensures BackedOff(START, Levels(map[], map[], map[]))
  {
  }

  /** The delays in closed form. */
  lemma {:induction false} BackoffValues(k: nat)
    ensures Backoff(0) == 500 && Backoff(1) == 1_000 && Backoff(2) == 2_000 && Backoff(3) == 4_000
    ensures k >= 4 ==> Backoff(k) == 8_000
  {
    assert Backoff(1) == 1_000;
    assert Backoff(2) == 2_000;
    assert Backoff(3) == 4_000;
    if k <= 4 {
    } else {
      BackoffValues(k - 1);
    }
  }
}
