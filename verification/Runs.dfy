/**
 One attempt at a job: the state graph, the transition that stamps times, the check of
 stored evidence, and what every history of a queued run satisfies.
 */
module Runs {
  import opened Text

  datatype JobState = Queued | Preparing | Running | Verifying | Succeeded | Failed | Cancelled

  predicate Terminal(s: JobState) {
    s.Succeeded? || s.Failed? || s.Cancelled?
  }

  predicate CanTransition(s: JobState, next: JobState) {
    match s
    case Queued => next.Preparing? || next.Failed? || next.Cancelled?
    case Preparing => next.Running? || next.Failed? || next.Cancelled?
    case Running => next.Verifying? || next.Succeeded? || next.Failed? || next.Cancelled?
    case Verifying => next.Succeeded? || next.Failed? || next.Cancelled?
    case _ => false
  }

  datatype RunView = RunView(
    state: JobState,
    createdAt: int,
    startedAt: Option<int>,
    finishedAt: Option<int>,
    exitCode: Option<int>,
    error: Option<string>)

  function QueuedAt(now: int): RunView {
    RunView(Queued, now, None, None, None, None)
  }

  function After(r: RunView, next: JobState, now: int): RunView {
    if !CanTransition(r.state, next) then r
    else r.(
      startedAt := if next.Running? && r.startedAt.None? then Some(now) else r.startedAt,
      finishedAt := if Terminal(next) then Some(now) else r.finishedAt,
      state := next)
  }

  class Run {
    var state: JobState
    const createdAt: int
    var startedAt: Option<int>
    var finishedAt: Option<int>
    var exitCode: Option<int>
    var error: Option<string>

    function View(): RunView
      reads this
    {
      RunView(state, createdAt, startedAt, finishedAt, exitCode, error)
    }

    constructor (now: int)
      ensures View() == QueuedAt(now)
    {
      state, createdAt := Queued, now;
      startedAt, finishedAt, exitCode, error := None, None, None, None;
    }

    method Transition(next: JobState, now: int) returns (ok: bool)
      modifies this
      ensures ok <==> CanTransition(old(state), next)
      ensures View() == After(old(View()), next, now)
    {
      if !CanTransition(state, next) {
        return false;
      }
      if next == Running && startedAt.None? {
        startedAt := Some(now);
      }
      if Terminal(next) {
        finishedAt := Some(now);
      }
      state := next;
      return true;
    }
  }

  // ---------------------------------------------------------------- stored evidence

  datatype RunError =
    | StartedBeforeCreated
    | FinishedBeforeCreated
    | FinishedBeforeStarted
    | UnexpectedFinishedAt
    | MissingStartedAt
    | MissingFinishedAt
    | InvalidSuccessExitCode
    | SuccessContainsError
    | FailedWithoutEvidence

  function Validate(r: RunView): Option<RunError> {
    if r.startedAt.Some? && r.startedAt.value < r.createdAt then Some(StartedBeforeCreated)
    else if r.finishedAt.Some? && r.finishedAt.value < r.createdAt then Some(FinishedBeforeCreated)
    else if r.startedAt.Some? && r.finishedAt.Some? && r.finishedAt.value < r.startedAt.value
    then Some(FinishedBeforeStarted)
    else
      match r.state
      case Queued => if r.finishedAt.Some? then Some(UnexpectedFinishedAt) else None
      case Preparing => if r.finishedAt.Some? then Some(UnexpectedFinishedAt) else None
      case Running => ValidateActive(r)
      case Verifying => ValidateActive(r)
      case Succeeded =>
        if r.startedAt.None? then Some(MissingStartedAt)
        else if r.finishedAt.None? then Some(MissingFinishedAt)
        else if r.exitCode != Some(0) then Some(InvalidSuccessExitCode)
        else if r.error.Some? && r.error.value != "" then Some(SuccessContainsError)
        else None
      case Failed =>
        if r.finishedAt.None? then Some(MissingFinishedAt)
        else if !FailureEvidence(r) then Some(FailedWithoutEvidence)
        else None
      case Cancelled => if r.finishedAt.None? then Some(MissingFinishedAt) else None
  }

  function ValidateActive(r: RunView): Option<RunError> {
    if r.startedAt.None? then Some(MissingStartedAt)
    else if r.finishedAt.Some? then Some(UnexpectedFinishedAt)
    else None
  }

  predicate FailureEvidence(r: RunView) {
    || (r.exitCode.Some? && r.exitCode.value != 0)
    || (r.error.Some? && !Blank(r.error.value))
  }

  predicate SuccessEvidence(r: RunView) {
    r.exitCode == Some(0) && (r.error.None? || r.error.value == "")
  }

  /** What stored evidence must satisfy, state by state. */
  predicate GoodEvidence(r: RunView) {
    && (r.startedAt.Some? ==> r.createdAt <= r.startedAt.value)
    && (r.finishedAt.Some? ==> r.createdAt <= r.finishedAt.value)
    && (r.startedAt.Some? && r.finishedAt.Some? ==> r.startedAt.value <= r.finishedAt.value)
    && (r.finishedAt.Some? <==> r.state in {Succeeded, Failed, Cancelled})
    && (r.state in {Running, Verifying, Succeeded} ==> r.startedAt.Some?)
    && (r.state == Succeeded ==> r.exitCode == Some(0) && (r.error.Some? ==> r.error.value == ""))
    && (r.state == Failed ==>
          (r.exitCode.Some? && r.exitCode.value != 0)
              || (r.error.Some? && exists c :: c in r.error.value && !IsWhitespace(c)))
  }

  /** What an error says is wrong. */
  predicate Defect(r: RunView, e: RunError) {
    match e
    case StartedBeforeCreated => r.startedAt.Some? && r.startedAt.value < r.createdAt
    case FinishedBeforeCreated => r.finishedAt.Some? && r.finishedAt.value < r.createdAt
    case FinishedBeforeStarted =>
      r.startedAt.Some? && r.finishedAt.Some? && r.finishedAt.value < r.startedAt.value
    case UnexpectedFinishedAt => r.finishedAt.Some? && r.state in {Queued, Preparing, Running, Verifying}
    case MissingStartedAt => r.startedAt.None? && r.state in {Running, Verifying, Succeeded}
    case MissingFinishedAt => r.finishedAt.None? && r.state in {Succeeded, Failed, Cancelled}
    case InvalidSuccessExitCode => r.state == Succeeded && r.exitCode != Some(0)
    case SuccessContainsError => r.state == Succeeded && r.error.Some? && r.error.value != ""
    case FailedWithoutEvidence => r.state == Failed && !FailureEvidence(r)
  }

  /** Any run at all, however it came to be stored: accepted exactly with good evidence, and an error names a defect. */
  lemma ValidateExact(r: RunView)
    ensures Validate(r) == None <==> GoodEvidence(r)
    ensures Validate(r).Some? ==> Defect(r, Validate(r).value)
  {
  }

  // ---------------------------------------------------------------- histories

  /** A step of a run's life: a requested transition, or evidence recorded by its owner. */
  datatype Event = Move(next: JobState, now: int) | Record(exitCode: Option<int>, error: Option<string>)

  function Apply(r: RunView, e: Event): RunView {
    match e
    case Move(next, now) => After(r, next, now)
    case Record(exitCode, error) => r.(exitCode := exitCode, error := error)
  }

  function History(r: RunView, events: seq<Event>): RunView
    decreases events
  {
    if events == [] then r else History(Apply(r, events[0]), events[1..])
  }

  predicate Moves(r: RunView, e: Event) {
    e.Move? && CanTransition(r.state, e.next)
  }

  /** How many of the requested transitions are carried out. */
  function Taken(r: RunView, events: seq<Event>): nat
    decreases events
  {
    if events == [] then 0
    else (if Moves(r, events[0]) then 1 else 0) + Taken(Apply(r, events[0]), events[1..])
  }

  /** The clock never goes back, from `since` on. */
  predicate ClockFrom(since: int, events: seq<Event>)
    decreases events
  {
    if events == [] then true
    else if events[0].Move? then since <= events[0].now && ClockFrom(events[0].now, events[1..])
    else ClockFrom(since, events[1..])
  }

  predicate Sound(r: RunView, clock: int) {
    && r.createdAt <= clock
    && (r.startedAt.Some? ==> r.createdAt <= r.startedAt.value <= clock)
    && (r.finishedAt.Some? ==> r.createdAt <= r.finishedAt.value <= clock)
    && (r.startedAt.Some? && r.finishedAt.Some? ==> r.startedAt.value <= r.finishedAt.value)
    && (r.finishedAt.Some? <==> Terminal(r.state))
    && (r.state.Running? || r.state.Verifying? || r.state.Succeeded? ==> r.startedAt.Some?)
    && (r.state.Queued? || r.state.Preparing? ==> r.startedAt.None?)
  }

  function Remaining(s: JobState): nat {
    match s
    case Queued => 4
    case Preparing => 3
    case Running => 2
    case Verifying => 1
    case _ => 0
  }

  /** The fewest transitions from the queue to a state. */
  function Distance(s: JobState): nat {
    match s
    case Queued => 0
    case Preparing => 1
    case Running => 2
    case Verifying => 3
    case Succeeded => 3
    case _ => 1
  }

  /**
   The graph in one line: an unfinished run may fail, be cancelled, or go on to the next
   stage, and verification may be skipped.
   */
  lemma EdgesExact(s: JobState, next: JobState)
    ensures CanTransition(s, next) <==>
      && !Terminal(s)
      && (next.Failed? || next.Cancelled? || Stage(next) == Stage(s) + 1 || (s.Running? && next.Succeeded?))
    ensures CanTransition(s, next) ==> Remaining(next) < Remaining(s) && Distance(next) <= Distance(s) + 1
  {
  }

  function Stage(s: JobState): nat {
    match s
    case Queued => 0
    case Preparing => 1
    case Running => 2
    case Verifying => 3
    case Succeeded => 4
    case _ => 6
  }

  /** Soundness is kept by every event, and every carried-out transition uses up one of those remaining. */
  lemma {:induction false} HistorySound(r: RunView, clock: int, events: seq<Event>) returns (later: int)
    requires Sound(r, clock) && ClockFrom(clock, events)
    ensures Sound(History(r, events), later)
    ensures Taken(r, events) + Remaining(History(r, events).state) <= Remaining(r.state)
    ensures Distance(History(r, events).state) <= Distance(r.state) + Taken(r, events)
    decreases events
  {
    later := clock;
    if events == [] {
    } else {
      var e := events[0];
      later := HistorySound(Apply(r, e), if e.Move? then e.now else clock, events[1..]);
    }
  }

  /** A sound run validates except that success and failure need the right evidence. */
  lemma SoundValidates(r: RunView, clock: int)
    requires Sound(r, clock)
    ensures Validate(r) == None <==>
      && (r.state.Succeeded? ==> SuccessEvidence(r))
      && (r.state.Failed? ==> FailureEvidence(r))
  {
  }

  /** Every history of a queued run under a clock that never goes back. */
  lemma EveryHistory(created: int, events: seq<Event>)
    requires ClockFrom(created, events)
    ensures var r := History(QueuedAt(created), events);
      && Distance(r.state) <= Taken(QueuedAt(created), events) <= 4
      && (r.state.Succeeded? ==> r.startedAt.Some?)
      && (!Terminal(r.state) || r.state.Cancelled? ==> Validate(r) == None)
      && (r.state.Succeeded? ==> (Validate(r) == None <==> SuccessEvidence(r)))
      && (r.state.Failed? ==> (Validate(r) == None <==> FailureEvidence(r)))
  {
    var later := HistorySound(QueuedAt(created), created, events);
    SoundValidates(History(QueuedAt(created), events), later);
  }

  /** The time of the first transition into Running that is carried out. */
  function FirstStart(r: RunView, events: seq<Event>): Option<int>
    decreases events
  {
    if events == [] then None
    else if Moves(r, events[0]) && events[0].next.Running? then Some(events[0].now)
    else FirstStart(Apply(r, events[0]), events[1..])
  }

  /** The time of the transition into a terminal state, if one is carried out. */
  function Finish(r: RunView, events: seq<Event>): Option<int>
    decreases events
  {
    if events == [] then None
    else if Moves(r, events[0]) && Terminal(events[0].next) then Some(events[0].now)
    else Finish(Apply(r, events[0]), events[1..])
  }

  /** The recorded start is the time of the first move into Running, the recorded finish that of the terminal move. */
  lemma {:induction false} TimesExact(r: RunView, events: seq<Event>)
    requires r.finishedAt.Some? ==> Terminal(r.state)
    ensures r.startedAt.None? ==> History(r, events).startedAt == FirstStart(r, events)
    ensures r.startedAt.Some? ==> History(r, events).startedAt == r.startedAt
    ensures r.finishedAt.None? ==> History(r, events).finishedAt == Finish(r, events)
    ensures r.finishedAt.Some? ==> History(r, events).finishedAt == r.finishedAt
    decreases events
  {
    if events == [] {
    } else {
      var e := events[0];
      TimesExact(Apply(r, e), events[1..]);
      if Moves(r, e) && e.next.Running? {
        StartStays(Apply(r, e), events[1..]);
      }
    }
  }

  /** The recorded evidence and creation time are whatever was last recorded. */
  lemma {:induction false} EvidenceKept(r: RunView, events: seq<Event>)
    ensures History(r, events).createdAt == r.createdAt
    ensures (forall i :: 0 <= i < |events| ==> events[i].Move?) ==>
      History(r, events).exitCode == r.exitCode && History(r, events).error == r.error
    decreases events
  {
    if events == [] {
    } else {
      EvidenceKept(Apply(r, events[0]), events[1..]);
    }
  }

  /** From a terminal state nothing moves: state and both times stay as they are. */
  lemma {:induction false} TerminalStays(r: RunView, events: seq<Event>)
    requires Terminal(r.state)
    ensures var s := History(r, events); s == r.(exitCode := s.exitCode, error := s.error)
    ensures Taken(r, events) == 0
    decreases events
  {
    if events == [] {
    } else {
      TerminalStays(Apply(r, events[0]), events[1..]);
    }
  }

  /** A recorded start is never moved. */
  lemma {:induction false} StartStays(r: RunView, events: seq<Event>)
    requires r.startedAt.Some?
    ensures History(r, events).startedAt == r.startedAt
    decreases events
  {
    if events == [] {
    } else {
      StartStays(Apply(r, events[0]), events[1..]);
    }
  }

  /** The bound of four is reached. */
  lemma FourTransitions(now: int)
    ensures Taken(QueuedAt(now),
        [Move(Preparing, now), Move(Running, now), Move(Verifying, now), Move(Failed, now)]) == 4
  {
    var moves := [Move(Preparing, now), Move(Running, now), Move(Verifying, now), Move(Failed, now)];
    assert moves[1..] == [Move(Running, now), Move(Verifying, now), Move(Failed, now)];
    assert moves[1..][1..] == [Move(Verifying, now), Move(Failed, now)];
    assert moves[1..][1..][1..] == [Move(Failed, now)];
    var p := After(QueuedAt(now), Preparing, now);
    var q := After(p, Running, now);
    var v := After(q, Verifying, now);
    assert Taken(After(v, Failed, now), []) == 0;
    assert Taken(v, [Move(Failed, now)]) == 1;
    assert Taken(q, moves[1..][1..]) == 2;
    assert Taken(p, moves[1..]) == 3;
  }
}
