/**
 The desktop renderer against the record store: list requests and mutations overlap
 freely, replies arrive in any order or not at all, and other writers change the store
 meanwhile. A step system with every request in flight, and what holds in all its runs.
 */
module Renderer {
  import opened Text
  import opened Uuids
  import opened Store
  import opened ComputerList

  /** What a successful mutation returns: the document it left behind, or the id it removed. */
  datatype Reply = Document(record: ComputerRecord) | Removed(id: Uuid)

  /** The renderer's state, its three counters, and the text order it sorts by, which never changes. */
  datatype Client = Client(order: Collation, shown: seq<ComputerRecord>, listSequence: nat, lastApplied: nat,
      epoch: nat)

  /** A list reply is applied only if no newer list was requested and no mutation intervened. */
  predicate Applies(c: Client, sequence: nat, startedEpoch: nat) {
    !(sequence != c.listSequence || sequence < c.lastApplied || startedEpoch != c.epoch)
  }

  function AfterList(c: Client, sequence: nat, startedEpoch: nat, recovered: seq<ComputerRecord>): Client {
    if Applies(c, sequence, startedEpoch)
    then c.(lastApplied := sequence, shown := Reconcile(c.order, c.shown, recovered))
    else c
  }

  function AfterResult(c: Client, reply: Reply): Client {
    match reply
    case Removed(id) => c.(epoch := c.epoch + 1, shown := Without(c.shown, id))
    case Document(record) => c.(epoch := c.epoch + 1, shown := Upsert(c.order, c.shown, record))
  }

  /** The component's refs and state; each method is one uninterrupted stretch of its code. */
  class RendererState {
    const order: Collation
    var computers: seq<ComputerRecord>
    var listSequence: nat
    var lastAppliedList: nat
    var mutationEpoch: nat

    ghost function View(): Client
      reads this
    {
      Client(order, computers, listSequence, lastAppliedList, mutationEpoch)
    }

    constructor (order: Collation)
      ensures View() == Client(order, [], 0, 0, 0)
    {
      this.order := order;
      computers, listSequence, lastAppliedList, mutationEpoch := [], 0, 0, 0;
    }

    /** `refresh` up to the await. */
    method BeginRefresh() returns (sequence: nat, startedEpoch: nat)
      modifies this
      ensures View() == old(View()).(listSequence := old(listSequence) + 1)
      ensures sequence == listSequence && startedEpoch == mutationEpoch
    {
      listSequence := listSequence + 1;
      return listSequence, mutationEpoch;
    }

    /** `refresh` after the await. */
    method FinishRefresh(sequence: nat, startedEpoch: nat, recovered: seq<ComputerRecord>)
      modifies this
      ensures View() == AfterList(old(View()), sequence, startedEpoch, recovered)
    {
      if sequence != listSequence || sequence < lastAppliedList || startedEpoch != mutationEpoch {
        return;
      }
      lastAppliedList := sequence;
      computers := Reconcile(order, computers, recovered);
    }

    method ApplyResult(reply: Reply)
      modifies this
      ensures View() == AfterResult(old(View()), reply)
    {
      mutationEpoch := mutationEpoch + 1;
      match reply
      case Removed(id) => computers := Without(computers, id);
      case Document(record) => computers := Upsert(order, computers, record);
    }
  }

  // ---------------------------------------------------------------- the whole system

  datatype PendingList = PendingList(epoch: nat, answer: Option<seq<ComputerRecord>>)

  /** A mutation of one record; the answer, once there is one, is about that record. */
  datatype PendingMutation = PendingMutation(target: Uuid, answer: Option<Reply>)

  /**
   The store, the renderer and the requests between them. `used`, `committed` and `gone`
   record history: ids ever inserted, documents ever committed, removals ever applied.
   */
  datatype World = World(
    rows: Rows,
    used: set<Uuid>,
    committed: set<ComputerRecord>,
    client: Client,
    lists: map<nat, PendingList>,
    mutations: map<nat, PendingMutation>,
    gone: set<Uuid>)

  datatype Step =
    | ServerCommits(event: Event)
    | RequestList
    | AnswerList(sequence: nat, list: seq<ComputerRecord>)
    | DeliverList(sequence: nat)
    | LoseList(sequence: nat)
    | RequestMutation(call: nat, target: Uuid)
    | AnswerMutation(call: nat, reply: Reply)
    | DeliverMutation(call: nat)
    | LoseMutation(call: nat)
    | BumpEpoch

  /** The record a reply is about. */
  function About(reply: Reply): Uuid {
    match reply
    case Document(record) => record.id
    case Removed(id) => id
  }

  function RemovedBy(reply: Reply): set<Uuid> {
    if reply.Removed? then {reply.id} else {}
  }

  ghost predicate Initial(w: World) {
    w == World(map[], {}, {}, Client(w.client.order, [], 0, 0, 0), map[], map[], {})
  }

  ghost predicate Next(bodyOk: ComputerRecord -> bool, w: World, step: Step, w': World) {
    match step
    case ServerCommits(event) =>
      && Commit(bodyOk, w.rows, event, w'.rows)
      && (event.Inserted? ==> event.record.id !in w.used)
      && w' == w.(rows := w'.rows,
                  used := w.used + (if event.Inserted? then {event.record.id} else {}),
                  committed := w.committed + (if event.Inserted? || event.Saved? then {event.record} else {}))
    case RequestList =>
      var sequence := w.client.listSequence + 1;
      w' == w.(client := w.client.(listSequence := sequence),
               lists := w.lists[sequence := PendingList(w.client.epoch, None)])
    case AnswerList(sequence, list) =>
      && sequence in w.lists && w.lists[sequence].answer.None? && Listing(w.rows, list)
      && w' == w.(lists := w.lists[sequence := w.lists[sequence].(answer := Some(list))])
    case DeliverList(sequence) =>
      && sequence in w.lists && w.lists[sequence].answer.Some?
      && w' == w.(lists := w.lists - {sequence},
                  client := AfterList(w.client, sequence, w.lists[sequence].epoch, w.lists[sequence].answer.value))
    case LoseList(sequence) =>
      sequence in w.lists && w' == w.(lists := w.lists - {sequence})
    case RequestMutation(call, target) =>
      && call !in w.mutations
      && w' == w.(mutations := w.mutations[call := PendingMutation(target, None)],
                  client := w.client.(epoch := w.client.epoch + 1))
    case AnswerMutation(call, reply) =>
      && call in w.mutations && w.mutations[call].answer.None? && About(reply) == w.mutations[call].target
      && (match reply
          case Document(record) => record.id in w.rows && w.rows[record.id].document == record
          case Removed(id) => id in w.used && id !in w.rows)
      && w' == w.(mutations := w.mutations[call := w.mutations[call].(answer := Some(reply))])
    case DeliverMutation(call) =>
      && call in w.mutations && w.mutations[call].answer.Some?
      && w' == w.(mutations := w.mutations - {call},
                  client := AfterResult(w.client, w.mutations[call].answer.value),
                  gone := w.gone + RemovedBy(w.mutations[call].answer.value))
    case LoseMutation(call) =>
      && call in w.mutations
      && w' == w.(mutations := w.mutations - {call}, client := w.client.(epoch := w.client.epoch + 1))
    case BumpEpoch => w' == w.(client := w.client.(epoch := w.client.epoch + 1))
  }

  // ---------------------------------------------------------------- the invariant

  predicate ListsInvariant(w: World) {
    && w.client.lastApplied <= w.client.listSequence && w.client.lastApplied !in w.lists
    && forall s :: s in w.lists ==>
         && 0 < s <= w.client.listSequence && w.lists[s].epoch <= w.client.epoch
         && (w.lists[s].answer.Some? ==>
               && UniqueIds(w.lists[s].answer.value)
               && (forall r :: r in w.lists[s].answer.value ==> r in w.committed && r.id in w.used)
               // an answer that still shows a removed record is already out of date
               && (forall r :: r in w.lists[s].answer.value && r.id in w.gone ==> w.lists[s].epoch < w.client.epoch))
  }

  predicate StoreInvariant(w: World) {
    && (forall id :: id in w.rows ==>
        id in w.used && w.rows[id].document.id == id && w.rows[id].document in w.committed)
    && (forall id :: id in w.gone ==> id in w.used && id !in w.rows)
  }

  predicate MutationsInvariant(w: World) {
    forall c :: c in w.mutations && w.mutations[c].answer.Some? ==>
      && About(w.mutations[c].answer.value) == w.mutations[c].target
      && match w.mutations[c].answer.value
         case Document(record) => record in w.committed && record.id in w.used
         case Removed(id) => id in w.used && id !in w.rows
  }

  predicate ShownInvariant(w: World) {
    && UniqueIds(w.client.shown) && InDisplayOrder(w.client.order, w.client.shown)
    && forall r :: r in w.client.shown ==> r in w.committed && r.id in w.used
  }

  predicate Invariant(w: World) {
    StoreInvariant(w) && ListsInvariant(w) && MutationsInvariant(w) && ShownInvariant(w)
  }

  lemma KeepsStore(bodyOk: ComputerRecord -> bool, w: World, step: Step, w': World)
    requires Invariant(w) && Next(bodyOk, w, step, w')
    ensures StoreInvariant(w')
  {
    hide UniqueIds, InDisplayOrder, AfterList, ValidRecord;
  }

  lemma KeepsMutations(bodyOk: ComputerRecord -> bool, w: World, step: Step, w': World)
    requires Invariant(w) && Next(bodyOk, w, step, w')
    ensures MutationsInvariant(w')
  {
    hide UniqueIds, InDisplayOrder, AfterList, ValidRecord;
  }

  lemma KeepsLists(bodyOk: ComputerRecord -> bool, w: World, step: Step, w': World)
    requires Invariant(w) && Next(bodyOk, w, step, w')
    ensures ListsInvariant(w')
  {
    hide InDisplayOrder, ValidRecord, Reconcile, Upsert, Without;
    if step.AnswerList? {
      assert UniqueIds(step.list);
      forall r | r in step.list
        ensures r in w.committed && r.id in w.used && r.id !in w.gone
      {
        var i :| 0 <= i < |step.list| && step.list[i] == r;
      }
    }
  }

  lemma KeepsShown(bodyOk: ComputerRecord -> bool, w: World, step: Step, w': World)
    requires Invariant(w) && Next(bodyOk, w, step, w')
    ensures ShownInvariant(w')
  {
    hide ValidRecord;
    var shown := w.client.shown;
    match step
    case DeliverList(sequence) =>
      var list := w.lists[sequence].answer.value;
      ReconcileFacts(w.client.order, shown, list);
      ReconcileKnown(w.client.order, shown, list);
    case DeliverMutation(call) =>
      match w.mutations[call].answer.value {
        case Document(record) =>
          UpsertFacts(w.client.order, shown, record);
          UpsertKnown(w.client.order, shown, record);
        case Removed(id) =>
          WithoutFacts(w.client.order, shown, id);
      }
    case _ =>
  }

  lemma ReconcileKnown(order: Collation, current: seq<ComputerRecord>, incoming: seq<ComputerRecord>)
    ensures forall r :: r in Reconcile(order, current, incoming) ==> r in current || r in incoming
  {
    SortFacts(order, Merge(current, incoming));
  }

  lemma UpsertKnown(order: Collation, items: seq<ComputerRecord>, next: ComputerRecord)
    ensures forall r :: r in Upsert(order, items, next) ==> r in items || r == next
  {
    SortFacts(order, [next] + Without(items, next.id));
  }

  lemma KeepsInvariant(bodyOk: ComputerRecord -> bool, w: World, step: Step, w': World)
    requires Invariant(w) && Next(bodyOk, w, step, w')
    ensures Invariant(w')
  {
    hide Next, StoreInvariant, ListsInvariant, MutationsInvariant, ShownInvariant;
    KeepsStore(bodyOk, w, step, w');
    KeepsLists(bodyOk, w, step, w');
    KeepsMutations(bodyOk, w, step, w');
    KeepsShown(bodyOk, w, step, w');
  }

  // ---------------------------------------------------------------- single steps

  /** No step lowers the revision of a record that stays on display. */
  lemma StepNeverLowersRevision(bodyOk: ComputerRecord -> bool, w: World, step: Step, w': World, id: Uuid)
    requires Invariant(w) && Next(bodyOk, w, step, w')
    requires Find(w.client.shown, id).Some? && Find(w'.client.shown, id).Some?
    ensures Find(w.client.shown, id).value.revision <= Find(w'.client.shown, id).value.revision
    ensures Find(w.client.shown, id).value.revision == Find(w'.client.shown, id).value.revision ==>
              Find(w.client.shown, id) == Find(w'.client.shown, id)
  {
    match step
    case DeliverList(sequence) =>
      ListNeverLowersRevision(bodyOk, w, sequence, w', id);
    case DeliverMutation(call) =>
      ReplyNeverLowersRevision(bodyOk, w, call, w', id);
    case _ =>
  }

  lemma ListNeverLowersRevision(bodyOk: ComputerRecord -> bool, w: World, sequence: nat, w': World, id: Uuid)
    requires Invariant(w) && Next(bodyOk, w, DeliverList(sequence), w')
    requires Find(w.client.shown, id).Some? && Find(w'.client.shown, id).Some?
    ensures Find(w.client.shown, id).value.revision <= Find(w'.client.shown, id).value.revision
    ensures Find(w.client.shown, id).value.revision == Find(w'.client.shown, id).value.revision ==>
              Find(w.client.shown, id) == Find(w'.client.shown, id)
  {
    hide ValidRecord;
    var list := w.lists[sequence].answer.value;
    ReconcileFacts(w.client.order, w.client.shown, list);
    var incoming := Find(list, id);
  }

  lemma ReplyNeverLowersRevision(bodyOk: ComputerRecord -> bool, w: World, call: nat, w': World, id: Uuid)
    requires Invariant(w) && Next(bodyOk, w, DeliverMutation(call), w')
    requires Find(w.client.shown, id).Some? && Find(w'.client.shown, id).Some?
    ensures Find(w.client.shown, id).value.revision <= Find(w'.client.shown, id).value.revision
    ensures Find(w.client.shown, id).value.revision == Find(w'.client.shown, id).value.revision ==>
              Find(w.client.shown, id) == Find(w'.client.shown, id)
  {
    hide ValidRecord;
    match w.mutations[call].answer.value
    case Document(record) =>
      UpsertFacts(w.client.order, w.client.shown, record);
    case Removed(gone) =>
      WithoutFind(w.client.shown, gone, id);
  }

  predicate AppliesList(w: World, step: Step) {
    step.DeliverList? && step.sequence in w.lists && Applies(w.client, step.sequence, w.lists[step.sequence].epoch)
  }

  /** An applied list has a higher sequence number than all applied before; that part of the guard never decides. */
  lemma AppliedListsAscend(bodyOk: ComputerRecord -> bool, w: World, step: Step, w': World)
    requires Invariant(w) && Next(bodyOk, w, step, w')
    ensures AppliesList(w, step) ==> step.sequence > w.client.lastApplied && w'.client.lastApplied == step.sequence
    ensures !AppliesList(w, step) ==> w'.client.lastApplied == w.client.lastApplied
    ensures step.DeliverList? ==>
              (AppliesList(w, step) <==>
                 step.sequence == w.client.listSequence && w.lists[step.sequence].epoch == w.client.epoch)
  {
    hide Reconcile, Upsert, Without;
  }

  /** Applying a list shows exactly its records, and no removed record among them. */
  lemma AppliedListHidesRemoved(bodyOk: ComputerRecord -> bool, w: World, step: Step, w': World)
    requires Invariant(w) && Next(bodyOk, w, step, w') && AppliesList(w, step)
    ensures forall id :: Shows(w'.client.shown, id) <==> Shows(w.lists[step.sequence].answer.value, id)
    ensures forall id :: id in w.gone ==> !Shows(w'.client.shown, id)
  {
    var list := w.lists[step.sequence].answer.value;
    ReconcileFacts(w.client.order, w.client.shown, list);
    forall id
      ensures Shows(w'.client.shown, id) <==> Shows(list, id)
      ensures id in w.gone ==> !Shows(list, id)
    {
      var found := Find(list, id);
      assert found.None? <==> !Shows(list, id);
      assert Find(w'.client.shown, id).None? <==> !Shows(w'.client.shown, id);
    }
  }

  /** Shown, and at no lower revision than `r`. */
  predicate UpToDate(shown: seq<ComputerRecord>, r: ComputerRecord) {
    Find(shown, r.id).Some? && Find(shown, r.id).value.revision >= r.revision
  }

  /** An applied list brings every one of its records up to date; a list that is not applied changes nothing. */
  lemma ListBringsUpToDate(bodyOk: ComputerRecord -> bool, w: World, step: Step, w': World)
    requires Invariant(w) && Next(bodyOk, w, step, w') && step.DeliverList?
    ensures AppliesList(w, step) ==>
      forall r :: r in w.lists[step.sequence].answer.value ==> UpToDate(w'.client.shown, r)
    ensures AppliesList(w, step) ==> w'.client == w.client.(lastApplied := step.sequence, shown := w'.client.shown)
    ensures !AppliesList(w, step) ==> w'.client == w.client
  {
    hide Reconcile, StoreInvariant, MutationsInvariant;
    if AppliesList(w, step) {
      var list := w.lists[step.sequence].answer.value;
      ReconcileFacts(w.client.order, w.client.shown, list);
      forall r | r in list
        ensures UpToDate(w'.client.shown, r)
      {
        FindUnique(list, r);
      }
    }
  }

  /** A delivered document is up to date, a removed one hidden; every other record stays, and the epoch moves on. */
  lemma ReplyTakesEffect(bodyOk: ComputerRecord -> bool, w: World, call: nat, w': World)
    requires Invariant(w) && Next(bodyOk, w, DeliverMutation(call), w')
    ensures var reply := w.mutations[call].answer.value;
      && (reply.Document? ==> UpToDate(w'.client.shown, reply.record))
      && (reply.Removed? ==> !Shows(w'.client.shown, reply.id))
      && (forall id :: id != About(reply) ==> Find(w'.client.shown, id) == Find(w.client.shown, id))
    ensures w'.client == w.client.(epoch := w.client.epoch + 1, shown := w'.client.shown)
  {
    hide Upsert, Without, StoreInvariant, ListsInvariant;
    match w.mutations[call].answer.value
    case Document(record) => UpsertFacts(w.client.order, w.client.shown, record);
    case Removed(gone) =>
      forall id
        ensures Find(w'.client.shown, id) == if id == gone then None else Find(w.client.shown, id)
      {
        WithoutFind(w.client.shown, gone, id);
      }
  }

  /** Some mutation that was answered but not yet delivered still carries the record's document. */
  ghost predicate ReplyCarries(w: World, id: Uuid) {
    exists call :: Carries(w, call, id)
  }

  predicate Carries(w: World, call: nat, id: Uuid) {
    && call in w.mutations && w.mutations[call].answer.Some?
    && w.mutations[call].answer.value.Document? && w.mutations[call].answer.value.record.id == id
  }

  /** A removed record that is not on display is shown again by a step exactly when it delivers such a reply. */
  lemma RemovedReturnsOnlyByLateReply(bodyOk: ComputerRecord -> bool, w: World, step: Step, w': World, id: Uuid)
    requires Invariant(w) && Next(bodyOk, w, step, w')
    requires id in w.gone && !Shows(w.client.shown, id)
    ensures Shows(w'.client.shown, id) <==> step.DeliverMutation? && Carries(w, step.call, id)
  {
    assert Find(w.client.shown, id).None?;
    assert Find(w'.client.shown, id).None? <==> !Shows(w'.client.shown, id);
    match step
    case DeliverList(sequence) =>
      if AppliesList(w, step) {
        AppliedListHidesRemoved(bodyOk, w, step, w');
      }
    case DeliverMutation(call) =>
      match w.mutations[call].answer.value {
        case Document(record) => UpsertFacts(w.client.order, w.client.shown, record);
        case Removed(gone) => WithoutFind(w.client.shown, gone, id);
      }
    case _ =>
  }

  /** The store has no row of a removed record, so no new reply can carry it. */
  lemma NoNewReplyCarries(bodyOk: ComputerRecord -> bool, w: World, step: Step, w': World, id: Uuid)
    requires Invariant(w) && Next(bodyOk, w, step, w') && id in w.gone
    ensures id in w'.gone
    ensures forall call :: Carries(w', call, id) ==> Carries(w, call, id)
  {
    hide ListsInvariant, ShownInvariant, AfterList, AfterResult, Commit;
  }

  // ---------------------------------------------------------------- runs

  /** Every interleaving of requests, answers, losses and foreign writes, from the start. */
  ghost predicate Execution(bodyOk: ComputerRecord -> bool, ws: seq<World>, steps: seq<Step>) {
    && |ws| == |steps| + 1 && Initial(ws[0])
    && forall i :: 0 <= i < |steps| ==> Next(bodyOk, ws[i], steps[i], ws[i + 1])
  }

  /** In every reachable state ids on display are unique and in order, and every document was committed. */
  lemma {:induction false} Reachable(bodyOk: ComputerRecord -> bool, ws: seq<World>, steps: seq<Step>, i: nat)
    requires Execution(bodyOk, ws, steps) && i <= |steps|
    ensures Invariant(ws[i])
    ensures UniqueIds(ws[i].client.shown) && InDisplayOrder(ws[i].client.order, ws[i].client.shown)
    ensures forall r :: r in ws[i].client.shown ==> r in ws[i].committed
  {
    hide Next;
    if i > 0 {
      Reachable(bodyOk, ws, steps, i - 1);
      assert Next(bodyOk, ws[i - 1], steps[i - 1], ws[i - 1 + 1]);
      KeepsInvariant(bodyOk, ws[i - 1], steps[i - 1], ws[i]);
    }
  }

  predicate ShownThroughout(ws: seq<World>, id: Uuid, i: nat, j: nat)
    requires i <= j < |ws|
  {
    forall k :: i <= k <= j ==> Find(ws[k].client.shown, id).Some?
  }

  /** While a record stays on display its revision never decreases. */
  lemma {:induction false} RevisionNeverDecreases(bodyOk: ComputerRecord -> bool, ws: seq<World>, steps: seq<Step>,
      id: Uuid, i: nat, j: nat)
    requires Execution(bodyOk, ws, steps) && i <= j <= |steps| && ShownThroughout(ws, id, i, j)
    ensures Find(ws[i].client.shown, id).value.revision <= Find(ws[j].client.shown, id).value.revision
    decreases j - i
  {
    hide Next, Invariant, Find;
    if i < j {
      Reachable(bodyOk, ws, steps, j - 1);
      assert Next(bodyOk, ws[j - 1], steps[j - 1], ws[j - 1 + 1]);
      StepNeverLowersRevision(bodyOk, ws[j - 1], steps[j - 1], ws[j], id);
      RevisionNeverDecreases(bodyOk, ws, steps, id, i, j - 1);
    }
  }

  /** A record that a reply or an applied list brought. */
  predicate Brings(w: World, step: Step, r: ComputerRecord) {
    || (step.DeliverMutation? && step.call in w.mutations && w.mutations[step.call].answer == Some(Document(r)))
    || (AppliesList(w, step) && w.lists[step.sequence].answer.Some? && r in w.lists[step.sequence].answer.value)
  }

  /** What a reply or an applied list brought is shown from then on, at that revision or later, while it stays shown. */
  lemma NeverBehindWhatCame(bodyOk: ComputerRecord -> bool, ws: seq<World>, steps: seq<Step>, r: ComputerRecord,
                            i: nat, j: nat)
    requires Execution(bodyOk, ws, steps) && i < j <= |steps| && Brings(ws[i], steps[i], r)
    ensures UpToDate(ws[i + 1].client.shown, r)
    ensures ShownThroughout(ws, r.id, i + 1, j) ==> UpToDate(ws[j].client.shown, r)
  {
    hide Next, Invariant, Find;
    Reachable(bodyOk, ws, steps, i);
    assert Next(bodyOk, ws[i], steps[i], ws[i + 1]);
    if steps[i].DeliverMutation? {
      ReplyTakesEffect(bodyOk, ws[i], steps[i].call, ws[i + 1]);
    } else {
      ListBringsUpToDate(bodyOk, ws[i], steps[i], ws[i + 1]);
    }
    if ShownThroughout(ws, r.id, i + 1, j) {
      RevisionNeverDecreases(bodyOk, ws, steps, r.id, i + 1, j);
    }
  }

  lemma {:induction false} LastAppliedGrows(bodyOk: ComputerRecord -> bool, ws: seq<World>, steps: seq<Step>, i: nat,
      j: nat)
    requires Execution(bodyOk, ws, steps) && i <= j <= |steps|
    ensures ws[i].client.lastApplied <= ws[j].client.lastApplied
    ensures ws[i].gone <= ws[j].gone
    decreases j - i
  {
    hide Invariant, AppliesList;
    if i < j {
      Reachable(bodyOk, ws, steps, j - 1);
      assert Next(bodyOk, ws[j - 1], steps[j - 1], ws[j - 1 + 1]);
      AppliedListsAscend(bodyOk, ws[j - 1], steps[j - 1], ws[j]);
      LastAppliedGrows(bodyOk, ws, steps, i, j - 1);
    }
  }

  /** Lists are applied in strictly increasing order of their sequence numbers. */
  lemma AppliedInOrder(bodyOk: ComputerRecord -> bool, ws: seq<World>, steps: seq<Step>, i: nat, j: nat)
    requires Execution(bodyOk, ws, steps) && i < j < |steps|
    requires AppliesList(ws[i], steps[i]) && AppliesList(ws[j], steps[j])
    ensures steps[i].sequence < steps[j].sequence
  {
    hide Invariant;
    Reachable(bodyOk, ws, steps, i);
    Reachable(bodyOk, ws, steps, j);
    assert Next(bodyOk, ws[i], steps[i], ws[i + 1]);
    assert Next(bodyOk, ws[j], steps[j], ws[j + 1]);
    AppliedListsAscend(bodyOk, ws[i], steps[i], ws[i + 1]);
    AppliedListsAscend(bodyOk, ws[j], steps[j], ws[j + 1]);
    LastAppliedGrows(bodyOk, ws, steps, i + 1, j);
  }

  predicate AppliesRemoval(w: World, step: Step, id: Uuid) {
    step.DeliverMutation? && step.call in w.mutations && w.mutations[step.call].answer == Some(Removed(id))
  }

  /** After a removal no list applied later shows the record, even if a late reply had brought it back. */
  lemma RemovedNeverListedAgain(bodyOk: ComputerRecord -> bool, ws: seq<World>, steps: seq<Step>, id: Uuid, i: nat,
      j: nat)
    requires Execution(bodyOk, ws, steps) && i < j < |steps|
    requires AppliesRemoval(ws[i], steps[i], id) && AppliesList(ws[j], steps[j])
    ensures !Shows(ws[j + 1].client.shown, id)
  {
    hide Invariant;
    Reachable(bodyOk, ws, steps, j);
    assert Next(bodyOk, ws[i], steps[i], ws[i + 1]);
    assert Next(bodyOk, ws[j], steps[j], ws[j + 1]);
    LastAppliedGrows(bodyOk, ws, steps, i + 1, j);
    AppliedListHidesRemoved(bodyOk, ws[j], steps[j], ws[j + 1]);
  }

  // ---------------------------------------------------------------- when a removed record returns

  /** A run from `w` on: what can still happen. */
  ghost predicate RunFrom(bodyOk: ComputerRecord -> bool, w: World, ws: seq<World>, steps: seq<Step>) {
    && |ws| == |steps| + 1 && ws[0] == w
    && forall i :: 0 <= i < |steps| ==> Next(bodyOk, ws[i], steps[i], ws[i + 1])
  }

  ghost predicate CanShowAgain(bodyOk: ComputerRecord -> bool, w: World, id: Uuid) {
    exists ws: seq<World>, steps: seq<Step> ::
      RunFrom(bodyOk, w, ws, steps) && Shows(ws[|steps|].client.shown, id)
  }

  /** Without a reply that carries it, a removed record stays off the display for the rest of every run. */
  lemma {:induction false} StaysHidden(bodyOk: ComputerRecord -> bool, w: World, ws: seq<World>, steps: seq<Step>,
                                       id: Uuid, j: nat)
    requires Invariant(w) && RunFrom(bodyOk, w, ws, steps) && j <= |steps|
    requires id in w.gone && !Shows(w.client.shown, id) && !ReplyCarries(w, id)
    ensures Invariant(ws[j]) && id in ws[j].gone && !Shows(ws[j].client.shown, id) && !ReplyCarries(ws[j], id)
  {
    hide Next, Invariant, Shows;
    if j > 0 {
      var before, step, after := ws[j - 1], steps[j - 1], ws[j];
      StaysHidden(bodyOk, w, ws, steps, id, j - 1);
      assert Next(bodyOk, ws[j - 1], steps[j - 1], ws[j - 1 + 1]);
      KeepsInvariant(bodyOk, before, step, after);
      RemovedReturnsOnlyByLateReply(bodyOk, before, step, after, id);
      NoNewReplyCarries(bodyOk, before, step, after, id);
    }
  }

  /**
   From any reachable state a removed record that is not on display can be shown again
   exactly when some answered, undelivered mutation still carries its document.
   */
  lemma RemovedReturnsIffCarried(bodyOk: ComputerRecord -> bool, w: World, id: Uuid)
    requires Invariant(w) && id in w.gone && !Shows(w.client.shown, id)
    ensures CanShowAgain(bodyOk, w, id) <==> ReplyCarries(w, id)
  {
    hide Invariant, Shows;
    if ReplyCarries(w, id) {
      var call :| Carries(w, call, id);
      var w' := Delivered(w, call);
      assert Next(bodyOk, w, DeliverMutation(call), w');
      RemovedReturnsOnlyByLateReply(bodyOk, w, DeliverMutation(call), w', id);
      assert RunFrom(bodyOk, w, [w, w'], [DeliverMutation(call)]);
      assert Shows([w, w'][|[DeliverMutation(call)]|].client.shown, id);
    } else if CanShowAgain(bodyOk, w, id) {
      var ws: seq<World>, steps: seq<Step> :| RunFrom(bodyOk, w, ws, steps) && Shows(ws[|steps|].client.shown, id);
      StaysHidden(bodyOk, w, ws, steps, id, |steps|);
    }
  }

  function Delivered(w: World, call: nat): World
    requires call in w.mutations && w.mutations[call].answer.Some?
  {
    w.(mutations := w.mutations - {call},
       client := AfterResult(w.client, w.mutations[call].answer.value),
       gone := w.gone + RemovedBy(w.mutations[call].answer.value))
  }

  // ---------------------------------------------------------------- runs that respect the buttons

  /** A mutation of the record is under way: its action buttons are disabled, its timer is withdrawn. */
  ghost predicate Busy(w: World, id: Uuid) {
    exists call :: call in w.mutations && w.mutations[call].target == id
  }

  /** No mutation is requested for a record that is busy. */
  ghost predicate Guarded(ws: seq<World>, steps: seq<Step>)
    requires |ws| == |steps| + 1
  {
    forall i :: 0 <= i < |steps| && steps[i].RequestMutation? ==> !Busy(ws[i], steps[i].target)
  }

  predicate OneEach(w: World) {
    forall c, d :: c in w.mutations && d in w.mutations && w.mutations[c].target == w.mutations[d].target ==> c == d
  }

  lemma StepKeepsOneEach(bodyOk: ComputerRecord -> bool, w: World, step: Step, w': World)
    requires OneEach(w) && Next(bodyOk, w, step, w')
    requires step.RequestMutation? ==> !Busy(w, step.target)
    ensures OneEach(w')
  {
    hide Commit, AfterList, AfterResult, Listing;
  }

  lemma {:induction false} GuardedOneEach(bodyOk: ComputerRecord -> bool, ws: seq<World>, steps: seq<Step>, i: nat)
    requires Execution(bodyOk, ws, steps) && Guarded(ws, steps) && i <= |steps|
    ensures OneEach(ws[i])
  {
    hide Next;
    if i > 0 {
      GuardedOneEach(bodyOk, ws, steps, i - 1);
      assert Next(bodyOk, ws[i - 1], steps[i - 1], ws[i - 1 + 1]);
      StepKeepsOneEach(bodyOk, ws[i - 1], steps[i - 1], ws[i]);
    }
  }

  /** The removal reply was the only mutation of its record, so it leaves no reply that carries it. */
  lemma RemovalLeavesNoReply(bodyOk: ComputerRecord -> bool, w: World, step: Step, w': World, id: Uuid)
    requires Invariant(w) && OneEach(w) && Next(bodyOk, w, step, w') && AppliesRemoval(w, step, id)
    ensures id in w'.gone && !Shows(w'.client.shown, id) && !ReplyCarries(w', id)
  {
    hide StoreInvariant, ListsInvariant;
    WithoutFind(w.client.shown, id, id);
    assert Find(w'.client.shown, id).None?;
  }

  /** In every run that respects the buttons, a record whose removal was applied is never shown again. */
  lemma RemovedNeverReturns(bodyOk: ComputerRecord -> bool, ws: seq<World>, steps: seq<Step>, id: Uuid, i: nat, j: nat)
    requires Execution(bodyOk, ws, steps) && Guarded(ws, steps) && i < j <= |steps|
    requires AppliesRemoval(ws[i], steps[i], id)
    ensures !Shows(ws[j].client.shown, id)
  {
    hide Next, Invariant, Shows, OneEach, Guarded, AppliesRemoval;
    Reachable(bodyOk, ws, steps, i);
    Reachable(bodyOk, ws, steps, i + 1);
    GuardedOneEach(bodyOk, ws, steps, i);
    assert Next(bodyOk, ws[i], steps[i], ws[i + 1]);
    RemovalLeavesNoReply(bodyOk, ws[i], steps[i], ws[i + 1], id);
    var tail, rest := ws[i + 1..], steps[i + 1..];
    forall k | 0 <= k < |rest|
      ensures Next(bodyOk, tail[k], rest[k], tail[k + 1])
    {
      assert Next(bodyOk, ws[i + 1 + k], steps[i + 1 + k], ws[i + 1 + k + 1]);
    }
    StaysHidden(bodyOk, ws[i + 1], tail, rest, id, j - i - 1);
  }

  /**
   Without the buttons' guard a removed record can return: a mutation answered before the
   removal is delivered after it. The smallest such run, for any valid record. It requests
   the removal of a record that is busy, which the buttons forbid once they are rendered;
   the code itself does not test it again, so a click on a button not yet redrawn gets through.
   */
  lemma RemovedCanReturn(bodyOk: ComputerRecord -> bool, order: Collation, r: ComputerRecord)
    requires ValidRecord(bodyOk, r) && r.revision == 1
    ensures exists ws: seq<World>, steps: seq<Step> ::
      && Execution(bodyOk, ws, steps) && |steps| == 8 && !Guarded(ws, steps)
      && AppliesRemoval(ws[6], steps[6], r.id)
      && !Shows(ws[7].client.shown, r.id) && Shows(ws[8].client.shown, r.id)
  {
    hide Next;
    var ws := seq(9, k requires 0 <= k < 9 => LateWorld(order, r, k));
    var steps := seq(8, k requires 0 <= k < 8 => LateStep(r, k));
    forall k | 0 <= k < 8
      ensures Next(bodyOk, ws[k], steps[k], ws[k + 1])
    {
      if k < 4 {
        LateRunBegins(bodyOk, order, r, k);
      } else {
        LateRunEnds(bodyOk, order, r, k);
      }
    }
    assert ws[8].client.shown[0].id == r.id;
    assert Busy(ws[3], r.id) by {
      assert 0 in ws[3].mutations;
    }
    assert steps[3] == RequestMutation(1, r.id);
    assert Execution(bodyOk, ws, steps);
  }

  function LateStep(r: ComputerRecord, k: nat): Step {
    match k
    case 0 => ServerCommits(Inserted(r))
    case 1 => RequestMutation(0, r.id)
    case 2 => AnswerMutation(0, Document(r))
    case 3 => RequestMutation(1, r.id)
    case 4 => ServerCommits(Deleted(r.id))
    case 5 => AnswerMutation(1, Removed(r.id))
    case 6 => DeliverMutation(1)
    case _ => DeliverMutation(0)
  }

  function Late(r: ComputerRecord, answer: Option<Reply>): PendingMutation {
    PendingMutation(r.id, answer)
  }

  function LateWorld(order: Collation, r: ComputerRecord, k: nat): World {
    World(
      if 1 <= k <= 4 then map[r.id := Row(1, r.createdAt, r.updatedAt, r)] else map[],
      if k == 0 then {} else {r.id},
      if k == 0 then {} else {r},
      Client(order, if k < 8 then [] else [r], 0, 0, if k < 2 then 0 else if k < 4 then 1 else if k < 7 then 2
          else k - 4),
      map[],
      match k
      case 0 => map[]
      case 1 => map[]
      case 2 => map[0 := Late(r, None)]
      case 3 => map[0 := Late(r, Some(Document(r)))]
      case 4 => map[0 := Late(r, Some(Document(r))), 1 := Late(r, None)]
      case 5 => map[0 := Late(r, Some(Document(r))), 1 := Late(r, None)]
      case 6 => map[0 := Late(r, Some(Document(r))), 1 := Late(r, Some(Removed(r.id)))]
      case 7 => map[0 := Late(r, Some(Document(r)))]
      case _ => map[],
      if k < 7 then {} else {r.id})
  }

  lemma LateRunBegins(bodyOk: ComputerRecord -> bool, order: Collation, r: ComputerRecord, k: nat)
    requires ValidRecord(bodyOk, r) && r.revision == 1 && k < 4
    ensures Next(bodyOk, LateWorld(order, r, k), LateStep(r, k), LateWorld(order, r, k + 1))
  {
    hide ValidRecord;
  }

  lemma LateRunEnds(bodyOk: ComputerRecord -> bool, order: Collation, r: ComputerRecord, k: nat)
    requires ValidRecord(bodyOk, r) && r.revision == 1 && 4 <= k < 8
    ensures Next(bodyOk, LateWorld(order, r, k), LateStep(r, k), LateWorld(order, r, k + 1))
  {
    hide ValidRecord;
    assert SortComputers(order, [r] + Without([], r.id)) == [r];
  }
}
