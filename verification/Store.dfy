/**
 The provisioning checkpoint store: one table of records, changed by insert, by
 compare-and-swap save and by compare-and-swap delete. Each method is one SQLite
 transaction. The JSON and timestamp columns are modelled by the values they decode to.
 */
module Store {
  import opened Text
  import opened Uuids

  const MAX_I64: int := 0x7FFF_FFFF_FFFF_FFFF

  datatype ComputerRecord = ComputerRecord(
    id: Uuid,
    intendedNodeId: Uuid,
    revision: u64,
    createdAt: int,
    updatedAt: int,
    body: string)

  /** A table row: the document and the columns beside it. */
  datatype Row = Row(revision: int, createdAt: int, updatedAt: int, document: ComputerRecord)

  type Rows = map<Uuid, Row>

  datatype StoreError =
    | NotFound(id: Uuid) | AlreadyExists(id: Uuid) | Conflict(expected: u64, actual: Option<u64>)
    | Validation | CorruptRecord | InvalidInitialRevision | ImmutableFieldChanged | RevisionOverflow

  datatype Result<T> = Ok(value: T) | Err(error: StoreError)

  /** `ComputerRecord::validate`: the envelope checks, and the checks on everything else. */
  predicate ValidRecord(bodyOk: ComputerRecord -> bool, r: ComputerRecord) {
    r.id != NIL && r.intendedNodeId != NIL && r.revision != 0 && r.createdAt <= r.updatedAt && bodyOk(r)
  }

  /** The columns of a row agree with its valid document, and the key with its id. */
  predicate RowAgrees(bodyOk: ComputerRecord -> bool, id: Uuid, row: Row) {
    && row.document.id == id && row.document.revision == row.revision
    && row.document.createdAt == row.createdAt && row.document.updatedAt == row.updatedAt
    && ValidRecord(bodyOk, row.document) && row.revision <= MAX_I64
  }

  predicate TableAgrees(bodyOk: ComputerRecord -> bool, rows: Rows) {
    forall id :: id in rows ==> RowAgrees(bodyOk, id, rows[id])
  }

  /** `monotonic_now`, in nanoseconds: the clock's time, or a microsecond later than before if it has not moved on. */
  function MonotonicNow(now: int, previous: int): (t: int)
    ensures t > previous
    ensures now > previous ==> t == now
    ensures now <= previous ==> t == previous + 1_000
  {
    if now > previous then now else previous + 1_000
  }

  /** `parse_record`: the document, if it agrees with the columns and is valid. */
  function ParseRecord(bodyOk: ComputerRecord -> bool, id: Uuid, row: Row): (r: Result<ComputerRecord>)
    ensures RowAgrees(bodyOk, id, row) ==> r == Ok(row.document)
    ensures r.Ok? ==> r.value == row.document && r.value.id == id && r.value.revision == row.revision
    ensures r.Ok? ==> row.document.createdAt == row.createdAt && row.document.updatedAt == row.updatedAt
    ensures r.Ok? ==> ValidRecord(bodyOk, row.document)
    ensures r.Err? ==> r.error == Validation || r.error == CorruptRecord
    ensures r == Err(Validation) ==> !ValidRecord(bodyOk, row.document)
    ensures r == Err(CorruptRecord) ==> !RowAgrees(bodyOk, id, row)
  {
    if row.revision < 0 then Err(CorruptRecord)
    else if || row.document.id != id || row.document.revision != row.revision
            || row.document.createdAt != row.createdAt || row.document.updatedAt != row.updatedAt
                then Err(CorruptRecord)
    else if !ValidRecord(bodyOk, row.document) then Err(Validation)
    else Ok(row.document)
  }

  // ---------------------------------------------------------------- committed changes

  datatype Event =
    | Inserted(record: ComputerRecord)
    | Saved(record: ComputerRecord)
    | Deleted(id: Uuid)
    | Unchanged

  /** What one committed transaction may do to the table. */
  ghost predicate Commit(bodyOk: ComputerRecord -> bool, rows: Rows, event: Event, rows': Rows) {
    match event
    case Inserted(r) =>
      && r.id !in rows && r.revision == 1 && ValidRecord(bodyOk, r)
      && rows' == rows[r.id := Row(1, r.createdAt, r.updatedAt, r)]
    case Saved(r) =>
      && r.id in rows && Succeeds(rows[r.id].document, r) && ValidRecord(bodyOk, r) && r.revision <= MAX_I64
      && rows' == rows[r.id := rows[r.id].(revision := r.revision, updatedAt := r.updatedAt, document := r)]
    case Deleted(id) => id in rows && rows' == rows - {id}
    case Unchanged => rows' == rows
  }

  /**
   Where text comparison puts a printed update time. Times are compared as text, by the
   query and by the client, so this need not follow the times themselves; any order of the
   countably many texts embeds in the reals.
   */
  type Collation = int -> real

  /** `ORDER BY updated_at DESC, id ASC` */
  predicate Precedes(order: Collation, time: int, id: Uuid, time': int, id': Uuid) {
    order(time) > order(time') || (order(time) == order(time') && Less(Uuids.Print(id), Uuids.Print(id')))
  }

  /** The keys of the table as the query returns them. */
  ghost predicate Selected(order: Collation, rows: Rows, ids: seq<Uuid>) {
    && (forall id :: id in ids <==> id in rows)
    && (forall i, j :: 0 <= i < j < |ids| ==>
          Precedes(order, rows[ids[i]].updatedAt, ids[i], rows[ids[j]].updatedAt, ids[j]))
  }

  predicate InQueryOrder(order: Collation, list: seq<ComputerRecord>) {
    forall i, j :: 0 <= i < j < |list| ==>
      Precedes(order, list[i].updatedAt, list[i].id, list[j].updatedAt, list[j].id)
  }

  lemma SelectedApart(order: Collation, rows: Rows, ids: seq<Uuid>)
    requires Selected(order, rows, ids)
    ensures forall i, j :: 0 <= i < j < |ids| ==> ids[i] != ids[j]
  {
    hide Less;
    forall i, j | 0 <= i < j < |ids|
      ensures ids[i] != ids[j]
    {
      LessTrichotomy(Uuids.Print(ids[i]), Uuids.Print(ids[i]));
      assert Precedes(order, rows[ids[i]].updatedAt, ids[i], rows[ids[j]].updatedAt, ids[j]);
    }
  }

  lemma ListedFacts(bodyOk: ComputerRecord -> bool, order: Collation, rows: Rows, ids: seq<Uuid>,
                    list: seq<ComputerRecord>)
    requires Selected(order, rows, ids) && TableAgrees(bodyOk, rows)
    requires |list| == |ids| && forall k :: 0 <= k < |ids| ==> list[k] == rows[ids[k]].document
    ensures Listing(rows, list) && InQueryOrder(order, list)
  {
    hide Precedes, ValidRecord;
    SelectedApart(order, rows, ids);
    forall k | 0 <= k < |ids|
      ensures ids[k] in rows && list[k].id == ids[k] && list[k].updatedAt == rows[ids[k]].updatedAt
    {
      assert RowAgrees(bodyOk, ids[k], rows[ids[k]]);
    }
  }

  /** `next` is the following version of the same record. */
  predicate Succeeds(current: ComputerRecord, next: ComputerRecord) {
    && next.id == current.id && next.intendedNodeId == current.intendedNodeId && next.createdAt == current.createdAt
    && next.revision == current.revision + 1 && next.updatedAt > current.updatedAt
  }

  class ProvisioningStore {
    var rows: Rows
    const bodyOk: ComputerRecord -> bool

    constructor (bodyOk: ComputerRecord -> bool)
      ensures rows == map[] && this.bodyOk == bodyOk
    {
      this.rows := map[];
      this.bodyOk := bodyOk;
    }

    ghost predicate Agrees()
      reads this
    {
      TableAgrees(bodyOk, rows)
    }

    method Insert(record: ComputerRecord) returns (r: Result<()>)
      modifies this
      ensures r.Ok? <==> ValidRecord(bodyOk, record) && record.revision == 1 && record.id !in old(rows)
      ensures r.Ok? ==> Commit(bodyOk, old(rows), Inserted(record), rows)
      ensures r.Err? ==> rows == old(rows)
      ensures r.Err? ==>
        match r.error
        case Validation => !ValidRecord(bodyOk, record)
        case InvalidInitialRevision => record.revision != 1
        case AlreadyExists(id) => id == record.id && id in rows
        case _ => false
      ensures old(Agrees()) ==> Agrees()
    {
      if !ValidRecord(bodyOk, record) {
        return Err(Validation);
      }
      if record.revision != 1 {
        return Err(InvalidInitialRevision);
      }
      if record.id in rows {
        return Err(AlreadyExists(record.id));
      }
      rows := rows[record.id := Row(record.revision, record.createdAt, record.updatedAt, record)];
      return Ok(());
    }

    /** On a table whose columns agree, loading finds every record and never reports corruption. */
    method Get(id: Uuid) returns (r: Result<ComputerRecord>)
      ensures id !in rows ==> r == Err(NotFound(id))
      ensures id in rows && Agrees() ==> r == Ok(rows[id].document)
      ensures r.Ok? ==> id in rows && r.value == rows[id].document && r.value.id == id && ValidRecord(bodyOk, r.value)
    {
      if id !in rows {
        return Err(NotFound(id));
      }
      r := ParseRecord(bodyOk, id, rows[id]);
    }

    /** Lists every record once, in the order in which the query returns the rows. */
    method List(order: Collation, ids: seq<Uuid>) returns (r: Result<seq<ComputerRecord>>)
      requires Selected(order, rows, ids)
      ensures Agrees() ==> r.Ok? && Listing(rows, r.value) && InQueryOrder(order, r.value)
      ensures r.Ok? ==> |r.value| == |ids| && forall k :: 0 <= k < |ids| ==> r.value[k] == rows[ids[k]].document
    {
      hide Listing, InQueryOrder, Precedes, ValidRecord;
      var records: seq<ComputerRecord> := [];
      for i := 0 to |ids|
        invariant |records| == i
        invariant forall k :: 0 <= k < i ==> records[k] == rows[ids[k]].document
      {
        var record := ParseRecord(bodyOk, ids[i], rows[ids[i]]);
        if record.Err? {
          return Err(record.error);
        }
        records := records + [record.value];
      }
      if Agrees() {
        ListedFacts(bodyOk, order, rows, ids, records);
      }
      return Ok(records);
    }

    /**
     Saves exactly when the caller's record is the current revision, keeps its identity
     and creation time, has room for one more revision and is valid once stamped.
     */
    method SaveCas(record: ComputerRecord, expected: u64, now: int) returns (r: Result<ComputerRecord>)
      modifies this
      ensures old(Agrees()) ==>
                (r.Ok? <==>
                   && record.revision == expected && record.id in old(rows)
                   && SameIdentity(old(rows)[record.id].document, record)
                       && old(rows)[record.id].document.revision == expected
                   && expected < MAX_I64 && ValidRecord(bodyOk, Stamped(old(rows)[record.id].document, record, now)))
      ensures r.Ok? ==>
        && record.id in old(rows) && expected < MAX_I64
        && var was := old(rows)[record.id].document.updatedAt;
           r.value == record.(revision := expected + 1, updatedAt := if now > was then now else was + 1_000)
      ensures r.Ok? ==> Commit(bodyOk, old(rows), Saved(r.value), rows)
      ensures r.Err? ==> rows == old(rows)
      ensures old(Agrees()) ==> Agrees()
      ensures old(Agrees()) && r.Err? ==>
        match r.error
        case NotFound(id) => id == record.id && id !in rows
        case Conflict(wanted, actual) =>
          && wanted == expected && actual != Some(expected)
          && (actual == Some(record.revision)
              || (record.id in rows && actual == Some(rows[record.id].document.revision)))
        case ImmutableFieldChanged => record.id in rows && !SameIdentity(rows[record.id].document, record)
        case RevisionOverflow => expected >= MAX_I64
        case Validation => record.id in rows && !ValidRecord(bodyOk, Stamped(rows[record.id].document, record, now))
        case _ => false
    {
      if record.revision != expected {
        return Err(Conflict(expected, Some(record.revision)));
      }
      if record.id !in rows {
        return Err(NotFound(record.id));
      }
      var loaded := ParseRecord(bodyOk, record.id, rows[record.id]);
      if loaded.Err? {
        return Err(loaded.error);
      }
      var current := loaded.value;
      if current.revision != expected {
        return Err(Conflict(expected, Some(current.revision)));
      }
      if !SameIdentity(current, record) {
        return Err(ImmutableFieldChanged);
      }
      if expected + 1 >= 0x1_0000_0000_0000_0000 {
        return Err(RevisionOverflow);
      }
      var next := record.(revision := expected + 1, updatedAt := MonotonicNow(now, current.updatedAt));
      if !ValidRecord(bodyOk, next) {
        return Err(Validation);
      }
      if next.revision > MAX_I64 {
        return Err(RevisionOverflow);
      }
      rows := rows[record.id := rows[record.id].(revision := next.revision, updatedAt := next.updatedAt,
          document := next)];
      return Ok(next);
    }

    /** Deletes exactly the row that still has the expected revision. */
    method DeleteCas(id: Uuid, expected: u64) returns (r: Result<()>)
      modifies this
      ensures r.Ok? <==> id in old(rows) && old(rows)[id].revision == expected && expected <= MAX_I64
      ensures r.Ok? ==> Commit(bodyOk, old(rows), Deleted(id), rows)
      ensures r.Err? ==> rows == old(rows)
      ensures old(Agrees()) ==> Agrees()
      ensures old(Agrees()) && r.Err? ==>
        match r.error
        case NotFound(missing) => missing == id && id !in rows
        case Conflict(wanted, actual) =>
          wanted == expected && id in rows && actual == Some(rows[id].document.revision) && actual != Some(expected)
        case RevisionOverflow => expected > MAX_I64
        case _ => false
    {
      if expected > MAX_I64 {
        return Err(RevisionOverflow);
      }
      if id in rows && rows[id].revision == expected {
        rows := rows - {id};
        return Ok(());
      }
      if id !in rows {
        return Err(NotFound(id));
      }
      if !(0 <= rows[id].revision < 0x1_0000_0000_0000_0000) {
        return Err(CorruptRecord);
      }
      return Err(Conflict(expected, Some(rows[id].revision)));
    }
  }

  predicate SameIdentity(current: ComputerRecord, record: ComputerRecord) {
    current.id == record.id && current.intendedNodeId == record.intendedNodeId && current.createdAt == record.createdAt
  }

  /** The record as a save writes it: one revision on, later than the version it replaces. */
  function Stamped(current: ComputerRecord, record: ComputerRecord, now: int): ComputerRecord {
    if record.revision + 1 < 0x1_0000_0000_0000_0000
    then record.(revision := record.revision + 1, updatedAt := MonotonicNow(now, current.updatedAt))
    else record
  }

  /** Every record of the table, each once. */
  ghost predicate Listing(rows: Rows, list: seq<ComputerRecord>) {
    && (forall id :: id in rows <==> exists i :: 0 <= i < |list| && list[i].id == id)
    && (forall i :: 0 <= i < |list| ==> list[i].id in rows && rows[list[i].id].document == list[i])
    && (forall i, j :: 0 <= i < j < |list| ==> list[i].id != list[j].id)
  }

  // ---------------------------------------------------------------- runs of the store

  /** A run: the table after each of a sequence of committed transactions, from empty. */
  ghost predicate Run(bodyOk: ComputerRecord -> bool, states: seq<Rows>, events: seq<Event>) {
    && |states| == |events| + 1 && states[0] == map[]
    && forall i :: 0 <= i < |events| ==> Commit(bodyOk, states[i], events[i], states[i + 1])
  }

  /** The versions of a record committed since it was last inserted. */
  function Versions(events: seq<Event>, id: Uuid): seq<ComputerRecord> {
    if events == [] then []
    else Extend(Versions(events[..|events| - 1], id), events[|events| - 1], id)
  }

  function Extend(before: seq<ComputerRecord>, event: Event, id: Uuid): seq<ComputerRecord> {
    match event
    case Inserted(r) => if r.id == id then [r] else before
    case Saved(r) => if r.id == id then before + [r] else before
    case Deleted(d) => if d == id then [] else before
    case Unchanged => before
  }

  /** Revisions 1, 2, 3, ... without gaps, times strictly later, identity and creation time kept. */
  predicate Ladder(versions: seq<ComputerRecord>) {
    && (forall k :: 0 <= k < |versions| ==> versions[k].revision == k + 1)
    && (forall k :: 1 <= k < |versions| ==> Succeeds(versions[k - 1], versions[k]))
  }

  /** The table holds the last version of the ladder, or nothing if there is none. */
  predicate Holds(rows: Rows, id: Uuid, versions: seq<ComputerRecord>) {
    && (id in rows <==> versions != [])
    && (id in rows ==> rows[id].document == versions[|versions| - 1] && rows[id].document.id == id)
  }

  lemma LadderStep(bodyOk: ComputerRecord -> bool, rows: Rows, event: Event, rows': Rows, id: Uuid,
      before: seq<ComputerRecord>)
    requires Commit(bodyOk, rows, event, rows') && TableAgrees(bodyOk, rows)
    requires Ladder(before) && Holds(rows, id, before)
    ensures Ladder(Extend(before, event, id)) && Holds(rows', id, Extend(before, event, id))
  {
    hide ValidRecord;
    if event.Saved? && event.record.id == id {
      var after := before + [event.record];
      assert forall k :: 0 <= k < |before| ==> after[k] == before[k];
      assert Succeeds(after[|before| - 1], after[|before|]);
    }
  }

  /**
   In every state of every run a live record is the last of an unbroken ladder of versions,
   a record with no such ladder is not in the table, and all columns agree.
   */
  lemma {:induction false} RunKeepsLadders(bodyOk: ComputerRecord -> bool, states: seq<Rows>, events: seq<Event>,
      id: Uuid)
    requires Run(bodyOk, states, events)
    ensures Ladder(Versions(events, id)) && Holds(states[|events|], id, Versions(events, id))
    ensures TableAgrees(bodyOk, states[|events|])
  {
    hide Commit;
    RunAgrees(bodyOk, states, events, |events|);
    if events == [] {
    } else {
      var n := |events| - 1;
      RunPrefix(bodyOk, states, events);
      RunKeepsLadders(bodyOk, states[..|events|], events[..n], id);
      assert states[..|events|][n] == states[n];
      assert Commit(bodyOk, states[n], events[n], states[n + 1]);
      LadderStep(bodyOk, states[n], events[n], states[n + 1], id, Versions(events[..n], id));
    }
  }

  lemma RunPrefix(bodyOk: ComputerRecord -> bool, states: seq<Rows>, events: seq<Event>)
    requires Run(bodyOk, states, events) && events != []
    ensures Run(bodyOk, states[..|events|], events[..|events| - 1])
  {
    hide Commit;
    var s, e := states[..|events|], events[..|events| - 1];
    forall i | 0 <= i < |e|
      ensures Commit(bodyOk, s[i], e[i], s[i + 1])
    {
      assert s[i] == states[i] && s[i + 1] == states[i + 1] && e[i] == events[i];
    }
  }

  predicate SavesRevision(event: Event, id: Uuid, revision: nat) {
    event.Saved? && event.record.id == id && event.record.revision == revision
  }

  /** Of all saves that expect the same revision of a record, at most one succeeds while it lives. */
  lemma {:induction false} OneSavePerRevision(bodyOk: ComputerRecord -> bool, states: seq<Rows>, events: seq<Event>,
      id: Uuid, revision: nat, i: nat, j: nat)
    requires Run(bodyOk, states, events)
    requires i < j < |events| && SavesRevision(events[i], id, revision) && SavesRevision(events[j], id, revision)
    ensures exists k :: i < k < j && events[k] == Deleted(id)
  {
    assert Commit(bodyOk, states[i], events[i], states[i + 1]);
    assert Commit(bodyOk, states[j], events[j], states[j + 1]);
    if forall k :: i < k < j ==> events[k] != Deleted(id) {
      RevisionsGrow(bodyOk, states, events, id, i + 1, j);
    }
  }

  lemma {:induction false} RunAgrees(bodyOk: ComputerRecord -> bool, states: seq<Rows>, events: seq<Event>, i: nat)
    requires Run(bodyOk, states, events) && i <= |events|
    ensures TableAgrees(bodyOk, states[i])
  {
    if i > 0 {
      RunAgrees(bodyOk, states, events, i - 1);
      assert Commit(bodyOk, states[i - 1], events[i - 1], states[i - 1 + 1]);
    }
  }

  /** Every stored record of every run is named, at least at its first revision and no younger than its last change. */
  lemma LiveRecordsAreSound(bodyOk: ComputerRecord -> bool, states: seq<Rows>, events: seq<Event>, i: nat, id: Uuid)
    requires Run(bodyOk, states, events) && i <= |events| && id in states[i]
    ensures var r := states[i][id].document;
      && r.id == id != NIL && r.intendedNodeId != NIL && 1 <= r.revision <= 9_223_372_036_854_775_807
      && r.createdAt <= r.updatedAt && bodyOk(r)
      && states[i][id] == Row(r.revision, r.createdAt, r.updatedAt, r)
  {
    RunAgrees(bodyOk, states, events, i);
    assert RowAgrees(bodyOk, id, states[i][id]);
  }

  lemma {:induction false} RevisionsGrow(bodyOk: ComputerRecord -> bool, states: seq<Rows>, events: seq<Event>,
      id: Uuid, i: nat, j: nat)
    requires Run(bodyOk, states, events) && i <= j <= |events| && id in states[i]
    requires forall k :: i <= k < j ==> events[k] != Deleted(id)
    ensures id in states[j] && states[j][id].document.revision >= states[i][id].document.revision
    decreases j - i
  {
    if i < j {
      assert Commit(bodyOk, states[i], events[i], states[i + 1]);
      assert events[i] != Deleted(id);
      RevisionsGrow(bodyOk, states, events, id, i + 1, j);
    }
  }
}
