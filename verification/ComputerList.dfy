/**
 The renderer's list of computers: sorting by the text of the update time, inserting one mutation result,
 reconciling a whole list from the server.
 */
module ComputerList {
  import opened Text
  import opened Uuids
  import opened Store

  predicate UniqueIds(items: seq<ComputerRecord>) {
    forall i, j :: 0 <= i < j < |items| ==> items[i].id != items[j].id
  }

  predicate InDisplayOrder(order: Collation, items: seq<ComputerRecord>) {
    forall i, j :: 0 <= i < j < |items| ==> order(items[i].updatedAt) >= order(items[j].updatedAt)
  }

  predicate Shows(items: seq<ComputerRecord>, id: Uuid) {
    exists i :: 0 <= i < |items| && items[i].id == id
  }

  /** The stable sort behind `sortComputers`. */
  function SortComputers(order: Collation, items: seq<ComputerRecord>): seq<ComputerRecord> {
    if items == [] then [] else InsertSorted(order, items[0], SortComputers(order, items[1..]))
  }

  function InsertSorted(order: Collation, x: ComputerRecord, items: seq<ComputerRecord>): seq<ComputerRecord> {
    if items == [] || order(x.updatedAt) >= order(items[0].updatedAt) then [x] + items
    else [items[0]] + InsertSorted(order, x, items[1..])
  }

  lemma {:induction false} InsertSortedMembers(order: Collation, x: ComputerRecord, items: seq<ComputerRecord>)
    ensures forall r :: r in InsertSorted(order, x, items) <==> r == x || r in items
  {
    if items == [] || order(x.updatedAt) >= order(items[0].updatedAt) {
    } else {
      InsertSortedMembers(order, x, items[1..]);
      assert items == [items[0]] + items[1..];
    }
  }

  lemma {:induction false} InsertSortedOrder(order: Collation, x: ComputerRecord, items: seq<ComputerRecord>)
    requires InDisplayOrder(order, items)
    ensures InDisplayOrder(order, InsertSorted(order, x, items))
  {
    if items == [] || order(x.updatedAt) >= order(items[0].updatedAt) {
    } else {
      var inserted := InsertSorted(order, x, items[1..]);
      InsertSortedOrder(order, x, items[1..]);
      InsertSortedMembers(order, x, items[1..]);
      forall i | 0 <= i < |inserted|
        ensures order(items[0].updatedAt) >= order(inserted[i].updatedAt)
      {
        assert inserted[i] in inserted;
      }
    }
  }

  lemma {:induction false} InsertSortedIds(order: Collation, x: ComputerRecord, items: seq<ComputerRecord>)
    requires UniqueIds(items) && !Shows(items, x.id)
    ensures UniqueIds(InsertSorted(order, x, items))
  {
    if items == [] || order(x.updatedAt) >= order(items[0].updatedAt) {
    } else {
      var inserted := InsertSorted(order, x, items[1..]);
      assert forall i :: 0 <= i < |items[1..]| ==> items[1..][i] == items[i + 1];
      InsertSortedIds(order, x, items[1..]);
      InsertSortedMembers(order, x, items[1..]);
      forall i | 0 <= i < |inserted|
        ensures inserted[i].id != items[0].id
      {
        assert inserted[i] in inserted;
      }
    }
  }

  lemma {:induction false} SortFacts(order: Collation, items: seq<ComputerRecord>)
    ensures InDisplayOrder(order, SortComputers(order, items))
    ensures forall r :: r in SortComputers(order, items) <==> r in items
    ensures UniqueIds(items) ==> UniqueIds(SortComputers(order, items))
  {
    if items == [] {
    } else {
      var sorted := SortComputers(order, items[1..]);
      SortFacts(order, items[1..]);
      InsertSortedOrder(order, items[0], sorted);
      InsertSortedMembers(order, items[0], sorted);
      assert items == [items[0]] + items[1..];
      if UniqueIds(items) {
        forall i | 0 <= i < |sorted|
          ensures sorted[i].id != items[0].id
        {
          assert sorted[i] in items[1..];
        }
        InsertSortedIds(order, items[0], sorted);
      }
    }
  }

  /** The items whose time text stands at `t`, in their order. */
  function Ties(order: Collation, t: real, items: seq<ComputerRecord>): seq<ComputerRecord> {
    if items == [] then []
    else Tie(order, t, items[0]) + Ties(order, t, items[1..])
  }

  function Tie(order: Collation, t: real, x: ComputerRecord): seq<ComputerRecord> {
    if order(x.updatedAt) == t then [x] else []
  }

  lemma TiesCons(order: Collation, t: real, x: ComputerRecord, items: seq<ComputerRecord>)
    ensures Ties(order, t, [x] + items) == Tie(order, t, x) + Ties(order, t, items)
  {
    assert ([x] + items)[1..] == items;
  }

  lemma {:induction false} InsertKeepsTies(order: Collation, t: real, x: ComputerRecord, items: seq<ComputerRecord>)
    ensures Ties(order, t, InsertSorted(order, x, items)) == Tie(order, t, x) + Ties(order, t, items)
  {
    hide Ties, Tie;
    if items == [] || order(x.updatedAt) >= order(items[0].updatedAt) {
      TiesCons(order, t, x, items);
    } else {
      var head, rest := items[0], items[1..];
      InsertKeepsTies(order, t, x, rest);
      TiesCons(order, t, head, InsertSorted(order, x, rest));
      TiesCons(order, t, head, rest);
      assert items == [head] + rest;
      LaterTie(order, t, x, head, Ties(order, t, rest));
    }
  }

  /** A record with an earlier text than `head` is never tied with it. */
  lemma LaterTie(order: Collation, t: real, x: ComputerRecord, head: ComputerRecord, rest: seq<ComputerRecord>)
    requires order(x.updatedAt) < order(head.updatedAt)
    ensures Tie(order, t, head) + (Tie(order, t, x) + rest) == Tie(order, t, x) + (Tie(order, t, head) + rest)
  {
  }

  /** The sort is stable: it loses nothing and leaves equal times in their order. */
  lemma {:induction false} SortKeepsTies(order: Collation, t: real, items: seq<ComputerRecord>)
    ensures Ties(order, t, SortComputers(order, items)) == Ties(order, t, items)
  {
    if items == [] {
    } else {
      hide InsertSorted, Tie;
      SortKeepsTies(order, t, items[1..]);
      InsertKeepsTies(order, t, items[0], SortComputers(order, items[1..]));
    }
  }

  lemma {:induction false} SortedStays(order: Collation, items: seq<ComputerRecord>)
    requires InDisplayOrder(order, items)
    ensures SortComputers(order, items) == items
  {
    if items == [] {
    } else {
      HeadInOrder(order, items);
      SortedStays(order, items[1..]);
      assert |items| > 1 ==> items[1] in items[1..];
    }
  }

  /** The server's order, newest first and then by printed id, is one that sorting for display leaves alone. */
  lemma ServerOrderIsDisplayOrder(order: Collation, list: seq<ComputerRecord>)
    requires InQueryOrder(order, list)
    ensures InDisplayOrder(order, list) && SortComputers(order, list) == list
    ensures forall i, j :: 0 <= i < j < |list| && order(list[i].updatedAt) == order(list[j].updatedAt) ==>
      Less(Uuids.Print(list[i].id), Uuids.Print(list[j].id))
  {
    hide Less;
    assert InDisplayOrder(order, list);
    SortedStays(order, list);
  }

  function Without(items: seq<ComputerRecord>, id: Uuid): (r: seq<ComputerRecord>)
    ensures forall x :: x in r <==> x in items && x.id != id
  {
    if items == [] then []
    else if items[0].id == id then Without(items[1..], id)
    else [items[0]] + Without(items[1..], id)
  }

  lemma {:induction false} WithoutKeepsIds(items: seq<ComputerRecord>, id: Uuid)
    requires UniqueIds(items)
    ensures UniqueIds(Without(items, id))
  {
    if items == [] {
    } else {
      var rest := Without(items[1..], id);
      WithoutKeepsIds(items[1..], id);
      forall i | 0 <= i < |rest|
        ensures items[0].id != rest[i].id
      {
        var k := TailMember(items, rest[i]);
      }
    }
  }

  lemma {:induction false} WithoutKeepsOrder(order: Collation, items: seq<ComputerRecord>, id: Uuid)
    requires InDisplayOrder(order, items)
    ensures InDisplayOrder(order, Without(items, id))
  {
    if items == [] {
    } else {
      HeadInOrder(order, items);
      hide InDisplayOrder;
      WithoutKeepsOrder(order, items[1..], id);
      ConsInOrder(order, items[0], Without(items[1..], id));
    }
  }

  lemma HeadInOrder(order: Collation, items: seq<ComputerRecord>)
    requires items != [] && InDisplayOrder(order, items)
    ensures InDisplayOrder(order, items[1..])
    ensures forall r :: r in items[1..] ==> order(items[0].updatedAt) >= order(r.updatedAt)
  {
    forall r | r in items[1..]
      ensures order(items[0].updatedAt) >= order(r.updatedAt)
    {
      var k := TailMember(items, r);
    }
  }

  lemma ConsInOrder(order: Collation, x: ComputerRecord, rest: seq<ComputerRecord>)
    requires InDisplayOrder(order, rest)
    requires forall r :: r in rest ==> order(x.updatedAt) >= order(r.updatedAt)
    ensures InDisplayOrder(order, [x] + rest)
  {
  }

  lemma WithoutFacts(order: Collation, items: seq<ComputerRecord>, id: Uuid)
    ensures UniqueIds(items) ==> UniqueIds(Without(items, id))
    ensures InDisplayOrder(order, items) ==> InDisplayOrder(order, Without(items, id))
  {
    hide Without, UniqueIds, InDisplayOrder;
    if UniqueIds(items) {
      WithoutKeepsIds(items, id);
    }
    if InDisplayOrder(order, items) {
      WithoutKeepsOrder(order, items, id);
    }
  }

  lemma TailMember(items: seq<ComputerRecord>, r: ComputerRecord) returns (k: nat)
    requires items != [] && r in items[1..]
    ensures 1 <= k < |items| && items[k] == r
  {
    var j :| 0 <= j < |items[1..]| && items[1..][j] == r;
    k := j + 1;
  }

  function Find(items: seq<ComputerRecord>, id: Uuid): (r: Option<ComputerRecord>)
    ensures r.Some? ==> r.value in items && r.value.id == id
    ensures r.None? <==> !Shows(items, id)
  {
    if items == [] then None
    else if items[0].id == id then Some(items[0])
    else
      assert items == [items[0]] + items[1..];
      Find(items[1..], id)
  }

  lemma FindUnique(items: seq<ComputerRecord>, r: ComputerRecord)
    requires UniqueIds(items) && r in items
    ensures Find(items, r.id) == Some(r)
  {
  }

  /** `upsertComputer` */
  function Upsert(order: Collation, items: seq<ComputerRecord>, next: ComputerRecord): seq<ComputerRecord> {
    var previous := Find(items, next.id);
    if previous.Some? && previous.value.revision >= next.revision then items
    else SortComputers(order, [next] + Without(items, next.id))
  }

  /** `reconcileComputerList` */
  function Reconcile(order: Collation, current: seq<ComputerRecord>,
      incoming: seq<ComputerRecord>): seq<ComputerRecord> {
    SortComputers(order, Merge(current, incoming))
  }

  function Merge(current: seq<ComputerRecord>, incoming: seq<ComputerRecord>): (r: seq<ComputerRecord>)
    ensures |r| == |incoming| && forall i :: 0 <= i < |r| ==> r[i] == Newer(current, incoming[i])
  {
    seq(|incoming|, i requires 0 <= i < |incoming| => Newer(current, incoming[i]))
  }

  function Newer(current: seq<ComputerRecord>, item: ComputerRecord): (r: ComputerRecord)
    ensures r.id == item.id
  {
    var previous := Find(current, item.id);
    if previous.Some? && previous.value.revision >= item.revision then previous.value else item
  }

  /** A server list with nothing older or different than what is shown is displayed exactly as it came. */
  lemma FreshListShownAsSent(order: Collation, current: seq<ComputerRecord>, incoming: seq<ComputerRecord>)
    requires InQueryOrder(order, incoming)
    requires forall i, j :: 0 <= i < |incoming| && 0 <= j < |current| && current[j].id == incoming[i].id ==>
      current[j].revision < incoming[i].revision || current[j] == incoming[i]
    ensures Reconcile(order, current, incoming) == incoming
  {
    hide InQueryOrder, SortComputers;
    ServerOrderIsDisplayOrder(order, incoming);
    assert Merge(current, incoming) == incoming;
  }

  /** After an upsert the record is shown at the higher of the two revisions; all others as before. */
  lemma UpsertFacts(order: Collation, items: seq<ComputerRecord>, next: ComputerRecord)
    requires UniqueIds(items) && InDisplayOrder(order, items)
    ensures UniqueIds(Upsert(order, items, next)) && InDisplayOrder(order, Upsert(order, items, next))
    ensures
      var before, after := Find(items, next.id), Find(Upsert(order, items, next), next.id);
      && (before.Some? && before.value.revision >= next.revision ==> after == before)
      && (before.Some? && before.value.revision < next.revision ==> after == Some(next))
      && (before.None? ==> after == Some(next))
    ensures forall id :: id != next.id ==> Find(Upsert(order, items, next), id) == Find(items, id)
  {
    if Find(items, next.id).None? || Find(items, next.id).value.revision < next.revision {
      var unsorted := [next] + Without(items, next.id);
      WithoutFacts(order, items, next.id);
      assert UniqueIds(unsorted) by {
        forall i | 1 <= i < |unsorted|
          ensures unsorted[i].id != next.id
        {
          assert unsorted[i] in Without(items, next.id);
        }
      }
      SortFacts(order, unsorted);
      SameElementsSameFind(unsorted, SortComputers(order, unsorted));
      assert Find(unsorted, next.id) == Some(next);
      forall id | id != next.id
        ensures Find(unsorted, id) == Find(items, id)
      {
        assert unsorted[1..] == Without(items, next.id);
        WithoutFind(items, next.id, id);
      }
    }
  }

  lemma WithoutFind(items: seq<ComputerRecord>, removed: Uuid, id: Uuid)
    requires UniqueIds(items)
    ensures Find(Without(items, removed), id) == if id == removed then None else Find(items, id)
  {
    WithoutKeepsIds(items, removed);
    var left := Without(items, removed);
    if id != removed && Find(items, id).Some? {
      FindUnique(left, Find(items, id).value);
    } else if id != removed && Find(left, id).Some? {
      FindUnique(items, Find(left, id).value);
    }
  }

  lemma SameElementsSameFind(a: seq<ComputerRecord>, b: seq<ComputerRecord>)
    requires UniqueIds(a) && UniqueIds(b) && forall r :: r in a <==> r in b
    ensures forall id :: Find(a, id) == Find(b, id)
  {
    forall id
      ensures Find(a, id) == Find(b, id)
    {
      if Find(a, id).Some? {
        FindUnique(b, Find(a, id).value);
      } else if Find(b, id).Some? {
        FindUnique(a, Find(b, id).value);
      }
    }
  }

  /** After reconciling, exactly the incoming records are shown, each at the higher revision. */
  lemma ReconcileFacts(order: Collation, current: seq<ComputerRecord>, incoming: seq<ComputerRecord>)
    requires UniqueIds(current) && UniqueIds(incoming)
    ensures UniqueIds(Reconcile(order, current, incoming)) && InDisplayOrder(order, Reconcile(order, current, incoming))
    ensures forall id :: Find(incoming, id).None? ==> Find(Reconcile(order, current, incoming), id).None?
    ensures forall id :: Find(incoming, id).Some? ==>
      var before, came, after := Find(current, id), Find(incoming, id), Find(Reconcile(order, current, incoming), id);
      && (before.Some? && before.value.revision >= came.value.revision ==> after == before)
      && (before.Some? && before.value.revision < came.value.revision ==> after == came)
      && (before.None? ==> after == came)
  {
    var merged := Merge(current, incoming);
    assert UniqueIds(merged);
    SortFacts(order, merged);
    SameElementsSameFind(merged, SortComputers(order, merged));
    forall id
      ensures Find(incoming, id).None? ==> Find(merged, id).None?
      ensures Find(incoming, id).Some? ==> Find(merged, id) == Some(Newer(current, Find(incoming, id).value))
    {
      if Find(incoming, id).Some? {
        var i :| 0 <= i < |incoming| && incoming[i] == Find(incoming, id).value;
        FindUnique(merged, merged[i]);
      }
    }
  }
}
