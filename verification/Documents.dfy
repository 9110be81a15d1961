/**
 How serde turns a struct into a JSON object: one optional member per field, where a
 member without a value is left out.
 */
module Documents {
  import opened Text
  import opened CanonicalJson
  import opened ResourceKeys

  datatype Member = Member(key: string, value: Option<Json>)

  function Keys(members: seq<Member>): (keys: seq<string>)
    ensures |keys| == |members| && forall i :: 0 <= i < |keys| ==> keys[i] == members[i].key
  {
    seq(|members|, i requires 0 <= i < |members| => members[i].key)
  }

  function ObjectOf(members: seq<Member>): map<string, Json> {
    if members == [] then map[]
    else
      var rest := ObjectOf(members[1..]);
      if members[0].value.Some? then rest[members[0].key := members[0].value.value] else rest
  }

  lemma {:induction false} ObjectKeys(members: seq<Member>, k: string)
    ensures k in ObjectOf(members) ==> exists i :: 0 <= i < |members| && members[i].key == k && members[i].value.Some?
  {
    if members != [] && k in ObjectOf(members) {
      if members[0].key == k && members[0].value.Some? {
        assert members[0].key == k;
      } else {
        ObjectKeys(members[1..], k);
        var i :| 0 <= i < |members[1..]| && members[1..][i].key == k && members[1..][i].value.Some?;
        assert members[i + 1].key == k;
      }
    }
  }

  /** A field is present exactly when it has a value, and then it holds that value. */
  lemma {:induction false} Lookup(members: seq<Member>, i: nat)
    requires i < |members| && Ascending(Keys(members))
    ensures members[i].key in ObjectOf(members) <==> members[i].value.Some?
    ensures members[i].value.Some? ==> ObjectOf(members)[members[i].key] == members[i].value.value
  {
    var rest := members[1..];
    assert Ascending(Keys(rest)) by {
      forall a, b | 0 <= a < b < |rest|
        ensures Less(Keys(rest)[a], Keys(rest)[b])
      {
        assert Less(Keys(members)[a + 1], Keys(members)[b + 1]);
      }
    }
    if i == 0 {
      if members[0].key in ObjectOf(rest) {
        ObjectKeys(rest, members[0].key);
        var j :| 0 <= j < |rest| && rest[j].key == members[0].key;
        assert Less(Keys(members)[0], Keys(members)[j + 1]);
        LessTrichotomy(members[0].key, members[0].key);
      }
    } else {
      Lookup(rest, i - 1);
      assert Less(Keys(members)[0], Keys(members)[i]);
      LessTrichotomy(members[0].key, members[i].key);
    }
  }

  ghost function ProjectMembers(members: seq<Member>): (r: seq<Member>)
    ensures |r| == |members|
  {
    seq(|members|, i requires 0 <= i < |members| =>
      Member(Rename(members[i].key), if members[i].value.None? then None else Some(Project(members[i].value.value))))
  }

  /** A struct in the current spelling, listed in key order before and after the projection. */
  ghost predicate Projectable(members: seq<Member>) {
    && Ascending(Keys(members)) && Ascending(Keys(ProjectMembers(members)))
    && forall i :: 0 <= i < |members| ==> Newer(members[i].key) == members[i].key
  }

  /** On such a struct the projection acts field by field. */
  lemma ProjectObject(members: seq<Member>)
    requires Projectable(members)
    ensures Project(Obj(ObjectOf(members))) == Obj(ObjectOf(ProjectMembers(members)))
  {
    hide Rename, Newer, RenameKeys, Projectable, ObjectOf, ProjectMembers;
    var fields := ProjectFields(Obj(ObjectOf(members)));
    var right := ObjectOf(ProjectMembers(members));
    NoFieldClash(members);
    forall k | k in fields
      ensures Rename(k) in right && right[Rename(k)] == fields[k]
    {
      ProjectedEntry(members, k);
    }
    forall k | k in right
      ensures exists j :: j in fields && Rename(j) == k
    {
      ProjectedKey(members, k);
    }
    RenamedIs(fields, right);
  }

  lemma RenamedIs(fields: map<string, Json>, right: map<string, Json>)
    requires !Clash(fields)
    requires forall k :: k in fields ==> Rename(k) in right && right[Rename(k)] == fields[k]
    requires forall k :: k in right ==> exists j :: j in fields && Rename(j) == k
    ensures RenameKeys(fields) == right
  {
    hide Rename, Newer, RenameKeys, Clash;
    NoClashKeepsEveryEntry(fields);
    assert RenameKeys(fields).Keys == right.Keys;
    forall k | k in right
      ensures RenameKeys(fields)[k] == right[k]
    {
      var j :| j in fields && Rename(j) == k;
    }
  }

  lemma NoFieldClash(members: seq<Member>)
    requires Projectable(members)
    ensures !Clash(ProjectFields(Obj(ObjectOf(members))))
  {
    hide Rename, Newer, Project;
    var fields := ProjectFields(Obj(ObjectOf(members)));
    forall k | k in fields
      ensures Newer(k) == k
    {
      ObjectKeys(members, k);
    }
  }

  lemma ProjectedEntry(members: seq<Member>, k: string)
    requires Projectable(members) && k in ObjectOf(members)
    ensures Rename(k) in ObjectOf(ProjectMembers(members))
    ensures ObjectOf(ProjectMembers(members))[Rename(k)] == Project(ObjectOf(members)[k])
  {
    hide Rename, Newer, Project;
    ObjectKeys(members, k);
    var i :| 0 <= i < |members| && members[i].key == k && members[i].value.Some?;
    Lookup(members, i);
    Lookup(ProjectMembers(members), i);
  }

  lemma ProjectedKey(members: seq<Member>, k: string)
    requires Projectable(members) && k in ObjectOf(ProjectMembers(members))
    ensures exists j :: j in ObjectOf(members) && Rename(j) == k
  {
    hide Rename, Newer, Project;
    var projected := ProjectMembers(members);
    ObjectKeys(projected, k);
    var i :| 0 <= i < |projected| && projected[i].key == k && projected[i].value.Some?;
    Lookup(members, i);
    assert Rename(members[i].key) == k;
  }

  // ---------------------------------------------------------------- structs

  /** A struct with the given field names, in key order, and the given field values. */
  function Struct(keys: seq<string>, values: seq<Option<Json>>): Json
    requires |keys| == |values|
  {
    Obj(ObjectOf(Fields(keys, values)))
  }

  function Fields(keys: seq<string>, values: seq<Option<Json>>): (members: seq<Member>)
    requires |keys| == |values|
    ensures |members| == |keys| && forall i :: 0 <= i < |keys| ==> members[i] == Member(keys[i], values[i])
  {
    seq(|keys|, i requires 0 <= i < |keys| => Member(keys[i], values[i]))
  }

  ghost function ProjectValue(value: Option<Json>): Option<Json> {
    if value.None? then None else Some(Project(value.value))
  }

  /** `older` names the fields of `newer` the way preview.100 did; both are in key order. */
  predicate SpelledOlder(newer: seq<string>, older: seq<string>) {
    InOrder(newer) && InOrder(older) && EachRenamed(newer, older)
  }

  predicate EachRenamed(newer: seq<string>, older: seq<string>) {
    |newer| == |older| &&
    (newer == [] || (Rename(newer[0]) == older[0] && Newer(newer[0]) == newer[0]
        && EachRenamed(newer[1..], older[1..])))
  }

  lemma {:induction false} RenamedAt(newer: seq<string>, older: seq<string>, i: nat)
    requires EachRenamed(newer, older) && i < |newer|
    ensures Rename(newer[i]) == older[i] && Newer(newer[i]) == newer[i]
  {
    hide Rename, Newer;
    if i > 0 {
      RenamedAt(newer[1..], older[1..], i - 1);
    }
  }

  lemma DropFirst(a: seq<string>, b: seq<string>)
    requires a != []
    ensures (a + b)[1..] == a[1..] + b
  {
  }

  lemma {:induction false} SpelledOlderAppend(newer: seq<string>, older: seq<string>, newer': seq<string>,
      older': seq<string>)
    requires SpelledOlder(newer, older) && SpelledOlder(newer', older')
    requires newer != [] && newer' != []
    requires Less(newer[|newer| - 1], newer'[0]) && Less(older[|older| - 1], older'[0])
    ensures SpelledOlder(newer + newer', older + older')
  {
    hide Rename, Newer, Less;
    assert |older| == |newer| > 0;
    DropFirst(newer, newer');
    DropFirst(older, older');
    if |newer| > 1 {
      SpelledOlderAppend(newer[1..], older[1..], newer', older');
    } else {
      assert newer[1..] + newer' == newer' && older[1..] + older' == older';
    }
  }

  /** Projecting a struct in the new spelling gives the struct in the old spelling. */
  lemma StructProject(newer: seq<string>, older: seq<string>, a: seq<Option<Json>>, b: seq<Option<Json>>)
    requires SpelledOlder(newer, older) && |newer| == |a| == |b|
    requires forall i :: 0 <= i < |a| ==> ProjectValue(a[i]) == b[i]
    ensures Project(Struct(newer, a)) == Struct(older, b)
  {
    hide Rename, Newer, Project;
    var members := Fields(newer, a);
    InOrderIsAscending(newer);
    InOrderIsAscending(older);
    forall i | 0 <= i < |newer|
      ensures Rename(newer[i]) == older[i] && Newer(newer[i]) == newer[i]
    {
      RenamedAt(newer, older, i);
    }
    assert Keys(members) == newer;
    assert Keys(ProjectMembers(members)) == older;
    assert ProjectMembers(members) == Fields(older, b);
    ProjectObject(members);
  }
}
