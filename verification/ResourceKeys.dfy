/**
 The digest projection: every resource-unit key (`memoryMiB`, ...) is spelled the way
 preview.100 spelled it (`memoryMib`), at every depth of a JSON tree.
 */
module ResourceKeys {
  import opened Text
  import opened CanonicalJson

  function Rename(key: string): string {
    if key == "minMemoryMiB" then "minMemoryMib"
    else if key == "minDiskMiB" then "minDiskMib"
    else if key == "minVramMiB" then "minVramMib"
    else if key == "memoryMiB" then "memoryMib"
    else if key == "diskMiB" then "diskMib"
    else if key == "vramMiB" then "vramMib"
    else key
  }

  /** The newer spelling that `Rename` would turn into `key`; `key` itself otherwise. */
  function Newer(key: string): string {
    if key == "minMemoryMib" then "minMemoryMiB"
    else if key == "minDiskMib" then "minDiskMiB"
    else if key == "minVramMib" then "minVramMiB"
    else if key == "memoryMib" then "memoryMiB"
    else if key == "diskMib" then "diskMiB"
    else if key == "vramMib" then "vramMiB"
    else key
  }

  lemma LastLetter(key: string)
    ensures Rename(key) != key ==> key != "" && key[|key| - 1] == 'B' && Rename(key)[|Rename(key)| - 1] == 'b'
    ensures Newer(key) != key ==> key != "" && key[|key| - 1] == 'b' && Newer(key)[|Newer(key)| - 1] == 'B'
  {
  }

  /** `Rename` moves a newer spelling to its older one, once. */
  lemma RenameFacts(key: string)
    ensures Rename(Rename(key)) == Rename(key)
    ensures Rename(key) != key ==> Newer(Rename(key)) == key
    ensures Newer(key) != key ==> Rename(Newer(key)) == key && Rename(key) == key
  {
    LastLetter(key);
    LastLetter(Rename(key));
    LastLetter(Newer(key));
  }

  /**
   One object after renaming. Where both spellings were present the newer one wins,
   whatever the order in which the keys are visited.
   */
  ghost function RenameKeys(m: map<string, Json>): (r: map<string, Json>) {
    RenamedSoFar(m, m.Keys)
  }

  /** The object once the keys in `done` have been removed and inserted again. */
  ghost function RenamedSoFar(m: map<string, Json>, done: set<string>): (r: map<string, Json>)
    requires done <= m.Keys
  {
    map k | k in m.Keys + (set j | j in done :: Rename(j)) && (MovedTo(done, k) || Kept(m, done, k)) ::
      if MovedTo(done, k) then m[Newer(k)] else m[k]
  }

  /** Some visited key was renamed to `k`. */
  predicate MovedTo(done: set<string>, k: string) {
    Newer(k) != k && Newer(k) in done
  }

  /** `k` was there from the start and has not been renamed away. */
  predicate Kept(m: map<string, Json>, done: set<string>, k: string) {
    k in m && (k !in done || Rename(k) == k)
  }

  lemma InRenamed(m: map<string, Json>, done: set<string>, k: string)
    requires done <= m.Keys
    ensures k in RenamedSoFar(m, done) <==> MovedTo(done, k) || Kept(m, done, k)
  {
    hide Rename, Newer;
    RenameFacts(k);
    if MovedTo(done, k) {
      assert Rename(Newer(k)) in (set j | j in done :: Rename(j));
    }
  }

  lemma RenameOne(m: map<string, Json>, done: set<string>, key: string)
    requires done <= m.Keys && key in m && key !in done
    ensures key in RenamedSoFar(m, done)
    ensures RenamedSoFar(m, done + {key})
         == (RenamedSoFar(m, done) - {key})[Rename(key) := RenamedSoFar(m, done)[key]]
  {
    hide Rename, Newer;
    var before, after := RenamedSoFar(m, done), RenamedSoFar(m, done + {key});
    InRenamed(m, done, key);
    var expected := (before - {key})[Rename(key) := before[key]];
    RenameFacts(key);
    forall k
      ensures k in after <==> k in expected
      ensures k in after ==> after[k] == expected[k]
    {
      RenameFacts(k);
      InRenamed(m, done, k);
      InRenamed(m, done + {key}, k);
    }
  }

  /** The in-place loop: each key is removed and inserted under its projected name. */
  method RenameInPlace(fields: map<string, Json>) returns (values: map<string, Json>)
    ensures values == RenameKeys(fields)
  {
    values := fields;
    var todo := fields.Keys;
    assert RenamedSoFar(fields, {}) == fields;
    while todo != {}
      invariant todo <= fields.Keys
      invariant values == RenamedSoFar(fields, fields.Keys - todo)
    {
      var key :| key in todo;
      RenameOne(fields, fields.Keys - todo, key);
      assert fields.Keys - todo + {key} == fields.Keys - (todo - {key});
      todo := todo - {key};
      var value := values[key];
      values := values - {key};
      values := values[Rename(key) := value];
    }
    assert fields.Keys - {} == fields.Keys;
  }

  /** The projection as a function: project the values, then rename the keys. */
  ghost function Project(v: Json): Json
    decreases v
  {
    match v
    case Arr(items) => Arr(ProjectItems(items))
    case Obj(fields) => Obj(RenameKeys(ProjectFields(v)))
    case _ => v
  }

  ghost function ProjectItems(items: seq<Json>): (r: seq<Json>)
    ensures |r| == |items| && forall i :: 0 <= i < |r| ==> r[i] == Project(items[i])
    decreases items
  {
    if items == [] then [] else [Project(items[0])] + ProjectItems(items[1..])
  }

  ghost function ProjectFields(v: Json): (r: map<string, Json>)
    requires v.Obj?
    ensures r.Keys == v.fields.Keys && forall k :: k in r ==> r[k] == Project(v.fields[k])
    decreases v, 0
  {
    map k | k in v.fields :: Project(v.fields[k])
  }

  method ProjectInPlace(value: Json) returns (r: Json)
    ensures r == Project(value)
    decreases value
  {
    match value
    case Arr(items) =>
      var values := ProjectEach(items);
      assert values == ProjectItems(items);
      r := Arr(values);
    case Obj(fields) =>
      var renamed := RenameInPlace(fields);
      var values := ProjectEachValue(value, renamed);
      RenameCommutes(fields);
      assert values == ProjectFields(Obj(renamed));
      r := Obj(values);
    case _ =>
      r := value;
  }

  method ProjectEach(items: seq<Json>) returns (values: seq<Json>)
    ensures |values| == |items| && forall i :: 0 <= i < |values| ==> values[i] == Project(items[i])
    decreases items, 0
  {
    values := [];
    for i := 0 to |items|
      invariant |values| == i
      invariant forall j :: 0 <= j < i ==> values[j] == Project(items[j])
    {
      var projected := ProjectInPlace(items[i]);
      values := values + [projected];
    }
  }

  /** The loop over `values_mut` of the renamed object. */
  method ProjectEachValue(v: Json, renamed: map<string, Json>) returns (values: map<string, Json>)
    requires v.Obj? && renamed == RenameKeys(v.fields)
    ensures values.Keys == renamed.Keys && forall k :: k in values ==> values[k] == Project(renamed[k])
    decreases v, 0
  {
    hide Rename, Newer, Project;
    values := renamed;
    var todo := renamed.Keys;
    while todo != {}
      invariant values.Keys == renamed.Keys && todo <= renamed.Keys
      invariant forall k :: k in todo ==> values[k] == renamed[k]
      invariant forall k :: k in values && k !in todo ==> values[k] == Project(renamed[k])
    {
      var key :| key in todo;
      todo := todo - {key};
      RenameTakesValue(v.fields, key);
      var projected := ProjectInPlace(values[key]);
      values := values[key := projected];
    }
  }

  lemma RenameTakesValue(m: map<string, Json>, k: string)
    requires k in RenameKeys(m)
    ensures exists j :: j in m && RenameKeys(m)[k] == m[j]
  {
    hide Rename, Newer;
    assert RenameKeys(m)[k] == m[if MovedTo(m.Keys, k) then Newer(k) else k];
  }

  /** Renaming the keys and rewriting the values can be done in either order. */
  lemma RenameCommutes(fields: map<string, Json>)
    ensures RenameKeys(ProjectFields(Obj(fields))) == ProjectFields(Obj(RenameKeys(fields)))
  {
    hide Rename, Newer, Project;
    var projected := ProjectFields(Obj(fields));
    forall k
      ensures k in RenameKeys(projected) <==> k in RenameKeys(fields)
    {
      InRenamed(fields, fields.Keys, k);
      InRenamed(projected, fields.Keys, k);
    }
  }

  // ---------------------------------------------------------------- what the projection keeps

  /** Some unit key is present in both spellings. */
  predicate Clash(fields: map<string, Json>) {
    exists k :: k in fields && Newer(k) != k && Newer(k) in fields
  }

  /** Without a clash every entry is found again under its projected key, and nothing else is there. */
  lemma NoClashKeepsEveryEntry(m: map<string, Json>)
    requires !Clash(m)
    ensures forall k :: k in m ==> Rename(k) in RenameKeys(m) && RenameKeys(m)[Rename(k)] == m[k]
    ensures RenameKeys(m).Keys == set k | k in m :: Rename(k)
  {
    hide Rename, Newer;
    var r := RenameKeys(m);
    forall k | k in m
      ensures Rename(k) in r && r[Rename(k)] == m[k]
    {
      RenameFacts(k);
      RenameFacts(Rename(k));
      InRenamed(m, m.Keys, Rename(k));
    }
    forall k | k in r
      ensures k in set j | j in m :: Rename(j)
    {
      InRenamed(m, m.Keys, k);
      RenameFacts(k);
      if MovedTo(m.Keys, k) {
        assert Rename(Newer(k)) == k;
      } else {
        assert Rename(k) == k;
      }
    }
  }

  /** An object loses an entry to the projection exactly when a unit key clashes. */
  lemma EntriesLostExactlyOnClash(m: map<string, Json>)
    ensures |RenameKeys(m)| == |m| <==> !Clash(m)
  {
    hide Rename, Newer;
    var image := set k | k in m :: Rename(k);
    if Clash(m) {
      var k :| k in m && Newer(k) != k && Newer(k) in m;
      RenameFacts(k);
      var fewer := m.Keys - {Newer(k)};
      RenamedKeysCovered(m, Newer(k));
      ImageSize(fewer);
      assert RenameKeys(m).Keys <= set j | j in fewer :: Rename(j);
      SubsetSize(RenameKeys(m).Keys, set j | j in fewer :: Rename(j));
    } else {
      NoClashKeepsEveryEntry(m);
      InjectiveImageSize(m, m.Keys);
      assert RenameKeys(m).Keys == image;
    }
  }

  lemma RenamedKeysCovered(m: map<string, Json>, newer: string)
    requires newer in m && Rename(newer) != newer && Rename(newer) in m
    ensures RenameKeys(m).Keys <= set j | j in m.Keys - {newer} :: Rename(j)
  {
    hide Rename, Newer;
    RenameFacts(newer);
    forall k | k in RenameKeys(m)
      ensures k in set j | j in m.Keys - {newer} :: Rename(j)
    {
      InRenamed(m, m.Keys, k);
      RenameFacts(k);
      if k == Rename(newer) {
        assert Rename(k) == k;
      } else if MovedTo(m.Keys, k) {
        assert Newer(k) != newer && Rename(Newer(k)) == k;
      } else {
        assert Rename(k) == k && k != newer;
      }
    }
  }

  lemma {:induction false} ImageSize(s: set<string>)
    ensures |set k | k in s :: Rename(k)| <= |s|
  {
    hide Rename;
    if s == {} {
    } else {
      var k :| k in s;
      var rest := s - {k};
      ImageSize(rest);
      assert (set j | j in s :: Rename(j)) == (set j | j in rest :: Rename(j)) + {Rename(k)};
    }
  }

  lemma {:induction false} SubsetSize(a: set<string>, b: set<string>)
    requires a <= b
    ensures |a| <= |b|
  {
    assert b == a + (b - a);
  }

  lemma {:induction false} InjectiveImageSize(m: map<string, Json>, s: set<string>)
    requires s <= m.Keys && !Clash(m)
    ensures |set k | k in s :: Rename(k)| == |s|
  {
    hide Rename, Newer;
    if s == {} {
    } else {
      var k :| k in s;
      var rest := s - {k};
      InjectiveImageSize(m, rest);
      var image := set j | j in rest :: Rename(j);
      assert (set j | j in s :: Rename(j)) == image + {Rename(k)};
      RenameFacts(k);
      forall j | j in rest
        ensures Rename(j) != Rename(k)
      {
        RenameFacts(j);
        RenameFacts(Rename(j));
      }
    }
  }

  // ---------------------------------------------------------------- the same at every depth

  /** One step into a tree: a member of an object or an element of an array. */
  datatype Part = Field(key: string) | Item(index: nat)

  function Child(v: Json, part: Part): Option<Json> {
    match part
    case Field(k) => if v.Obj? && k in v.fields then Some(v.fields[k]) else None
    case Item(i) => if v.Arr? && i < |v.items| then Some(v.items[i]) else None
  }

  /** The value at a path, if the path exists. */
  function Get(v: Json, path: seq<Part>): Option<Json> {
    if path == [] then Some(v)
    else if Child(v, path[0]).None? then None
    else Get(Child(v, path[0]).value, path[1..])
  }

  function RenamePart(part: Part): Part {
    match part
    case Field(k) => Field(Rename(k))
    case Item(_) => part
  }

  function RenamePath(path: seq<Part>): (r: seq<Part>)
    ensures |r| == |path| && forall i :: 0 <= i < |path| ==> r[i] == RenamePart(path[i])
  {
    seq(|path|, i requires 0 <= i < |path| => RenamePart(path[i]))
  }

  /** The member is an older spelling next to its newer one. */
  predicate Overruled(v: Json, part: Part) {
    part.Field? && v.Obj? && Newer(part.key) != part.key && Newer(part.key) in v.fields
  }

  /** No step of the path goes through an overruled member. */
  predicate Survives(v: Json, path: seq<Part>) {
    path == [] || (!Overruled(v, path[0]) && (Child(v, path[0]).Some? ==> Survives(Child(v, path[0]).value, path[1..])))
  }

  /** No object anywhere in the tree holds both spellings of a unit key. */
  ghost predicate ClashFree(v: Json) {
    forall path :: Get(v, path).Some? && Get(v, path).value.Obj? ==> !Clash(Get(v, path).value.fields)
  }

  /** An entry that is not overruled is found under its projected key, clash or not. */
  lemma NewerSpellingWins(m: map<string, Json>, k: string)
    requires k in m && !(Newer(k) != k && Newer(k) in m)
    ensures Rename(k) in RenameKeys(m) && RenameKeys(m)[Rename(k)] == m[k]
  {
    hide Rename, Newer;
    RenameFacts(k);
    RenameFacts(Rename(k));
    InRenamed(m, m.Keys, Rename(k));
  }

  lemma ChildSurvives(v: Json, part: Part)
    requires Child(v, part).Some? && !Overruled(v, part)
    ensures Child(Project(v), RenamePart(part)) == Some(Project(Child(v, part).value))
  {
    hide Rename, Newer;
    if part.Field? {
      NewerSpellingWins(ProjectFields(v), part.key);
    }
  }

  lemma ChildComes(v: Json, part: Part) returns (from: Part)
    requires Child(Project(v), part).Some?
    ensures RenamePart(from) == part && !Overruled(v, from) && Child(v, from).Some?
    ensures Child(Project(v), part) == Some(Project(Child(v, from).value))
  {
    hide Rename, Newer;
    from := part;
    if part.Field? {
      var m, k := ProjectFields(v), part.key;
      InRenamed(m, m.Keys, k);
      RenameFacts(k);
      RenameFacts(Newer(k));
      from := Field(if MovedTo(m.Keys, k) then Newer(k) else k);
      assert RenameKeys(m)[k] == m[from.key];
    }
  }

  /** At every depth: a path with no overruled step is kept, renamed, with its projected value. */
  lemma {:induction false} PathSurvives(v: Json, path: seq<Part>)
    requires Get(v, path).Some? && Survives(v, path)
    ensures Get(Project(v), RenamePath(path)) == Some(Project(Get(v, path).value))
    decreases |path|
  {
    hide Project, Child, RenamePart, Overruled;
    if path == [] {
    } else {
      ChildSurvives(v, path[0]);
      PathSurvives(Child(v, path[0]).value, path[1..]);
      assert RenamePath(path)[1..] == RenamePath(path[1..]);
    }
  }

  lemma RenameCons(first: Part, rest: seq<Part>, path: seq<Part>)
    requires path != [] && RenamePart(first) == path[0] && RenamePath(rest) == path[1..]
    ensures RenamePath([first] + rest) == path
  {
    hide RenamePart;
    var longer := [first] + rest;
    forall i | 0 <= i < |path|
      ensures RenamePath(longer)[i] == path[i]
    {
      if i > 0 {
        assert longer[i] == rest[i - 1] && path[i] == path[1..][i - 1];
      }
    }
  }

  /** Nothing is invented: every path of the projection is the renamed path of one that survives. */
  lemma {:induction false} PathComes(v: Json, path: seq<Part>) returns (from: seq<Part>)
    requires Get(Project(v), path).Some?
    ensures RenamePath(from) == path && Survives(v, from) && Get(v, from).Some?
    ensures Get(Project(v), path) == Some(Project(Get(v, from).value))
    decreases |path|
  {
    hide Project, Child, RenamePart, Overruled;
    if path == [] {
      from := [];
    } else {
      var first := ChildComes(v, path[0]);
      var rest := PathComes(Child(v, first).value, path[1..]);
      from := [first] + rest;
      assert from[0] == first && from[1..] == rest;
      RenameCons(first, rest, path);
    }
  }

  lemma SurvivingChildUnique(v: Json, a: Part, b: Part)
    requires Child(v, a).Some? && Child(v, b).Some? && !Overruled(v, a) && !Overruled(v, b)
    requires RenamePart(a) == RenamePart(b)
    ensures a == b
  {
    hide Rename, Newer;
    if a.Field? {
      RenameFacts(a.key);
      RenameFacts(b.key);
    }
  }

  /** Surviving paths stay different, so the projection's paths are exactly the surviving ones, each once. */
  lemma {:induction false} SurvivingPathsUnique(v: Json, a: seq<Part>, b: seq<Part>)
    requires Get(v, a).Some? && Get(v, b).Some? && Survives(v, a) && Survives(v, b)
    requires RenamePath(a) == RenamePath(b)
    ensures a == b
    decreases |a|
  {
    hide Child, RenamePart, Overruled;
    assert |a| == |b|;
    if a == [] {
    } else {
      assert RenamePath(a)[0] == RenamePath(b)[0];
      SurvivingChildUnique(v, a[0], b[0]);
      assert RenamePath(a)[1..] == RenamePath(a[1..]) && RenamePath(b)[1..] == RenamePath(b[1..]);
      SurvivingPathsUnique(Child(v, a[0]).value, a[1..], b[1..]);
      assert a == [a[0]] + a[1..] && b == [b[0]] + b[1..];
    }
  }

  /**
   A tree keeps every path, and no two of its paths fall together, exactly when no object
   in it holds both spellings of a unit key.
   */
  lemma PathsLostExactlyOnClash(v: Json)
    ensures (forall path :: Get(v, path).Some? ==> Survives(v, path)) <==> ClashFree(v)
    ensures PathsStayApart(v) <==> ClashFree(v)
  {
    hide Rename, Newer;
    if ClashFree(v) {
      forall path | Get(v, path).Some?
        ensures Survives(v, path)
      {
        ClashFreeSurvives(v, path);
      }
      forall a, b | Get(v, a).Some? && Get(v, b).Some? && RenamePath(a) == RenamePath(b)
        ensures a == b
      {
        SurvivingPathsUnique(v, a, b);
      }
    } else {
      var path :| Get(v, path).Some? && Get(v, path).value.Obj? && Clash(Get(v, path).value.fields);
      var fields := Get(v, path).value.fields;
      var k :| k in fields && Newer(k) != k && Newer(k) in fields;
      ClashOverrules(v, path, k);
      GetLonger(v, path, Field(k));
      GetLonger(v, path, Field(Newer(k)));
      RenameFacts(k);
      var a, b := path + [Field(k)], path + [Field(Newer(k))];
      assert RenamePath(a) == RenamePath(b);
      assert a[|path|] != b[|path|];
    }
  }

  ghost predicate PathsStayApart(v: Json) {
    forall a, b :: Get(v, a).Some? && Get(v, b).Some? && RenamePath(a) == RenamePath(b) ==> a == b
  }

  lemma {:induction false} GetLonger(v: Json, path: seq<Part>, part: Part)
    requires Get(v, path).Some?
    ensures Get(v, path + [part]) == Child(Get(v, path).value, part)
    decreases |path|
  {
    hide Child;
    if path == [] {
      assert path + [part] == [part];
    } else {
      assert (path + [part])[1..] == path[1..] + [part];
      GetLonger(Child(v, path[0]).value, path[1..], part);
    }
  }

  lemma {:induction false} ClashFreeSurvives(v: Json, path: seq<Part>)
    requires ClashFree(v) && Get(v, path).Some?
    ensures Survives(v, path)
    decreases |path|
  {
    hide Newer;
    assert Get(v, []) == Some(v);
    if path == [] {
    } else {
      var child := Child(v, path[0]).value;
      forall rest | Get(child, rest).Some? && Get(child, rest).value.Obj?
        ensures !Clash(Get(child, rest).value.fields)
      {
        assert ([path[0]] + rest)[1..] == rest;
        assert Get(v, [path[0]] + rest) == Get(child, rest);
      }
      ClashFreeSurvives(child, path[1..]);
    }
  }

  lemma {:induction false} ClashOverrules(v: Json, path: seq<Part>, k: string)
    requires Get(v, path).Some? && Overruled(Get(v, path).value, Field(k)) && k in Get(v, path).value.fields
    ensures Get(v, path + [Field(k)]).Some? && !Survives(v, path + [Field(k)])
    decreases |path|
  {
    hide Newer;
    var longer := path + [Field(k)];
    if path == [] {
      assert longer == [Field(k)];
    } else {
      assert longer[1..] == path[1..] + [Field(k)] && longer[0] == path[0];
      ClashOverrules(Child(v, path[0]).value, path[1..], k);
    }
  }

  /** Projecting twice is projecting once, on every tree. */
  lemma {:induction false} ProjectIdempotent(v: Json)
    ensures Project(Project(v)) == Project(v)
    decreases v
  {
    match v
    case Arr(items) =>
      forall i | 0 <= i < |items|
        ensures Project(Project(items[i])) == Project(items[i])
      {
        ProjectIdempotent(items[i]);
      }
      assert ProjectItems(ProjectItems(items)) == ProjectItems(items);
    case Obj(fields) =>
      ProjectFieldsIdempotent(v);
    case _ =>
  }

  lemma {:induction false} ProjectFieldsIdempotent(v: Json)
    requires v.Obj?
    ensures Project(Project(v)) == Project(v)
    decreases v, 0
  {
    hide Rename, Newer;
    var once := RenameKeys(ProjectFields(v));
    var again := ProjectFields(Obj(once));
    forall k | k in once
      ensures again[k] == once[k]
    {
      RenameTakesValue(ProjectFields(v), k);
      var j :| j in v.fields && once[k] == Project(v.fields[j]);
      ProjectIdempotent(v.fields[j]);
    }
    assert again == once;
    RenameKeysIdempotent(ProjectFields(v));
  }

  lemma RenameKeysIdempotent(m: map<string, Json>)
    ensures RenameKeys(RenameKeys(m)) == RenameKeys(m)
  {
    hide Rename, Newer;
    var once := RenameKeys(m);
    forall k
      ensures !MovedTo(once.Keys, k)
      ensures k in once ==> Rename(k) == k
    {
      RenameFacts(k);
      RenameFacts(Newer(k));
      InRenamed(m, m.Keys, k);
      InRenamed(m, m.Keys, Newer(k));
    }
    forall k
      ensures k in RenameKeys(once) <==> k in once
    {
      InRenamed(once, once.Keys, k);
    }
  }
}
