/**
 The case-collision registry of the snapshot packer: for every directory prefix seen, its
 case-folded form and the one original spelling that folds to it. Case folding itself is
 an arbitrary function on strings.
 */
module CasePaths {
  import opened Splits

  /** The prefix one segment further down. */
  function Grow(prefix: string, segment: string): string {
    if prefix == "" then segment else prefix + "/" + segment
  }

  function PrefixesFrom(prefix: string, segments: seq<string>): seq<string>
    decreases segments
  {
    if segments == [] then []
    else [Grow(prefix, segments[0])] + PrefixesFrom(Grow(prefix, segments[0]), segments[1..])
  }

  /** Every directory prefix of a path, the path itself included. */
  function Prefixes(path: string): set<string> {
    Elements(PrefixesFrom("", Split(path, '/')))
  }

  function AllPrefixes(paths: seq<string>): set<string> {
    set path, p | path in paths && p in Prefixes(path) :: p
  }

  /** No two different spellings fold to the same form. */
  predicate NoCollision(fold: string -> string, spellings: set<string>) {
    forall p, q :: p in spellings && q in spellings && fold(p) == fold(q) ==> p == q
  }

  /** The map holds exactly the folded form of each spelling seen, with that spelling. */
  predicate Represents(fold: string -> string, casePaths: map<string, string>, seen: set<string>) {
    && (forall p :: p in seen ==> fold(p) in casePaths && casePaths[fold(p)] == p)
    && (forall f :: f in casePaths ==> casePaths[f] in seen && fold(casePaths[f]) == f)
  }

  class Registry {
    const fold: string -> string
    var casePaths: map<string, string>
    ghost var seen: set<string>

    ghost predicate Valid()
      reads this
    {
      Represents(fold, casePaths, seen)
    }

    constructor (fold: string -> string)
      ensures Valid() && seen == {} && this.fold == fold
    {
      this.fold, this.casePaths, this.seen := fold, map[], {};
    }

    /** Succeeds exactly when the path's prefixes collide with nothing seen so far nor with each other. */
    method Register(portable: string) returns (ok: bool)
      requires Valid()
      modifies this
      ensures Valid()
      ensures ok <==> NoCollision(fold, old(seen) + Prefixes(portable))
      ensures ok ==> seen == old(seen) + Prefixes(portable)
    {
      hide PrefixesFrom, Split, Elements, Represents, NoCollision;
      var segments := Split(portable, '/');
      ghost var all := PrefixesFrom("", segments);
      ghost var done: seq<string> := [];
      var prefix := "";
      assert segments[0..] == segments && done + all == all;
      NoElements();
      for i := 0 to |segments|
        invariant Valid()
        invariant done + PrefixesFrom(prefix, segments[i..]) == all
        invariant seen == old(seen) + Elements(done)
      {
        NextPrefix(prefix, segments, i, done, all);
        prefix := if prefix == "" then segments[i] else prefix + "/" + segments[i];
        var folded := fold(prefix);
        RepresentsNext(fold, casePaths, seen, prefix);
        if folded in casePaths {
          if casePaths[folded] != prefix {
            Collides(fold, old(seen) + Prefixes(portable), casePaths[folded], prefix);
            return false;
          }
        } else {
          casePaths := casePaths[folded := prefix];
        }
        done := done + [prefix];
        seen := seen + {prefix};
      }
      NoMorePrefixes(prefix, segments[|segments|..], done);
      RepresentedDistinct(fold, casePaths, seen);
      return true;
    }
  }

  function Elements(s: seq<string>): set<string> {
    set p | p in s
  }

  /** Growing segment by segment gives exactly the starts of the joined path that end before a slash or at its end. */
  lemma {:induction false} PrefixesFromExact(prefix: string, segments: seq<string>, p: string)
    requires segments != [] && (prefix == "" ==> segments[0] != "" || |segments| == 1)
    requires forall i :: 0 <= i < |segments| ==> '/' !in segments[i]
    ensures var whole := Grow(prefix, Join(segments, '/'));
      p in PrefixesFrom(prefix, segments) <==> Grow(prefix, segments[0]) <= p && (p == whole || p + "/" <= whole)
    decreases segments
  {
    var first := Grow(prefix, segments[0]);
    var whole := Grow(prefix, Join(segments, '/'));
    if |segments| == 1 {
      assert segments[1..] == [];
      assert whole == first;
    } else {
      var rest := segments[1..];
      assert forall i :: 0 <= i < |rest| ==> rest[i] == segments[i + 1];
      assert first != "";
      PrefixesFromExact(first, rest, p);
      assert Grow(first, Join(rest, '/')) == first + "/" + Join(rest, '/') == whole;
      assert PrefixesFrom(prefix, segments) == [first] + PrefixesFrom(first, rest);
      BetweenSlashes(first, rest[0], whole, p, Join(rest, '/'));
    }
  }

  lemma BetweenSlashes(first: string, segment: string, whole: string, p: string, tail: string)
    requires '/' !in segment && segment <= tail && whole == first + "/" + tail
    requires tail == segment || segment + "/" <= tail
    ensures first <= p && (p == whole || p + "/" <= whole) <==>
      || p == first
      || (first + "/" + segment <= p && (p == whole || p + "/" <= whole))
  {
    var next := first + "/" + segment;
    assert first + "/" <= whole && next <= whole;
    assert forall k :: |first| < k < |next| ==> whole[k] == segment[k - |first| - 1] != '/';
    if first <= p && (p == whole || p + "/" <= whole) && p != first {
      assert p <= whole && |p| > |first|;
      assert p + "/" <= whole ==> whole[|p|] == '/';
      assert |next| <= |p|;
      assert next == whole[..|next|] == p[..|next|];
    }
  }

  /** The registered prefixes of a relative path: the path itself and every part of it that ends before a slash. */
  lemma PrefixesExact(path: string, p: string)
    requires path == "" || path[0] != '/'
    ensures p in Prefixes(path) <==> p == path || (p != "" && p + "/" <= path)
  {
    var segments := Split(path, '/');
    SplitParts(path, '/');
    PrefixesFromExact("", segments, p);
    FirstSegment(path, segments, p);
  }

  lemma FirstSegment(path: string, segments: seq<string>, p: string)
    requires segments == Split(path, '/') && Join(segments, '/') == path && (path == "" || path[0] != '/')
    ensures p == path || (p != "" && p + "/" <= path) ==> segments[0] <= p
    ensures segments[0] <= p && p + "/" <= path ==> p != ""
  {
    hide Split, Join;
    SplitHead(path, '/');
    var first := segments[0];
    assert forall k :: 0 <= k < |first| ==> path[k] == first[k] != '/';
    if p != "" && p + "/" <= path {
      assert path[|p|] == '/';
      assert |first| <= |p|;
      assert first == path[..|first|] == p[..|first|];
    }
  }

  lemma NextPrefix(prefix: string, segments: seq<string>, i: nat, done: seq<string>, all: seq<string>)
    requires i < |segments| && done + PrefixesFrom(prefix, segments[i..]) == all
    ensures
      var next := Grow(prefix, segments[i]);
      && done + [next] + PrefixesFrom(next, segments[i + 1..]) == all
      && Elements(done + [next]) == Elements(done) + {next}
      && Elements(done) <= Elements(all) && next in Elements(all)
  {
    var next := Grow(prefix, segments[i]);
    assert segments[i..][1..] == segments[i + 1..];
    assert all == (done + [next]) + PrefixesFrom(next, segments[i + 1..]);
    assert next in done + [next];
  }

  lemma NoElements()
    ensures Elements([]) == {}
  {
  }

  /** The step of the map: a new folded form is recorded, a known one names a spelling seen. */
  lemma RepresentsNext(fold: string -> string, casePaths: map<string, string>, seen: set<string>, p: string)
    requires Represents(fold, casePaths, seen)
    ensures fold(p) !in casePaths ==> Represents(fold, casePaths[fold(p) := p], seen + {p})
    ensures fold(p) in casePaths ==> casePaths[fold(p)] in seen && fold(casePaths[fold(p)]) == fold(p)
    ensures fold(p) in casePaths && casePaths[fold(p)] == p ==> Represents(fold, casePaths, seen + {p})
  {
  }

  lemma NoMorePrefixes(prefix: string, segments: seq<string>, done: seq<string>)
    requires segments == []
    ensures done + PrefixesFrom(prefix, segments) == done
  {
  }

  lemma Collides(fold: string -> string, spellings: set<string>, p: string, q: string)
    requires p in spellings && q in spellings && fold(p) == fold(q) && p != q
    ensures !NoCollision(fold, spellings)
  {
  }

  lemma RepresentedDistinct(fold: string -> string, casePaths: map<string, string>, seen: set<string>)
    requires Represents(fold, casePaths, seen)
    ensures NoCollision(fold, seen)
  {
  }

  /** Registering any sequence of paths succeeds exactly when no two of all their prefixes collide. */
  method RegisterAll(fold: string -> string, paths: seq<string>) returns (ok: bool)
    ensures ok <==> NoCollision(fold, AllPrefixes(paths))
  {
    var registry := new Registry(fold);
    for i := 0 to |paths|
      invariant registry.Valid() && registry.fold == fold
      invariant registry.seen == AllPrefixes(paths[..i])
      invariant fresh(registry)
    {
      MorePrefixes(paths, i);
      var registered := registry.Register(paths[i]);
      if !registered {
        return false;
      }
    }
    assert paths[..|paths|] == paths;
    return true;
  }

  lemma MorePrefixes(paths: seq<string>, i: nat)
    requires i < |paths|
    ensures AllPrefixes(paths[..i + 1]) == AllPrefixes(paths[..i]) + Prefixes(paths[i])
    ensures AllPrefixes(paths[..i + 1]) <= AllPrefixes(paths)
  {
    hide Prefixes;
    assert paths[..i + 1] == paths[..i] + [paths[i]];
    forall path | path in paths[..i + 1]
      ensures path in paths
    {
    }
  }

  /** So the outcome depends on which paths there are, not on their order or number. */
  lemma RegistrationOrderIrrelevant(fold: string -> string, a: seq<string>, b: seq<string>)
    requires forall path :: path in a <==> path in b
    ensures NoCollision(fold, AllPrefixes(a)) <==> NoCollision(fold, AllPrefixes(b))
  {
    hide Prefixes;
    assert AllPrefixes(a) == AllPrefixes(b);
  }
}
