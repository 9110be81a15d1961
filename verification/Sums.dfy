/** Sums over sequences, and what permuting a sequence leaves unchanged. */
module Sums {

  function Sum<T>(f: T -> nat, s: seq<T>): nat {
    if s == [] then 0 else f(s[0]) + Sum(f, s[1..])
  }

  lemma {:induction false} SumConcat<T>(f: T -> nat, a: seq<T>, b: seq<T>)
    ensures Sum(f, a + b) == Sum(f, a) + Sum(f, b)
  {
    if a == [] {
      assert a + b == b;
    } else {
      assert (a + b)[1..] == a[1..] + b;
      SumConcat(f, a[1..], b);
    }
  }

  lemma SumSnoc<T>(f: T -> nat, s: seq<T>, i: nat)
    requires i < |s|
    ensures Sum(f, s[..i + 1]) == Sum(f, s[..i]) + f(s[i])
  {
    assert s[..i + 1] == s[..i] + [s[i]];
    SumConcat(f, s[..i], [s[i]]);
  }

  /** A prefix sums to no more than the whole. */
  lemma SumPrefix<T>(f: T -> nat, s: seq<T>, i: nat)
    requires i <= |s|
    ensures Sum(f, s[..i]) <= Sum(f, s)
  {
    assert s == s[..i] + s[i..];
    SumConcat(f, s[..i], s[i..]);
  }

  function Remove<T>(s: seq<T>, i: nat): (r: seq<T>)
    requires i < |s|
    ensures |r| == |s| - 1
  {
    s[..i] + s[i + 1..]
  }

  lemma Pieces<T>(s: seq<T>, i: nat)
    requires i < |s|
    ensures s == s[..i] + ([s[i]] + s[i + 1..])
  {
  }

  lemma RemoveMultiset<T>(s: seq<T>, i: nat)
    requires i < |s|
    ensures multiset(s) == multiset(Remove(s, i)) + multiset{s[i]}
  {
    Pieces(s, i);
    assert multiset(s) == multiset(s[..i]) + multiset([s[i]]) + multiset(s[i + 1..]);
  }

  lemma RemoveSum<T>(f: T -> nat, s: seq<T>, i: nat)
    requires i < |s|
    ensures Sum(f, s) == Sum(f, Remove(s, i)) + f(s[i])
  {
    assert s == s[..i + 1] + s[i + 1..];
    SumConcat(f, s[..i + 1], s[i + 1..]);
    SumSnoc(f, s, i);
    SumConcat(f, s[..i], s[i + 1..]);
  }

  lemma Cancel<T>(x: multiset<T>, y: multiset<T>, e: T)
    requires x + multiset{e} == y + multiset{e}
    ensures x == y
  {
    assert x == (x + multiset{e}) - multiset{e};
    assert y == (y + multiset{e}) - multiset{e};
  }

  lemma {:induction false} SumPermuted<T>(f: T -> nat, a: seq<T>, b: seq<T>)
    requires multiset(a) == multiset(b)
    ensures Sum(f, a) == Sum(f, b)
  {
    if a == [] {
      assert |multiset(b)| == 0;
    } else {
      assert a[0] in multiset(b);
      var i :| 0 <= i < |b| && b[i] == a[0];
      RemoveMultiset(b, i);
      RemoveSum(f, b, i);
      assert a == [a[0]] + a[1..];
      assert multiset(a) == multiset(a[1..]) + multiset{a[0]};
      Cancel(multiset(a[1..]), multiset(Remove(b, i)), a[0]);
      SumPermuted(f, a[1..], Remove(b, i));
    }
  }

  /** Two positions holding a given pair of values survive a permutation. */
  lemma PairPermuted<T>(a: seq<T>, b: seq<T>, i: nat, j: nat) returns (k: nat, l: nat)
    requires multiset(a) == multiset(b) && i < j < |a|
    ensures k < |b| && l < |b| && k != l && b[k] == a[i] && b[l] == a[j]
  {
    assert a[i] in multiset(b);
    k :| 0 <= k < |b| && b[k] == a[i];
    var rest, left := Remove(b, k), Remove(a, i);
    RemoveMultiset(b, k);
    RemoveMultiset(a, i);
    Cancel(multiset(left), multiset(rest), a[i]);
    assert left[j - 1] == a[j];
    assert a[j] in multiset(left);
    var m :| 0 <= m < |rest| && rest[m] == a[j];
    l := if m < k then m else m + 1;
  }

  /** Distinct numbers below `n` are at most `n` many. */
  lemma {:induction false} Pigeonhole(s: seq<nat>, n: nat)
    requires forall i :: 0 <= i < |s| ==> s[i] < n
    requires forall i, j :: 0 <= i < j < |s| ==> s[i] != s[j]
    ensures |s| <= n
  {
    assert s != [] ==> s[0] < n;
    if n > 0 {
      if top :| 0 <= top < |s| && s[top] == n - 1 {
        var rest := s[..top] + s[top + 1..];
        forall i | 0 <= i < |rest|
          ensures rest[i] < n - 1
        {
          assert rest[i] == s[if i < top then i else i + 1];
        }
        Pigeonhole(rest, n - 1);
      } else {
        Pigeonhole(s, n - 1);
      }
    }
  }

  function Pick<T>(t: seq<T>, p: seq<nat>): (r: seq<T>)
    requires forall i :: 0 <= i < |p| ==> p[i] < |t|
    ensures |r| == |p| && forall i :: 0 <= i < |p| ==> r[i] == t[p[i]]
  {
    seq(|p|, i requires 0 <= i < |p| => t[p[i]])
  }

  predicate Distinct(p: seq<nat>) {
    forall i, j :: 0 <= i < j < |p| ==> p[i] != p[j]
  }

  lemma SomeIsLargest(p: seq<nat>) returns (k: nat)
    requires p != [] && Distinct(p) && forall i :: 0 <= i < |p| ==> p[i] < |p|
    ensures k < |p| && p[k] == |p| - 1
    ensures Distinct(Remove(p, k)) && forall i :: 0 <= i < |p| - 1 ==> Remove(p, k)[i] < |p| - 1
  {
    if forall i :: 0 <= i < |p| ==> p[i] != |p| - 1 {
      Pigeonhole(p, |p| - 1);
    }
    k :| 0 <= k < |p| && p[k] == |p| - 1;
    var rest := Remove(p, k);
    assert forall i :: 0 <= i < |rest| ==> rest[i] == p[if i < k then i else i + 1];
  }

  /** Picking as many distinct positions as there are picks every element once. */
  lemma {:induction false} PickAll<T>(t: seq<T>, p: seq<nat>)
    requires |p| == |t| && Distinct(p) && forall i :: 0 <= i < |p| ==> p[i] < |t|
    ensures multiset(Pick(t, p)) == multiset(t)
  {
    if t == [] {
    } else {
      hide Distinct, Remove;
      var n := |t| - 1;
      var k := SomeIsLargest(p);
      var rest := Remove(p, k);
      PickAll(t[..n], rest);
      RemoveMultiset(Pick(t, p), k);
      PickRemoved(t, p, k, rest);
      assert t == t[..n] + [t[n]];
      assert multiset(t) == multiset(t[..n]) + multiset{t[n]};
    }
  }

  lemma PickRemoved<T>(t: seq<T>, p: seq<nat>, k: nat, rest: seq<nat>)
    requires t != [] && k < |p| && forall i :: 0 <= i < |p| ==> p[i] < |t|
    requires rest == Remove(p, k) && forall i :: 0 <= i < |rest| ==> rest[i] < |t| - 1
    ensures Remove(Pick(t, p), k) == Pick(t[..|t| - 1], rest)
  {
    var left, right := Remove(Pick(t, p), k), Pick(t[..|t| - 1], rest);
    forall i | 0 <= i < |rest|
      ensures left[i] == right[i]
    {
      assert rest[i] == p[if i < k then i else i + 1];
    }
  }
}
