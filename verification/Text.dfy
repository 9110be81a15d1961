/**
 Text shared by every component: the ordering of Rust strings, sorted key lists and the
 character classes the validators use.

 A Rust `String` is modelled as its sequence of Unicode scalar values. UTF-8 keeps the
 code-point order, so comparing scalar values is comparing the encoded bytes.
 */
module Text {

  datatype Option<+T> = None | Some(value: T)

  type u32 = n: nat | n < 0x1_0000_0000
  type u64 = n: nat | n < 0x1_0000_0000_0000_0000

  /** Strict lexicographic order, the `Ord` of Rust strings. */
  predicate Less(a: string, b: string) {
    b != "" && (a == "" || a[0] < b[0] || (a[0] == b[0] && Less(a[1..], b[1..])))
  }

  lemma LessTrichotomy(a: string, b: string)
    ensures Less(a, b) || a == b || Less(b, a)
    ensures !(Less(a, b) && Less(b, a))
    ensures !Less(a, a)
  {
    if a != "" && b != "" && a[0] == b[0] {
      assert a == [a[0]] + a[1..] && b == [b[0]] + b[1..];
    }
  }

  lemma LessTransitive(a: string, b: string, c: string)
    requires Less(a, b) && Less(b, c)
    ensures Less(a, c)
  {
  }

  /** The two texts agree up to `i`, where the first ends or has the smaller character. */
  predicate LessAt(a: string, b: string, i: nat) {
    && i <= |a| && i < |b| && a[..i] == b[..i]
    && (i == |a| || a[i] < b[i])
  }

  /** `Less` is decided at the first difference. */
  lemma {:induction false} LessExact(a: string, b: string)
    ensures Less(a, b) <==> exists i: nat :: LessAt(a, b, i)
  {
    if b == "" {
    } else if a == "" || a[0] != b[0] {
      assert Less(a, b) ==> LessAt(a, b, 0);
      forall i: nat | LessAt(a, b, i)
        ensures i == 0
      {
      }
    } else {
      LessExact(a[1..], b[1..]);
      forall i: nat | LessAt(a[1..], b[1..], i)
        ensures LessAt(a, b, i + 1)
      {
        assert a[..i + 1] == [a[0]] + a[1..][..i] && b[..i + 1] == [b[0]] + b[1..][..i];
      }
      forall i: nat | LessAt(a, b, i)
        ensures i > 0 && LessAt(a[1..], b[1..], i - 1)
      {
        assert i > 0 ==> a[1..][..i - 1] == a[..i][1..] && b[1..][..i - 1] == b[..i][1..];
      }
    }
  }

  /** A proper prefix sorts before every string that extends it. */
  lemma {:induction false} PrefixLess(a: string, b: string)
    requires b != ""
    ensures Less(a, a + b)
  {
    if a == "" {
    } else {
      PrefixLess(a[1..], b);
      assert (a + b)[1..] == a[1..] + b;
    }
  }

  predicate Ascending(keys: seq<string>) {
    forall i, j :: 0 <= i < j < |keys| ==> Less(keys[i], keys[j])
  }

  /** Neighbours in order: enough for a literal list to be checked by evaluation. */
  predicate InOrder(keys: seq<string>) {
    |keys| < 2 || (Less(keys[0], keys[1]) && InOrder(keys[1..]))
  }

  lemma {:induction false} InOrderIsAscending(keys: seq<string>)
    requires InOrder(keys)
    ensures Ascending(keys)
  {
    if |keys| >= 2 {
      var rest := keys[1..];
      InOrderIsAscending(rest);
      forall i, j | 0 <= i < j < |keys|
        ensures Less(keys[i], keys[j])
      {
        if i > 0 {
          assert Less(rest[i - 1], rest[j - 1]);
        } else if j > 1 {
          assert Less(rest[0], rest[j - 1]);
          LessTransitive(keys[0], keys[1], keys[j]);
        }
      }
    }
  }

  lemma {:induction false} LeastExists(s: set<string>) returns (least: string)
    requires s != {}
    ensures least in s && forall k :: k in s ==> k == least || Less(least, k)
  {
    var k :| k in s;
    if s == {k} {
      least := k;
    } else {
      var rest := s - {k};
      assert s == {k} + rest;
      var l := LeastExists(rest);
      LessTrichotomy(k, l);
      least := if Less(k, l) then k else l;
      forall j | j in s
        ensures j == least || Less(least, j)
      {
        if Less(k, l) && j != k && j != l {
          LessTransitive(k, l, j);
        }
      }
    }
  }

  predicate IsLeast(k: string, s: set<string>) {
    k in s && forall j :: j in s ==> j == k || Less(k, j)
  }

  function Least(s: set<string>): (least: string)
    requires s != {}
    ensures IsLeast(least, s)
  {
    LeastIsUnique(s);
    var least :| least in s && IsLeast(least, s);
    least
  }

  lemma LeastIsUnique(s: set<string>)
    requires s != {}
    ensures exists a :: a in s && IsLeast(a, s)
    ensures forall a, b :: IsLeast(a, s) && IsLeast(b, s) ==> a == b
  {
    hide Less;
    var l := LeastExists(s);
    assert IsLeast(l, s);
    forall a, b | IsLeast(a, s) && IsLeast(b, s)
      ensures a == b
    {
      LessTrichotomy(a, b);
    }
  }

  /** The elements of a set in ascending order: what collecting and sorting yields. */
  function Sorted(s: set<string>): (keys: seq<string>)
    ensures forall k :: k in keys <==> k in s
    ensures Ascending(keys)
    ensures |keys| == |s|
  {
    if s == {} then [] else [Least(s)] + Sorted(s - {Least(s)})
  }

  /** Sorting is determined by the elements alone. */
  lemma {:induction false} AscendingUnique(a: seq<string>, b: seq<string>)
    requires Ascending(a) && Ascending(b)
    requires forall k :: k in a <==> k in b
    ensures a == b
  {
    if a == [] {
      assert forall i :: 0 <= i < |b| ==> b[i] in b;
    } else {
      assert a[0] in b;
      assert b != [] && b[0] in a;
      LessTrichotomy(a[0], b[0]);
      assert a[0] == b[0];
      forall k
        ensures k in a[1..] <==> k in b[1..]
      {
        AscendingTail(a, k);
        AscendingTail(b, k);
      }
      AscendingUnique(a[1..], b[1..]);
      assert a == [a[0]] + a[1..] && b == [b[0]] + b[1..];
    }
  }

  lemma AscendingTail(a: seq<string>, k: string)
    requires a != [] && Ascending(a)
    ensures k in a[1..] <==> k in a && k != a[0]
  {
    LessTrichotomy(a[0], a[0]);
    if k in a && k != a[0] {
      var i :| 0 <= i < |a| && a[i] == k;
      assert a[1..][i - 1] == k;
    }
    if k in a[1..] {
      var i :| 0 <= i < |a[1..]| && a[1..][i] == k;
      assert Less(a[0], a[i + 1]);
    }
  }

  /** Collects the elements and sorts them; that the result is the one listing rests on `AscendingUnique`. */
  method SortKeys(s: set<string>) returns (keys: seq<string>)
    ensures keys == Sorted(s)
  {
    hide Less, Sorted;
    var rest := s;
    keys := [];
    while rest != {}
      invariant Ascending(keys)
      invariant forall k :: k in keys <==> k in s && k !in rest
      invariant forall k, j :: k in rest && 0 <= j < |keys| ==> Less(keys[j], k)
    {
      assert exists k :: k in rest && IsLeast(k, rest) by {
        assert IsLeast(Least(rest), rest);
      }
      var k :| k in rest && IsLeast(k, rest);
      keys := keys + [k];
      rest := rest - {k};
    }
    AscendingUnique(keys, Sorted(s));
  }

  /** Rust `char::is_control`: the Unicode category Cc. */
  predicate IsControl(c: char) {
    c as int < 0x20 || 0x7F <= c as int <= 0x9F
  }

  /** Rust `char::is_whitespace`: the Unicode property White_Space. */
  predicate IsWhitespace(c: char) {
    var n := c as int;
    || 0x09 <= n <= 0x0D || n == 0x20 || n == 0x85 || n == 0xA0 || n == 0x1680
    || 0x2000 <= n <= 0x200A || n == 0x2028 || n == 0x2029 || n == 0x202F || n == 0x205F || n == 0x3000
  }

  /** `value.trim().is_empty()` */
  predicate Blank(s: string) {
    forall c :: c in s ==> IsWhitespace(c)
  }

  predicate HasControl(s: string) {
    exists c :: c in s && IsControl(c)
  }

  function LowerChar(c: char): char {
    if 'A' <= c <= 'Z' then (c as int + 32) as char else c
  }

  /** Each capital becomes the small letter at the same place of the alphabet; everything else stays. */
  lemma LowerLetters(c: char)
    ensures forall i :: 0 <= i < 26 && c == "ABCDEFGHIJKLMNOPQRSTUVWXYZ"[i] ==>
      LowerChar(c) == "abcdefghijklmnopqrstuvwxyz"[i]
    ensures LowerChar(c) != c <==> c in "ABCDEFGHIJKLMNOPQRSTUVWXYZ"
  {
    assert forall i :: 0 <= i < 26 ==> "ABCDEFGHIJKLMNOPQRSTUVWXYZ"[i] as int == 'A' as int + i;
    assert forall i :: 0 <= i < 26 ==> "abcdefghijklmnopqrstuvwxyz"[i] as int == 'a' as int + i;
    if 'A' <= c <= 'Z' {
      assert "ABCDEFGHIJKLMNOPQRSTUVWXYZ"[c as int - 'A' as int] == c;
    }
  }

  /** `to_ascii_lowercase` */
  function AsciiLower(s: string): (r: string)
    ensures |r| == |s| && forall i :: 0 <= i < |s| ==> r[i] == LowerChar(s[i])
  {
    seq(|s|, i requires 0 <= i < |s| => LowerChar(s[i]))
  }
}
