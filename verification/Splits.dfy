/** Splitting text at a separator character and joining it again. */
module Splits {
  import opened Text

  /** Rust `str::split`: always at least one part. */
  function Split(s: string, sep: char): (parts: seq<string>)
    ensures |parts| >= 1
  {
    if s == "" then [""]
    else if s[0] == sep then [""] + Split(s[1..], sep)
    else
      var rest := Split(s[1..], sep);
      [[s[0]] + rest[0]] + rest[1..]
  }

  function Join(parts: seq<string>, sep: char): string {
    if parts == [] then ""
    else if |parts| == 1 then parts[0]
    else parts[0] + [sep] + Join(parts[1..], sep)
  }

  lemma JoinThree(x: string, y: string, z: string, sep: char)
    ensures Join([x, y, z], sep) == x + [sep] + (y + [sep] + z)
  {
    assert [x, y, z][1..] == [y, z] && [y, z][1..] == [z];
    assert Join([z], sep) == z;
    assert Join([y, z], sep) == y + [sep] + z;
  }

  lemma {:induction false} SplitPlain(s: string, sep: char)
    requires sep !in s
    ensures Split(s, sep) == [s]
  {
    if s == "" {
    } else {
      assert s[0] in s;
      SplitPlain(s[1..], sep);
      assert s == [s[0]] + s[1..];
    }
  }

  lemma {:induction false} SplitFirst(first: string, rest: string, sep: char)
    requires sep !in first
    ensures Split(first + [sep] + rest, sep) == [first] + Split(rest, sep)
  {
    var s := first + [sep] + rest;
    if first == "" {
      assert s[1..] == rest;
    } else {
      assert first[0] in first;
      assert s[1..] == first[1..] + [sep] + rest;
      SplitFirst(first[1..], rest, sep);
      var tail := Split(s[1..], sep);
      assert tail[1..] == Split(rest, sep);
      assert [s[0]] + tail[0] == first;
    }
  }

  /** Joining parts that do not contain the separator loses nothing. */
  lemma {:induction false} SplitJoin(parts: seq<string>, sep: char)
    requires parts != [] && forall i :: 0 <= i < |parts| ==> sep !in parts[i]
    ensures Split(Join(parts, sep), sep) == parts
  {
    if |parts| == 1 {
      SplitPlain(parts[0], sep);
      assert parts == [parts[0]];
    } else {
      assert sep !in parts[0];
      forall i | 0 <= i < |parts[1..]|
        ensures sep !in parts[1..][i]
      {
        assert parts[1..][i] == parts[i + 1];
      }
      SplitJoin(parts[1..], sep);
      SplitFirst(parts[0], Join(parts[1..], sep), sep);
      assert parts == [parts[0]] + parts[1..];
    }
  }

  lemma JoinNew(rest: seq<string>, sep: char)
    requires rest != []
    ensures Join([""] + rest, sep) == [sep] + Join(rest, sep)
  {
    assert ([""] + rest)[1..] == rest;
  }

  lemma JoinGrow(c: char, rest: seq<string>, sep: char)
    requires rest != []
    ensures Join([[c] + rest[0]] + rest[1..], sep) == [c] + Join(rest, sep)
  {
    assert ([[c] + rest[0]] + rest[1..])[1..] == rest[1..];
  }

  /** Splitting loses nothing, and no part holds the separator. */
  lemma {:induction false} SplitParts(s: string, sep: char)
    ensures Join(Split(s, sep), sep) == s
    ensures forall i :: 0 <= i < |Split(s, sep)| ==> sep !in Split(s, sep)[i]
  {
    hide Join;
    if s == "" {
      JoinNothing(sep);
    } else {
      SplitParts(s[1..], sep);
      var rest := Split(s[1..], sep);
      assert s == [s[0]] + s[1..];
      if s[0] == sep {
        JoinNew(rest, sep);
      } else {
        JoinGrow(s[0], rest, sep);
      }
    }
  }

  lemma JoinNothing(sep: char)
    ensures Join([""], sep) == ""
  {
  }

  /** The first part is the text up to the first separator. */
  lemma SplitHead(s: string, sep: char)
    ensures Split(s, sep)[0] <= s && sep !in Split(s, sep)[0]
    ensures s != "" && s[0] != sep ==> Split(s, sep)[0] != ""
    ensures Split(s, sep)[0] == s || Split(s, sep)[0] + [sep] <= s
  {
    SplitParts(s, sep);
    var parts := Split(s, sep);
    if |parts| > 1 {
      assert s == parts[0] + [sep] + Join(parts[1..], sep);
    }
  }

  /** Rust `str::split_once`: the text before and after the first separator. */
  function SplitOnce(s: string, sep: char): (string, Option<string>) {
    if s == "" then ("", None)
    else if s[0] == sep then ("", Some(s[1..]))
    else
      var rest := SplitOnce(s[1..], sep);
      ([s[0]] + rest.0, rest.1)
  }

  /** The text is what stands before the separator, the separator and what follows, if there is one. */
  lemma {:induction false} SplitOnceExact(s: string, sep: char)
    ensures sep !in SplitOnce(s, sep).0
    ensures SplitOnce(s, sep).1.Some? <==> sep in s
    ensures s == if SplitOnce(s, sep).1.Some? then SplitOnce(s, sep).0 + [sep] + SplitOnce(s, sep).1.value
                 else SplitOnce(s, sep).0
  {
    if s == "" {
    } else if s[0] == sep {
      assert s == "" + [sep] + s[1..];
    } else {
      SplitOnceExact(s[1..], sep);
      assert s == [s[0]] + s[1..];
    }
  }

  lemma {:induction false} SplitOnceFirst(first: string, rest: string, sep: char)
    requires sep !in first
    ensures SplitOnce(first + [sep] + rest, sep) == (first, Some(rest))
  {
    var s := first + [sep] + rest;
    if first == "" {
      assert s[1..] == rest;
    } else {
      assert first[0] in first;
      assert s[1..] == first[1..] + [sep] + rest;
      SplitOnceFirst(first[1..], rest, sep);
      assert [s[0]] + first[1..] == first;
    }
  }
}
