/**
 A reader of canonical JSON text, written from the grammar of RFC 8259: literals,
 integers, strings with the escapes of its section 7, arrays and objects. It is strict --
 no whitespace, a control character in its short escape where there is one and as
 lower-case `\u00xx` otherwise, keys strictly ascending -- so that reading back what was
 written fixes the text.
 */
module JsonReader {
  import opened Text
  import opened CanonicalJson
  import Decimal

  /** What was read from the start of a text, and what follows it. */
  datatype Parsed<+T> = Malformed | Got(value: T, rest: string)

  // ---------------------------------------------------------------- strings

  function HexValue(c: char): Option<nat> {
    if '0' <= c <= '9' then Some(c as int - '0' as int)
    else if 'a' <= c <= 'f' then Some(c as int - 'a' as int + 10)
    else None
  }

  /** The character meant by a short escape `\x`. */
  function ShortEscape(x: char): Option<char> {
    match x
    case '"' => Some('"')
    case '\\' => Some('\\')
    case 'b' => Some(0x08 as char)
    case 't' => Some(0x09 as char)
    case 'n' => Some(0x0A as char)
    case 'f' => Some(0x0C as char)
    case 'r' => Some(0x0D as char)
    case _ => None
  }

  predicate HasShortEscape(n: nat) {
    n == 0x08 || n == 0x09 || n == 0x0A || n == 0x0C || n == 0x0D
  }

  /** One character of a string literal. */
  function ReadChar(t: string): (r: Parsed<char>)
    ensures r.Got? ==> |r.rest| < |t|
  {
    if t == "" then Malformed
    else if t[0] == '"' || (t[0] as int) < 0x20 then Malformed
    else if t[0] != '\\' then Got(t[0], t[1..])
    else if |t| < 2 then Malformed
    else if t[1] == 'u' then
      if |t| < 6 || t[2] != '0' || t[3] != '0' || HexValue(t[4]).None? || HexValue(t[5]).None? then Malformed
      else
        var n := HexValue(t[4]).value * 16 + HexValue(t[5]).value;
        if n < 0x20 && !HasShortEscape(n) then Got(n as char, t[6..]) else Malformed
    else if ShortEscape(t[1]).None? then Malformed
    else Got(ShortEscape(t[1]).value, t[2..])
  }

  /** The rest of a string literal after its opening quote. */
  function ReadString(t: string): (r: Parsed<string>)
    ensures r.Got? ==> |r.rest| < |t|
  {
    if t == "" then Malformed
    else if t[0] == '"' then Got("", t[1..])
    else
      var c := ReadChar(t);
      if c.Malformed? then Malformed
      else
        var s := ReadString(c.rest);
        if s.Malformed? then Malformed else Got([c.value] + s.value, s.rest)
  }

  lemma ReadEscaped(c: char, rest: string)
    ensures ReadChar(Escape(c) + rest) == Got(c, rest)
    ensures (Escape(c) + rest)[0] != '"'
  {
    var e, t := Escape(c), Escape(c) + rest;
    assert forall i :: 0 <= i < |e| ==> t[i] == e[i];
    assert t[|e|..] == rest;
  }

  lemma {:induction false} ReadStringBack(s: string, rest: string)
    ensures ReadString(StringThen(s, rest)) == Got(s, rest)
  {
    hide Escape, ReadChar;
    if s == "" {
      assert StringThen(s, rest)[1..] == rest;
    } else {
      ReadEscaped(s[0], StringThen(s[1..], rest));
      ReadStringBack(s[1..], rest);
      assert s == [s[0]] + s[1..];
    }
  }

  // ---------------------------------------------------------------- numbers

  function DigitRun(t: string): (n: nat)
    ensures n <= |t| && Decimal.AllDigits(t[..n])
  {
    if t == "" || !Decimal.IsDigit(t[0]) then 0
    else
      var n := DigitRun(t[1..]) + 1;
      assert forall i :: 1 <= i < n ==> t[..n][i] == t[1..][..n - 1][i - 1];
      n
  }

  /** A natural number without leading zeros. */
  function ReadNatural(t: string): (r: Parsed<nat>)
    ensures r.Got? ==> |r.rest| < |t|
  {
    var n := DigitRun(t);
    if n == 0 || (n > 1 && t[0] == '0') then Malformed else Got(Decimal.Value(t[..n]), t[n..])
  }

  function ReadNumber(t: string): (r: Parsed<int>)
    ensures r.Got? ==> |r.rest| < |t|
  {
    if t != "" && t[0] == '-' then
      var n := ReadNatural(t[1..]);
      if n.Malformed? || n.value == 0 then Malformed
      else
        var m: int := n.value;
        Got(-m, n.rest)
    else
      var n := ReadNatural(t);
      if n.Malformed? then Malformed else Got(n.value, n.rest)
  }

  lemma {:induction false} DigitRunOf(digits: string, rest: string)
    requires Decimal.AllDigits(digits) && Decimal.NoDigitFirst(rest)
    ensures DigitRun(digits + rest) == |digits|
  {
    if digits == "" {
      assert digits + rest == rest;
    } else {
      assert (digits + rest)[1..] == digits[1..] + rest;
      DigitRunOf(digits[1..], rest);
    }
  }

  lemma {:induction false} NoLeadingZero(n: nat)
    ensures Decimal.Print(n)[0] == '0' <==> n == 0
    ensures n < 10 <==> |Decimal.Print(n)| == 1
  {
    if n < 10 {
    } else {
      NoLeadingZero(n / 10);
      assert Decimal.Print(n)[0] == Decimal.Print(n / 10)[0];
    }
  }

  lemma ReadNaturalBack(n: nat, rest: string)
    requires Decimal.NoDigitFirst(rest)
    ensures ReadNatural(Decimal.Print(n) + rest) == Got(n, rest)
  {
    var digits := Decimal.Print(n);
    DigitRunOf(digits, rest);
    NoLeadingZero(n);
    Decimal.ValueOfPrint(n);
    assert (digits + rest)[..|digits|] == digits && (digits + rest)[|digits|..] == rest;
  }

  lemma ReadNumberBack(n: int, rest: string)
    requires Decimal.NoDigitFirst(rest)
    ensures ReadNumber(NumberText(n) + rest) == Got(n, rest)
  {
    hide ReadNatural;
    if n < 0 {
      assert (NumberText(n) + rest)[1..] == Decimal.Print(-n) + rest;
      ReadNaturalBack(-n, rest);
    } else {
      assert Decimal.IsDigit(Decimal.Print(n)[0]);
      assert (NumberText(n) + rest)[0] == Decimal.Print(n)[0];
      ReadNaturalBack(n, rest);
    }
  }

  // ---------------------------------------------------------------- values

  datatype Entry = Entry(key: string, value: Json)

  function Fields(entries: seq<Entry>): map<string, Json> {
    if entries == [] then map[] else Fields(entries[1..])[entries[0].key := entries[0].value]
  }

  predicate StartsWith(t: string, word: string) {
    word <= t
  }

  function ReadValue(t: string): (r: Parsed<Json>)
    ensures r.Got? ==> |r.rest| < |t|
    decreases |t|, 0
  {
    if t == "" then Malformed
    else if StartsWith(t, "null") then Got(Null, t[4..])
    else if StartsWith(t, "true") then Got(Bool(true), t[4..])
    else if StartsWith(t, "false") then Got(Bool(false), t[5..])
    else if t[0] == '"' then
      var s := ReadString(t[1..]);
      if s.Malformed? then Malformed else Got(Str(s.value), s.rest)
    else if t[0] == '[' then
      if StartsWith(t, "[]") then Got(Arr([]), t[2..])
      else
        var items := ReadItems(t[1..]);
        if items.Malformed? then Malformed else Got(Arr(items.value), items.rest)
    else if t[0] == '{' then
      if StartsWith(t, "{}") then Got(Obj(map[]), t[2..])
      else
        var entries := ReadEntries(t[1..]);
        if entries.Malformed? then Malformed else Got(Obj(Fields(entries.value)), entries.rest)
    else
      var n := ReadNumber(t);
      if n.Malformed? then Malformed else Got(Num(n.value), n.rest)
  }

  /** One or more values separated by commas, and the closing bracket. */
  function ReadItems(t: string): (r: Parsed<seq<Json>>)
    ensures r.Got? ==> |r.rest| < |t|
    decreases |t|, 1
  {
    var v := ReadValue(t);
    if v.Malformed? || v.rest == "" then Malformed
    else if v.rest[0] == ']' then Got([v.value], v.rest[1..])
    else if v.rest[0] != ',' then Malformed
    else
      var more := ReadItems(v.rest[1..]);
      if more.Malformed? then Malformed else Got([v.value] + more.value, more.rest)
  }

  /** One or more members with ascending keys, and the closing brace. */
  function ReadEntries(t: string): (r: Parsed<seq<Entry>>)
    ensures r.Got? ==> |r.rest| < |t| && r.value != []
    decreases |t|, 1
  {
    if t == "" || t[0] != '"' then Malformed
    else
      var key := ReadString(t[1..]);
      if key.Malformed? || key.rest == "" || key.rest[0] != ':' then Malformed
      else
        var v := ReadValue(key.rest[1..]);
        if v.Malformed? || v.rest == "" then Malformed
        else if v.rest[0] == '}' then Got([Entry(key.value, v.value)], v.rest[1..])
        else if v.rest[0] != ',' then Malformed
        else
          var more := ReadEntries(v.rest[1..]);
          if more.Malformed? || !Less(key.value, more.value[0].key) then Malformed
          else Got([Entry(key.value, v.value)] + more.value, more.rest)
  }

  /** A whole text. */
  function ReadText(t: string): Option<Json> {
    var v := ReadValue(t);
    if v.Got? && v.rest == "" then Some(v.value) else None
  }

  // ---------------------------------------------------------------- reading back what was written

  /** What is written is read back, whatever follows it. */
  lemma {:induction false} ReadBack(v: Json, rest: string)
    requires Decimal.NoDigitFirst(rest)
    ensures ReadValue(Then(v, rest)) == Got(v, rest)
    decreases v
  {
    hide ReadValue;
    match v
    case Null => WordsBack(rest);
    case Bool(b) => WordsBack(rest);
    case Num(n) => ReadNumBack(n, rest);
    case Str(s) => ReadStrBack(s, rest);
    case Arr(items) => ReadArrayBack(v, rest);
    case Obj(fields) => ReadObjectBack(v, rest);
  }

  lemma ReadNumBack(n: int, rest: string)
    requires Decimal.NoDigitFirst(rest)
    ensures ReadValue(NumberText(n) + rest) == Got(Num(n), rest)
  {
    hide ReadNumber, ReadString, ReadItems, ReadEntries, NumberText;
    NumberHead(n, rest);
    ReadNumberBack(n, rest);
  }

  lemma ReadStrBack(s: string, rest: string)
    ensures ReadValue("\"" + StringThen(s, rest)) == Got(Str(s), rest)
  {
    hide ReadNumber, ReadString, ReadItems, ReadEntries, StringThen;
    var t := "\"" + StringThen(s, rest);
    assert t[1..] == StringThen(s, rest) && t[0] == '"';
    assert "null"[0] == 'n' && "true"[0] == 't' && "false"[0] == 'f';
    ReadStringBack(s, rest);
  }

  lemma WordsBack(rest: string)
    ensures ReadValue("null" + rest) == Got(Null, rest)
    ensures ReadValue("true" + rest) == Got(Bool(true), rest)
    ensures ReadValue("false" + rest) == Got(Bool(false), rest)
  {
    hide ReadNumber, ReadString, ReadItems, ReadEntries;
    var n, t, f := "null" + rest, "true" + rest, "false" + rest;
    assert n[4..] == rest && t[4..] == rest && f[5..] == rest;
    assert t[0] == 't' && f[0] == 'f' && f[1] == 'a';
    assert "null"[0] == 'n' && "true"[0] == 't';
  }

  lemma NumberHead(n: int, rest: string)
    ensures var t := NumberText(n) + rest;
      t != "" && (t[0] == '-' || Decimal.IsDigit(t[0])) && !StartsWith(t, "null") && !StartsWith(t, "true")
          && !StartsWith(t, "false")
  {
    var t := NumberText(n) + rest;
    assert t[0] == NumberText(n)[0];
    assert "null"[0] == 'n' && "true"[0] == 't' && "false"[0] == 'f';
  }

  lemma {:induction false} ReadArrayBack(v: Json, rest: string)
    requires v.Arr? && Decimal.NoDigitFirst(rest)
    ensures ReadValue(Then(v, rest)) == Got(v, rest)
    decreases v, 0
  {
    hide ReadNumber, ReadString, ReadEntries;
    var t := Then(v, rest);
    var inner := ItemsThen(v.items, true, "]" + rest);
    assert t == "[" + inner && t[1..] == inner;
    ItemsHead(v.items, true, "]" + rest);
    assert "null"[0] == 'n' && "true"[0] == 't' && "false"[0] == 'f';
    if v.items == [] {
      assert t[2..] == t[1..][1..] == rest;
      assert t[..2] == "[]";
    } else {
      assert t[1] == inner[0] != ']' && "[]"[1] == ']';
      ReadItemsBack(v.items, rest);
    }
  }

  lemma {:induction false} ReadItemsBack(items: seq<Json>, rest: string)
    requires items != []
    ensures ReadItems(ItemsThen(items, true, "]" + rest)) == Got(items, rest)
    decreases items
  {
    hide ReadValue;
    var tail := items[1..];
    var after := ItemsThen(tail, false, "]" + rest);
    ItemsHead(tail, false, "]" + rest);
    ReadBack(items[0], after);
    assert ItemsThen(items, true, "]" + rest) == Then(items[0], after);
    if tail == [] {
      assert after[1..] == rest;
      assert items == [items[0]];
    } else {
      assert after[1..] == ItemsThen(tail, true, "]" + rest);
      ReadItemsBack(tail, rest);
      assert items == [items[0]] + tail;
    }
  }

  lemma {:induction false} ReadObjectBack(v: Json, rest: string)
    requires v.Obj? && Decimal.NoDigitFirst(rest)
    ensures ReadValue(Then(v, rest)) == Got(v, rest)
    decreases v, |v.fields| + 1
  {
    hide Then, ReadValue, Sorted;
    var keys := Sorted(v.fields.Keys);
    if keys == [] {
      assert v.fields == map[];
      EmptyObjectBack(v, rest);
    } else {
      KeyCount(v.fields);
      ReadEntriesBack(v, keys, rest);
      FieldsOfEntries(v, keys);
      BracedBack(v, keys, rest);
    }
  }

  lemma EmptyObjectBack(v: Json, rest: string)
    requires v == Obj(map[])
    ensures ReadValue(Then(v, rest)) == Got(v, rest)
  {
    hide ReadNumber, ReadString, ReadItems, ReadEntries;
    var t := Then(v, rest);
    assert t == "{" + ("}" + rest);
    assert t[2..] == t[1..][1..] == rest && t[..2] == "{}";
    assert "null"[0] == 'n' && "true"[0] == 't' && "false"[0] == 'f';
  }

  lemma BracedBack(v: Json, keys: seq<string>, rest: string)
    requires v.Obj? && keys == Sorted(v.fields.Keys) && keys != []
    requires ReadEntries(MembersThen(v, keys, true, "}" + rest)) == Got(Entries(v, keys), rest)
    requires Fields(Entries(v, keys)) == v.fields
    ensures ReadValue(Then(v, rest)) == Got(v, rest)
  {
    hide ReadNumber, ReadString, ReadItems, ReadEntries, Sorted, MembersThen, Fields;
    var t := Then(v, rest);
    var inner := MembersThen(v, keys, true, "}" + rest);
    MembersHead(v, keys, true, "}" + rest);
    assert t == "{" + inner && t[1..] == inner;
    assert t[1] == inner[0] != '}' && "{}"[1] == '}';
    assert "null"[0] == 'n' && "true"[0] == 't' && "false"[0] == 'f';
  }

  lemma KeyCount(fields: map<string, Json>)
    ensures |Sorted(fields.Keys)| <= |fields|
  {
    assert |fields.Keys| == |fields|;
    SortedCount(fields.Keys);
  }

  lemma {:induction false} SortedCount(s: set<string>)
    ensures |Sorted(s)| == |s|
  {
    if s == {} {
    } else {
      SortedCount(s - {Least(s)});
    }
  }

  function Entries(v: Json, keys: seq<string>): (r: seq<Entry>)
    requires v.Obj? && forall k :: k in keys ==> k in v.fields
    ensures |r| == |keys| && forall i :: 0 <= i < |r| ==> r[i] == Entry(keys[i], v.fields[keys[i]])
  {
    seq(|keys|, i requires 0 <= i < |keys| => Entry(keys[i], v.fields[keys[i]]))
  }

  lemma {:induction false} ReadEntriesBack(v: Json, keys: seq<string>, rest: string)
    requires v.Obj? && keys != [] && Ascending(keys) && forall k :: k in keys ==> k in v.fields
    ensures ReadEntries(MembersThen(v, keys, true, "}" + rest)) == Got(Entries(v, keys), rest)
    decreases v, |keys|
  {
    hide ReadValue, ReadString, Less, StringThen, Then;
    var tail := keys[1..];
    var after := MembersThen(v, tail, false, "}" + rest);
    var value := Then(v.fields[keys[0]], after);
    var t := MembersThen(v, keys, true, "}" + rest);
    MembersHead(v, tail, false, "}" + rest);
    assert t[1..] == StringThen(keys[0], ":" + value);
    ReadStringBack(keys[0], ":" + value);
    assert (":" + value)[1..] == value;
    ReadBack(v.fields[keys[0]], after);
    if tail == [] {
      assert after[1..] == rest;
      assert Entries(v, keys) == [Entry(keys[0], v.fields[keys[0]])];
    } else {
      assert after[1..] == MembersThen(v, tail, true, "}" + rest);
      ReadEntriesBack(v, tail, rest);
      assert Less(keys[0], keys[1]);
      assert Entries(v, keys) == [Entry(keys[0], v.fields[keys[0]])] + Entries(v, tail);
    }
  }

  lemma {:induction false} FieldsOf(v: Json, keys: seq<string>, k: string)
    requires v.Obj? && forall k :: k in keys ==> k in v.fields
    ensures k in Fields(Entries(v, keys)) <==> k in keys
    ensures k in keys ==> Fields(Entries(v, keys))[k] == v.fields[k]
    decreases |keys|
  {
    if keys == [] {
    } else {
      FieldsOf(v, keys[1..], k);
      assert Entries(v, keys)[1..] == Entries(v, keys[1..]);
      assert keys == [keys[0]] + keys[1..];
    }
  }

  lemma FieldsOfEntries(v: Json, keys: seq<string>)
    requires v.Obj? && keys == Sorted(v.fields.Keys)
    ensures Fields(Entries(v, keys)) == v.fields
  {
    hide Sorted, Fields;
    forall k
      ensures k in Fields(Entries(v, keys)) <==> k in v.fields
      ensures k in v.fields ==> Fields(Entries(v, keys))[k] == v.fields[k]
    {
      FieldsOf(v, keys, k);
    }
  }

  /** The canonical text of every tree reads back as that tree. */
  lemma CanonicalTextReadsBack(v: Json)
    ensures ReadText(CanonicalText(v)) == Some(v)
  {
    ReadBack(v, "");
  }

  /**
   A value's text, whatever follows it, can only have been printed from that value.
   Holds for every pair of trees.
   */
  lemma Unambiguous(a: Json, b: Json, x: string, y: string)
    requires Decimal.NoDigitFirst(x) && Decimal.NoDigitFirst(y)
    requires Then(a, x) == Then(b, y)
    ensures a == b && x == y
  {
    ReadBack(a, x);
    ReadBack(b, y);
  }

  /** Canonical text determines the tree. */
  lemma TextInjective(a: Json, b: Json)
    ensures CanonicalText(a) == CanonicalText(b) <==> a == b
  {
    CanonicalTextReadsBack(a);
    CanonicalTextReadsBack(b);
  }
}
