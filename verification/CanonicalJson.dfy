/**
 JSON trees and their canonical text: no whitespace, object keys in ascending order at
 every depth, strings escaped as RFC 8259 section 7 requires and serde_json does it.

 Text is built in "value followed by rest" form, so that it can be read from the left.
 */
module CanonicalJson {
  import opened Text
  import Decimal

  datatype Json =
    | Null
    | Bool(b: bool)
    | Num(n: int)
    | Str(s: string)
    | Arr(items: seq<Json>)
    | Obj(fields: map<string, Json>)

  function HexDigit(d: nat): (c: char)
    requires d < 16
  {
    if d < 10 then (d + '0' as int) as char else (d - 10 + 'a' as int) as char
  }

  /** The escape of one character inside a JSON string. */
  function Escape(c: char): (e: string)
    ensures e != "" && e[0] != '"'
  {
    if c == '"' then "\\\""
    else if c == '\\' then "\\\\"
    else if c as int == 0x08 then "\\b"
    else if c as int == 0x09 then "\\t"
    else if c as int == 0x0A then "\\n"
    else if c as int == 0x0C then "\\f"
    else if c as int == 0x0D then "\\r"
    else if c as int < 0x20 then "\\u00" + [HexDigit(c as int / 16), HexDigit(c as int % 16)]
    else [c]
  }

  /** The rest of a string literal after its opening quote, then `rest`. */
  function StringThen(s: string, rest: string): string {
    if s == "" then "\"" + rest else Escape(s[0]) + StringThen(s[1..], rest)
  }

  function NumberText(n: int): string {
    if n < 0 then "-" + Decimal.Print(-n) else Decimal.Print(n)
  }

  /** The canonical text of `v` followed by `rest`. */
  function Then(v: Json, rest: string): string
    decreases v
  {
    match v
    case Null => "null" + rest
    case Bool(b) => (if b then "true" else "false") + rest
    case Num(n) => NumberText(n) + rest
    case Str(s) => "\"" + StringThen(s, rest)
    case Arr(items) => "[" + ItemsThen(items, true, "]" + rest)
    case Obj(fields) => "{" + MembersThen(v, Sorted(fields.Keys), true, "}" + rest)
  }

  function ItemsThen(items: seq<Json>, first: bool, rest: string): string
    decreases items
  {
    if items == [] then rest
    else (if first then "" else ",") + Then(items[0], ItemsThen(items[1..], false, rest))
  }

  function MembersThen(v: Json, keys: seq<string>, first: bool, rest: string): string
    requires v.Obj? && forall k :: k in keys ==> k in v.fields
    decreases v, |keys|
  {
    if keys == [] then rest
    else
      (if first then "" else ",") + "\"" +
      StringThen(keys[0], ":" + Then(v.fields[keys[0]], MembersThen(v, keys[1..], false, rest)))
  }

  function CanonicalText(v: Json): string {
    Then(v, "")
  }

  // ---------------------------------------------------------------- how texts start

  /** What the first character of a value's text says about the value. */
  predicate StartsAs(v: Json, c: char) {
    match v
    case Null => c == 'n'
    case Bool(b) => c == (if b then 't' else 'f')
    case Num(n) => c == '-' || Decimal.IsDigit(c)
    case Str(s) => c == '"'
    case Arr(items) => c == '['
    case Obj(fields) => c == '{'
  }

  lemma FirstCharacter(v: Json, rest: string)
    ensures Then(v, rest) != "" && StartsAs(v, Then(v, rest)[0])
  {
  }

  /** A non-empty item list does not start like the bracket that would end it. */
  lemma ItemsHead(items: seq<Json>, first: bool, rest: string)
    ensures items != [] ==> ItemsThen(items, first, rest) != "" && ItemsThen(items, first, rest)[0] != ']'
    ensures items == [] ==> ItemsThen(items, first, rest) == rest
    ensures items != [] && !first ==> ItemsThen(items, first, rest)[0] == ','
  {
    if items == [] {
    } else {
      FirstCharacter(items[0], ItemsThen(items[1..], false, rest));
      if first {
        assert ItemsThen(items, first, rest) == Then(items[0], ItemsThen(items[1..], false, rest));
      }
    }
  }

  lemma MembersHead(v: Json, keys: seq<string>, first: bool, rest: string)
    requires v.Obj? && forall k :: k in keys ==> k in v.fields
    ensures keys != [] ==> MembersThen(v, keys, first, rest) != "" && MembersThen(v, keys, first, rest)[0] != '}'
    ensures keys == [] ==> MembersThen(v, keys, first, rest) == rest
    ensures keys != [] && !first ==> MembersThen(v, keys, first, rest)[0] == ','
  {
  }

  // ---------------------------------------------------------------- the writer

  lemma Associative(a: string, b: string, c: string)
    ensures a + (b + c) == (a + b) + c
  {
  }

  lemma {:induction false} StringThenConcat(s: string, x: string, y: string)
    ensures StringThen(s, x + y) == StringThen(s, x) + y
  {
    if s == "" {
    } else {
      StringThenConcat(s[1..], x, y);
    }
  }

  lemma {:induction false} ThenConcat(v: Json, x: string, y: string)
    ensures Then(v, x + y) == Then(v, x) + y
    decreases v
  {
    match v
    case Null => Associative("null", x, y);
    case Bool(b) => Associative(if b then "true" else "false", x, y);
    case Num(n) => Associative(NumberText(n), x, y);
    case Str(s) =>
      StringThenConcat(s, x, y);
      Associative("\"", StringThen(s, x), y);
    case Arr(items) =>
      ItemsThenConcat(items, true, "]" + x, y);
      Associative("]", x, y);
      Associative("[", ItemsThen(items, true, "]" + x), y);
    case Obj(fields) =>
      MembersThenConcat(v, Sorted(fields.Keys), true, "}" + x, y);
      Associative("}", x, y);
      Associative("{", MembersThen(v, Sorted(fields.Keys), true, "}" + x), y);
  }

  lemma {:induction false} ItemsThenConcat(items: seq<Json>, first: bool, x: string, y: string)
    ensures ItemsThen(items, first, x + y) == ItemsThen(items, first, x) + y
    decreases items
  {
    if items == [] {
    } else {
      ItemsThenConcat(items[1..], false, x, y);
      ThenConcat(items[0], ItemsThen(items[1..], false, x), y);
    }
  }

  lemma {:induction false} MembersThenConcat(v: Json, keys: seq<string>, first: bool, x: string, y: string)
    requires v.Obj? && forall k :: k in keys ==> k in v.fields
    ensures MembersThen(v, keys, first, x + y) == MembersThen(v, keys, first, x) + y
    decreases v, |keys|
  {
    if keys == [] {
    } else {
      var value, rest := v.fields[keys[0]], MembersThen(v, keys[1..], false, x);
      MembersThenConcat(v, keys[1..], false, x, y);
      ThenConcat(value, rest, y);
      assert ":" + (Then(value, rest) + y) == (":" + Then(value, rest)) + y;
      StringThenConcat(keys[0], ":" + Then(value, rest), y);
    }
  }

  /** Printing in front of `rest` is printing, then `rest`. */
  lemma ThenIsPrint(v: Json, rest: string)
    ensures Then(v, rest) == CanonicalText(v) + rest
  {
    ThenConcat(v, "", rest);
    assert "" + rest == rest;
  }

  /** The output vector a writer appends to. */
  class Output {
    var text: string

    constructor ()
      ensures text == ""
    {
      text := "";
    }

    method Push(s: string)
      modifies this
      ensures text == old(text) + s
    {
      text := text + s;
    }
  }

  /** `serde_json::to_writer` on one string. */
  function StringText(s: string): string {
    "\"" + StringThen(s, "")
  }

  /** Appends exactly the canonical text, and nothing else. */
  method WriteCanonical(value: Json, output: Output)
    modifies output
    ensures output.text == old(output.text) + CanonicalText(value)
    decreases value
  {
    match value
    case Arr(items) =>
      BracketedText(value, output.text);
      output.Push("[");
      WriteItems(items, output);
      output.Push("]");
    case Obj(fields) =>
      BracketedText(value, output.text);
      output.Push("{");
      WriteMembers(value, output);
      output.Push("}");
    case _ =>
      var text := ScalarText(value);
      assert text + "" == text;
      output.Push(text);
  }

  /** `serde_json::to_writer` on a value that is neither an array nor an object. */
  function ScalarText(value: Json): (text: string)
    requires !value.Arr? && !value.Obj?
    ensures text + "" == CanonicalText(value)
  {
    match value
    case Null => "null"
    case Bool(b) => if b then "true" else "false"
    case Num(n) => NumberText(n)
    case Str(s) => StringText(s)
  }

  lemma BracketedText(value: Json, before: string)
    ensures value.Arr? ==> before + CanonicalText(value) == before + "[" + ItemsThen(value.items, true, "") + "]"
    ensures value.Obj? ==>
              before + CanonicalText(value) ==
                  before + "{" + MembersThen(value, Sorted(value.fields.Keys), true, "") + "}"
  {
    if value.Arr? {
      ItemsThenConcat(value.items, true, "", "]");
      assert "" + "]" == "]" + "";
    } else if value.Obj? {
      MembersThenConcat(value, Sorted(value.fields.Keys), true, "", "}");
      assert "" + "}" == "}" + "";
    }
  }

  /** The comma-separated loop over array values. */
  method WriteItems(values: seq<Json>, output: Output)
    modifies output
    ensures output.text == old(output.text) + ItemsThen(values, true, "")
    decreases values, 0
  {
    assert values[0..] == values;
    ghost var all := old(output.text) + ItemsThen(values, true, "");
    for index := 0 to |values|
      invariant output.text + ItemsThen(values[index..], index == 0, "") == all
    {
      ItemText(values, index, output.text);
      if index > 0 {
        output.Push(",");
      }
      WriteCanonical(values[index], output);
    }
    assert output.text + "" == output.text;
  }

  lemma ItemText(values: seq<Json>, index: nat, before: string)
    requires index < |values|
    ensures before + ItemsThen(values[index..], index == 0, "")
         == (if index > 0 then before + ","
             else before) + CanonicalText(values[index]) + ItemsThen(values[index + 1..], false, "")
  {
    hide Then;
    var rest := ItemsThen(values[index + 1..], false, "");
    assert values[index..][1..] == values[index + 1..];
    ThenIsPrint(values[index], rest);
    var text := CanonicalText(values[index]);
    Regroup2(before, text, rest);
    if index == 0 {
      assert ItemsThen(values[index..], true, "") == text + rest;
    } else {
      assert ItemsThen(values[index..], false, "") == "," + (text + rest);
    }
  }

  /** The loop over the sorted keys of an object. */
  method WriteMembers(value: Json, output: Output)
    requires value.Obj?
    modifies output
    ensures output.text == old(output.text) + MembersThen(value, Sorted(value.fields.Keys), true, "")
    decreases value, 0
  {
    var keys := SortKeys(value.fields.Keys);
    assert keys[0..] == keys;
    ghost var all := old(output.text) + MembersThen(value, keys, true, "");
    for index := 0 to |keys|
      invariant output.text + MembersThen(value, keys[index..], index == 0, "") == all
    {
      MemberText(value, keys, index, output.text);
      if index > 0 {
        output.Push(",");
      }
      output.Push(StringText(keys[index]));
      output.Push(":");
      WriteCanonical(value.fields[keys[index]], output);
    }
    assert output.text + "" == output.text;
  }

  lemma MemberText(value: Json, keys: seq<string>, index: nat, before: string)
    requires value.Obj? && index < |keys| && forall k :: k in keys ==> k in value.fields
    ensures before + MembersThen(value, keys[index..], index == 0, "")
         == (if index > 0 then before + "," else before) + StringText(keys[index]) + ":"
            + CanonicalText(value.fields[keys[index]]) + MembersThen(value, keys[index + 1..], false, "")
  {
    var key, member := keys[index], value.fields[keys[index]];
    var rest := MembersThen(value, keys[index + 1..], false, "");
    assert keys[index..][1..] == keys[index + 1..];
    ThenIsPrint(member, rest);
    QuotedText(key, ":" + Then(member, rest));
    Regroup(before, StringText(key), ":", CanonicalText(member), rest);
  }

  lemma QuotedText(key: string, tail: string)
    ensures "\"" + StringThen(key, tail) == StringText(key) + tail
    ensures "" + "\"" + StringThen(key, tail) == StringText(key) + tail
    ensures "," + "\"" + StringThen(key, tail) == "," + (StringText(key) + tail)
  {
    StringThenConcat(key, "", tail);
    assert "" + tail == tail;
    assert "" + "\"" == "\"";
  }

  lemma Regroup2(before: string, a: string, b: string)
    ensures before + (a + b) == before + a + b
    ensures before + ("," + (a + b)) == before + "," + a + b
    ensures "" + (a + b) == a + b
  {
  }

  lemma Regroup(before: string, a: string, b: string, c: string, d: string)
    ensures before + (a + (b + (c + d))) == before + a + b + c + d
    ensures before + ("," + (a + (b + (c + d)))) == before + "," + a + b + c + d
  {
  }
}
