/** The standard base64 alphabet of section 4 of RFC 4648, read strictly: padding required, spare bits zero. */
module Base64 {
  import opened Text
  import opened Utf8

  function Symbol(v: nat): (c: char)
    requires v < 64
    ensures SymbolValue(c) == Some(v)
  {
    if v < 26 then ('A' as int + v) as char
    else if v < 52 then ('a' as int + v - 26) as char
    else if v < 62 then ('0' as int + v - 52) as char
    else if v == 62 then '+' else '/'
  }

  function SymbolValue(c: char): (r: Option<nat>)
    ensures r.Some? ==> r.value < 64
  {
    if 'A' <= c <= 'Z' then Some(c as int - 'A' as int)
    else if 'a' <= c <= 'z' then Some(c as int - 'a' as int + 26)
    else if '0' <= c <= '9' then Some(c as int - '0' as int + 52)
    else if c == '+' then Some(62)
    else if c == '/' then Some(63)
    else None
  }

  /** The alphabet of section 4 of RFC 4648: capitals, small letters, digits, plus and slash. */
  lemma Alphabet(v: nat)
    requires v < 64
    ensures v < 26 ==> Symbol(v) == "ABCDEFGHIJKLMNOPQRSTUVWXYZ"[v]
    ensures 26 <= v < 52 ==> Symbol(v) == "abcdefghijklmnopqrstuvwxyz"[v - 26]
    ensures 52 <= v < 62 ==> Symbol(v) == "0123456789"[v - 52]
    ensures v == 62 ==> Symbol(v) == '+'
    ensures v == 63 ==> Symbol(v) == '/'
  {
  }

  lemma SymbolOfValue(c: char)
    requires SymbolValue(c).Some?
    ensures Symbol(SymbolValue(c).value) == c && c != '='
  {
  }

  // The six-bit values of up to three bytes, and the bytes back.

  function V0(a: byte): (v: nat) ensures v < 64 { a as int / 4 }
  function V1(a: byte, b: byte): (v: nat) ensures v < 64 { a as int % 4 * 16 + b as int / 16 }
  function V2(b: byte, c: byte): (v: nat) ensures v < 64 { b as int % 16 * 4 + c as int / 64 }
  function V3(c: byte): (v: nat) ensures v < 64 { c as int % 64 }

  function B0(v0: nat, v1: nat): byte requires v0 < 64 && v1 < 64 { (v0 * 4 + v1 / 16) as byte }
  function B1(v1: nat, v2: nat): byte requires v1 < 64 && v2 < 64 { (v1 % 16 * 16 + v2 / 4) as byte }
  function B2(v2: nat, v3: nat): byte requires v2 < 64 && v3 < 64 { (v2 % 4 * 64 + v3) as byte }

  function EncodeGroup(a: byte, b: byte, c: byte): (s: string)
    ensures |s| == 4
  {
    [Symbol(V0(a)), Symbol(V1(a, b)), Symbol(V2(b, c)), Symbol(V3(c))]
  }

  function Encode(bs: seq<byte>): string {
    if bs == [] then ""
    else if |bs| == 1 then [Symbol(V0(bs[0])), Symbol(V1(bs[0], 0)), '=', '=']
    else if |bs| == 2 then [Symbol(V0(bs[0])), Symbol(V1(bs[0], bs[1])), Symbol(V2(bs[1], 0)), '=']
    else EncodeGroup(bs[0], bs[1], bs[2]) + Encode(bs[3..])
  }

  function DecodeGroup(s: string): (r: Option<seq<byte>>)
    requires |s| >= 4
    ensures r.Some? ==> |r.value| == 3
  {
    var v0, v1, v2, v3 := SymbolValue(s[0]), SymbolValue(s[1]), SymbolValue(s[2]), SymbolValue(s[3]);
    if v0.None? || v1.None? || v2.None? || v3.None? then None
    else Some([B0(v0.value, v1.value), B1(v1.value, v2.value), B2(v2.value, v3.value)])
  }

  /** The last group may end in one or two pad characters; the bits they leave unused must be zero. */
  function DecodeLast(s: string): (r: Option<seq<byte>>)
    requires |s| == 4
  {
    if s[3] != '=' then DecodeGroup(s)
    else
      var v0, v1, v2 := SymbolValue(s[0]), SymbolValue(s[1]), SymbolValue(s[2]);
      if v0.None? || v1.None? then None
      else if s[2] == '=' then
        if v1.value % 16 == 0 then Some([B0(v0.value, v1.value)]) else None
      else if v2.None? || v2.value % 4 != 0 then None
      else Some([B0(v0.value, v1.value), B1(v1.value, v2.value)])
  }

  function Decode(s: string): Option<seq<byte>> {
    if s == "" then Some([])
    else if |s| < 4 then None
    else if |s| == 4 then DecodeLast(s)
    else
      var group, rest := DecodeGroup(s), Decode(s[4..]);
      if group.None? || rest.None? then None else Some(group.value + rest.value)
  }

  lemma GroupBack(a: byte, b: byte, c: byte)
    ensures B0(V0(a), V1(a, b)) == a && B1(V1(a, b), V2(b, c)) == b && B2(V2(b, c), V3(c)) == c
  {
  }

  lemma GroupForth(v0: nat, v1: nat, v2: nat, v3: nat)
    requires v0 < 64 && v1 < 64 && v2 < 64 && v3 < 64
    ensures V0(B0(v0, v1)) == v0 && V1(B0(v0, v1), B1(v1, v2)) == v1
    ensures V2(B1(v1, v2), B2(v2, v3)) == v2 && V3(B2(v2, v3)) == v3
    ensures v1 % 16 == 0 ==> V1(B0(v0, v1), 0) == v1
    ensures v2 % 4 == 0 ==> V2(B1(v1, v2), 0) == v2
  {
    assert v1 / 16 < 4 && v1 == v1 / 16 * 16 + v1 % 16;
    assert v2 / 4 < 16 && v2 == v2 / 4 * 4 + v2 % 4;
  }

  lemma SpareBits(a: byte)
    ensures V1(a, 0) % 16 == 0 && V2(a, 0) % 4 == 0
  {
  }

  lemma NotPad(v: nat)
    requires v < 64
    ensures Symbol(v) != '='
  {
  }

  lemma OneByte(a: byte)
    ensures Decode(Encode([a])) == Some([a])
  {
    hide V0, V1, V2, V3, B0, B1, B2, Symbol, SymbolValue;
    GroupBack(a, 0, 0);
    SpareBits(a);
    var s := Encode([a]);
    assert |s| == 4 && s[2] == '=' && s[3] == '=';
  }

  lemma TwoBytes(a: byte, b: byte)
    ensures Decode(Encode([a, b])) == Some([a, b])
  {
    hide V0, V1, V2, V3, B0, B1, B2, Symbol, SymbolValue;
    GroupBack(a, b, 0);
    SpareBits(b);
    NotPad(V2(b, 0));
    var s := Encode([a, b]);
    assert |s| == 4 && s[2] != '=' && s[3] == '=';
  }

  lemma Group(a: byte, b: byte, c: byte, rest: string)
    ensures DecodeGroup(EncodeGroup(a, b, c) + rest) == Some([a, b, c])
    ensures EncodeGroup(a, b, c)[3] != '='
  {
    hide V0, V1, V2, V3, B0, B1, B2, Symbol, SymbolValue;
    GroupBack(a, b, c);
    NotPad(V3(c));
    var s := EncodeGroup(a, b, c) + rest;
    assert s[0] == Symbol(V0(a)) && s[1] == Symbol(V1(a, b)) && s[2] == Symbol(V2(b, c)) && s[3] == Symbol(V3(c));
  }

  lemma {:induction false} DecodeEncoded(bs: seq<byte>)
    ensures Decode(Encode(bs)) == Some(bs)
  {
    hide DecodeGroup, EncodeGroup;
    if |bs| == 1 {
      OneByte(bs[0]);
      assert bs == [bs[0]];
    } else if |bs| == 2 {
      TwoBytes(bs[0], bs[1]);
      assert bs == [bs[0], bs[1]];
    } else if |bs| >= 3 {
      var first, rest := EncodeGroup(bs[0], bs[1], bs[2]), Encode(bs[3..]);
      Group(bs[0], bs[1], bs[2], rest);
      DecodeEncoded(bs[3..]);
      EncodedLength(bs[3..]);
      var s := first + rest;
      assert s[4..] == rest && s[3] == first[3];
      assert bs == [bs[0], bs[1], bs[2]] + bs[3..];
      assert Encode(bs) == s;
      if rest == "" {
        assert Decode(s) == DecodeLast(s) == DecodeGroup(s);
        assert bs == [bs[0], bs[1], bs[2]];
      }
    }
  }

  /** Only the encoder's own output is accepted, so every byte string has one text. */
  lemma {:induction false} EncodeDecoded(s: string)
    requires Decode(s).Some?
    ensures Encode(Decode(s).value) == s
  {
    if |s| == 4 {
      LastForth(s);
    } else if |s| > 4 {
      var group, rest := DecodeGroup(s).value, Decode(s[4..]).value;
      EncodeDecoded(s[4..]);
      GroupDecoded(s);
      assert (group + rest)[3..] == rest;
      assert s == s[..4] + s[4..];
    }
  }

  lemma GroupDecoded(s: string)
    requires |s| >= 4 && DecodeGroup(s).Some?
    ensures var g := DecodeGroup(s).value; EncodeGroup(g[0], g[1], g[2]) == s[..4]
  {
    GroupForth(SymbolValue(s[0]).value, SymbolValue(s[1]).value, SymbolValue(s[2]).value, SymbolValue(s[3]).value);
    SymbolOfValue(s[0]);
    SymbolOfValue(s[1]);
    SymbolOfValue(s[2]);
    SymbolOfValue(s[3]);
  }

  lemma LastForth(s: string)
    requires |s| == 4 && DecodeLast(s).Some?
    ensures Encode(DecodeLast(s).value) == s
  {
    hide V0, V1, V2, V3, B0, B1, B2, Symbol, SymbolValue;
    assert s == [s[0], s[1], s[2], s[3]];
    if s[3] != '=' {
      GroupDecoded(s);
      assert s[..4] == s;
    } else if s[2] == '=' {
      GroupForth(SymbolValue(s[0]).value, SymbolValue(s[1]).value, 0, 0);
      SymbolOfValue(s[0]);
      SymbolOfValue(s[1]);
    } else {
      GroupForth(SymbolValue(s[0]).value, SymbolValue(s[1]).value, SymbolValue(s[2]).value, 0);
      SymbolOfValue(s[0]);
      SymbolOfValue(s[1]);
      SymbolOfValue(s[2]);
    }
  }

  lemma {:induction false} EncodedLength(bs: seq<byte>)
    ensures |Encode(bs)| == (|bs| + 2) / 3 * 4
  {
    hide V0, V1, V2, EncodeGroup, Symbol;
    if |bs| >= 3 {
      EncodedLength(bs[3..]);
    }
  }

  predicate Base64Char(c: char) {
    c == '=' || SymbolValue(c).Some?
  }

  lemma {:induction false} EncodedChars(bs: seq<byte>)
    ensures forall i :: 0 <= i < |Encode(bs)| ==> Base64Char(Encode(bs)[i])
  {
    if |bs| >= 3 {
      EncodedChars(bs[3..]);
    }
  }
}
