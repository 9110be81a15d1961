/**
 UTF-8, the byte form of every Rust string: an encoder, a strict decoder (no overlong
 forms, no surrogates), and the proof that they are inverse.
 */
module Utf8 {
  import opened Text

  newtype byte = n: int | 0 <= n < 256

  /** A continuation byte carrying six bits, and those six bits back. */
  function Tail(sixBits: int): byte
    requires 0 <= sixBits < 64
  {
    (0x80 + sixBits) as byte
  }

  function SixBits(b: byte): (n: int)
    requires Continuation(b)
    ensures 0 <= n < 64 && Tail(n) == b
  {
    b as int - 0x80
  }

  predicate Continuation(b: byte) {
    0x80 <= b < 0xC0
  }

  predicate Scalar(n: int) {
    0 <= n < 0xD800 || 0xE000 <= n < 0x11_0000
  }

  function EncodeScalar(n: int): (bs: seq<byte>)
    requires Scalar(n)
    ensures 1 <= |bs| <= 4
  {
    var q := n / 64;
    var r := q / 64;
    if n < 0x80 then [n as byte]
    else if n < 0x800 then [(0xC0 + q) as byte, Tail(n % 64)]
    else if n < 0x1_0000 then [(0xE0 + r) as byte, Tail(q % 64), Tail(n % 64)]
    else [(0xF0 + r / 64) as byte, Tail(r % 64), Tail(q % 64), Tail(n % 64)]
  }

  function EncodeChar(c: char): (bs: seq<byte>)
    ensures 1 <= |bs| <= 4
  {
    EncodeScalar(c as int)
  }

  function Encode(s: string): seq<byte> {
    if s == "" then [] else EncodeChar(s[0]) + Encode(s[1..])
  }

  /** `str::len`: the length in bytes. */
  function ByteLength(s: string): nat {
    |Encode(s)|
  }

  /** The scalar value at the start of a byte string, if well formed there. */
  function DecodeScalar(bs: seq<byte>): (r: Option<int>)
    requires bs != []
  {
    var b0 := bs[0] as int;
    if b0 < 0x80 then Some(b0)
    else if |bs| < 2 || !Continuation(bs[1]) then None
    else if 0xC2 <= b0 < 0xE0 then Some((b0 - 0xC0) * 64 + SixBits(bs[1]))
    else if |bs| < 3 || !Continuation(bs[2]) then None
    else if 0xE0 <= b0 < 0xF0 then
      var n := ((b0 - 0xE0) * 64 + SixBits(bs[1])) * 64 + SixBits(bs[2]);
      if n >= 0x800 && Scalar(n) then Some(n) else None
    else if |bs| < 4 || !Continuation(bs[3]) then None
    else if 0xF0 <= b0 < 0xF5 then
      var n := (((b0 - 0xF0) * 64 + SixBits(bs[1])) * 64 + SixBits(bs[2])) * 64 + SixBits(bs[3]);
      if n >= 0x1_0000 && Scalar(n) then Some(n) else None
    else None
  }

  lemma DecodeScalarSound(bs: seq<byte>)
    requires bs != [] && DecodeScalar(bs).Some?
    ensures Scalar(DecodeScalar(bs).value)
    ensures EncodeScalar(DecodeScalar(bs).value) <= bs
  {
    var b0 := bs[0] as int;
    if 0xC2 <= b0 < 0xE0 {
      Shift(b0 - 0xC0, SixBits(bs[1]));
      assert bs[..2] == [bs[0], bs[1]];
    } else if 0xE0 <= b0 < 0xF0 {
      Shift(b0 - 0xE0, SixBits(bs[1]));
      Shift((b0 - 0xE0) * 64 + SixBits(bs[1]), SixBits(bs[2]));
      assert bs[..3] == [bs[0], bs[1], bs[2]];
    } else if 0xF0 <= b0 < 0xF5 {
      Shift(b0 - 0xF0, SixBits(bs[1]));
      Shift((b0 - 0xF0) * 64 + SixBits(bs[1]), SixBits(bs[2]));
      Shift(((b0 - 0xF0) * 64 + SixBits(bs[1])) * 64 + SixBits(bs[2]), SixBits(bs[3]));
      assert bs[..4] == [bs[0], bs[1], bs[2], bs[3]];
    }
  }

  lemma Shift(high: int, low: int)
    requires 0 <= low < 64
    ensures (high * 64 + low) / 64 == high && (high * 64 + low) % 64 == low
  {
  }

  /** The first character and the number of bytes it takes. */
  function DecodeHead(bs: seq<byte>): (r: Option<(char, nat)>)
    requires bs != []
    ensures r.Some? ==> 1 <= r.value.1 <= |bs| && EncodeChar(r.value.0) == bs[..r.value.1]
  {
    var n := DecodeScalar(bs);
    if n.None? then None
    else
      DecodeScalarSound(bs);
      Some((n.value as char, |EncodeScalar(n.value)|))
  }

  /** `String::from_utf8` */
  function Decode(bs: seq<byte>): Option<string> {
    if bs == [] then Some("")
    else
      var head := DecodeHead(bs);
      if head.None? then None
      else
        var tail := Decode(bs[head.value.1..]);
        if tail.None? then None else Some([head.value.0] + tail.value)
  }

  lemma DecodeScalarEncoded(n: int, rest: seq<byte>)
    requires Scalar(n)
    ensures DecodeScalar(EncodeScalar(n) + rest) == Some(n)
  {
    var bs := EncodeScalar(n) + rest;
    var q := n / 64;
    var r := q / 64;
    assert bs[0] == EncodeScalar(n)[0];
    if n >= 0x80 {
      assert bs[1] == EncodeScalar(n)[1];
    }
    if n >= 0x800 {
      assert bs[2] == EncodeScalar(n)[2];
    }
    if n >= 0x1_0000 {
      assert bs[3] == EncodeScalar(n)[3];
    }
  }

  lemma DecodeHeadEncoded(c: char, rest: seq<byte>)
    ensures DecodeHead(EncodeChar(c) + rest) == Some((c, |EncodeChar(c)|))
  {
    DecodeScalarEncoded(c as int, rest);
  }

  /** Every string survives the trip through its bytes. */
  lemma {:induction false} DecodeEncoded(s: string)
    ensures Decode(Encode(s)) == Some(s)
  {
    if s == "" {
    } else {
      DecodeHeadEncoded(s[0], Encode(s[1..]));
      assert Encode(s)[|EncodeChar(s[0])|..] == Encode(s[1..]);
      DecodeEncoded(s[1..]);
      assert s == [s[0]] + s[1..];
    }
  }

  lemma EncodeCons(c: char, t: string)
    ensures Encode([c] + t) == EncodeChar(c) + Encode(t)
  {
    assert ([c] + t)[1..] == t;
  }

  /** Every byte string that decodes is the encoding of what it decodes to. */
  lemma {:induction false} EncodeDecoded(bs: seq<byte>)
    requires Decode(bs).Some?
    ensures Encode(Decode(bs).value) == bs
  {
    hide EncodeChar, DecodeHead;
    if bs == [] {
    } else {
      var head := DecodeHead(bs).value;
      var tail := bs[head.1..];
      EncodeDecoded(tail);
      EncodeCons(head.0, Decode(tail).value);
      assert bs == bs[..head.1] + tail;
    }
  }

  lemma EncodeInjective(s: string, t: string)
    requires Encode(s) == Encode(t)
    ensures s == t
  {
    DecodeEncoded(s);
    DecodeEncoded(t);
  }
}
