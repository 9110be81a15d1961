/** UUIDs: sixteen bytes, printed as lower-case hyphenated hexadecimal. */
module Uuids {
  import opened Text
  import opened Utf8
  import CanonicalJson
  import opened JsonReader

  type Uuid = u: seq<byte> | |u| == 16 witness [0, 0, 0, 0, 0, 0, 0, 0, 0, 0, 0, 0, 0, 0, 0, 0]

  const NIL: Uuid := [0, 0, 0, 0, 0, 0, 0, 0, 0, 0, 0, 0, 0, 0, 0, 0]

  function Hex(bs: seq<byte>): (s: string)
    ensures |s| == 2 * |bs|
  {
    if bs == [] then ""
    else [CanonicalJson.HexDigit(bs[0] as int / 16), CanonicalJson.HexDigit(bs[0] as int % 16)] + Hex(bs[1..])
  }

  function Print(u: Uuid): string {
    Hex(u[..4]) + "-" + Hex(u[4..6]) + "-" + Hex(u[6..8]) + "-" + Hex(u[8..10]) + "-" + Hex(u[10..])
  }

  lemma PrintParts(u: Uuid)
    ensures |Print(u)| == 36
    ensures Print(u)[..8] == Hex(u[..4]) && Print(u)[9..13] == Hex(u[4..6]) && Print(u)[14..18] == Hex(u[6..8])
    ensures Print(u)[19..23] == Hex(u[8..10]) && Print(u)[24..] == Hex(u[10..])
  {
  }


  function ReadByte(high: char, low: char): Option<byte> {
    var h, l := HexValue(high), HexValue(low);
    if h.None? || l.None? then None else Some((h.value * 16 + l.value) as byte)
  }

  function ReadBytes(s: string): Option<seq<byte>> {
    if s == "" then Some([])
    else if |s| == 1 then None
    else
      var first, rest := ReadByte(s[0], s[1]), ReadBytes(s[2..]);
      if first.None? || rest.None? then None else Some([first.value] + rest.value)
  }

  /** Lower-case hexadecimal with hyphens after 8, 12, 16 and 20 digits. */
  function Read(s: string): Option<Uuid> {
    if |s| != 36 || s[8] != '-' || s[13] != '-' || s[18] != '-' || s[23] != '-' then None
    else
      var bytes := ReadBytes(s[..8] + s[9..13] + s[14..18] + s[19..23] + s[24..]);
      if bytes.Some? && |bytes.value| == 16 then Some(bytes.value) else None
  }

  lemma {:induction false} ReadBytesBack(bs: seq<byte>)
    ensures ReadBytes(Hex(bs)) == Some(bs)
  {
    if bs == [] {
    } else {
      var s := Hex(bs);
      ReadBytesBack(bs[1..]);
      assert s[2..] == Hex(bs[1..]);
      var high, low := bs[0] as int / 16, bs[0] as int % 16;
      assert s[0] == CanonicalJson.HexDigit(high) && s[1] == CanonicalJson.HexDigit(low);
      assert HexValue(CanonicalJson.HexDigit(high)) == Some(high) && HexValue(CanonicalJson.HexDigit(low)) == Some(low);
      assert bs == [bs[0]] + bs[1..];
    }
  }

  lemma {:induction false} HexConcat(a: seq<byte>, b: seq<byte>)
    ensures Hex(a + b) == Hex(a) + Hex(b)
  {
    if a == [] {
      assert a + b == b;
    } else {
      assert (a + b)[1..] == a[1..] + b;
      HexConcat(a[1..], b);
    }
  }

  lemma HexParts(u: Uuid)
    ensures Hex(u[..4]) + Hex(u[4..6]) + Hex(u[6..8]) + Hex(u[8..10]) + Hex(u[10..]) == Hex(u)
  {
    HexConcat(u[..4], u[4..6]);
    HexConcat(u[..4] + u[4..6], u[6..8]);
    HexConcat(u[..4] + u[4..6] + u[6..8], u[8..10]);
    HexConcat(u[..4] + u[4..6] + u[6..8] + u[8..10], u[10..]);
    assert u == u[..4] + u[4..6] + u[6..8] + u[8..10] + u[10..];
  }

  lemma ReadBack(u: Uuid)
    ensures Read(Print(u)) == Some(u)
  {
    hide ReadBytes, Hex;
    PrintParts(u);
    HexParts(u);
    ReadBytesBack(u);
    var s := Print(u);
    assert s[8] == '-' && s[13] == '-' && s[18] == '-' && s[23] == '-';
  }

  lemma PrintInjective(u: Uuid, v: Uuid)
    requires Print(u) == Print(v)
    ensures u == v
  {
    ReadBack(u);
    ReadBack(v);
  }
}
