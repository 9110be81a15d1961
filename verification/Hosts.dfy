/**
 Controller identity hosts: normalizing host arguments, reading certificate names, and
 the comparison of the two as sorted lists. The text form of IP addresses is given by a
 pair of functions with the laws listed in `IpLaws`.
 */
module Hosts {
  import opened Text
  import opened Utf8
  import opened Splits

  const MAX_HOSTS := 32

  type SixteenBytes = s: seq<byte> | |s| == 16 witness [0, 0, 0, 0, 0, 0, 0, 0, 0, 0, 0, 0, 0, 0, 0, 0]

  datatype IpAddr = V4(a: byte, b: byte, c: byte, d: byte) | V6(octets: SixteenBytes)

  datatype IpText = IpText(parse: string -> Option<IpAddr>, show: IpAddr -> string)

  datatype CanonicalHost = Dns(name: string) | Ip(address: IpAddr)

  datatype GeneralName = DnsName(name: string) | IpAddress(bytes: seq<byte>) | OtherName

  // ---------------------------------------------------------------- text

  predicate Ascii(s: string) {
    forall i :: 0 <= i < |s| ==> s[i] as int < 128
  }

  /** `trim_matches(' ')` */
  function Trim(s: string): string {
    if s != "" && s[0] == ' ' then Trim(s[1..])
    else if s != "" && s[|s| - 1] == ' ' then Trim(s[..|s| - 1])
    else s
  }

  predicate Trimmed(s: string) {
    s == "" || (s[0] != ' ' && s[|s| - 1] != ' ')
  }

  predicate EndsInDot(s: string) {
    s != "" && s[|s| - 1] == '.'
  }

  // ---------------------------------------------------------------- one host

  predicate LabelChar(c: char) {
    'a' <= c <= 'z' || 'A' <= c <= 'Z' || '0' <= c <= '9' || c == '-'
  }

  predicate GoodLabel(part: string) {
    && 1 <= |part| <= 63 && part[0] != '-' && part[|part| - 1] != '-'
    && forall i :: 0 <= i < |part| ==> LabelChar(part[i])
  }

  predicate DnsShape(name: string) {
    && name != "" && |name| <= 253
    && forall i :: 0 <= i < |Split(name, '.')| ==> GoodLabel(Split(name, '.')[i])
  }

  function NormalizeDns(name: string): Option<string> {
    if HasControl(name) || !Ascii(name) || name == "" then None
    else
      var stripped := if EndsInDot(name) then name[..|name| - 1] else name;
      if EndsInDot(name) && EndsInDot(stripped) then None
      else if !DnsShape(stripped) then None
      else Some(AsciiLower(stripped))
  }

  function NormalizeHost(ip: IpText, host: string): Option<CanonicalHost> {
    if HasControl(host) then None else NormalizeTrimmed(ip, Trim(host))
  }

  function NormalizeTrimmed(ip: IpText, host: string): Option<CanonicalHost> {
    if !Ascii(host) || host == "" then None
    else if ip.parse(host).Some? then Some(Ip(ip.parse(host).value))
    else
      var name := NormalizeDns(host);
      if name.None? then None
      else if ip.parse(name.value).Some? then Some(Ip(ip.parse(name.value).value))
      else Some(Dns(name.value))
  }

  function SafeString(ip: IpText, host: CanonicalHost): string {
    match host
    case Dns(name) => name
    case Ip(address) => ip.show(address)
  }

  /** What the model needs of address text: reading undoes printing, case does not matter, no text ends in a dot. */
  ghost predicate IpLaws(ip: IpText) {
    && (forall x :: ip.parse(ip.show(x)) == Some(x))
    && (forall x :: ip.show(x) != "" && Ascii(ip.show(x)) && !HasControl(ip.show(x)) && Trimmed(ip.show(x)))
    && (forall s :: ip.parse(AsciiLower(s)) == ip.parse(s))
    && (forall s :: EndsInDot(s) ==> ip.parse(s).None?)
  }

  // ---------------------------------------------------------------- facts about the pieces

  lemma {:induction false} TrimFacts(s: string)
    ensures Trimmed(Trim(s))
    ensures Trimmed(s) ==> Trim(s) == s
    ensures !HasControl(s) ==> !HasControl(Trim(s))
  {
    if s != "" && s[0] == ' ' {
      TrimFacts(s[1..]);
    } else if s != "" && s[|s| - 1] == ' ' {
      TrimFacts(s[..|s| - 1]);
    }
  }

  lemma {:induction false} TrimLower(s: string)
    ensures Trim(AsciiLower(s)) == AsciiLower(Trim(s))
  {
    if s != "" && s[0] == ' ' {
      TrimLower(s[1..]);
      assert AsciiLower(s)[1..] == AsciiLower(s[1..]);
    } else if s != "" && s[|s| - 1] == ' ' {
      TrimLower(s[..|s| - 1]);
      assert AsciiLower(s)[..|s| - 1] == AsciiLower(s[..|s| - 1]);
    }
  }

  lemma LowerFacts(s: string)
    ensures AsciiLower(AsciiLower(s)) == AsciiLower(s)
    ensures !HasControl(AsciiLower(s)) <==> !HasControl(s)
    ensures Ascii(AsciiLower(s)) <==> Ascii(s)
    ensures EndsInDot(AsciiLower(s)) <==> EndsInDot(s)
  {
    assert forall i :: 0 <= i < |s| ==> AsciiLower(s)[i] == LowerChar(s[i]);
    assert forall c :: LowerChar(LowerChar(c)) == LowerChar(c);
    assert forall c :: IsControl(LowerChar(c)) <==> IsControl(c);
  }

  lemma LowerDot(c: char)
    ensures LowerChar(c) == '.' <==> c == '.'
  {
  }

  lemma LowerCons(c: char, rest: string)
    ensures AsciiLower([c] + rest) == [LowerChar(c)] + AsciiLower(rest)
  {
  }

  /** The parts of the lower-cased text are the lower-cased parts. */
  predicate LowerParts(low: seq<string>, parts: seq<string>) {
    |low| == |parts| && forall i :: 0 <= i < |parts| ==> low[i] == AsciiLower(parts[i])
  }

  lemma LowerPartsNew(low: seq<string>, parts: seq<string>)
    requires LowerParts(low, parts)
    ensures LowerParts([""] + low, [""] + parts)
  {
    assert AsciiLower("") == "";
  }

  lemma LowerPartsGrow(low: seq<string>, parts: seq<string>, c: char)
    requires LowerParts(low, parts) && parts != []
    ensures LowerParts([[LowerChar(c)] + low[0]] + low[1..], [[c] + parts[0]] + parts[1..])
  {
    hide LowerChar;
    LowerCons(c, parts[0]);
  }

  lemma {:induction false} SplitLower(s: string)
    ensures LowerParts(Split(AsciiLower(s), '.'), Split(s, '.'))
  {
    hide LowerChar, LowerParts;
    if s == "" {
      NoLowerParts();
    } else {
      LowerDot(s[0]);
      assert AsciiLower(s)[0] == LowerChar(s[0]) && AsciiLower(s)[1..] == AsciiLower(s[1..]);
      SplitLower(s[1..]);
      var parts, low := Split(s[1..], '.'), Split(AsciiLower(s[1..]), '.');
      if s[0] == '.' {
        LowerPartsNew(low, parts);
      } else {
        LowerPartsGrow(low, parts, s[0]);
      }
    }
  }

  lemma NoLowerParts()
    ensures AsciiLower("") == "" && LowerParts([""], [""])
  {
  }

  lemma GoodLabelLower(part: string)
    ensures GoodLabel(AsciiLower(part)) <==> GoodLabel(part)
  {
    assert forall i :: 0 <= i < |part| ==> AsciiLower(part)[i] == LowerChar(part[i]);
    assert forall c :: LabelChar(LowerChar(c)) <==> LabelChar(c);
  }

  lemma DnsShapeLower(s: string)
    ensures DnsShape(AsciiLower(s)) <==> DnsShape(s)
  {
    hide GoodLabel, Split;
    SplitLower(s);
    forall i | 0 <= i < |Split(s, '.')|
      ensures GoodLabel(Split(AsciiLower(s), '.')[i]) <==> GoodLabel(Split(s, '.')[i])
    {
      GoodLabelLower(Split(s, '.')[i]);
    }
    assert DnsShape(s) ==> forall i :: 0 <= i < |Split(s, '.')| ==> GoodLabel(Split(AsciiLower(s), '.')[i]);
    assert DnsShape(AsciiLower(s)) ==> forall i :: 0 <= i < |Split(s, '.')| ==> GoodLabel(Split(s, '.')[i]);
  }

  lemma {:induction false} SplitChars(s: string, i: nat) returns (k: nat)
    requires i < |s| && s[i] != '.'
    ensures k < |Split(s, '.')| && s[i] in Split(s, '.')[k]
  {
    if i == 0 {
      k := 0;
      assert Split(s, '.')[0][0] == s[i];
    } else {
      k := SplitChars(s[1..], i - 1);
      k := if s[0] == '.' then k + 1 else k;
    }
  }

  /** The last label is empty exactly when the text is empty or ends in a dot. */
  lemma {:induction false} LastLabel(s: string)
    ensures Split(s, '.')[|Split(s, '.')| - 1] == "" <==> s == "" || EndsInDot(s)
  {
    if s == "" {
    } else {
      LastLabel(s[1..]);
    }
  }

  /** A name of DNS shape holds only label characters and inner dots. */
  lemma DnsShapeClean(s: string)
    requires DnsShape(s)
    ensures !HasControl(s) && Ascii(s) && Trimmed(s) && !EndsInDot(s)
  {
    forall i | 0 <= i < |s|
      ensures LabelChar(s[i]) || s[i] == '.'
    {
      if s[i] != '.' {
        var k := SplitChars(s, i);
        assert GoodLabel(Split(s, '.')[k]);
      }
    }
    LastLabel(s);
    assert GoodLabel(Split(s, '.')[|Split(s, '.')| - 1]);
  }

  // ---------------------------------------------------------------- which hosts are accepted

  /** A label by code point: letters, digits and hyphens, at most 63, no hyphen at either end. */
  predicate DnsLabel(part: string) {
    && 1 <= |part| <= 63 && part[0] as int != 0x2D && part[|part| - 1] as int != 0x2D
    && forall i :: 0 <= i < |part| ==>
         var n := part[i] as int;
         0x41 <= n <= 0x5A || 0x61 <= n <= 0x7A || 0x30 <= n <= 0x39 || n == 0x2D
  }

  /** A name by the grammar: labels joined by dots, at most 253 characters. */
  ghost predicate DnsText(name: string) {
    |name| <= 253 && exists labels: seq<string> ::
      labels != [] && Join(labels, '.') == name && forall i :: 0 <= i < |labels| ==> DnsLabel(labels[i])
  }

  lemma DnsGrammar(name: string)
    ensures DnsShape(name) <==> DnsText(name)
  {
    hide Split, Join;
    if DnsShape(name) {
      SplitParts(name, '.');
      var labels := Split(name, '.');
      assert forall i :: 0 <= i < |labels| ==> GoodLabel(labels[i]) ==> DnsLabel(labels[i]);
    }
    if DnsText(name) {
      var labels: seq<string> :|
        labels != [] && Join(labels, '.') == name && forall i :: 0 <= i < |labels| ==> DnsLabel(labels[i]);
      forall i | 0 <= i < |labels|
        ensures '.' !in labels[i] && GoodLabel(labels[i])
      {
        assert DnsLabel(labels[i]);
      }
      SplitJoin(labels, '.');
      NotEmpty(labels);
    }
  }

  lemma NotEmpty(labels: seq<string>)
    requires labels != [] && DnsLabel(labels[0])
    ensures Join(labels, '.') != ""
  {
  }

  function WithoutRootDot(s: string): string {
    if s != "" && s[|s| - 1] == '.' then s[..|s| - 1] else s
  }

  function Spaces(n: nat): string {
    seq(n, _ => ' ')
  }

  lemma SpacesGrow(n: nat)
    ensures Spaces(n + 1) == [' '] + Spaces(n) == Spaces(n) + [' ']
  {
  }

  lemma PadLeft(s: string, a: nat, t: string, b: nat)
    requires s != "" && s[0] == ' ' && s[1..] == Spaces(a) + t + Spaces(b)
    ensures s == Spaces(a + 1) + t + Spaces(b)
  {
    SpacesGrow(a);
    hide Spaces;
    assert s == [' '] + s[1..];
  }

  lemma PadRight(s: string, a: nat, t: string, b: nat)
    requires s != "" && s[|s| - 1] == ' ' && s[..|s| - 1] == Spaces(a) + t + Spaces(b)
    ensures s == Spaces(a) + t + Spaces(b + 1)
  {
    SpacesGrow(b);
    hide Spaces;
    assert s == s[..|s| - 1] + [' '];
  }

  /** Trimming takes away spaces at both ends and nothing else. */
  lemma {:induction false} TrimExact(s: string) returns (a: nat, b: nat)
    ensures s == Spaces(a) + Trim(s) + Spaces(b) && Trimmed(Trim(s))
  {
    hide Spaces;
    if s != "" && s[0] == ' ' {
      a, b := TrimExact(s[1..]);
      PadLeft(s, a, Trim(s), b);
      a := a + 1;
    } else if s != "" && s[|s| - 1] == ' ' {
      a, b := TrimExact(s[..|s| - 1]);
      PadRight(s, a, Trim(s), b);
      b := b + 1;
    } else {
      a, b := 0, 0;
      NoSpaces(s);
    }
  }

  lemma NoSpaces(s: string)
    ensures Spaces(0) + s + Spaces(0) == s
  {
  }

  lemma DnsAccepted(s: string)
    requires !HasControl(s) && Ascii(s) && s != ""
    ensures NormalizeDns(s) == if DnsText(WithoutRootDot(s)) then Some(AsciiLower(WithoutRootDot(s))) else None
  {
    DnsGrammar(WithoutRootDot(s));
    if DnsShape(WithoutRootDot(s)) {
      DnsShapeClean(WithoutRootDot(s));
    }
  }

  /**
   A host is accepted exactly when it has no control character and, without surrounding
   spaces, is ASCII and address text or a DNS name with at most one root dot. It stands
   for the address if it, or that name, reads as one, and for the lower-case name otherwise.
   */
  lemma HostExact(ip: IpText, host: string)
    requires IpLaws(ip)
    ensures var s := Trim(host);
      var name := WithoutRootDot(s);
      && (NormalizeHost(ip, host).Some? <==>
            !HasControl(host) && s != "" && Ascii(s) && (ip.parse(s).Some? || DnsText(name)))
      && (NormalizeHost(ip, host).Some? ==>
            NormalizeHost(ip, host).value ==
              if ip.parse(s).Some? then Ip(ip.parse(s).value)
              else if ip.parse(name).Some? then Ip(ip.parse(name).value)
              else Dns(AsciiLower(name)))
  {
    hide NormalizeDns, DnsText;
    TrimFacts(host);
    var s := Trim(host);
    if !HasControl(host) && Ascii(s) && s != "" {
      DnsAccepted(s);
    }
  }

  // ---------------------------------------------------------------- laws of one host

  /** What comes out is printed text that normalizes to itself, and no DNS name reads as an address. */
  lemma NormalizeIdempotent(ip: IpText, host: string)
    requires IpLaws(ip) && NormalizeHost(ip, host).Some?
    ensures NormalizeHost(ip, SafeString(ip, NormalizeHost(ip, host).value)) == NormalizeHost(ip, host)
    ensures NormalizeHost(ip, host).value.Dns? ==> ip.parse(NormalizeHost(ip, host).value.name).None?
  {
    var x := NormalizeHost(ip, host).value;
    var text := SafeString(ip, x);
    if x.Dns? {
      var s := Trim(host);
      var stripped := if EndsInDot(s) then s[..|s| - 1] else s;
      assert x.name == AsciiLower(stripped) && DnsShape(stripped);
      DnsShapeLower(stripped);
      DnsShapeClean(text);
      LowerFacts(stripped);
    }
    TrimFacts(text);
  }

  lemma DnsIgnoresCase(s: string)
    ensures NormalizeDns(AsciiLower(s)) == NormalizeDns(s)
  {
    hide DnsShape;
    LowerFacts(s);
    if EndsInDot(s) {
      var stripped := s[..|s| - 1];
      assert AsciiLower(s)[..|s| - 1] == AsciiLower(stripped);
      LowerFacts(stripped);
      DnsShapeLower(stripped);
    } else {
      DnsShapeLower(s);
    }
  }

  /** Letter case and surrounding spaces make no difference. */
  lemma NormalizeIgnoresCase(ip: IpText, host: string)
    requires IpLaws(ip)
    ensures NormalizeHost(ip, AsciiLower(host)) == NormalizeHost(ip, host)
    ensures !HasControl(host) ==> NormalizeHost(ip, Trim(host)) == NormalizeHost(ip, host)
  {
    hide NormalizeDns;
    LowerFacts(host);
    TrimLower(host);
    TrimFacts(host);
    LowerFacts(Trim(host));
    DnsIgnoresCase(Trim(host));
  }

  /**
   One trailing root dot makes no difference to a name or a dotted address; it does to
   address text that is not of DNS shape, such as IPv6 text. The condition is exact.
   */
  lemma RootDot(ip: IpText, s: string)
    requires IpLaws(ip) && s != "" && Trimmed(s) && !HasControl(s) && !EndsInDot(s)
    ensures NormalizeHost(ip, s + ".") == NormalizeHost(ip, s) <==> ip.parse(s).None? || !Ascii(s) || DnsShape(s)
  {
    var dotted := s + ".";
    assert EndsInDot(dotted) && dotted[..|dotted| - 1] == s;
    assert Trimmed(dotted) && !HasControl(dotted);
    assert Ascii(dotted) <==> Ascii(s) by {
      assert forall i :: 0 <= i < |s| ==> dotted[i] == s[i];
    }
    TrimFacts(s);
    TrimFacts(dotted);
  }

  /** A concrete failure: the loopback text is accepted and the same text with a root dot is refused. */
  lemma RootDotOnLoopback(ip: IpText)
    requires IpLaws(ip) && ip.parse("::1").Some?
    ensures NormalizeHost(ip, "::1") == Some(Ip(ip.parse("::1").value))
    ensures NormalizeHost(ip, "::1.") == None
  {
    var s := "::1";
    assert s[0] == ':' && s[1] == ':' && s[2] == '1';
    SplitPlain(s, '.');
    assert !GoodLabel(s);
    TrimFacts(s);
    assert !DnsShape(s) by {
      assert Split(s, '.')[0] == s;
    }
    var dotted := "::1.";
    assert EndsInDot(dotted) && dotted[..3] == s;
    TrimFacts(dotted);
  }

  // ---------------------------------------------------------------- ordered sets of hosts

  /** The order of the ordered set: by printed text, a DNS name before an address of the same text. */
  predicate HostLess(ip: IpText, a: CanonicalHost, b: CanonicalHost) {
    || Less(SafeString(ip, a), SafeString(ip, b))
    || (SafeString(ip, a) == SafeString(ip, b) && a.Dns? && b.Ip?)
  }

  /** Hosts that compare as equal are equal: the order is strict and total. */
  lemma HostTrichotomy(ip: IpText, a: CanonicalHost, b: CanonicalHost)
    requires IpLaws(ip)
    ensures HostLess(ip, a, b) || a == b || HostLess(ip, b, a)
    ensures !(HostLess(ip, a, b) && HostLess(ip, b, a))
    ensures !HostLess(ip, a, a)
  {
    hide Less;
    LessTrichotomy(SafeString(ip, a), SafeString(ip, b));
    LessTrichotomy(SafeString(ip, a), SafeString(ip, a));
  }

  lemma HostTransitive(ip: IpText, a: CanonicalHost, b: CanonicalHost, c: CanonicalHost)
    requires HostLess(ip, a, b) && HostLess(ip, b, c)
    ensures HostLess(ip, a, c)
  {
    hide Less;
    if Less(SafeString(ip, a), SafeString(ip, b)) && Less(SafeString(ip, b), SafeString(ip, c)) {
      LessTransitive(SafeString(ip, a), SafeString(ip, b), SafeString(ip, c));
    }
  }

  predicate AscendingHosts(ip: IpText, hosts: seq<CanonicalHost>) {
    forall i, j :: 0 <= i < j < |hosts| ==> HostLess(ip, hosts[i], hosts[j])
  }

  function Members(hosts: seq<CanonicalHost>): (s: set<CanonicalHost>)
    ensures forall x :: x in s <==> x in hosts
  {
    set x | x in hosts
  }

  /** Inserting into an ordered set kept as an ascending list. */
  method InsertHost(ip: IpText, hosts: seq<CanonicalHost>, x: CanonicalHost) returns (r: seq<CanonicalHost>)
    requires IpLaws(ip) && AscendingHosts(ip, hosts)
    ensures AscendingHosts(ip, r)
    ensures Members(r) == Members(hosts) + {x}
  {
    hide HostLess;
    var i := 0;
    while i < |hosts| && HostLess(ip, hosts[i], x)
      invariant 0 <= i <= |hosts|
      invariant forall k :: 0 <= k < i ==> HostLess(ip, hosts[k], x)
    {
      i := i + 1;
    }
    if i < |hosts| && !HostLess(ip, x, hosts[i]) {
      HostTrichotomy(ip, x, hosts[i]);
      return hosts;
    }
    r := hosts[..i] + [x] + hosts[i..];
    InsertedMembers(hosts, i, x);
    forall j | i <= j < |hosts|
      ensures HostLess(ip, x, hosts[j])
    {
      if j > i {
        HostTransitive(ip, x, hosts[i], hosts[j]);
      }
    }
    InsertedAscends(ip, hosts, i, x);
  }

  lemma InsertedMembers(hosts: seq<CanonicalHost>, i: nat, x: CanonicalHost)
    requires i <= |hosts|
    ensures Members(hosts[..i] + [x] + hosts[i..]) == Members(hosts) + {x}
  {
    var r := hosts[..i] + [x] + hosts[i..];
    assert r[i] == x;
    forall k | 0 <= k < |hosts|
      ensures hosts[k] in r
    {
      assert hosts[k] == r[if k < i then k else k + 1];
    }
    forall k | 0 <= k < |r|
      ensures r[k] == x || r[k] in hosts
    {
      assert r[k] == if k < i then hosts[k] else if k == i then x else hosts[k - 1];
    }
  }

  lemma InsertedAscends(ip: IpText, hosts: seq<CanonicalHost>, i: nat, x: CanonicalHost)
    requires i <= |hosts| && AscendingHosts(ip, hosts)
    requires forall k :: 0 <= k < i ==> HostLess(ip, hosts[k], x)
    requires forall k :: i <= k < |hosts| ==> HostLess(ip, x, hosts[k])
    ensures AscendingHosts(ip, hosts[..i] + [x] + hosts[i..])
  {
    hide HostLess;
    var r := hosts[..i] + [x] + hosts[i..];
    forall j, k | 0 <= j < k < |r|
      ensures HostLess(ip, r[j], r[k])
    {
      assert r[j] == if j < i then hosts[j] else if j == i then x else hosts[j - 1];
      assert r[k] == if k < i then hosts[k] else if k == i then x else hosts[k - 1];
    }
  }

  /** The list is in the order of its printed texts; of one text the name comes before the address. */
  lemma TextOrder(ip: IpText, hosts: seq<CanonicalHost>, i: nat, j: nat)
    requires IpLaws(ip) && AscendingHosts(ip, hosts) && i < j < |hosts|
    ensures var a, b := SafeString(ip, hosts[i]), SafeString(ip, hosts[j]);
      Less(a, b) || (a == b && hosts[i].Dns? && hosts[j].Ip?)
    ensures hosts[i].Dns? ==> SafeString(ip, hosts[i]) == hosts[i].name
    ensures hosts[i].Ip? ==> ip.parse(SafeString(ip, hosts[i])) == Some(hosts[i].address)
  {
  }

  /** An ascending list is determined by its members, so comparing lists compares sets. */
  lemma {:induction false} AscendingDetermined(ip: IpText, a: seq<CanonicalHost>, b: seq<CanonicalHost>)
    requires IpLaws(ip) && AscendingHosts(ip, a) && AscendingHosts(ip, b)
    ensures a == b <==> Members(a) == Members(b)
    decreases |a| + |b|
  {
    hide HostLess, IpLaws;
    if a == [] || b == [] {
      assert a != [] ==> a[0] in Members(a);
      assert b != [] ==> b[0] in Members(b);
    } else if Members(a) == Members(b) {
      var x, y := a[0], b[0];
      assert x in Members(b) && y in Members(a);
      var i :| 0 <= i < |b| && b[i] == x;
      var j :| 0 <= j < |a| && a[j] == y;
      HostTrichotomy(ip, x, y);
      assert x == y;
      TailMembers(ip, a);
      TailMembers(ip, b);
      AscendingDetermined(ip, a[1..], b[1..]);
      assert a == [x] + a[1..] && b == [y] + b[1..];
    }
  }

  lemma TailMembers(ip: IpText, a: seq<CanonicalHost>)
    requires IpLaws(ip) && a != [] && AscendingHosts(ip, a)
    ensures AscendingHosts(ip, a[1..]) && Members(a[1..]) == Members(a) - {a[0]}
  {
    hide HostLess, IpLaws;
    HostTrichotomy(ip, a[0], a[0]);
    forall x | x in Members(a) - {a[0]}
      ensures x in a[1..]
    {
      var i :| 0 <= i < |a| && a[i] == x;
      assert a[1..][i - 1] == x;
    }
  }

  // ---------------------------------------------------------------- host lists and certificate names

  /** The hosts a list of arguments stands for, each normalized; `None` when one is refused. */
  ghost predicate AllNormalize(ip: IpText, hosts: seq<string>) {
    forall i :: 0 <= i < |hosts| ==> NormalizeHost(ip, hosts[i]).Some?
  }

  ghost function Normalized(ip: IpText, hosts: seq<string>): (s: set<CanonicalHost>)
    requires AllNormalize(ip, hosts)
    ensures forall x :: x in s <==> exists i :: 0 <= i < |hosts| && NormalizeHost(ip, hosts[i]) == Some(x)
  {
    set i | 0 <= i < |hosts| :: NormalizeHost(ip, hosts[i]).value
  }

  method NormalizeHosts(ip: IpText, hosts: seq<string>) returns (r: Option<seq<CanonicalHost>>)
    requires IpLaws(ip)
    ensures r.Some? <==> 1 <= |hosts| <= MAX_HOSTS && AllNormalize(ip, hosts)
    ensures r.Some? ==> AscendingHosts(ip, r.value) && Members(r.value) == Normalized(ip, hosts)
  {
    hide HostLess, NormalizeHost, IpLaws;
    if hosts == [] || |hosts| > MAX_HOSTS {
      return None;
    }
    var unique: seq<CanonicalHost> := [];
    for n := 0 to |hosts|
      invariant AscendingHosts(ip, unique)
      invariant forall i :: 0 <= i < n ==> NormalizeHost(ip, hosts[i]).Some?
      invariant forall i :: 0 <= i < n ==> NormalizeHost(ip, hosts[i]).value in Members(unique)
      invariant forall x :: x in Members(unique) ==> exists i :: 0 <= i < n && NormalizeHost(ip, hosts[i]) == Some(x)
    {
      var host := NormalizeHost(ip, hosts[n]);
      if host.None? {
        return None;
      }
      unique := InsertHost(ip, unique, host.value);
    }
    r := Some(unique);
  }

  function EncodedIp(bytes: seq<byte>): Option<IpAddr> {
    if |bytes| == 4 then Some(V4(bytes[0], bytes[1], bytes[2], bytes[3]))
    else if |bytes| == 16 then Some(V6(bytes))
    else None
  }

  function ReadName(name: GeneralName): Option<CanonicalHost> {
    match name
    case DnsName(text) =>
      var dns := NormalizeDns(text);
      if dns.None? then None else Some(Dns(dns.value))
    case IpAddress(bytes) =>
      var address := EncodedIp(bytes);
      if address.None? then None else Some(Ip(address.value))
    case OtherName => None
  }

  ghost predicate AllRead(names: seq<GeneralName>) {
    forall i :: 0 <= i < |names| ==> ReadName(names[i]).Some?
  }

  ghost function ReadSet(names: seq<GeneralName>): (s: set<CanonicalHost>)
    requires AllRead(names)
    ensures forall x :: x in s <==> exists i :: 0 <= i < |names| && ReadName(names[i]) == Some(x)
  {
    set i | 0 <= i < |names| :: ReadName(names[i]).value
  }

  method CertificateSans(ip: IpText, names: seq<GeneralName>) returns (r: Option<seq<CanonicalHost>>)
    requires IpLaws(ip)
    ensures r.Some? <==> names != [] && AllRead(names)
    ensures r.Some? ==> AscendingHosts(ip, r.value) && Members(r.value) == ReadSet(names)
  {
    hide HostLess, ReadName, IpLaws;
    var values: seq<CanonicalHost> := [];
    for n := 0 to |names|
      invariant AscendingHosts(ip, values)
      invariant forall i :: 0 <= i < n ==> ReadName(names[i]).Some?
      invariant forall i :: 0 <= i < n ==> ReadName(names[i]).value in Members(values)
      invariant forall x :: x in Members(values) ==> exists i :: 0 <= i < n && ReadName(names[i]) == Some(x)
    {
      var value := ReadName(names[n]);
      if value.None? {
        return None;
      }
      values := InsertHost(ip, values, value.value);
    }
    assert names != [] && AllRead(names) ==> ReadName(names[0]).value in values;
    assert values != [] ==> values[0] in Members(values);
    if values == [] {
      return None;
    }
    r := Some(values);
  }

  /**
   The identity comparison accepts exactly when the certificate's typed name set is the
   expected host set; an accepted set holds no DNS name that reads as an address.
   */
  method NamesMatch(ip: IpText, names: seq<GeneralName>, expected: seq<string>) returns (accepted: bool)
    requires IpLaws(ip)
    ensures accepted <==>
      && 1 <= |expected| <= MAX_HOSTS && AllNormalize(ip, expected)
      && AllRead(names) && ReadSet(names) == Normalized(ip, expected)
    ensures accepted ==> forall x :: x in ReadSet(names) && x.Dns? ==> ip.parse(x.name).None?
  {
    hide HostLess, ReadName, NormalizeHost, IpLaws, Normalized, ReadSet;
    var hosts := NormalizeHosts(ip, expected);
    if hosts.None? {
      return false;
    }
    assert NormalizeHost(ip, expected[0]).value in Normalized(ip, expected);
    var sans := CertificateSans(ip, names);
    if sans.None? {
      return false;
    }
    AscendingDetermined(ip, sans.value, hosts.value);
    accepted := sans.value == hosts.value;
    if accepted {
      NoDnsReadsAsAddress(ip, expected);
    }
  }

  lemma NoDnsReadsAsAddress(ip: IpText, hosts: seq<string>)
    requires IpLaws(ip) && AllNormalize(ip, hosts)
    ensures forall x :: x in Normalized(ip, hosts) && x.Dns? ==> ip.parse(x.name).None?
  {
    hide NormalizeHost, IpLaws;
    forall x | x in Normalized(ip, hosts) && x.Dns?
      ensures ip.parse(x.name).None?
    {
      var i :| 0 <= i < |hosts| && NormalizeHost(ip, hosts[i]) == Some(x);
      NormalizeIdempotent(ip, hosts[i]);
    }
  }

  /** Text for which one more root dot makes no difference, by `RootDot`. */
  predicate DotHarmless(ip: IpText, s: string) {
    s != "" && Trimmed(s) && !EndsInDot(s) && (ip.parse(s).None? || !Ascii(s) || DnsShape(s))
  }

  /** An argument up to letter case, surrounding spaces and a harmless root dot. */
  function Form(ip: IpText, s: string): string {
    var t := AsciiLower(Trim(s));
    if EndsInDot(t) && DotHarmless(ip, t[..|t| - 1]) then t[..|t| - 1] else t
  }

  lemma FormKeeps(ip: IpText, s: string)
    requires IpLaws(ip) && !HasControl(s)
    ensures NormalizeHost(ip, Form(ip, s)) == NormalizeHost(ip, s)
  {
    hide NormalizeHost, DnsShape;
    var t := AsciiLower(Trim(s));
    NormalizeIgnoresCase(ip, s);
    NormalizeIgnoresCase(ip, Trim(s));
    if EndsInDot(t) && DotHarmless(ip, t[..|t| - 1]) {
      TrimFacts(s);
      LowerFacts(Trim(s));
      assert t == t[..|t| - 1] + ".";
      RootDot(ip, t[..|t| - 1]);
    }
  }

  /** The arguments up to order, repetition, letter case, surrounding spaces and a harmless root dot. */
  ghost function Forms(ip: IpText, hosts: seq<string>): (r: set<string>)
    ensures forall s :: s in hosts ==> Form(ip, s) in r
    ensures forall f :: f in r ==> exists s :: s in hosts && Form(ip, s) == f
  {
    set s | s in hosts :: Form(ip, s)
  }

  /** Order, repetition, letter case, surrounding spaces and harmless root dots of the arguments do not matter. */
  lemma HostListIgnoresForm(ip: IpText, a: seq<string>, b: seq<string>)
    requires IpLaws(ip)
    requires forall s :: s in a ==> !HasControl(s)
    requires forall s :: s in b ==> !HasControl(s)
    requires Forms(ip, a) == Forms(ip, b)
    ensures AllNormalize(ip, a) <==> AllNormalize(ip, b)
    ensures AllNormalize(ip, a) ==> Normalized(ip, a) == Normalized(ip, b)
  {
    hide NormalizeHost, IpLaws, Normalized;
    HalfOfForm(ip, a, b);
    HalfOfForm(ip, b, a);
  }

  lemma HalfOfForm(ip: IpText, a: seq<string>, b: seq<string>)
    requires IpLaws(ip)
    requires forall s :: s in a ==> !HasControl(s)
    requires forall s :: s in b ==> !HasControl(s)
    requires Forms(ip, a) == Forms(ip, b)
    ensures AllNormalize(ip, b) ==> AllNormalize(ip, a)
    ensures AllNormalize(ip, a) && AllNormalize(ip, b) ==> Normalized(ip, a) <= Normalized(ip, b)
  {
    hide NormalizeHost, IpLaws, Form;
    forall i | 0 <= i < |a|
      ensures exists j :: 0 <= j < |b| && NormalizeHost(ip, b[j]) == NormalizeHost(ip, a[i])
    {
      assert a[i] in a && Form(ip, a[i]) in Forms(ip, b);
      var t :| t in b && Form(ip, t) == Form(ip, a[i]);
      FormKeeps(ip, a[i]);
      FormKeeps(ip, t);
      var j :| 0 <= j < |b| && b[j] == t;
    }
  }

  /** Printing a normalized list and normalizing the text again gives the same hosts. */
  lemma HostListIdempotent(ip: IpText, hosts: seq<string>, texts: seq<string>)
    requires IpLaws(ip) && AllNormalize(ip, hosts)
    requires |texts| == |hosts|
    requires forall i :: 0 <= i < |hosts| ==> texts[i] == SafeString(ip, NormalizeHost(ip, hosts[i]).value)
    ensures AllNormalize(ip, texts) && Normalized(ip, texts) == Normalized(ip, hosts)
  {
    hide NormalizeHost, IpLaws;
    forall i | 0 <= i < |hosts|
      ensures NormalizeHost(ip, texts[i]) == NormalizeHost(ip, hosts[i])
    {
      NormalizeIdempotent(ip, hosts[i]);
    }
  }

  /** The typed certificate name written for a host when an identity is created. */
  function ToSan(host: CanonicalHost): GeneralName {
    match host
    case Dns(name) => DnsName(name)
    case Ip(V4(a, b, c, d)) => IpAddress([a, b, c, d])
    case Ip(V6(octets)) => IpAddress(octets)
  }

  lemma SanReadsBack(ip: IpText, host: string)
    requires IpLaws(ip) && NormalizeHost(ip, host).Some?
    ensures ReadName(ToSan(NormalizeHost(ip, host).value)) == NormalizeHost(ip, host)
  {
    var x := NormalizeHost(ip, host).value;
    if x.Dns? {
      var s := Trim(host);
      var stripped := if EndsInDot(s) then s[..|s| - 1] else s;
      assert x.name == AsciiLower(stripped) && DnsShape(stripped);
      DnsShapeLower(stripped);
      DnsShapeClean(x.name);
      LowerFacts(stripped);
    }
  }

  /** A certificate written for a host list carries exactly that list's set, so it passes its own check. */
  lemma IssuedNamesMatch(ip: IpText, hosts: seq<string>, names: seq<GeneralName>)
    requires IpLaws(ip) && AllNormalize(ip, hosts)
    requires forall n :: n in names ==> exists x :: x in Normalized(ip, hosts) && n == ToSan(x)
    requires forall x :: x in Normalized(ip, hosts) ==> ToSan(x) in names
    ensures AllRead(names) && ReadSet(names) == Normalized(ip, hosts)
  {
    hide NormalizeHost, IpLaws, ReadName, ToSan;
    forall x | x in Normalized(ip, hosts)
      ensures ReadName(ToSan(x)) == Some(x)
    {
      var i :| 0 <= i < |hosts| && NormalizeHost(ip, hosts[i]) == Some(x);
      SanReadsBack(ip, hosts[i]);
    }
    assert forall i :: 0 <= i < |names| ==> names[i] in names;
  }
}
