/**
 The report a probe prints for a computer, and the proof that reading it back gives the
 computer: the reader's size limits all follow from the validity of what was printed.
 */
module Reports {
  import opened Text
  import opened Splits
  import opened Discovery
  import Utf8
  import Base64
  import Decimal

  // ---------------------------------------------------------------- printing

  function Armor(s: string): string {
    Base64.Encode(Utf8.Encode(s))
  }

  function Key(item: Item): string {
    match item
    case ScalarItem(key, _) => key
    case GpuItem(_) => "gpu"
    case ToolItem(_, _) => "tool"
  }

  function GpuParts(gpu: Gpu): seq<string> {
    [Armor(gpu.name),
     if gpu.stableId.None? then "" else Armor(gpu.stableId.value),
     if gpu.memory.None? then "" else Decimal.Print(gpu.memory.value)]
  }

  function Value(item: Item): string {
    match item
    case ScalarItem(_, value) => value
    case GpuItem(gpu) => Join(GpuParts(gpu), '|')
    case ToolItem(name, version) => Armor(name) + ['|'] + Armor(version)
  }

  function Line(item: Item): string {
    Key(item) + ['='] + Value(item)
  }

  function Scalars(c: Computer): seq<Item> {
    [ScalarItem("hostname", Armor(c.hostname)),
     ScalarItem("operating_system", c.operatingSystem),
     ScalarItem("architecture", c.architecture),
     ScalarItem("cpu_model", Armor(c.cpuModel)),
     ScalarItem("logical_cpu_count", Decimal.Print(c.logicalCpuCount)),
     ScalarItem("memory_bytes", Decimal.Print(c.memoryBytes)),
     ScalarItem("workspace_free_bytes", Decimal.Print(c.workspaceFreeBytes))]
  }

  /** The tools are printed in any order `names` of their names. */
  ghost predicate Lists(names: seq<string>, tools: map<string, string>) {
    && (forall name :: name in names <==> name in tools)
    && (forall i, j :: 0 <= i < j < |names| ==> names[i] != names[j])
  }

  function Tools(tools: map<string, string>, names: seq<string>): (r: seq<Item>)
    requires forall i :: 0 <= i < |names| ==> names[i] in tools
    ensures |r| == |names| && forall i :: 0 <= i < |names| ==> r[i] == ToolItem(names[i], tools[names[i]])
  {
    seq(|names|, i requires 0 <= i < |names| => ToolItem(names[i], tools[names[i]]))
  }

  function Gpus(gpus: seq<Gpu>): (r: seq<Item>)
    ensures |r| == |gpus| && forall i :: 0 <= i < |gpus| ==> r[i] == GpuItem(gpus[i])
  {
    seq(|gpus|, i requires 0 <= i < |gpus| => GpuItem(gpus[i]))
  }

  function Items(c: Computer, names: seq<string>): seq<Item>
    requires forall i :: 0 <= i < |names| ==> names[i] in c.tools
  {
    Scalars(c) + Tools(c.tools, names) + Gpus(c.gpus)
  }

  function PrintLines(items: seq<Item>): (r: seq<string>)
    ensures |r| == |items| && forall i :: 0 <= i < |items| ==> r[i] == Line(items[i])
  {
    seq(|items|, i requires 0 <= i < |items| => Line(items[i]))
  }

  /** Lines ended by a line feed, with or without a carriage return before it. */
  function Terminated(lines: seq<string>, crlf: bool): string {
    if lines == [] then ""
    else Ended(lines[0], crlf) + ['\n'] + Terminated(lines[1..], crlf)
  }

  function Ended(line: string, crlf: bool): string {
    if crlf then line + ['\r'] else line
  }

  function Report(c: Computer, names: seq<string>, crlf: bool): string
    requires forall i :: 0 <= i < |names| ==> names[i] in c.tools
  {
    Terminated([HEADER] + PrintLines(Items(c, names)), crlf)
  }

  // ---------------------------------------------------------------- characters and lengths

  /** A visible ASCII character. */
  predicate Visible(c: char) {
    0x20 < c as int < 0x7F
  }

  predicate AllVisible(s: string) {
    forall i :: 0 <= i < |s| ==> Visible(s[i])
  }

  lemma {:induction false} AsciiBytes(s: string)
    requires forall i :: 0 <= i < |s| ==> s[i] as int < 0x80
    ensures Utf8.ByteLength(s) == |s|
  {
    if s == "" {
    } else {
      AsciiBytes(s[1..]);
    }
  }

  lemma ArmorFacts(s: string)
    requires ValidText(s)
    ensures AllVisible(Armor(s)) && '|' !in Armor(s) && 1 <= |Armor(s)| <= 684
    ensures DecodeValue(Armor(s)) == Ok(s)
  {
    hide Base64.Encode, Base64.Decode, Utf8.Encode, Utf8.Decode, HasControl;
    var bytes := Utf8.Encode(s);
    assert bytes != [] by {
      assert s == "" ==> Blank(s);
      Utf8.DecodeEncoded(s);
      assert Utf8.Decode([]) == Some("") by { EmptyText(); }
    }
    ArmorChars(s);
    Base64.EncodedLength(bytes);
    Base64.DecodeEncoded(bytes);
    Utf8.DecodeEncoded(s);
    AsciiBytes(Armor(s));
  }

  lemma EmptyText()
    ensures Utf8.Decode([]) == Some("")
  {
  }

  lemma ArmorChars(s: string)
    ensures AllVisible(Armor(s)) && '|' !in Armor(s)
  {
    Base64.EncodedChars(Utf8.Encode(s));
    forall i | 0 <= i < |Armor(s)|
      ensures Visible(Armor(s)[i]) && Armor(s)[i] != '|'
    {
      assert Base64.Base64Char(Armor(s)[i]);
    }
  }

  lemma NumberFacts(n: u64)
    ensures AllVisible(Decimal.Print(n)) && '|' !in Decimal.Print(n) && 1 <= |Decimal.Print(n)| <= 20
    ensures ParseNumber(Decimal.Print(n), U64_LIMIT) == Ok(n)
    ensures n < U32_LIMIT ==> ParseNumber(Decimal.Print(n), U32_LIMIT) == Ok(n)
  {
    TwentyDigits();
    Decimal.PrintLength(n, 20);
    Decimal.ValueOfPrint(n);
    assert Decimal.AllDigits(Decimal.Print(n));
  }

  lemma TwentyDigits()
    ensures U64_LIMIT <= Decimal.Power10(20)
  {
    assert Decimal.Power10(5) == 100000;
    assert Decimal.Power10(10) == 100000 * 100000;
    assert Decimal.Power10(15) == 100000 * 100000 * 100000;
  }

  // ---------------------------------------------------------------- one line

  predicate Printable(item: Item) {
    match item
    case ScalarItem(key, value) => ScalarKey(key) && AllVisible(value) && |value| <= 684
    case GpuItem(gpu) => ValidGpu(gpu)
    case ToolItem(name, version) => ValidText(name) && ValidText(version)
  }

  lemma KeyFacts(key: string)
    requires ScalarKey(key) || key == "gpu" || key == "tool"
    ensures AllVisible(key) && '=' !in key && 1 <= |key| <= 20
  {
    LongKeyFacts();
    ShortKeyFacts();
  }

  ghost predicate KeyText(key: string) {
    AllVisible(key) && '=' !in key && 1 <= |key| <= 20
  }

  lemma ShortKeyFacts()
    ensures KeyText("hostname") && KeyText("cpu_model") && KeyText("gpu") && KeyText("tool")
    ensures KeyText("architecture") && KeyText("memory_bytes")
  {
  }

  lemma LongKeyFacts()
    ensures KeyText("operating_system") && KeyText("logical_cpu_count") && KeyText("workspace_free_bytes")
  {
  }

  lemma GpuFacts(gpu: Gpu)
    requires ValidGpu(gpu)
    ensures var v := Join(GpuParts(gpu), '|'); AllVisible(v) && |v| <= 1390 && ParseGpu(v) == Ok(gpu)
  {
    hide ValidText, DecodeValue, Armor, ParseNumber;
    var parts := GpuParts(gpu);
    ArmorFacts(gpu.name);
    if gpu.stableId.Some? {
      ArmorFacts(gpu.stableId.value);
    }
    if gpu.memory.Some? {
      NumberFacts(gpu.memory.value);
    }
    SplitJoin(parts, '|');
    JoinThree(parts[0], parts[1], parts[2], '|');
    hide Join;
  }

  lemma LineFacts(item: Item)
    requires Printable(item)
    ensures AllVisible(Line(item)) && 1 <= |Line(item)| <= 1411
    ensures Classify(Line(item)) == Ok(item)
  {
    hide ValidText, DecodeValue, Armor, ScalarKey, ParseGpu, GpuParts, Join;
    KeyFacts(Key(item));
    match item {
      case ScalarItem(_, _) =>
      case GpuItem(gpu) => GpuFacts(gpu);
      case ToolItem(name, version) =>
        ArmorFacts(name);
        ArmorFacts(version);
        SplitOnceFirst(Armor(name), Armor(version), '|');
    }
    AsciiBytes(Line(item));
    SplitOnceFirst(Key(item), Value(item), '=');
    OtherKeys();
  }

  lemma OtherKeys()
    ensures !ScalarKey("gpu") && !ScalarKey("tool")
  {
  }

  // ---------------------------------------------------------------- the text

  predicate TextChar(c: char) {
    Visible(c) || c == '\r' || c == '\n'
  }

  lemma {:induction false} TerminatedFacts(lines: seq<string>, crlf: bool)
    requires forall i :: 0 <= i < |lines| ==> AllVisible(lines[i]) && |lines[i]| <= 1411
    ensures |Terminated(lines, crlf)| <= 1413 * |lines|
    ensures forall i :: 0 <= i < |Terminated(lines, crlf)| ==> TextChar(Terminated(lines, crlf)[i])
  {
    if lines == [] {
    } else {
      TerminatedFacts(lines[1..], crlf);
      assert AllVisible(lines[0]);
    }
  }

  lemma {:induction false} SplitTerminated(lines: seq<string>, crlf: bool)
    requires forall i :: 0 <= i < |lines| ==> AllVisible(lines[i])
    ensures |Split(Terminated(lines, crlf), '\n')| == |lines| + 1
    ensures forall i :: 0 <= i < |lines| ==> Split(Terminated(lines, crlf), '\n')[i] == Ended(lines[i], crlf)
    ensures Split(Terminated(lines, crlf), '\n')[|lines|] == ""
  {
    if lines == [] {
    } else {
      assert AllVisible(lines[0]);
      SplitTerminated(lines[1..], crlf);
      SplitFirst(Ended(lines[0], crlf), Terminated(lines[1..], crlf), '\n');
    }
  }

  /** Either line ending reads back as the same lines. */
  lemma LinesTerminated(lines: seq<string>, crlf: bool)
    requires forall i :: 0 <= i < |lines| ==> AllVisible(lines[i])
    ensures Lines(Terminated(lines, crlf)) == lines
  {
    hide Split, Terminated;
    SplitTerminated(lines, crlf);
    forall i | 0 <= i < |lines|
      ensures StripReturn(Ended(lines[i], crlf)) == lines[i]
    {
      assert AllVisible(lines[i]);
    }
  }

  // ---------------------------------------------------------------- the items

  lemma {:induction false} ListCount(names: seq<string>, tools: map<string, string>)
    requires Lists(names, tools)
    ensures |names| == |tools|
  {
    var all := set name | name in names;
    assert all == tools.Keys;
    DistinctCount(names);
  }

  lemma {:induction false} DistinctCount(names: seq<string>)
    requires forall i, j :: 0 <= i < j < |names| ==> names[i] != names[j]
    ensures |set name | name in names| == |names|
  {
    var all := set name | name in names;
    if names == [] {
      assert all == {};
    } else {
      var rest := names[1..];
      DistinctCount(rest);
      assert names[0] !in rest;
      assert all == (set name | name in rest) + {names[0]};
    }
  }

  ghost predicate FitsPlatform(c: Computer, platform: Platform) {
    && ValidComputer(c)
    && c.operatingSystem == (match platform case Linux => "linux" case Macos => "macos" case Windows => "windows")
    && (c.architecture == "x86_64" || c.architecture == "aarch64")
  }

  ghost predicate Plain(s: string) {
    AllVisible(s) && 1 <= |s| <= 10 && Utf8.ByteLength(s) == |s| && forall x :: x in s ==> PlainChar(x)
  }

  lemma PlainNames(platform: Platform)
    ensures Plain(OperatingSystem(platform)) && Plain("x86_64") && Plain("aarch64")
  {
    hide Utf8.ByteLength;
    AsciiBytes(OperatingSystem(platform));
    AsciiBytes("x86_64");
    AsciiBytes("aarch64");
  }

  lemma ItemsPrintable(c: Computer, names: seq<string>, platform: Platform)
    requires FitsPlatform(c, platform) && Lists(names, c.tools)
    ensures forall i :: 0 <= i < |Items(c, names)| ==> Printable(Items(c, names)[i])
    ensures |Items(c, names)| <= 167
  {
    hide ValidText, Armor;
    ListCount(names, c.tools);
    ScalarsPrintable(c, platform);
    assert forall i :: 0 <= i < |names| ==> names[i] in c.tools;
  }

  lemma PrintableArmor(key: string, text: string)
    requires ScalarKey(key) && ValidText(text)
    ensures Printable(ScalarItem(key, Armor(text)))
  {
    hide ValidText, Armor, ScalarKey;
    ArmorFacts(text);
  }

  lemma PrintableNumber(key: string, n: u64)
    requires ScalarKey(key)
    ensures Printable(ScalarItem(key, Decimal.Print(n)))
  {
    hide ScalarKey, Decimal.Print;
    NumberFacts(n);
  }

  lemma ScalarsPrintable(c: Computer, platform: Platform)
    requires FitsPlatform(c, platform)
    ensures forall i :: 0 <= i < |Scalars(c)| ==> Printable(Scalars(c)[i])
  {
    hide ValidText, Armor, OperatingSystem, Decimal.Print, ScalarKey;
    ScalarKeys();
    PlainNames(platform);
    assert Printable(ScalarItem("operating_system", c.operatingSystem));
    assert Printable(ScalarItem("architecture", c.architecture));
    hide Printable;
    PrintableArmor("hostname", c.hostname);
    PrintableArmor("cpu_model", c.cpuModel);
    PrintableNumber("logical_cpu_count", c.logicalCpuCount);
    PrintableNumber("memory_bytes", c.memoryBytes);
    PrintableNumber("workspace_free_bytes", c.workspaceFreeBytes);
  }

  lemma ScalarKeys()
    ensures ScalarKey("hostname") && ScalarKey("operating_system") && ScalarKey("architecture")
    ensures ScalarKey("cpu_model") && ScalarKey("logical_cpu_count")
    ensures ScalarKey("memory_bytes") && ScalarKey("workspace_free_bytes")
  {
  }

  lemma ItemsDistinct(c: Computer, names: seq<string>)
    requires Lists(names, c.tools)
    ensures var items := Items(c, names); forall i, j :: 0 <= i < j < |items| ==> !Clash(items[i], items[j])
  {
    var items := Items(c, names);
    hide Items, Clash;
    forall i, j | 0 <= i < j < |items|
      ensures !Clash(items[i], items[j])
    {
      PairDistinct(c, names, i, j);
    }
  }

  lemma PairDistinct(c: Computer, names: seq<string>, i: nat, j: nat)
    requires Lists(names, c.tools) && i < j < |Items(c, names)|
    ensures !Clash(Items(c, names)[i], Items(c, names)[j])
  {
    ScalarsDistinct(c);
    ItemAt(c, names, i);
    ItemAt(c, names, j);
    hide Items, Scalars;
  }

  lemma ItemAt(c: Computer, names: seq<string>, i: nat)
    requires Lists(names, c.tools) && i < |Items(c, names)|
    ensures |Scalars(c)| == 7
    ensures i < 7 ==> Items(c, names)[i] == Scalars(c)[i]
    ensures 7 <= i < 7 + |names| ==> Items(c, names)[i] == ToolItem(names[i - 7], c.tools[names[i - 7]])
    ensures 7 + |names| <= i ==> Items(c, names)[i].GpuItem?
  {
    ScalarsDistinct(c);
    hide Scalars;
  }

  lemma ScalarsDistinct(c: Computer)
    ensures |Scalars(c)| == 7 && forall i :: 0 <= i < 7 ==> Scalars(c)[i].ScalarItem?
    ensures forall i, j :: 0 <= i < j < 7 ==> Scalars(c)[i].key != Scalars(c)[j].key
  {
  }

  // ---------------------------------------------------------------- reading the items back

  lemma BodyGood(items: seq<Item>)
    requires |items| <= 167 && forall i :: 0 <= i < |items| ==> Printable(items[i])
    requires forall i, j :: 0 <= i < j < |items| ==> !Clash(items[i], items[j])
    ensures Good(PrintLines(items))
    ensures forall i :: 0 <= i < |items| ==> Classify(PrintLines(items)[i]) == Ok(items[i])
  {
    hide Printable, Line, Classify, Clash;
    forall i | 0 <= i < |items|
      ensures Classify(PrintLines(items)[i]) == Ok(items[i])
    {
      LineFacts(items[i]);
    }
  }

  lemma {:induction false} NoGpus(items: seq<Item>)
    requires forall i :: 0 <= i < |items| ==> Classify(PrintLines(items)[i]) == Ok(items[i]) && !items[i].GpuItem?
    ensures GpusOf(PrintLines(items)) == []
  {
    hide Classify, Line;
    if items == [] {
    } else {
      var n := |items| - 1;
      var front := items[..n];
      assert PrintLines(items)[..n] == PrintLines(front);
      forall i | 0 <= i < n
        ensures Classify(PrintLines(front)[i]) == Ok(front[i]) && !front[i].GpuItem?
      {
        assert PrintLines(front)[i] == PrintLines(items)[i];
      }
      NoGpus(front);
      assert Classify(PrintLines(items)[n]) == Ok(items[n]);
    }
  }

  lemma {:induction false} OnlyGpus(gpus: seq<Gpu>)
    requires forall i :: 0 <= i < |gpus| ==> Classify(PrintLines(Gpus(gpus))[i]) == Ok(GpuItem(gpus[i]))
    ensures GpusOf(PrintLines(Gpus(gpus))) == gpus
  {
    hide Classify, Line;
    if gpus == [] {
    } else {
      var n := |gpus| - 1;
      var front := gpus[..n];
      assert PrintLines(Gpus(gpus))[..n] == PrintLines(Gpus(front));
      forall i | 0 <= i < n
        ensures Classify(PrintLines(Gpus(front))[i]) == Ok(GpuItem(front[i]))
      {
        assert PrintLines(Gpus(front))[i] == PrintLines(Gpus(gpus))[i];
      }
      OnlyGpus(front);
      assert Classify(PrintLines(Gpus(gpus))[n]) == Ok(GpuItem(gpus[n]));
      assert gpus == front + [gpus[n]];
    }
  }

  lemma GpusBack(c: Computer, names: seq<string>)
    requires Lists(names, c.tools)
    requires var items := Items(c, names); forall i :: 0 <= i < |items| ==>
        Classify(PrintLines(items)[i]) == Ok(items[i])
    ensures GpusOf(PrintLines(Items(c, names))) == c.gpus
  {
    hide Classify, Line, GpusOf, Scalars;
    ScalarsDistinct(c);
    var items := Items(c, names);
    var first := Scalars(c) + Tools(c.tools, names);
    var m := |first|;
    assert items == first + Gpus(c.gpus);
    assert PrintLines(items) == PrintLines(first) + PrintLines(Gpus(c.gpus));
    forall i | 0 <= i < m
      ensures Classify(PrintLines(first)[i]) == Ok(first[i]) && !first[i].GpuItem?
    {
      assert items[i] == first[i] && PrintLines(items)[i] == PrintLines(first)[i];
    }
    forall i | 0 <= i < |c.gpus|
      ensures Classify(PrintLines(Gpus(c.gpus))[i]) == Ok(GpuItem(c.gpus[i]))
    {
      assert items[m + i] == Gpus(c.gpus)[i] && PrintLines(items)[m + i] == PrintLines(Gpus(c.gpus))[i];
    }
    NoGpus(first);
    OnlyGpus(c.gpus);
    GpusConcat(PrintLines(first), PrintLines(Gpus(c.gpus)));
  }

  lemma ToolSaid(c: Computer, names: seq<string>, name: string)
    requires Lists(names, c.tools) && name in c.tools
    requires var items := Items(c, names); forall i :: 0 <= i < |items| ==>
        Classify(PrintLines(items)[i]) == Ok(items[i])
    ensures Says(PrintLines(Items(c, names)), ToolItem(name, c.tools[name]))
  {
    hide Classify, Line, GpusOf, Scalars;
    ScalarsDistinct(c);
    var items := Items(c, names);
    var k :| 0 <= k < |names| && names[k] == name;
    assert items[7 + k] == Tools(c.tools, names)[k];
    assert Classify(PrintLines(items)[7 + k]) == Ok(ToolItem(name, c.tools[name]));
  }

  lemma SaidTool(c: Computer, names: seq<string>, name: string, version: string)
    requires Lists(names, c.tools)
    requires var items := Items(c, names); forall i :: 0 <= i < |items| ==>
        Classify(PrintLines(items)[i]) == Ok(items[i])
    requires Says(PrintLines(Items(c, names)), ToolItem(name, version))
    ensures name in c.tools
  {
    hide Classify, Line, GpusOf, Scalars;
    ScalarsDistinct(c);
    var items := Items(c, names);
    var lines := PrintLines(items);
    var i :| 0 <= i < |lines| && Classify(lines[i]) == Ok(ToolItem(name, version));
    assert items[i] == ToolItem(name, version);
    assert 7 <= i < 7 + |names| && items[i] == Tools(c.tools, names)[i - 7];
  }

  lemma ToolsBack(c: Computer, names: seq<string>, f: Fields)
    requires Lists(names, c.tools)
    requires var items := Items(c, names); forall i :: 0 <= i < |items| ==>
        Classify(PrintLines(items)[i]) == Ok(items[i])
    requires Holds(f, PrintLines(Items(c, names)))
    ensures f.tools == c.tools
  {
    hide Classify, Line, GpusOf, Scalars, Says;
    var lines := PrintLines(Items(c, names));
    forall name | name in c.tools
      ensures name in f.tools && f.tools[name] == c.tools[name]
    {
      ToolSaid(c, names, name);
    }
    forall name | name in f.tools
      ensures name in c.tools
    {
      assert Says(lines, ToolItem(name, f.tools[name]));
      SaidTool(c, names, name, f.tools[name]);
    }
  }

  lemma ScalarBack(c: Computer, names: seq<string>, f: Fields, i: nat)
    requires Lists(names, c.tools) && i < 7
    requires var items := Items(c, names); forall i :: 0 <= i < |items| ==>
        Classify(PrintLines(items)[i]) == Ok(items[i])
    requires Holds(f, PrintLines(Items(c, names)))
    ensures Scalars(c)[i].ScalarItem?
    ensures Required(f.scalar, Scalars(c)[i].key) == Ok(Scalars(c)[i].value)
  {
    hide Classify, Line, GpusOf, Scalars;
    ScalarsDistinct(c);
    var items := Items(c, names);
    var lines := PrintLines(items);
    assert items[i] == Scalars(c)[i];
    assert Says(lines, items[i]) by {
      assert Classify(lines[i]) == Ok(items[i]);
    }
  }

  lemma Assembled(c: Computer, f: Fields, platform: Platform)
    requires FitsPlatform(c, platform) && f.gpus == c.gpus && f.tools == c.tools
    requires Required(f.scalar, "hostname") == Ok(Armor(c.hostname))
    requires Required(f.scalar, "operating_system") == Ok(c.operatingSystem)
    requires Required(f.scalar, "architecture") == Ok(c.architecture)
    requires Required(f.scalar, "cpu_model") == Ok(Armor(c.cpuModel))
    requires Required(f.scalar, "logical_cpu_count") == Ok(Decimal.Print(c.logicalCpuCount))
    requires Required(f.scalar, "memory_bytes") == Ok(Decimal.Print(c.memoryBytes))
    requires Required(f.scalar, "workspace_free_bytes") == Ok(Decimal.Print(c.workspaceFreeBytes))
    ensures Finish(f, platform) == Ok(c)
  {
    assert c.operatingSystem == OperatingSystem(platform) && Supported(c.architecture);
    PlainFields(c, f, platform);
    hide FitsPlatform, RequiredPlain, ValidComputer, DecodeValue, ParseNumber, Armor, Decimal.Print, OperatingSystem;
    hide Supported, Required;
    TextsValid(c, platform);
    ArmorFacts(c.hostname);
    ArmorFacts(c.cpuModel);
    NumberFacts(c.logicalCpuCount);
    NumberFacts(c.memoryBytes);
    NumberFacts(c.workspaceFreeBytes);
  }

  lemma TextsValid(c: Computer, platform: Platform)
    requires FitsPlatform(c, platform)
    ensures ValidComputer(c) && ValidText(c.hostname) && ValidText(c.cpuModel)
  {
    hide ValidText;
  }

  lemma PlainFields(c: Computer, f: Fields, platform: Platform)
    requires FitsPlatform(c, platform)
    requires Required(f.scalar, "operating_system") == Ok(c.operatingSystem)
    requires Required(f.scalar, "architecture") == Ok(c.architecture)
    ensures RequiredPlain(f.scalar, "operating_system") == Ok(c.operatingSystem)
    ensures RequiredPlain(f.scalar, "architecture") == Ok(c.architecture)
  {
    assert c.operatingSystem == OperatingSystem(platform);
    hide ValidComputer, Required, OperatingSystem, Plain, RequiredPlain;
    PlainNames(platform);
    PlainField(f.scalar, "operating_system", c.operatingSystem);
    PlainField(f.scalar, "architecture", c.architecture);
  }

  lemma PlainField(fields: map<string, string>, key: string, value: string)
    requires Required(fields, key) == Ok(value) && Plain(value)
    ensures RequiredPlain(fields, key) == Ok(value)
  {
    hide Required, Utf8.ByteLength;
  }

  lemma BodyBack(c: Computer, names: seq<string>, platform: Platform)
    requires FitsPlatform(c, platform) && Lists(names, c.tools)
    ensures Collect(PrintLines(Items(c, names))).Ok?
    ensures Finish(Collect(PrintLines(Items(c, names))).value, platform) == Ok(c)
  {
    hide ValidComputer, Classify, Line, Collect, GpusOf, Finish, Items, Holds, Good, Clash, Printable;
    var items := Items(c, names);
    ItemsPrintable(c, names, platform);
    ItemsDistinct(c, names);
    BodyGood(items);
    CollectExact(PrintLines(items));
    var f := Collect(PrintLines(items)).value;
    GpusBack(c, names);
    ToolsBack(c, names, f);
    assert f.gpus == c.gpus by { HoldsGpus(f, PrintLines(items)); }
    ScalarBack(c, names, f, 0);
    ScalarBack(c, names, f, 1);
    ScalarBack(c, names, f, 2);
    ScalarBack(c, names, f, 3);
    ScalarBack(c, names, f, 4);
    ScalarBack(c, names, f, 5);
    ScalarBack(c, names, f, 6);
    Assembled(c, f, platform);
  }

  lemma HoldsGpus(f: Fields, lines: seq<string>)
    requires Holds(f, lines)
    ensures f.gpus == GpusOf(lines)
  {
  }

  // ---------------------------------------------------------------- the round trip

  lemma HeaderFacts()
    ensures AllVisible(HEADER) && |HEADER| == 16
  {
  }

  lemma LinesShape(c: Computer, names: seq<string>, platform: Platform)
    requires FitsPlatform(c, platform) && Lists(names, c.tools)
    ensures var lines := [HEADER] + PrintLines(Items(c, names));
      |lines| <= 168 && forall i :: 0 <= i < |lines| ==> AllVisible(lines[i]) && 1 <= |lines[i]| <= 1411
  {
    hide ValidComputer, Line, Items, Printable, AllVisible;
    var items := Items(c, names);
    ItemsPrintable(c, names, platform);
    HeaderFacts();
    forall i | 0 <= i < |items|
      ensures AllVisible(Line(items[i])) && 1 <= |Line(items[i])| <= 1411
    {
      LineFacts(items[i]);
    }
  }

  lemma TextBack(lines: seq<string>, crlf: bool)
    requires 1 <= |lines| <= 168 && forall i :: 0 <= i < |lines| ==> AllVisible(lines[i]) && 1 <= |lines[i]| <= 1411
    ensures ReadText(Utf8.Encode(Terminated(lines, crlf))) == Ok(Terminated(lines, crlf))
    ensures Lines(Terminated(lines, crlf)) == lines
  {
    hide Utf8.Encode, Utf8.Decode, Lines;
    var text := Terminated(lines, crlf);
    TerminatedFacts(lines, crlf);
    LinesTerminated(lines, crlf);
    Utf8.DecodeEncoded(text);
    AsciiBytes(text);
    assert |text| >= 1;
  }

  /** Every valid computer's report is accepted, within all limits, and reads back as that computer. */
  lemma ReportReadsBack(c: Computer, names: seq<string>, crlf: bool, platform: Platform)
    requires FitsPlatform(c, platform) && Lists(names, c.tools)
    ensures Parse(Utf8.Encode(Report(c, names, crlf)), platform) == Ok(c)
  {
    hide FitsPlatform, Utf8.Encode, Lines, ReadText, Terminated, Collect, Finish, Items, AllVisible;
    var lines := [HEADER] + PrintLines(Items(c, names));
    LinesShape(c, names, platform);
    TextBack(lines, crlf);
    assert lines[1..] == PrintLines(Items(c, names));
    BodyBack(c, names, platform);
  }

  /** Partner of the round trip: an accepted report gives a valid computer of the probed platform. */
  lemma AcceptedIsValid(content: seq<Utf8.byte>, platform: Platform)
    requires Parse(content, platform).Ok?
    ensures FitsPlatform(Parse(content, platform).value, platform)
  {
    hide ReadText, Lines, Collect, ValidComputer, DecodeValue, ParseNumber, RequiredPlain, Required;
  }
}
