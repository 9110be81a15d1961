/**
 Reading the report of a remote probe: a header line and `key=value` lines whose texts
 are base64. The reader is a loop over lines; `Parse` is what it computes.
 */
module Discovery {
  import opened Text
  import opened Splits
  import opened Sums
  import Utf8
  import Base64
  import Decimal

  const MAX_OUTPUT_BYTES := 256 * 1024
  const MAX_LINES := 256
  const MAX_LINE_BYTES := 4 * 1024
  const MAX_VALUE_BYTES := 512
  const MAX_TEXT_BYTES := 512
  const MAX_GPU_DEVICES := 32
  const MAX_TOOLCHAINS := 128
  const HEADER := "CYC_DISCOVERY_V1"

  datatype DiscoveryError =
    | SizeLimit
    | InvalidEncoding
    | InvalidHeader
    | InvalidField
    | UnknownField
    | DuplicateField
    | MissingField
    | PlatformMismatch

  datatype Result<+T> = Ok(value: T) | Err(error: DiscoveryError) {
    predicate IsFailure() { Err? }
    function PropagateFailure<U>(): Result<U> requires Err? { Err(error) }
    function Extract(): T requires Ok? { value }
  }

  datatype Platform = Linux | Macos | Windows

  datatype Gpu = Gpu(name: string, stableId: Option<string>, memory: Option<u64>)

  datatype Computer = Computer(
    hostname: string,
    operatingSystem: string,
    architecture: string,
    cpuModel: string,
    logicalCpuCount: u32,
    memoryBytes: u64,
    workspaceFreeBytes: u64,
    gpus: seq<Gpu>,
    tools: map<string, string>)

  function OperatingSystem(platform: Platform): string {
    match platform
    case Linux => "linux"
    case Macos => "macos"
    case Windows => "windows"
  }

  // ---------------------------------------------------------------- values

  function DecodeValue(value: string): Result<string> {
    if Utf8.ByteLength(value) > 2 * MAX_VALUE_BYTES then Err(SizeLimit)
    else
      var bytes := Base64.Decode(value);
      if bytes.None? then Err(InvalidEncoding)
      else if bytes.value == [] || |bytes.value| > MAX_VALUE_BYTES then Err(SizeLimit)
      else
        var text := Utf8.Decode(bytes.value);
        if text.None? then Err(InvalidEncoding)
        else if HasControl(text.value) then Err(InvalidField)
        else Ok(text.value)
  }

  /** `parse_number` at a type whose values lie below `limit`. */
  function ParseNumber(value: string, limit: nat): (r: Result<nat>)
    ensures r.Ok? ==> r.value < limit
  {
    if value == "" || |value| > 20 || !Decimal.AllDigits(value) then Err(InvalidField)
    else if Decimal.Value(value) < limit then Ok(Decimal.Value(value))
    else Err(InvalidField)
  }

  const U32_LIMIT := 0x1_0000_0000
  const U64_LIMIT := 0x1_0000_0000_0000_0000

  predicate PlainChar(c: char) {
    'a' <= c <= 'z' || c == '_' || '0' <= c <= '9'
  }

  function Required(fields: map<string, string>, name: string): Result<string> {
    if name in fields then Ok(fields[name]) else Err(MissingField)
  }

  function RequiredPlain(fields: map<string, string>, name: string): Result<string> {
    var value :- Required(fields, name);
    if value == "" || Utf8.ByteLength(value) > MAX_VALUE_BYTES || exists c :: c in value && !PlainChar(c)
    then Err(InvalidField)
    else Ok(value)
  }

  function ParseGpu(value: string): Result<Gpu> {
    var parts := Split(value, '|');
    var name :- DecodeValue(parts[0]);
    if |parts| != 3 then Err(InvalidField)
    else
      var stableId :- if parts[1] == "" then Ok(None) else DecodeId(parts[1]);
      var memory :- if parts[2] == "" then Ok(None) else ParseMemory(parts[2]);
      Ok(Gpu(name, stableId, memory))
  }

  function DecodeId(value: string): Result<Option<string>> {
    var id :- DecodeValue(value);
    Ok(Some(id))
  }

  function ParseMemory(value: string): Result<Option<u64>> {
    var n :- ParseNumber(value, U64_LIMIT);
    Ok(Some(n))
  }

  // ---------------------------------------------------------------- lines

  function StripReturn(s: string): string {
    if s != "" && s[|s| - 1] == '\r' then s[..|s| - 1] else s
  }

  /** Rust `str::lines`: terminators `\n` and `\r\n`; a last line may lack one, and then keeps its `\r`. */
  function Lines(text: string): seq<string> {
    var parts := Split(text, '\n');
    var n := |parts| - 1;
    seq(n, i requires 0 <= i < n => StripReturn(parts[i])) + (if parts[n] == "" then [] else [parts[n]])
  }

  datatype Item = ScalarItem(key: string, value: string) | GpuItem(gpu: Gpu) | ToolItem(name: string, version: string)

  predicate ScalarKey(key: string) {
    || key == "hostname" || key == "operating_system" || key == "architecture" || key == "cpu_model"
    || key == "logical_cpu_count" || key == "memory_bytes" || key == "workspace_free_bytes"
  }

  function Classify(line: string): Result<Item> {
    if line == "" || Utf8.ByteLength(line) > MAX_LINE_BYTES then Err(SizeLimit)
    else
      var (key, rest) := SplitOnce(line, '=');
      if rest.None? then Err(InvalidField)
      else if ScalarKey(key) then Ok(ScalarItem(key, rest.value))
      else if key == "gpu" then
        var gpu :- ParseGpu(rest.value);
        Ok(GpuItem(gpu))
      else if key == "tool" then ClassifyTool(rest.value)
      else Err(UnknownField)
  }

  function ClassifyTool(value: string): Result<Item> {
    var (name, version) := SplitOnce(value, '|');
    if version.None? then Err(InvalidField)
    else
      var n :- DecodeValue(name);
      var v :- DecodeValue(version.value);
      Ok(ToolItem(n, v))
  }

  datatype Fields = Fields(scalar: map<string, string>, gpus: seq<Gpu>, tools: map<string, string>)

  function Absorb(f: Fields, item: Item): Result<Fields> {
    match item
    case ScalarItem(key, value) =>
      if key in f.scalar then Err(DuplicateField) else Ok(f.(scalar := f.scalar[key := value]))
    case GpuItem(gpu) => Ok(f.(gpus := f.gpus + [gpu]))
    case ToolItem(name, version) =>
      if name in f.tools then Err(DuplicateField) else Ok(f.(tools := f.tools[name := version]))
  }

  /** What the lines after the header amount to; the first line that fails decides the error. */
  function Collect(lines: seq<string>): Result<Fields> {
    if lines == [] then Ok(Fields(map[], [], map[]))
    else
      var n := |lines| - 1;
      var before :- Collect(lines[..n]);
      if n + 2 > MAX_LINES then Err(SizeLimit)
      else
        var item :- Classify(lines[n]);
        Absorb(before, item)
  }

  // ---------------------------------------------------------------- the whole report

  predicate ValidText(s: string) {
    !Blank(s) && Utf8.ByteLength(s) <= MAX_TEXT_BYTES && !HasControl(s)
  }

  lemma ValidTextExact(s: string)
    ensures ValidText(s) <==>
      && (exists c :: c in s && !IsWhitespace(c)) && |Utf8.Encode(s)| <= 512 && (forall c :: c in s ==> !IsControl(c))
  {
  }

  predicate ValidGpu(gpu: Gpu) {
    ValidText(gpu.name) && (gpu.stableId.Some? ==> ValidText(gpu.stableId.value))
  }

  predicate ValidComputer(c: Computer) {
    && ValidText(c.hostname) && ValidText(c.operatingSystem) && ValidText(c.architecture) && ValidText(c.cpuModel)
    && c.logicalCpuCount != 0
    && |c.gpus| <= MAX_GPU_DEVICES && (forall i :: 0 <= i < |c.gpus| ==> ValidGpu(c.gpus[i]))
    && |c.tools| <= MAX_TOOLCHAINS && (forall name :: name in c.tools ==> ValidText(name) && ValidText(c.tools[name]))
  }

  predicate Supported(architecture: string) {
    architecture == "x86_64" || architecture == "aarch64"
  }

  function Assemble(f: Fields, platform: Platform): Result<Computer> {
    var operatingSystem :- RequiredPlain(f.scalar, "operating_system");
    if operatingSystem != OperatingSystem(platform) then Err(PlatformMismatch)
    else
      var architecture :- RequiredPlain(f.scalar, "architecture");
      if !Supported(architecture) then Err(InvalidField)
      else
        var hostname :- Required(f.scalar, "hostname");
        var hostnameText :- DecodeValue(hostname);
        var cpuModel :- Required(f.scalar, "cpu_model");
        var cpuModelText :- DecodeValue(cpuModel);
        var cpus :- Required(f.scalar, "logical_cpu_count");
        var cpuCount :- ParseNumber(cpus, U32_LIMIT);
        var memory :- Required(f.scalar, "memory_bytes");
        var memoryBytes :- ParseNumber(memory, U64_LIMIT);
        var space :- Required(f.scalar, "workspace_free_bytes");
        var freeBytes :- ParseNumber(space, U64_LIMIT);
        Ok(Computer(hostnameText, operatingSystem, architecture, cpuModelText, cpuCount, memoryBytes, freeBytes,
                    f.gpus, f.tools))
  }

  function Finish(f: Fields, platform: Platform): Result<Computer> {
    var computer :- Assemble(f, platform);
    if ValidComputer(computer) then Ok(computer) else Err(InvalidField)
  }

  function ReadText(content: seq<Utf8.byte>): Result<string> {
    if content == [] || |content| > MAX_OUTPUT_BYTES then Err(SizeLimit)
    else
      var text := Utf8.Decode(content);
      if text.None? || '\0' in text.value then Err(InvalidEncoding) else Ok(text.value)
  }

  function Parse(content: seq<Utf8.byte>, platform: Platform): Result<Computer> {
    var text :- ReadText(content);
    var lines := Lines(text);
    if lines == [] || lines[0] != HEADER then Err(InvalidHeader)
    else ReadBody(lines[1..], platform)
  }

  function ReadBody(lines: seq<string>, platform: Platform): Result<Computer> {
    var fields :- Collect(lines);
    Finish(fields, platform)
  }

  /** Why a report is refused before its lines are read. */
  lemma EnvelopeErrors(content: seq<Utf8.byte>, platform: Platform)
    ensures content == [] || |content| > 262_144 ==> Parse(content, platform) == Err(SizeLimit)
    ensures content != [] && |content| <= 262_144 ==>
      var text := Utf8.Decode(content);
      && (text.None? || 0 as char in text.value ==> Parse(content, platform) == Err(InvalidEncoding))
      && (text.Some? && 0 as char !in text.value ==>
            var lines := Lines(text.value);
            lines == [] || lines[0] != "CYC_DISCOVERY_V1" ==> Parse(content, platform) == Err(InvalidHeader))
  {
    hide ReadBody, Lines, Utf8.Decode;
  }

  /** An accepted report has all seven fields, and they are read from the right ones. */
  lemma AssembledFrom(f: Fields, platform: Platform)
    requires Assemble(f, platform).Ok?
    ensures var c := Assemble(f, platform).value;
      && Required(f.scalar, "operating_system") == Ok(c.operatingSystem)
      && Required(f.scalar, "architecture") == Ok(c.architecture)
      && Required(f.scalar, "hostname").Ok? && DecodeValue(f.scalar["hostname"]) == Ok(c.hostname)
      && Required(f.scalar, "cpu_model").Ok? && DecodeValue(f.scalar["cpu_model"]) == Ok(c.cpuModel)
      && Required(f.scalar, "logical_cpu_count").Ok? && Decimal.AllDigits(f.scalar["logical_cpu_count"])
      && Decimal.Value(f.scalar["logical_cpu_count"]) == c.logicalCpuCount
      && Required(f.scalar, "memory_bytes").Ok? && Decimal.AllDigits(f.scalar["memory_bytes"])
      && Decimal.Value(f.scalar["memory_bytes"]) == c.memoryBytes
      && Required(f.scalar, "workspace_free_bytes").Ok? && Decimal.AllDigits(f.scalar["workspace_free_bytes"])
      && Decimal.Value(f.scalar["workspace_free_bytes"]) == c.workspaceFreeBytes
      && c.gpus == f.gpus && c.tools == f.tools
  {
    hide DecodeValue, Utf8.ByteLength;
  }

  method ParseDiscovery(content: seq<Utf8.byte>, platform: Platform) returns (r: Result<Computer>)
    ensures r == Parse(content, platform)
  {
    hide Finish, Classify, Lines, Utf8.Decode;
    if content == [] || |content| > MAX_OUTPUT_BYTES {
      return Err(SizeLimit);
    }
    var text := Utf8.Decode(content);
    if text.None? {
      return Err(InvalidEncoding);
    }
    if '\0' in text.value {
      return Err(InvalidEncoding);
    }
    var lines := Lines(text.value);
    if lines == [] || lines[0] != HEADER {
      return Err(InvalidHeader);
    }
    var rest := lines[1..];
    assert Parse(content, platform) == ReadBody(rest, platform);
    hide Parse;
    var scalar: map<string, string> := map[];
    var gpus: seq<Gpu> := [];
    var tools: map<string, string> := map[];
    var count := 1;
    for i := 0 to |rest|
      invariant count == i + 1
      invariant Collect(rest[..i]) == Ok(Fields(scalar, gpus, tools))
    {
      assert rest[..i + 1][..i] == rest[..i];
      CollectFails(rest, i + 1);
      count := count + 1;
      if count > MAX_LINES {
        return Err(SizeLimit);
      }
      var item := Classify(rest[i]);
      if item.Err? {
        return Err(item.error);
      }
      match item.value {
        case ScalarItem(key, value) =>
          if key in scalar {
            return Err(DuplicateField);
          }
          scalar := scalar[key := value];
        case GpuItem(gpu) =>
          gpus := gpus + [gpu];
        case ToolItem(name, version) =>
          if name in tools {
            return Err(DuplicateField);
          }
          tools := tools[name := version];
      }
    }
    assert rest[..|rest|] == rest;
    r := Finish(Fields(scalar, gpus, tools), platform);
  }

  /** Once a prefix fails, the whole fails with the same error. */
  lemma {:induction false} CollectFails(lines: seq<string>, n: nat)
    requires n <= |lines|
    ensures Collect(lines[..n]).Err? ==> Collect(lines) == Collect(lines[..n])
  {
    hide Classify, Absorb;
    if n == |lines| {
      assert lines[..n] == lines;
    } else {
      var last := |lines| - 1;
      CollectFails(lines[..last], n);
      assert lines[..last][..n] == lines[..n];
    }
  }

  // ---------------------------------------------------------------- what the lines amount to, without the loop

  /** Two items that may not occur in the same report. */
  predicate Clash(a: Item, b: Item) {
    || (a.ScalarItem? && b.ScalarItem? && a.key == b.key)
    || (a.ToolItem? && b.ToolItem? && a.name == b.name)
  }

  ghost predicate Good(lines: seq<string>) {
    && |lines| < MAX_LINES
    && (forall i :: 0 <= i < |lines| ==> Classify(lines[i]).Ok?)
    && (forall i, j :: 0 <= i < j < |lines| ==> !Clash(Classify(lines[i]).value, Classify(lines[j]).value))
  }

  function GpuOf(line: string): seq<Gpu> {
    match Classify(line)
    case Ok(GpuItem(gpu)) => [gpu]
    case _ => []
  }

  function GpusOf(lines: seq<string>): seq<Gpu> {
    if lines == [] then [] else GpusOf(lines[..|lines| - 1]) + GpuOf(lines[|lines| - 1])
  }

  /** The collected fields hold exactly what some line says. */
  ghost predicate Holds(f: Fields, lines: seq<string>) {
    && (forall k, v :: (k in f.scalar && f.scalar[k] == v) <==> Says(lines, ScalarItem(k, v)))
    && (forall k, v :: (k in f.tools && f.tools[k] == v) <==> Says(lines, ToolItem(k, v)))
    && f.gpus == GpusOf(lines)
  }

  ghost predicate Says(lines: seq<string>, item: Item) {
    exists i :: 0 <= i < |lines| && Classify(lines[i]) == Ok(item)
  }

  lemma SaysSnoc(lines: seq<string>, item: Item)
    requires lines != []
    ensures Says(lines, item) <==> Says(lines[..|lines| - 1], item) || Classify(lines[|lines| - 1]) == Ok(item)
  {
    hide Classify;
    var n := |lines| - 1;
    if Says(lines[..n], item) {
      var i :| 0 <= i < n && Classify(lines[..n][i]) == Ok(item);
      assert Classify(lines[i]) == Ok(item);
    }
    if Says(lines, item) {
      var i :| 0 <= i < |lines| && Classify(lines[i]) == Ok(item);
      assert i < n ==> lines[..n][i] == lines[i];
    }
  }

  lemma HoldsSnoc(f: Fields, lines: seq<string>)
    requires lines != [] && Classify(lines[|lines| - 1]).Ok? && Holds(f, lines[..|lines| - 1])
    ensures var g := Absorb(f, Classify(lines[|lines| - 1]).value); g.Ok? ==> Holds(g.value, lines)
  {
    hide Classify, Says;
    forall item
      ensures Says(lines, item) <==> Says(lines[..|lines| - 1], item) || Classify(lines[|lines| - 1]) == Ok(item)
    {
      SaysSnoc(lines, item);
    }
  }

  ghost predicate NoneClash(lines: seq<string>, item: Item)
    requires forall i :: 0 <= i < |lines| ==> Classify(lines[i]).Ok?
  {
    forall i :: 0 <= i < |lines| ==> !Clash(Classify(lines[i]).value, item)
  }

  /** The last line can be absorbed exactly when it clashes with no line before it. */
  lemma AbsorbExact(f: Fields, lines: seq<string>, item: Item)
    requires Holds(f, lines) && forall i :: 0 <= i < |lines| ==> Classify(lines[i]).Ok?
    ensures Absorb(f, item).Ok? <==> NoneClash(lines, item)
  {
    hide Classify;
    if Absorb(f, item).Err? {
      if item.ScalarItem? {
        assert Says(lines, ScalarItem(item.key, f.scalar[item.key]));
      } else {
        assert Says(lines, ToolItem(item.name, f.tools[item.name]));
      }
    } else {
      forall i | 0 <= i < |lines|
        ensures !Clash(Classify(lines[i]).value, item)
      {
        assert Says(lines, Classify(lines[i]).value);
      }
    }
  }

  lemma GoodSnoc(lines: seq<string>)
    requires lines != []
    ensures Good(lines) <==>
      && Good(lines[..|lines| - 1]) && |lines| < MAX_LINES && Classify(lines[|lines| - 1]).Ok?
      && NoneClash(lines[..|lines| - 1], Classify(lines[|lines| - 1]).value)
  {
    hide Classify, Clash;
    var n := |lines| - 1;
    assert lines == lines[..n] + [lines[n]];
    assert forall i :: 0 <= i < n ==> lines[..n][i] == lines[i];
  }

  /** The loop accepts exactly the lists without a bad or repeated line, and collects what they say. */
  lemma {:induction false} CollectExact(lines: seq<string>)
    ensures Collect(lines).Ok? <==> Good(lines)
    ensures Collect(lines).Ok? ==> Holds(Collect(lines).value, lines)
  {
    hide Classify, Absorb, Clash;
    if lines == [] {
    } else {
      var n := |lines| - 1;
      CollectExact(lines[..n]);
      GoodSnoc(lines);
      if Collect(lines[..n]).Ok? && Classify(lines[n]).Ok? {
        AbsorbExact(Collect(lines[..n]).value, lines[..n], Classify(lines[n]).value);
        HoldsSnoc(Collect(lines[..n]).value, lines);
      }
    }
  }

  /** Why line `i` is refused after good lines before it. */
  function Reason(lines: seq<string>, i: nat): DiscoveryError
    requires i < |lines|
  {
    if i + 2 > 256 then SizeLimit
    else if Classify(lines[i]).Err? then Classify(lines[i]).error
    else DuplicateField
  }

  /** The first line that cannot be absorbed decides the error. */
  lemma FirstBadLineDecides(lines: seq<string>, i: nat)
    requires i < |lines| && Good(lines[..i]) && !Good(lines[..i + 1])
    ensures Collect(lines) == Err(Reason(lines, i))
  {
    hide Classify, Absorb, Good, Holds;
    var upTo := lines[..i + 1];
    assert upTo[..i] == lines[..i] && upTo[i] == lines[i];
    CollectExact(lines[..i]);
    CollectExact(upTo);
    if Classify(lines[i]).Ok? {
      AbsorbFails(Collect(lines[..i]).value, lines[i]);
    }
    CollectFails(lines, i + 1);
    hide Collect;
  }

  lemma AbsorbFails(f: Fields, line: string)
    requires Classify(line).Ok?
    ensures Absorb(f, Classify(line).value).Err? ==> Absorb(f, Classify(line).value) == Err(DuplicateField)
  {
    hide Classify;
  }

  /** What is wrong with a line on its own. */
  lemma LineErrors(line: string)
    ensures line == "" || Utf8.ByteLength(line) > 4_096 ==> Classify(line) == Err(SizeLimit)
    ensures line != "" && Utf8.ByteLength(line) <= 4_096 && '=' !in line ==> Classify(line) == Err(InvalidField)
    ensures
      var known := {"hostname", "operating_system", "architecture", "cpu_model", "logical_cpu_count", "memory_bytes",
                    "workspace_free_bytes", "gpu", "tool"};
      line != "" && Utf8.ByteLength(line) <= 4_096 && '=' in line && SplitOnce(line, '=').0 !in known ==>
        Classify(line) == Err(UnknownField)
    ensures Classify(line).Ok? && Classify(line).value.ScalarItem? ==>
      line == Classify(line).value.key + ['='] + Classify(line).value.value
  {
    hide ParseGpu, DecodeValue, Utf8.ByteLength;
    SplitOnceExact(line, '=');
  }

  // ---------------------------------------------------------------- the order of lines

  lemma ClashSymmetric(a: Item, b: Item)
    ensures Clash(a, b) <==> Clash(b, a)
  {
  }

  lemma GoodPermuted(a: seq<string>, b: seq<string>)
    requires multiset(a) == multiset(b) && Good(a)
    ensures Good(b)
  {
    hide Classify, Clash;
    assert |a| == |multiset(a)| == |multiset(b)| == |b|;
    forall i | 0 <= i < |b|
      ensures Classify(b[i]).Ok?
    {
      assert b[i] in multiset(a);
      var k :| 0 <= k < |a| && a[k] == b[i];
    }
    forall i, j | 0 <= i < j < |b|
      ensures !Clash(Classify(b[i]).value, Classify(b[j]).value)
    {
      var k, l := PairPermuted(b, a, i, j);
      if k < l {
        assert !Clash(Classify(a[k]).value, Classify(a[l]).value);
      } else {
        assert !Clash(Classify(a[l]).value, Classify(a[k]).value);
        ClashSymmetric(Classify(a[l]).value, Classify(a[k]).value);
      }
    }
  }

  lemma SaysPermuted(a: seq<string>, b: seq<string>, item: Item)
    requires multiset(a) == multiset(b) && Says(a, item)
    ensures Says(b, item)
  {
    hide Classify;
    var i :| 0 <= i < |a| && Classify(a[i]) == Ok(item);
    assert a[i] in multiset(b);
    var k :| 0 <= k < |b| && b[k] == a[i];
  }

  lemma {:induction false} GpusConcat(a: seq<string>, b: seq<string>)
    ensures GpusOf(a + b) == GpusOf(a) + GpusOf(b)
  {
    hide GpuOf;
    if b == [] {
      assert a + b == a;
    } else {
      var n := |b| - 1;
      assert (a + b)[..|a + b| - 1] == a + b[..n];
      GpusConcat(a, b[..n]);
    }
  }

  lemma GpusThree(x: seq<string>, y: seq<string>, z: seq<string>)
    ensures multiset(GpusOf(x + (y + z))) == multiset(GpusOf(x + z)) + multiset(GpusOf(y))
  {
    hide GpusOf;
    GpusConcat(x, y + z);
    GpusConcat(y, z);
    GpusConcat(x, z);
    assert multiset(GpusOf(x) + (GpusOf(y) + GpusOf(z))) == multiset(GpusOf(x) + GpusOf(z)) + multiset(GpusOf(y));
  }

  lemma GpusAround(lines: seq<string>, i: nat)
    requires i < |lines|
    ensures multiset(GpusOf(lines)) == multiset(GpusOf(Remove(lines, i))) + multiset(GpuOf(lines[i]))
  {
    assert GpusOf([lines[i]]) == GpuOf(lines[i]) by {
      assert [lines[i]][..0] == [];
    }
    hide GpuOf, GpusOf;
    Pieces(lines, i);
    GpusThree(lines[..i], [lines[i]], lines[i + 1..]);
  }

  lemma {:induction false} GpusPermuted(a: seq<string>, b: seq<string>)
    requires multiset(a) == multiset(b)
    ensures multiset(GpusOf(a)) == multiset(GpusOf(b))
  {
    hide GpuOf, GpusOf;
    assert |a| == |multiset(a)| == |multiset(b)| == |b|;
    if a == [] {
      assert a == b;
    } else {
      assert a[0] in multiset(b);
      var i :| 0 <= i < |b| && b[i] == a[0];
      RemoveMultiset(a, 0);
      RemoveMultiset(b, i);
      Cancel(multiset(Remove(a, 0)), multiset(Remove(b, i)), a[0]);
      GpusPermuted(Remove(a, 0), Remove(b, i));
      GpusAround(a, 0);
      GpusAround(b, i);
    }
  }

  lemma FieldsPermuted(a: seq<string>, b: seq<string>)
    requires multiset(a) == multiset(b) && Good(a)
    ensures Good(b) && Collect(a).Ok? && Collect(b).Ok?
    ensures Collect(a).value.scalar == Collect(b).value.scalar && Collect(a).value.tools == Collect(b).value.tools
    ensures multiset(Collect(a).value.gpus) == multiset(Collect(b).value.gpus)
  {
    hide Collect, Classify, Says, GpusOf;
    GoodPermuted(a, b);
    CollectExact(a);
    CollectExact(b);
    GpusPermuted(a, b);
    var f, g := Collect(a).value, Collect(b).value;
    forall item
      ensures Says(a, item) <==> Says(b, item)
    {
      if Says(a, item) { SaysPermuted(a, b, item); }
      if Says(b, item) { SaysPermuted(b, a, item); }
    }
    assert forall k :: k in f.scalar ==> Says(a, ScalarItem(k, f.scalar[k]));
    assert forall k :: k in g.scalar ==> Says(b, ScalarItem(k, g.scalar[k]));
    assert forall k :: k in f.tools ==> Says(a, ToolItem(k, f.tools[k]));
    assert forall k :: k in g.tools ==> Says(b, ToolItem(k, g.tools[k]));
  }

  /** Equal in every field, and the same GPU devices in some order. */
  ghost predicate SameButGpuOrder(a: Computer, b: Computer) {
    b == a.(gpus := b.gpus) && multiset(a.gpus) == multiset(b.gpus)
  }

  lemma ValidPermuted(a: Computer, b: Computer)
    requires SameButGpuOrder(a, b) && ValidComputer(a)
    ensures ValidComputer(b)
  {
    hide ValidText, ValidGpu;
    assert |a.gpus| == |multiset(a.gpus)| == |multiset(b.gpus)| == |b.gpus|;
    forall i | 0 <= i < |b.gpus|
      ensures ValidGpu(b.gpus[i])
    {
      assert b.gpus[i] in multiset(a.gpus);
      var k :| 0 <= k < |a.gpus| && a.gpus[k] == b.gpus[i];
    }
  }

  lemma FinishPermuted(f: Fields, g: Fields, platform: Platform)
    requires f.scalar == g.scalar && f.tools == g.tools && multiset(f.gpus) == multiset(g.gpus)
    requires Finish(f, platform).Ok?
    ensures Finish(g, platform).Ok? && SameButGpuOrder(Finish(f, platform).value, Finish(g, platform).value)
  {
    hide ValidComputer, DecodeValue, RequiredPlain, ParseNumber;
    var a := Assemble(f, platform).value;
    assert Assemble(g, platform) == Ok(a.(gpus := g.gpus));
    ValidPermuted(a, a.(gpus := g.gpus));
  }

  ghost predicate Readable(content: seq<Utf8.byte>) {
    ReadText(content).Ok? && Lines(ReadText(content).value) != [] && Lines(ReadText(content).value)[0] == HEADER
  }

  ghost function Body(content: seq<Utf8.byte>): seq<string>
    requires Readable(content)
  {
    Lines(ReadText(content).value)[1..]
  }

  /** Rearranging the lines after the header changes neither acceptance nor anything but the order of GPUs. */
  lemma LineOrderIrrelevant(a: seq<Utf8.byte>, b: seq<Utf8.byte>, platform: Platform)
    requires Readable(a) && Readable(b) && multiset(Body(a)) == multiset(Body(b))
    ensures Parse(a, platform).Ok? <==> Parse(b, platform).Ok?
    ensures Parse(a, platform).Ok? ==> SameButGpuOrder(Parse(a, platform).value, Parse(b, platform).value)
  {
    hide Collect, Finish, Lines, ReadText, Good;
    CollectExact(Body(a));
    CollectExact(Body(b));
    if Parse(a, platform).Ok? {
      FieldsPermuted(Body(a), Body(b));
      FinishPermuted(Collect(Body(a)).value, Collect(Body(b)).value, platform);
    }
    if Parse(b, platform).Ok? {
      FieldsPermuted(Body(b), Body(a));
      FinishPermuted(Collect(Body(b)).value, Collect(Body(a)).value, platform);
    }
  }
}
