/**
 Collecting the entries of a source snapshot. The directory walk delivers its findings in
 whatever order the filesystem lists them; neither the verdict nor the entry list depends
 on that order.
 */
module Snapshot {
  import opened Text
  import opened Utf8
  import opened Splits
  import opened CasePaths
  import opened Sums

  const MAX_ENTRIES := 10_000
  const MAX_FILE_BYTES := 67_108_864
  const MAX_EXPANDED_BYTES := 536_870_912
  const MAX_PATH_BYTES := 1_024

  /** A name the filesystem can hold: not empty and without a slash. */
  type FileName = s: string | s != "" && '/' !in s witness "a"

  datatype Component = Normal(name: FileName) | NotUtf8 | Special

  datatype Metadata = Unreadable | Link | Directory(len: u64) | File(len: u64) | OtherObject(len: u64)

  datatype WalkItem = WalkFailed | Found(path: seq<Component>, metadata: Metadata)

  datatype Kind = DirectoryEntry | FileEntry

  datatype Entry = Entry(source: seq<Component>, portable: string, kind: Kind, size: u64)

  // ---------------------------------------------------------------- what is skipped

  function AsciiUpper(s: string): string {
    seq(|s|, i requires 0 <= i < |s| => if 'a' <= s[i] <= 'z' then (s[i] as int - 32) as char else s[i])
  }

  /** Each small letter becomes the capital at the same place of the alphabet; everything else stays. */
  lemma UpperLetters(s: string, k: nat)
    requires k < |s|
    ensures |AsciiUpper(s)| == |s|
    ensures forall i :: 0 <= i < 26 && s[k] == "abcdefghijklmnopqrstuvwxyz"[i] ==>
      AsciiUpper(s)[k] == "ABCDEFGHIJKLMNOPQRSTUVWXYZ"[i]
    ensures s[k] !in "abcdefghijklmnopqrstuvwxyz" ==> AsciiUpper(s)[k] == s[k]
  {
    if 'a' <= s[k] <= 'z' {
      assert "abcdefghijklmnopqrstuvwxyz"[s[k] as int - 'a' as int] == s[k];
    }
  }

  predicate EndsWith(s: string, suffix: string) {
    |s| >= |suffix| && s[|s| - |suffix|..] == suffix
  }

  predicate SensitiveSegment(segment: string) {
    var s := AsciiLower(segment);
    || s == ".git" || s == ".ssh" || s == ".aws" || s == ".azure" || s == ".codex" || s == "node_modules"
        || s == "target"
    || ".env" <= s || EndsWith(s, ".pem") || EndsWith(s, ".key")
    || "id_rsa" <= s || "id_ed25519" <= s || "credentials" <= s || "secrets" <= s
  }

  predicate Sensitive(path: seq<Component>) {
    exists i :: 0 <= i < |path| && path[i].Normal? && SensitiveSegment(path[i].name)
  }

  const SKIPPED_NAMES: seq<string> := [".git", ".ssh", ".aws", ".azure", ".codex", "node_modules", "target"]
  const SKIPPED_STARTS: seq<string> := [".env", "id_rsa", "id_ed25519", "credentials", "secrets"]
  const SKIPPED_ENDS: seq<string> := [".pem", ".key"]

  predicate Starts(s: string, start: string) {
    start <= s
  }

  /** The skipped names as a table: whole names, starts and ends, in lower case. */
  lemma SensitiveNames(segment: string)
    ensures var s := AsciiLower(segment);
      SensitiveSegment(segment) <==>
        || (exists i :: 0 <= i < |SKIPPED_NAMES| && s == SKIPPED_NAMES[i])
        || (exists i :: 0 <= i < |SKIPPED_STARTS| && Starts(s, SKIPPED_STARTS[i]))
        || (exists i :: 0 <= i < |SKIPPED_ENDS| && EndsWith(s, SKIPPED_ENDS[i]))
  {
    hide EndsWith;
    var s := AsciiLower(segment);
    assert s == ".git" <==> s == SKIPPED_NAMES[0];
    assert s == ".ssh" <==> s == SKIPPED_NAMES[1];
    assert s == ".aws" <==> s == SKIPPED_NAMES[2];
    assert s == ".azure" <==> s == SKIPPED_NAMES[3];
    assert s == ".codex" <==> s == SKIPPED_NAMES[4];
    assert s == "node_modules" <==> s == SKIPPED_NAMES[5];
    assert s == "target" <==> s == SKIPPED_NAMES[6];
    assert ".env" <= s <==> Starts(s, SKIPPED_STARTS[0]);
    assert "id_rsa" <= s <==> Starts(s, SKIPPED_STARTS[1]);
    assert "id_ed25519" <= s <==> Starts(s, SKIPPED_STARTS[2]);
    assert "credentials" <= s <==> Starts(s, SKIPPED_STARTS[3]);
    assert "secrets" <= s <==> Starts(s, SKIPPED_STARTS[4]);
    assert EndsWith(s, ".pem") <==> EndsWith(s, SKIPPED_ENDS[0]);
    assert EndsWith(s, ".key") <==> EndsWith(s, SKIPPED_ENDS[1]);
    hide Starts;
  }

  // ---------------------------------------------------------------- portable paths

  predicate NumberedDevice(stem: string, prefix: string) {
    |stem| == |prefix| + 1 && prefix <= stem && '1' <= stem[|prefix|] <= '9'
  }

  predicate PackableSegment(segment: FileName) {
    var stem := AsciiUpper(Split(segment, '.')[0]);
    && ByteLength(segment) <= 255 && !HasControl(segment)
    && segment[|segment| - 1] != '.' && segment[|segment| - 1] != ' '
    && (forall c :: c in segment ==> c !in ":*?\"<>|")
    && stem != "CON" && stem != "PRN" && stem != "AUX" && stem != "NUL" && stem != "CONIN$" && stem != "CONOUT$"
    && !NumberedDevice(stem, "COM") && !NumberedDevice(stem, "LPT")
  }

  /** The names of Windows devices, with any extension and in any letter case. */
  lemma DeviceNames(stem: string)
    ensures NumberedDevice(stem, "COM") <==>
      stem in {"COM1", "COM2", "COM3", "COM4", "COM5", "COM6", "COM7", "COM8", "COM9"}
    ensures NumberedDevice(stem, "LPT") <==>
      stem in {"LPT1", "LPT2", "LPT3", "LPT4", "LPT5", "LPT6", "LPT7", "LPT8", "LPT9"}
  {
    if |stem| == 4 {
      assert stem == [stem[0], stem[1], stem[2], stem[3]];
    }
  }

  /** What a packed name never is: a device, over-long, with a bad character, ending in a dot or space. */
  lemma PackedNamesArePortable(segment: FileName)
    requires PackableSegment(segment)
    ensures AsciiUpper(Split(segment, '.')[0]) !in
      {"CON", "PRN", "AUX", "NUL", "CONIN$", "CONOUT$",
       "COM1", "COM2", "COM3", "COM4", "COM5", "COM6", "COM7", "COM8", "COM9",
       "LPT1", "LPT2", "LPT3", "LPT4", "LPT5", "LPT6", "LPT7", "LPT8", "LPT9"}
    ensures ByteLength(segment) <= 255 && segment[|segment| - 1] !in {'.', ' '}
    ensures forall c :: c in segment ==> !IsControl(c) && c !in {':', '*', '?', '"', '<', '>', '|'}
  {
    DeviceNames(AsciiUpper(Split(segment, '.')[0]));
  }

  /** `validate_portable_relative_path` */
  predicate PortableRelative(path: string) {
    && path != "" && '\0' !in path && '\\' !in path && path[0] != '/'
    && !(|path| >= 2 && ('a' <= path[0] <= 'z' || 'A' <= path[0] <= 'Z') && path[1] == ':')
    && forall i :: 0 <= i < |Split(path, '/')| ==>
         Split(path, '/')[i] != "" && Split(path, '/')[i] != "." && Split(path, '/')[i] != ".."
  }

  function Names(path: seq<Component>): (names: seq<string>)
    requires forall i :: 0 <= i < |path| ==> path[i].Normal?
    ensures |names| == |path| && forall i :: 0 <= i < |path| ==> names[i] == path[i].name
  {
    seq(|path|, i requires 0 <= i < |path| => path[i].name)
  }

  /** `portable_snapshot_path` */
  function Portable(path: seq<Component>): Option<string> {
    if exists i :: 0 <= i < |path| && !(path[i].Normal? && PackableSegment(path[i].name)) then None
    else
      var portable := Join(Names(path), '/');
      if PortableRelative(portable) && ByteLength(portable) <= MAX_PATH_BYTES then Some(portable) else None
  }

  method ValidatePackSegment(segment: FileName) returns (ok: bool)
    ensures ok <==> PackableSegment(segment)
  {
    hide Split;
    var last := segment[|segment| - 1];
    if |Utf8.Encode(segment)| > 255 || HasControl(segment) || last == '.' || last == ' ' {
      return false;
    }
    for i := 0 to |segment|
      invariant forall j :: 0 <= j < i ==> segment[j] !in ":*?\"<>|"
    {
      if segment[i] in {':', '*', '?', '"', '<', '>', '|'} {
        assert segment[i] in ":*?\"<>|";
        return false;
      }
    }
    var stem := AsciiUpper(Split(segment, '.')[0]);
    DeviceNames(stem);
    return stem !in {"CON", "PRN", "AUX", "NUL", "CONIN$", "CONOUT$",
                     "COM1", "COM2", "COM3", "COM4", "COM5", "COM6", "COM7", "COM8", "COM9",
                     "LPT1", "LPT2", "LPT3", "LPT4", "LPT5", "LPT6", "LPT7", "LPT8", "LPT9"};
  }

  method ValidatePortableRelative(path: string) returns (ok: bool)
    ensures ok <==> PortableRelative(path)
  {
    hide Split;
    if path == "" {
      return false;
    }
    if 0 as char in path || 92 as char in path || path[0] == '/' {
      return false;
    }
    if |path| >= 2 && ('a' <= path[0] <= 'z' || 'A' <= path[0] <= 'Z') && path[1] == ':' {
      return false;
    }
    var segments := Split(path, '/');
    for i := 0 to |segments|
      invariant forall j :: 0 <= j < i ==> segments[j] != "" && segments[j] != "." && segments[j] != ".."
    {
      if segments[i] == "" || segments[i] == "." || segments[i] == ".." {
        return false;
      }
    }
    return true;
  }

  /** `portable_snapshot_path`: the loop over the components, then the joined path. */
  method PortablePath(path: seq<Component>) returns (r: Option<string>)
    ensures r == Portable(path)
  {
    hide PackableSegment, PortableRelative, Join;
    var segments: seq<string> := [];
    for i := 0 to |path|
      invariant forall j :: 0 <= j < i ==> path[j].Normal? && PackableSegment(path[j].name)
      invariant |segments| == i && forall j :: 0 <= j < i ==> segments[j] == path[j].name
    {
      if !path[i].Normal? {
        return None;
      }
      var fits := ValidatePackSegment(path[i].name);
      if !fits {
        return None;
      }
      segments := segments + [path[i].name];
    }
    assert segments == Names(path);
    var portable := Join(segments, '/');
    var relative := ValidatePortableRelative(portable);
    if !relative || |Utf8.Encode(portable)| > 1_024 {
      return None;
    }
    return Some(portable);
  }

  /** Different files have different portable paths. */
  lemma PortableInjective(a: seq<Component>, b: seq<Component>)
    requires Portable(a).Some? && Portable(a) == Portable(b)
    ensures a == b
  {
    hide PackableSegment, Split, Join;
    PortableNonEmpty(a);
    PortableNonEmpty(b);
    SplitJoin(Names(a), '/');
    SplitJoin(Names(b), '/');
    assert Names(a) == Names(b);
    forall i | 0 <= i < |a|
      ensures a[i] == b[i]
    {
      assert Names(a)[i] == Names(b)[i];
    }
  }

  lemma PortableNonEmpty(path: seq<Component>)
    requires Portable(path).Some?
    ensures path != []
  {
    hide PackableSegment, Split;
  }

  // ---------------------------------------------------------------- one finding

  datatype Verdict = Skip | Reject | Take(entry: Entry)

  function TakeAs(path: seq<Component>, kind: Kind, size: u64): Verdict {
    if Portable(path).None? then Reject else Take(Entry(path, Portable(path).value, kind, size))
  }

  /** What a finding contributes on its own, before the running limits. */
  function Judge(item: WalkItem): Verdict {
    match item
    case WalkFailed => Reject
    case Found(path, metadata) =>
      if Sensitive(path) then Skip
      else
        match metadata
        case Unreadable => Reject
        case Link => Skip
        case OtherObject(_) => Reject
        case Directory(len) => TakeAs(path, DirectoryEntry, len)
        case File(len) => if len > MAX_FILE_BYTES then Reject else TakeAs(path, FileEntry, len)
  }

  /** The item belongs in the snapshot: a directory or file found under no sensitive name. */
  predicate Belongs(item: WalkItem) {
    && item.Found? && (item.metadata.Directory? || item.metadata.File?)
    && forall i :: 0 <= i < |item.path| && item.path[i].Normal? ==> !SensitiveSegment(item.path[i].name)
  }

  /**
   What becomes of a finding: it is taken, under its joined names with its kind and length,
   exactly when it belongs, its names are portable and its file fits; links and sensitive
   paths are passed over; anything else stops the packing.
   */
  lemma JudgeExact(item: WalkItem)
    ensures Judge(item).Take? <==>
      Belongs(item) && Portable(item.path).Some? && (item.metadata.File? ==> item.metadata.len <= 67_108_864)
    ensures Judge(item).Skip? <==> item.Found? && (Sensitive(item.path) || item.metadata.Link?)
    ensures Judge(item).Take? ==>
      var e := Judge(item).entry;
      && e.source == item.path && e.size == item.metadata.len
      && (e.kind == FileEntry <==> item.metadata.File?)
      && (forall i :: 0 <= i < |item.path| ==> item.path[i].Normal?) && e.portable == Join(Names(item.path), '/')
  {
    hide SensitiveSegment, PackableSegment, PortableRelative, Join;
  }

  /** A portable path names every component, each packable, and is itself portable and at most 1024 bytes. */
  lemma PortableExact(path: seq<Component>)
    ensures Portable(path).Some? <==>
      && (forall i :: 0 <= i < |path| ==> path[i].Normal? && PackableSegment(path[i].name))
      && PortableRelative(Join(Names(path), '/')) && ByteLength(Join(Names(path), '/')) <= 1_024
  {
    hide PackableSegment, PortableRelative, Join;
  }

  function Taken(items: seq<WalkItem>): seq<Entry> {
    if items == [] then []
    else if Judge(items[|items| - 1]).Take? then Taken(items[..|items| - 1]) + [Judge(items[|items| - 1]).entry]
    else Taken(items[..|items| - 1])
  }

  /** Bytes of a regular file that is not skipped. */
  function Expanded(item: WalkItem): nat {
    if item.Found? && !Sensitive(item.path) && item.metadata.File? then item.metadata.len else 0
  }

  function CountOf(item: WalkItem): nat {
    if Judge(item).Take? then 1 else 0
  }

  function Portables(entries: seq<Entry>): (paths: seq<string>)
    ensures |paths| == |entries| && forall i :: 0 <= i < |entries| ==> paths[i] == entries[i].portable
  {
    seq(|entries|, i requires 0 <= i < |entries| => entries[i].portable)
  }

  /** The snapshot is accepted: nothing rejected, within both limits, no case collision. */
  predicate Packable(fold: string -> string, items: seq<WalkItem>) {
    && (forall i :: 0 <= i < |items| ==> !Judge(items[i]).Reject?)
    && Sum(Expanded, items) <= 536_870_912
    && Sum(CountOf, items) <= 10_000
    && NoCollision(fold, AllPrefixes(Portables(Taken(items))))
  }

  // ---------------------------------------------------------------- sorting

  predicate InPathOrder(entries: seq<Entry>) {
    forall i, j :: 0 <= i < j < |entries| ==> !Less(entries[j].portable, entries[i].portable)
  }

  function InsertEntry(x: Entry, entries: seq<Entry>): seq<Entry> {
    if entries == [] || !Less(entries[0].portable, x.portable) then [x] + entries
    else [entries[0]] + InsertEntry(x, entries[1..])
  }

  /** The stable sort by portable path. */
  function SortEntries(entries: seq<Entry>): seq<Entry> {
    if entries == [] then [] else InsertEntry(entries[0], SortEntries(entries[1..]))
  }

  lemma NotLessTransitive(a: string, b: string, c: string)
    requires !Less(b, a) && !Less(c, b)
    ensures !Less(c, a)
  {
    hide Less;
    LessTrichotomy(a, b);
    LessTrichotomy(b, c);
    LessTrichotomy(a, c);
    if Less(a, b) && Less(b, c) {
      LessTransitive(a, b, c);
    }
  }

  lemma {:induction false} InsertEntryMultiset(x: Entry, entries: seq<Entry>)
    ensures multiset(InsertEntry(x, entries)) == multiset(entries) + multiset{x}
  {
    hide Less;
    if entries == [] || !Less(entries[0].portable, x.portable) {
    } else {
      InsertEntryMultiset(x, entries[1..]);
      assert entries == [entries[0]] + entries[1..];
    }
  }

  lemma {:induction false} InsertEntryFacts(x: Entry, entries: seq<Entry>)
    requires InPathOrder(entries)
    ensures InPathOrder(InsertEntry(x, entries))
    ensures multiset(InsertEntry(x, entries)) == multiset(entries) + multiset{x}
  {
    hide Less;
    InsertEntryMultiset(x, entries);
    if entries == [] {
    } else if !Less(entries[0].portable, x.portable) {
      forall j | 0 <= j < |entries|
        ensures !Less(entries[j].portable, x.portable)
      {
        if j > 0 {
          NotLessTransitive(x.portable, entries[0].portable, entries[j].portable);
        }
      }
    } else {
      InsertEntryFacts(x, entries[1..]);
      LessTrichotomy(entries[0].portable, x.portable);
      InsertBehind(entries[0], x, entries[1..]);
    }
  }

  /** An entry that precedes both precedes everything after the insertion. */
  lemma {:induction false} InsertBehind(first: Entry, x: Entry, rest: seq<Entry>)
    requires !Less(x.portable, first.portable)
    requires forall k :: 0 <= k < |rest| ==> !Less(rest[k].portable, first.portable)
    ensures forall k :: 0 <= k < |InsertEntry(x, rest)| ==> !Less(InsertEntry(x, rest)[k].portable, first.portable)
  {
    hide Less;
    if rest == [] {
    } else {
      InsertBehind(first, x, rest[1..]);
    }
  }

  lemma {:induction false} SortEntriesFacts(entries: seq<Entry>)
    ensures InPathOrder(SortEntries(entries))
    ensures multiset(SortEntries(entries)) == multiset(entries)
  {
    if entries == [] {
    } else {
      SortEntriesFacts(entries[1..]);
      InsertEntryFacts(entries[0], SortEntries(entries[1..]));
      assert entries == [entries[0]] + entries[1..];
    }
  }

  // ---------------------------------------------------------------- the collecting loop

  /** Accepts exactly the packable walks and returns their entries sorted by portable path. */
  method CollectEntries(fold: string -> string, items: seq<WalkItem>) returns (r: Option<seq<Entry>>)
    ensures r.Some? <==> Packable(fold, items)
    ensures r.Some? ==> r.value == SortEntries(Taken(items))
  {
    hide Portable, Sensitive, AllPrefixes, NoCollision, Sum, Packable, Taken, Represents, SortEntries;
    var entries: seq<Entry> := [];
    var expanded: nat := 0;
    var casePaths := new Registry(fold);
    Beginning(items);
    for i := 0 to |items|
      invariant entries == Taken(items[..i])
      invariant expanded == Sum(Expanded, items[..i]) && expanded <= MAX_EXPANDED_BYTES
      invariant |entries| == Sum(CountOf, items[..i]) && |entries| <= MAX_ENTRIES
      invariant forall j :: 0 <= j < i ==> !Judge(items[j]).Reject?
      invariant casePaths.Valid() && casePaths.fold == fold && fresh(casePaths)
      invariant casePaths.seen == AllPrefixes(Portables(entries))
    {
      var item := items[i];
      NextItem(items, i);
      RefusedIf(fold, items, i);
      if item.WalkFailed? {
        return None;
      }
      if Sensitive(item.path) {
        continue;
      }
      if item.metadata.Unreadable? {
        return None;
      }
      if item.metadata.Link? {
        continue;
      }
      var kind;
      if item.metadata.Directory? {
        kind := DirectoryEntry;
      } else if item.metadata.File? {
        if item.metadata.len > MAX_FILE_BYTES {
          return None;
        }
        if expanded + item.metadata.len >= 0x1_0000_0000_0000_0000 {
          return None;
        }
        expanded := expanded + item.metadata.len;
        if expanded > MAX_EXPANDED_BYTES {
          return None;
        }
        kind := FileEntry;
      } else {
        return None;
      }
      var portable := Portable(item.path);
      if portable.None? {
        return None;
      }
      var entry := Entry(item.path, portable.value, kind, item.metadata.len);
      assert Judge(item) == Take(entry);
      OnePathMore(entries, entry);
      var ok := casePaths.Register(portable.value);
      if !ok {
        return None;
      }
      entries := entries + [entry];
      if |entries| > MAX_ENTRIES {
        return None;
      }
    }
    assert items[..|items|] == items;
    RepresentedDistinct(fold, casePaths.casePaths, casePaths.seen);
    Accepted(fold, items);
    return Some(SortEntries(entries));
  }

  /** Each condition under which the loop gives up makes the whole walk unpackable. */
  lemma RefusedIf(fold: string -> string, items: seq<WalkItem>, i: nat)
    requires i < |items|
    ensures Judge(items[i]).Reject? ==> !Packable(fold, items)
    ensures Sum(Expanded, items[..i + 1]) > MAX_EXPANDED_BYTES ==> !Packable(fold, items)
    ensures Sum(CountOf, items[..i + 1]) > MAX_ENTRIES ==> !Packable(fold, items)
    ensures !NoCollision(fold, AllPrefixes(Portables(Taken(items[..i + 1])))) ==> !Packable(fold, items)
  {
    hide Judge, Sum, Taken, AllPrefixes, NoCollision;
    SumPrefix(Expanded, items, i + 1);
    SumPrefix(CountOf, items, i + 1);
    TakenPrefix(items, i + 1);
    var some, all := Portables(Taken(items[..i + 1])), Portables(Taken(items));
    assert some <= all;
    FewerCollide(fold, some, all);
  }

  lemma Accepted(fold: string -> string, items: seq<WalkItem>)
    requires forall j :: 0 <= j < |items| ==> !Judge(items[j]).Reject?
    requires Sum(Expanded, items) <= MAX_EXPANDED_BYTES && Sum(CountOf, items) <= MAX_ENTRIES
    requires NoCollision(fold, AllPrefixes(Portables(Taken(items))))
    ensures Packable(fold, items)
  {
  }

  lemma Beginning(items: seq<WalkItem>)
    ensures Taken(items[..0]) == [] && Sum(Expanded, items[..0]) == 0 && Sum(CountOf, items[..0]) == 0
    ensures AllPrefixes(Portables([])) == {}
  {
  }

  /** What the next finding adds to each running quantity. */
  lemma NextItem(items: seq<WalkItem>, i: nat)
    requires i < |items|
    ensures Taken(items[..i + 1]) == if Judge(items[i]).Take? then Taken(items[..i]) + [Judge(items[i]).entry]
        else Taken(items[..i])
    ensures Sum(Expanded, items[..i + 1]) == Sum(Expanded, items[..i]) + Expanded(items[i])
    ensures Sum(CountOf, items[..i + 1]) == Sum(CountOf, items[..i]) + CountOf(items[i])
  {
    hide Judge, Expanded, CountOf, Sum;
    assert items[..i + 1][..i] == items[..i];
    SumSnoc(Expanded, items, i);
    SumSnoc(CountOf, items, i);
  }

  lemma OnePathMore(entries: seq<Entry>, entry: Entry)
    ensures AllPrefixes(Portables(entries + [entry])) == AllPrefixes(Portables(entries)) + Prefixes(entry.portable)
  {
    var paths := Portables(entries + [entry]);
    assert paths[..|entries|] == Portables(entries);
    assert paths[..|entries| + 1] == paths;
    MorePrefixes(paths, |entries|);
  }

  lemma {:induction false} TakenPrefix(items: seq<WalkItem>, i: nat)
    requires i <= |items|
    ensures Taken(items[..i]) <= Taken(items)
    decreases |items| - i
  {
    if i == |items| {
      assert items[..i] == items;
    } else {
      NextItem(items, i);
      TakenPrefix(items, i + 1);
    }
  }

  lemma FewerCollide(fold: string -> string, some: seq<string>, all: seq<string>)
    requires some <= all
    ensures NoCollision(fold, AllPrefixes(all)) ==> NoCollision(fold, AllPrefixes(some))
  {
    hide Prefixes;
    forall path | path in some
      ensures path in all
    {
    }
    assert AllPrefixes(some) <= AllPrefixes(all);
  }

  // ---------------------------------------------------------------- order does not matter

  /** A filesystem lists no path twice. */
  predicate DistinctPaths(items: seq<WalkItem>) {
    forall i, j :: 0 <= i < j < |items| && items[i].Found? && items[j].Found? ==> items[i].path != items[j].path
  }

  predicate DistinctPortables(entries: seq<Entry>) {
    forall i, j :: 0 <= i < j < |entries| ==> entries[i].portable != entries[j].portable
  }

  predicate StrictPathOrder(entries: seq<Entry>) {
    forall i, j :: 0 <= i < j < |entries| ==> Less(entries[i].portable, entries[j].portable)
  }

  lemma {:induction false} TakenMember(items: seq<WalkItem>, e: Entry)
    requires e in Taken(items)
    ensures exists j :: 0 <= j < |items| && Judge(items[j]) == Take(e)
  {
    hide Judge;
    var n := |items| - 1;
    if Judge(items[n]) != Take(e) {
      TakenMember(items[..n], e);
      var j :| 0 <= j < n && Judge(items[..n][j]) == Take(e);
      assert Judge(items[j]) == Take(e);
    }
  }

  lemma TakenEntry(item: WalkItem)
    requires Judge(item).Take?
    ensures item.Found? && Judge(item).entry.source == item.path
        && Portable(item.path) == Some(Judge(item).entry.portable)
  {
    hide Portable, Sensitive;
  }

  lemma {:induction false} TakenDistinct(items: seq<WalkItem>)
    requires DistinctPaths(items)
    ensures DistinctPortables(Taken(items))
  {
    hide Judge, Portable;
    if items == [] {
    } else {
      var n := |items| - 1;
      assert DistinctPaths(items[..n]);
      TakenDistinct(items[..n]);
      var before := Taken(items[..n]);
      if Judge(items[n]).Take? {
        forall k | 0 <= k < |before|
          ensures before[k].portable != Judge(items[n]).entry.portable
        {
          TakenMember(items[..n], before[k]);
          var j :| 0 <= j < n && Judge(items[..n][j]) == Take(before[k]);
          assert items[..n][j] == items[j];
          TakenEntry(items[j]);
          TakenEntry(items[n]);
          if before[k].portable == Judge(items[n]).entry.portable {
            PortableInjective(items[j].path, items[n].path);
          }
        }
      }
    }
  }

  lemma {:induction false} TakenConcat(a: seq<WalkItem>, b: seq<WalkItem>)
    ensures Taken(a + b) == Taken(a) + Taken(b)
  {
    hide Judge;
    if b == [] {
      assert a + b == a;
    } else {
      var n := |b| - 1;
      assert (a + b)[..|a + b| - 1] == a + b[..n];
      assert (a + b)[|a + b| - 1] == b[n];
      TakenConcat(a, b[..n]);
    }
  }

  lemma {:induction false} TakenPermuted(a: seq<WalkItem>, b: seq<WalkItem>)
    requires multiset(a) == multiset(b)
    ensures multiset(Taken(a)) == multiset(Taken(b))
  {
    hide Judge;
    if a == [] {
      assert |multiset(b)| == 0;
    } else {
      var x, rest := a[0], a[1..];
      assert x in multiset(b);
      var i :| 0 <= i < |b| && b[i] == x;
      RemoveMultiset(b, i);
      assert a == [x] + rest;
      assert multiset(a) == multiset(rest) + multiset{x};
      Cancel(multiset(rest), multiset(Remove(b, i)), x);
      TakenPermuted(rest, Remove(b, i));
      TakenConcat([x], rest);
      TakenAround(b, i);
    }
  }

  lemma TakenAround(b: seq<WalkItem>, i: nat)
    requires i < |b|
    ensures multiset(Taken(b)) == multiset(Taken([b[i]])) + multiset(Taken(Remove(b, i)))
  {
    hide Taken;
    Pieces(b, i);
    TakenThree(b[..i], [b[i]], b[i + 1..]);
  }

  lemma TakenThree(x: seq<WalkItem>, y: seq<WalkItem>, z: seq<WalkItem>)
    ensures multiset(Taken(x + (y + z))) == multiset(Taken(y)) + multiset(Taken(x + z))
  {
    hide Taken;
    TakenConcat(x, y + z);
    TakenConcat(y, z);
    TakenConcat(x, z);
    Around(Taken(x), Taken(y), Taken(z));
  }

  lemma Around(x: seq<Entry>, y: seq<Entry>, z: seq<Entry>)
    ensures multiset(x + (y + z)) == multiset(y) + multiset(x + z)
  {
  }

  lemma SortedDistinct(entries: seq<Entry>)
    requires DistinctPortables(entries)
    ensures StrictPathOrder(SortEntries(entries))
  {
    hide Less, SortEntries;
    SortEntriesFacts(entries);
    var sorted := SortEntries(entries);
    forall i, j | 0 <= i < j < |sorted|
      ensures Less(sorted[i].portable, sorted[j].portable)
    {
      var k, l := PairPermuted(sorted, entries, i, j);
      assert entries[k].portable != entries[l].portable;
      LessTrichotomy(sorted[i].portable, sorted[j].portable);
    }
  }

  lemma SameFirst(a: seq<Entry>, b: seq<Entry>)
    requires StrictPathOrder(a) && StrictPathOrder(b) && multiset(a) == multiset(b) && a != [] && b != []
    ensures a[0] == b[0] && multiset(a[1..]) == multiset(b[1..])
  {
    hide Less;
    assert a[0] in multiset(b) && b[0] in multiset(a);
    var i :| 0 <= i < |b| && b[i] == a[0];
    var j :| 0 <= j < |a| && a[j] == b[0];
    LessTrichotomy(a[0].portable, b[0].portable);
    RemoveMultiset(a, 0);
    RemoveMultiset(b, 0);
    Cancel(multiset(Remove(a, 0)), multiset(Remove(b, 0)), a[0]);
    assert Remove(a, 0) == a[1..] && Remove(b, 0) == b[1..];
  }

  lemma {:induction false} StrictOrderUnique(a: seq<Entry>, b: seq<Entry>)
    requires StrictPathOrder(a) && StrictPathOrder(b) && multiset(a) == multiset(b)
    ensures a == b
  {
    hide Less;
    assert |a| == |multiset(a)| == |multiset(b)| == |b|;
    if a == [] {
    } else {
      SameFirst(a, b);
      StrictOrderUnique(a[1..], b[1..]);
      assert a == [a[0]] + a[1..] && b == [b[0]] + b[1..];
    }
  }

  /**
   An accepted snapshot in plain terms: the entries are exactly the items that belong, and
   they keep the limits.
   */
  lemma PackedExactly(fold: string -> string, items: seq<WalkItem>)
    requires Packable(fold, items)
    ensures |SortEntries(Taken(items))| <= 10_000
    ensures forall e :: e in SortEntries(Taken(items)) <==>
      exists i :: 0 <= i < |items| && Belongs(items[i]) && Judge(items[i]) == Take(e)
    ensures forall i :: 0 <= i < |items| && Belongs(items[i]) ==> Judge(items[i]).Take?
    ensures forall e :: e in SortEntries(Taken(items)) && e.kind == FileEntry ==> e.size <= 67_108_864
  {
    hide Judge, Belongs, SortEntries, Sum, NoCollision, AllPrefixes;
    SortEntriesFacts(Taken(items));
    CountTaken(items);
    assert |SortEntries(Taken(items))| == |multiset(SortEntries(Taken(items)))| == |multiset(Taken(items))| ==
        |Taken(items)|;
    forall i | 0 <= i < |items|
      ensures Judge(items[i]).Take? ==> Belongs(items[i]) && Judge(items[i]).entry in Taken(items)
      ensures Belongs(items[i]) ==> Judge(items[i]).Take?
      ensures Judge(items[i]).Take? && Judge(items[i]).entry.kind == FileEntry ==>
        Judge(items[i]).entry.size <= 67_108_864
    {
      JudgeExact(items[i]);
      NotSkipped(items[i]);
      if Judge(items[i]).Take? {
        TakenHolds(items, i);
      }
    }
    forall e
      ensures e in SortEntries(Taken(items)) <==> e in Taken(items)
    {
      assert e in SortEntries(Taken(items)) <==> e in multiset(SortEntries(Taken(items)));
      assert e in Taken(items) <==> e in multiset(Taken(items));
    }
    forall e | e in Taken(items)
      ensures exists i :: 0 <= i < |items| && Judge(items[i]) == Take(e)
    {
      TakenMember(items, e);
    }
  }

  lemma NotSkipped(item: WalkItem)
    ensures Belongs(item) && !Judge(item).Reject? ==> Judge(item).Take?
  {
    hide SensitiveSegment, Portable;
  }

  lemma {:induction false} CountTaken(items: seq<WalkItem>)
    ensures Sum(CountOf, items) == |Taken(items)|
  {
    hide Judge;
    if items == [] {
    } else {
      var n := |items| - 1;
      CountTaken(items[..n]);
      SumSnoc(CountOf, items, n);
      assert items[..n + 1] == items;
    }
  }

  lemma {:induction false} TakenHolds(items: seq<WalkItem>, i: nat)
    requires i < |items| && Judge(items[i]).Take?
    ensures Judge(items[i]).entry in Taken(items)
  {
    hide Judge;
    var n := |items| - 1;
    if i == n {
    } else {
      TakenHolds(items[..n], i);
    }
  }

  /**
   Any two enumerations of the same findings are both refused, or both accepted with the
   identical entry list, strictly ordered by portable path.
   */
  lemma EnumerationOrderIrrelevant(fold: string -> string, a: seq<WalkItem>, b: seq<WalkItem>)
    requires multiset(a) == multiset(b) && DistinctPaths(a)
    ensures Packable(fold, a) <==> Packable(fold, b)
    ensures SortEntries(Taken(a)) == SortEntries(Taken(b))
    ensures StrictPathOrder(SortEntries(Taken(a)))
  {
    hide Judge, Less, SortEntries, AllPrefixes, NoCollision, Sum;
    SumPermuted(Expanded, a, b);
    SumPermuted(CountOf, a, b);
    forall x
      ensures x in a <==> x in b
    {
      assert x in a <==> x in multiset(a);
      assert x in b <==> x in multiset(b);
    }
    assert (forall i :: 0 <= i < |a| ==> !Judge(a[i]).Reject?) <==> (forall x :: x in a ==> !Judge(x).Reject?);
    assert (forall i :: 0 <= i < |b| ==> !Judge(b[i]).Reject?) <==> (forall x :: x in b ==> !Judge(x).Reject?);
    TakenPermuted(a, b);
    SamePortables(Taken(a), Taken(b));
    RegistrationOrderIrrelevant(fold, Portables(Taken(a)), Portables(Taken(b)));
    DistinctPermuted(a, b);
    TakenDistinct(a);
    TakenDistinct(b);
    SortedDistinct(Taken(a));
    SortedDistinct(Taken(b));
    SortEntriesFacts(Taken(a));
    SortEntriesFacts(Taken(b));
    StrictOrderUnique(SortEntries(Taken(a)), SortEntries(Taken(b)));
  }

  lemma SamePortables(a: seq<Entry>, b: seq<Entry>)
    requires multiset(a) == multiset(b)
    ensures forall p :: p in Portables(a) <==> p in Portables(b)
  {
    forall p
      ensures p in Portables(a) <==> p in Portables(b)
    {
      PortableOf(a, b, p);
      PortableOf(b, a, p);
    }
  }

  lemma PortableOf(a: seq<Entry>, b: seq<Entry>, p: string)
    requires multiset(a) == multiset(b)
    ensures p in Portables(a) ==> p in Portables(b)
  {
    if p in Portables(a) {
      var i :| 0 <= i < |a| && Portables(a)[i] == p;
      assert a[i] in multiset(b);
      var j :| 0 <= j < |b| && b[j] == a[i];
      assert Portables(b)[j] == p;
    }
  }

  lemma DistinctPermuted(a: seq<WalkItem>, b: seq<WalkItem>)
    requires multiset(a) == multiset(b) && DistinctPaths(a)
    ensures DistinctPaths(b)
  {
    forall i, j | 0 <= i < j < |b| && b[i].Found? && b[j].Found?
      ensures b[i].path != b[j].path
    {
      var k, l := PairPermuted(b, a, i, j);
    }
  }

  /** In an ordered list every directory comes before everything beneath it. */
  lemma DirectoriesFirst(entries: seq<Entry>, i: nat, j: nat)
    requires StrictPathOrder(entries) && i < |entries| && j < |entries|
    requires entries[i].portable + "/" <= entries[j].portable
    ensures i < j
  {
    hide Less;
    var p, q := entries[i].portable, entries[j].portable;
    assert q == p + q[|p|..];
    PrefixLess(p, q[|p|..]);
    LessTrichotomy(p, q);
  }
}
