/** The text of the HSTS preload cache: printer and parser of preloadlist.go. */
module PreloadCache {
  import opened Text
  import opened Sorting

  datatype Record = Record(includeSubdomains: bool, policy: string)

  type Entries = map<string, Record>

  /** The list as a run holds it; `fetched` is None when the header's time is unreadable. */
  datatype PreloadList = PreloadList(entries: Entries, fetched: Option<int>)

  datatype Result<+T> = Ok(value: T) | Err

  const HEADER := "#domaintest-hsts-preload v2"

  // ------------------------------------------------------------ the printer

  function Line(name: string, rec: Record): string {
    name + "\t" + ((if rec.includeSubdomains then "1" else "0") + "\t" + rec.policy)
  }

  function Lines(entries: Entries, names: seq<string>): string
    requires forall n :: n in names ==> n in entries
  {
    if names == [] then "" else Line(names[0], entries[names[0]]) + "\n" + Lines(entries, names[1..])
  }

  /** `names` lists the keys in order, each once. */
  ghost predicate Listing(names: seq<string>, entries: Entries) {
    Sorted(names) && (forall n :: n in names <==> n in entries)
  }

  ghost function CacheText(entries: Entries, names: seq<string>, stamp: string): string
    requires Listing(names, entries)
  {
    HEADER + (" " + stamp) + "\n" + Lines(entries, names)
  }

  /** marshalCache: the keys come out of the map in any order and are sorted. */
  method MarshalCache(entries: Entries, stamp: string) returns (text: string)
    ensures exists names :: Listing(names, entries) && text == CacheText(entries, names, stamp)
  {
    var sorted: seq<string> := [];
    var left := entries.Keys;
    while left != {}
      invariant left <= entries.Keys && Sorted(sorted)
      invariant forall n :: n in sorted <==> n in entries.Keys - left
      decreases left
    {
      var n :| n in left;
      left := left - {n};
      sorted := Insert(sorted, n);
    }
    text := HEADER + (" " + stamp) + "\n";
    ghost var head := text;
    assert sorted[0..] == sorted;
    for i := 0 to |sorted|
      invariant forall n :: n in sorted[i..] ==> n in entries
      invariant text + Lines(entries, sorted[i..]) == head + Lines(entries, sorted)
    {
      assert sorted[i..][1..] == sorted[i + 1..];
      assert sorted[i] in sorted[i..];
      assert forall n :: n in sorted[i + 1..] ==> n in sorted[i..];
      var rec := entries[sorted[i]];
      var line := sorted[i] + "\t" + ((if rec.includeSubdomains then "1" else "0") + "\t" + rec.policy);
      assert text + Lines(entries, sorted[i..]) == text + line + "\n" + Lines(entries, sorted[i + 1..]);
      text := text + line + "\n";
    }
    assert sorted[|sorted|..] == [];
    assert Listing(sorted, entries) && text == CacheText(entries, sorted, stamp);
  }

  // ------------------------------------------------------------- the parser

  function ParseBool(s: string): Result<bool> {
    if s in ["1", "t", "T", "TRUE", "true", "True"] then Ok(true)
    else if s in ["0", "f", "F", "FALSE", "false", "False"] then Ok(false)
    else Err
  }

  function ParseLine(line: string): Result<(string, Record)> {
    var fields := Split(line, '\t');
    if |fields| != 3 || fields[0] == "" then Err
    else
      match ParseBool(fields[1])
      case Err => Err
      case Ok(b) => Ok((fields[0], Record(b, fields[2])))
  }

  /** A reader of one cache line. */
  type LineReader = string -> Result<(string, Record)>

  /** The entries read from `lines` on top of `entries`, or Err at the first bad line. */
  function ReadLines(read: LineReader, lines: seq<string>, entries: Entries): Result<Entries> {
    if lines == [] then Ok(entries)
    else if lines[0] == "" then ReadLines(read, lines[1..], entries)
    else
      match read(lines[0])
      case Err => Err
      case Ok((name, rec)) => ReadLines(read, lines[1..], entries[name := rec])
  }

  /** cacheTime: the time in a header line, read by Go's time package. */
  function CacheTime(version: string, header: string, parseTime: string -> Option<int>): Option<int> {
    parseTime(TrimSpace(TrimPrefix(header, version)))
  }

  /** A list without entries is no list. */
  function Accept(entries: Result<Entries>, fetched: Option<int>): Result<PreloadList> {
    if entries.Err? || entries.value == map[] then Err else Ok(PreloadList(entries.value, fetched))
  }

  function ReadText(version: string, read: LineReader, text: string,
      parseTime: string -> Option<int>): Result<PreloadList> {
    var nl := IndexByte(text, '\n');
    if nl < 0 || !HasPrefix(text, version) then Err
    else ReadBody(version, read, text[..nl], text[nl + 1..], parseTime)
  }

  function ReadBody(version: string, read: LineReader, header: string, body: string,
      parseTime: string -> Option<int>): Result<PreloadList> {
    Accept(ReadLines(read, Split(body, '\n'), map[]), CacheTime(version, header, parseTime))
  }

  /** What a cache file is read as: this version's header and line format. */
  function Parsed(text: string, parseTime: string -> Option<int>): Result<PreloadList> {
    ReadText(HEADER, ParseLine, text, parseTime)
  }

  method UnmarshalLines(read: LineReader, lines: seq<string>) returns (r: Result<Entries>)
    ensures r == ReadLines(read, lines, map[])
  {
    var entries: Entries := map[];
    for i := 0 to |lines|
      invariant ReadLines(read, lines[i..], entries) == ReadLines(read, lines, map[])
    {
      assert lines[i..][1..] == lines[i + 1..];
      if lines[i] == "" {
        continue;
      }
      match read(lines[i]) {
        case Err => return Err;
        case Ok(pair) => entries := entries[pair.0 := pair.1];
      }
    }
    return Ok(entries);
  }

  method UnmarshalBody(version: string, read: LineReader, header: string, body: string,
      parseTime: string -> Option<int>) returns (r: Result<PreloadList>)
    ensures r == ReadBody(version, read, header, body, parseTime)
  {
    var entries := UnmarshalLines(read, Split(body, '\n'));
    if entries.Err? || entries.value == map[] {
      return Err;
    }
    return Ok(PreloadList(entries.value, CacheTime(version, header, parseTime)));
  }

  method UnmarshalText(version: string, read: LineReader, text: string, parseTime: string -> Option<int>)
      returns (r: Result<PreloadList>)
    ensures r == ReadText(version, read, text, parseTime)
  {
    var nl := IndexByte(text, '\n');
    if nl < 0 || !HasPrefix(text, version) {
      return Err;
    }
    r := UnmarshalBody(version, read, text[..nl], text[nl + 1..], parseTime);
  }

  method UnmarshalCache(text: string, parseTime: string -> Option<int>) returns (r: Result<PreloadList>)
    ensures r == Parsed(text, parseTime)
  {
    r := UnmarshalText(HEADER, ParseLine, text, parseTime);
  }

  // ---------------------------------------------------------- the round trip

  /** Fields that hold neither of the separators, and a name to hold the line open. */
  predicate Storable(name: string, rec: Record) {
    name != "" && '\t' !in name && '\n' !in name && '\t' !in rec.policy && '\n' !in rec.policy
  }

  predicate AllStorable(entries: Entries) {
    forall n :: n in entries ==> Storable(n, entries[n])
  }

  function Flag(b: bool): string {
    if b then "1" else "0"
  }

  lemma SplitThree(name: string, flag: string, policy: string)
    requires '\t' !in name && '\t' !in flag && '\t' !in policy
    ensures Split(name + "\t" + (flag + "\t" + policy), '\t') == [name, flag, policy]
  {
    SplitCons(name, '\t', flag + "\t" + policy);
    SplitCons(flag, '\t', policy);
    assert Split(policy, '\t') == [policy];
  }

  lemma ParseFlag(b: bool)
    ensures ParseBool(Flag(b)) == Ok(b)
  {
    assert "1" in ["1", "t", "T", "TRUE", "true", "True"];
    assert "0" in ["0", "f", "F", "FALSE", "false", "False"];
    assert "0" !in ["1", "t", "T", "TRUE", "true", "True"];
  }

  /** A line can be put into a file of lines. */
  predicate IsLine(line: string) {
    '\n' !in line && line != ""
  }

  lemma LineIsLine(name: string, rec: Record)
    requires Storable(name, rec)
    ensures IsLine(Line(name, rec))
  {
  }

  /** A line is read back as the entry it was written for. */
  lemma ParseLineInverts(name: string, rec: Record)
    requires Storable(name, rec)
    ensures ParseLine(Line(name, rec)) == Ok((name, rec))
  {
    SplitThree(name, Flag(rec.includeSubdomains), rec.policy);
    ParseFlag(rec.includeSubdomains);
  }

  /** A line cut short is either malformed or has lost the end of its policy only. */
  lemma ParseCutLine(name: string, rec: Record, cut: string)
    requires Storable(name, rec) && cut <= Line(name, rec) && ParseLine(cut).Ok?
    ensures CutEntry(ParseLine(cut).value, name, rec)
  {
    var flag := Flag(rec.includeSubdomains);
    ParseFlag(rec.includeSubdomains);
    CutFields(name, flag, rec.policy, cut);
  }

  /** An entry as a cut line gives it. */
  predicate CutEntry(e: (string, Record), name: string, rec: Record) {
    e.0 == name && e.1.includeSubdomains == rec.includeSubdomains && e.1.policy <= rec.policy
  }

  lemma CutFields(name: string, flag: string, policy: string, cut: string)
    requires '\t' !in name && '\t' !in flag && '\t' !in policy
    requires cut <= name + "\t" + (flag + "\t" + policy)
    ensures |Split(cut, '\t')| == 3 ==>
      Split(cut, '\t')[0] == name && Split(cut, '\t')[1] == flag && Split(cut, '\t')[2] <= policy
  {
    var tail := flag + "\t" + policy;
    var line := name + "\t" + tail;
    if |cut| <= |name| {
      assert cut == line[..|cut|] == name[..|cut|];
      assert '\t' !in cut;
    } else {
      var rest := cut[|name| + 1..];
      assert cut == line[..|cut|] == name + "\t" + rest;
      assert rest <= tail by { assert line[|name| + 1..] == tail; }
      SplitCons(name, '\t', rest);
      CutTail(flag, policy, rest);
    }
  }

  lemma CutTail(flag: string, policy: string, rest: string)
    requires '\t' !in flag && '\t' !in policy && rest <= flag + "\t" + policy
    ensures |Split(rest, '\t')| <= 2
    ensures |Split(rest, '\t')| == 2 ==> Split(rest, '\t')[0] == flag && Split(rest, '\t')[1] <= policy
  {
    var tail := flag + "\t" + policy;
    if |rest| <= |flag| {
      assert rest == tail[..|rest|] == flag[..|rest|];
      assert '\t' !in rest;
    } else {
      var p := rest[|flag| + 1..];
      assert rest == tail[..|rest|] == flag + "\t" + p;
      assert p <= policy by { assert tail[|flag| + 1..] == policy; }
      assert forall c :: c in p ==> c in policy;
      SplitCons(flag, '\t', p);
      assert Split(p, '\t') == [p];
    }
  }

  // ------------------------------------------------------- files of any lines

  /** `read` gives back every entry from its line, and from a cut line only a cut entry. */
  ghost predicate Reads(read: LineReader, name: string, rec: Record) {
    && IsLine(Line(name, rec))
    && read(Line(name, rec)) == Ok((name, rec))
    && forall cut :: cut <= Line(name, rec) && read(cut).Ok? ==> CutEntry(read(cut).value, name, rec)
  }

  ghost predicate ReadsAll(read: LineReader, entries: Entries) {
    forall n :: n in entries ==> Reads(read, n, entries[n])
  }

  lemma ParseLineReads(entries: Entries)
    requires AllStorable(entries)
    ensures ReadsAll(ParseLine, entries)
  {
    forall n | n in entries ensures Reads(ParseLine, n, entries[n]) {
      LineIsLine(n, entries[n]);
      ParseLineInverts(n, entries[n]);
      forall cut | cut <= Line(n, entries[n]) && ParseLine(cut).Ok? {
        ParseCutLine(n, entries[n], cut);
      }
    }
  }

  /** `entries` with those of `from` that `names` lists. */
  function AddAll(entries: Entries, from: Entries, names: seq<string>): Entries
    requires forall n :: n in names ==> n in from
    decreases |names|
  {
    if names == [] then entries else AddAll(entries[names[0] := from[names[0]]], from, names[1..])
  }

  lemma {:induction false} AddAllKeys(entries: Entries, from: Entries, names: seq<string>)
    requires forall n :: n in names ==> n in from
    requires forall n :: n in entries ==> n in from && entries[n] == from[n]
    ensures forall n :: n in AddAll(entries, from, names) <==> n in entries || n in names
    ensures forall n :: n in AddAll(entries, from, names) ==> n in from && AddAll(entries, from, names)[n] == from[n]
    decreases |names|
  {
    if names != [] {
      assert forall n :: n in names <==> n == names[0] || n in names[1..];
      AddAllKeys(entries[names[0] := from[names[0]]], from, names[1..]);
    }
  }

  lemma AddAllListing(entries: Entries, names: seq<string>)
    requires Listing(names, entries)
    ensures AddAll(map[], entries, names) == entries
  {
    AddAllKeys(map[], entries, names);
  }

  lemma ReadLinesCons(read: LineReader, line: string, lines: seq<string>, acc: Entries)
    ensures line == "" ==> ReadLines(read, [line] + lines, acc) == ReadLines(read, lines, acc)
    ensures line != "" && read(line).Err? ==> ReadLines(read, [line] + lines, acc) == Err
    ensures line != "" && read(line).Ok? ==>
      ReadLines(read, [line] + lines, acc) == ReadLines(read, lines, acc[read(line).value.0 := read(line).value.1])
  {
    assert ([line] + lines)[1..] == lines;
  }

  lemma ReadLast(read: LineReader, line: string, acc: Entries)
    requires '\n' !in line
    ensures line == "" ==> ReadLines(read, Split(line, '\n'), acc) == Ok(acc)
    ensures line != "" && read(line).Err? ==> ReadLines(read, Split(line, '\n'), acc) == Err
    ensures line != "" && read(line).Ok? ==>
      ReadLines(read, Split(line, '\n'), acc) == Ok(acc[read(line).value.0 := read(line).value.1])
  {
    assert Split(line, '\n') == [line] + [];
    ReadLinesCons(read, line, [], acc);
  }

  lemma ReadNext(read: LineReader, line: string, body: string, acc: Entries)
    requires IsLine(line) && read(line).Ok?
    ensures ReadLines(read, Split(line + "\n" + body, '\n'), acc)
         == ReadLines(read, Split(body, '\n'), acc[read(line).value.0 := read(line).value.1])
  {
    SplitCons(line, '\n', body);
    ReadLinesCons(read, line, Split(body, '\n'), acc);
  }

  lemma {:induction false} ReadLinesInverts(read: LineReader, entries: Entries, names: seq<string>, acc: Entries)
    requires ReadsAll(read, entries) && forall n :: n in names ==> n in entries
    ensures ReadLines(read, Split(Lines(entries, names), '\n'), acc) == Ok(AddAll(acc, entries, names))
    decreases |names|
  {
    if names == [] {
      ReadLast(read, "", acc);
    } else {
      var name, rest := names[0], names[1..];
      assert name in names;
      assert Reads(read, name, entries[name]);
      ReadNext(read, Line(name, entries[name]), Lines(entries, rest), acc);
      ReadLinesInverts(read, entries, rest, acc[name := entries[name]]);
    }
  }

  /** What a damaged cache may still say: known names with their flags, and policies cut short. */
  predicate CutFrom(found: Entries, entries: Entries) {
    forall n :: n in found ==> n in entries && CutEntry((n, found[n]), n, entries[n])
  }

  lemma CutFromAdd(acc: Entries, entries: Entries, name: string, e: (string, Record))
    requires CutFrom(acc, entries) && name in entries && CutEntry(e, name, entries[name])
    ensures CutFrom(acc[e.0 := e.1], entries)
  {
  }

  lemma {:induction false} ReadCutLines(read: LineReader, entries: Entries, names: seq<string>, cut: string,
      acc: Entries)
    requires ReadsAll(read, entries) && (forall n :: n in names ==> n in entries)
    requires cut <= Lines(entries, names) && CutFrom(acc, entries)
    requires ReadLines(read, Split(cut, '\n'), acc).Ok?
    ensures CutFrom(ReadLines(read, Split(cut, '\n'), acc).value, entries)
    decreases |names|
  {
    if names == [] {
      ReadLast(read, "", acc);
    } else {
      var name, rest := names[0], names[1..];
      assert name in names;
      var rec := entries[name];
      var line := Line(name, rec);
      assert Reads(read, name, rec);
      CutAtLine(line, Lines(entries, rest), cut);
      if |cut| <= |line| {
        ReadLast(read, cut, acc);
        if cut != "" {
          CutFromAdd(acc, entries, name, read(cut).value);
        }
      } else {
        var cut' := cut[|line| + 1..];
        ReadNext(read, line, cut', acc);
        CutFromAdd(acc, entries, name, (name, rec));
        ReadCutLines(read, entries, rest, cut', acc[name := rec]);
      }
    }
  }

  /** A file cut off is cut inside its first line or behind it. */
  lemma CutAtLine(line: string, body: string, cut: string)
    requires IsLine(line) && cut <= line + "\n" + body
    ensures |cut| <= |line| ==> cut <= line && '\n' !in cut
    ensures |cut| > |line| ==> cut == line + "\n" + cut[|line| + 1..] && cut[|line| + 1..] <= body
  {
    var all := line + "\n" + body;
    if |cut| <= |line| {
      assert cut == all[..|cut|] == line[..|cut|];
    } else {
      assert cut == all[..|cut|];
      assert all[|line| + 1..] == body;
    }
  }

  // --------------------------------------------------------------- the header

  lemma TrimOne(stamp: string)
    requires Trimmed(stamp)
    ensures TrimSpace(" " + stamp) == stamp
  {
    assert (" " + stamp)[1..] == stamp;
    assert TrimLeft(stamp) == stamp;
  }

  predicate Trimmed(s: string) {
    s != "" && !IsSpace(s[0]) && !IsSpace(s[|s| - 1])
  }

  lemma HeaderRead(version: string, stamp: string, body: string, parseTime: string -> Option<int>)
    requires '\n' !in version && '\n' !in stamp && Trimmed(stamp)
    ensures var head := version + (" " + stamp); var text := head + "\n" + body;
      IndexByte(text, '\n') == |head| && text[..|head|] == head && text[|head| + 1..] == body
      && HasPrefix(text, version) && CacheTime(version, head, parseTime) == parseTime(stamp)
  {
    var head := version + (" " + stamp);
    assert head + "\n" + body == head + ['\n'] + body;
    FirstIndex(head, '\n', body);
    assert (head + "\n" + body)[..|version|] == head[..|version|] == version;
    assert TrimPrefix(head, version) == " " + stamp;
    TrimOne(stamp);
  }

  /** A text behind a whole header is read by its lines. */
  lemma ReadBehindHeader(version: string, read: LineReader, stamp: string, body: string,
      parseTime: string -> Option<int>)
    requires '\n' !in version && '\n' !in stamp && Trimmed(stamp)
    ensures ReadText(version, read, version + (" " + stamp) + "\n" + body, parseTime)
         == Accept(ReadLines(read, Split(body, '\n'), map[]), parseTime(stamp))
  {
    HeaderRead(version, stamp, body, parseTime);
  }

  lemma OneLineRefused(version: string, read: LineReader, text: string, parseTime: string -> Option<int>)
    requires '\n' !in text
    ensures ReadText(version, read, text, parseTime) == Err
  {
  }

  lemma ReadTextInverts(version: string, read: LineReader, entries: Entries, names: seq<string>, stamp: string,
      parseTime: string -> Option<int>)
    requires entries != map[] && ReadsAll(read, entries) && Listing(names, entries)
    requires '\n' !in version && '\n' !in stamp && Trimmed(stamp)
    ensures ReadText(version, read, version + (" " + stamp) + "\n" + Lines(entries, names), parseTime)
         == Ok(PreloadList(entries, parseTime(stamp)))
  {
    ReadBehindHeader(version, read, stamp, Lines(entries, names), parseTime);
    ReadLinesInverts(read, entries, names, map[]);
    AddAllListing(entries, names);
  }

  lemma ReadCutText(version: string, read: LineReader, entries: Entries, names: seq<string>, stamp: string,
      parseTime: string -> Option<int>, cut: string)
    requires ReadsAll(read, entries) && Listing(names, entries)
    requires '\n' !in version && '\n' !in stamp && Trimmed(stamp)
    requires cut <= version + (" " + stamp) + "\n" + Lines(entries, names)
    requires ReadText(version, read, cut, parseTime).Ok?
    ensures CutFrom(ReadText(version, read, cut, parseTime).value.entries, entries)
    ensures ReadText(version, read, cut, parseTime).value.fetched == parseTime(stamp)
  {
    var head := version + (" " + stamp);
    assert IsLine(head);
    CutAtLine(head, Lines(entries, names), cut);
    if |cut| <= |head| {
      OneLineRefused(version, read, cut, parseTime);
    } else {
      var body := cut[|head| + 1..];
      ReadBehindHeader(version, read, stamp, body, parseTime);
      ReadCutLines(read, entries, names, body, map[]);
    }
  }

  // ------------------------------------------------------------- main results

  /** The file is reproducible: however the map was iterated, there is one listing, so one text. */
  lemma CacheTextUnique(entries: Entries, a: seq<string>, b: seq<string>, stamp: string)
    requires Listing(a, entries) && Listing(b, entries)
    ensures CacheText(entries, a, stamp) == CacheText(entries, b, stamp)
  {
    ListingUnique(a, b);
  }

  lemma HeaderAlone(version: string, read: LineReader, stamp: string, parseTime: string -> Option<int>)
    requires '\n' !in version && '\n' !in stamp
    ensures ReadText(version, read, version + (" " + stamp) + "\n", parseTime) == Err
  {
    var head := version + (" " + stamp);
    var text := head + "\n";
    FirstIndex(head, '\n', "");
    assert text == head + ['\n'] + "";
    assert text[|head| + 1..] == "";
    ReadLast(read, "", map[]);
  }

  /** The text of a list of one entry. */
  lemma OneEntryText(entries: Entries, name: string, stamp: string)
    requires entries.Keys == {name}
    ensures Listing([name], entries)
    ensures var rec := entries[name];
      CacheText(entries, [name], stamp) ==
        "#domaintest-hsts-preload v2" + (" " + stamp) + "\n"
        + (name + "\t" + ((if rec.includeSubdomains then "1" else "0") + "\t" + rec.policy) + "\n")
  {
    assert [name][1..] == [];
    assert Lines(entries, [name]) == Line(name, entries[name]) + "\n" + "";
  }

  /** A file without entries is refused: one cut off behind its header, or holding blank lines. */
  lemma EmptyListRefused(stamp: string, parseTime: string -> Option<int>)
    requires '\n' !in stamp
    ensures Parsed(HEADER + (" " + stamp) + "\n", parseTime) == Err
  {
    VersionIsOneLine();
    HeaderAlone(HEADER, ParseLine, stamp, parseTime);
  }

  /** Whatever the text, a list that is read holds an entry, and the text starts as a cache of
      this version does. */
  lemma AcceptedHoldsEntries(text: string, parseTime: string -> Option<int>)
    requires Parsed(text, parseTime).Ok?
    ensures Parsed(text, parseTime).value.entries != map[] && HasPrefix(text, "#domaintest-hsts-preload v2")
  {
  }

  /** A cache line is read exactly when it is a name, a flag and a policy between tabs. */
  lemma ParseLineExactly(line: string, name: string, flag: string, policy: string)
    requires line == name + "\t" + (flag + "\t" + policy) && '\t' !in name && '\t' !in flag && '\t' !in policy
    ensures ParseLine(line).Ok? <==> name != "" && flag in TRUE + FALSE
    ensures ParseLine(line).Ok? ==> ParseLine(line).value == (name, Record(flag in TRUE, policy))
  {
    SplitThree(name, flag, policy);
  }

  const TRUE := ["1", "t", "T", "TRUE", "true", "True"]
  const FALSE := ["0", "f", "F", "FALSE", "false", "False"]

  lemma VersionIsOneLine()
    ensures '\n' !in HEADER
  {
  }

  /** Reading what was written gives back every name, flag and policy, and the time. */
  lemma CacheRoundTrip(entries: Entries, names: seq<string>, stamp: string, parseTime: string -> Option<int>)
    requires entries != map[] && AllStorable(entries) && Listing(names, entries)
    requires '\n' !in stamp && Trimmed(stamp)
    ensures Parsed(CacheText(entries, names, stamp), parseTime) == Ok(PreloadList(entries, parseTime(stamp)))
  {
    VersionIsOneLine();
    ParseLineReads(entries);
    ReadTextInverts(HEADER, ParseLine, entries, names, stamp, parseTime);
  }

  /** A file cut off anywhere, when it is accepted at all, names only original entries with
      their flags, policies being prefixes of the originals, and keeps its time. */
  lemma TruncationHarmless(entries: Entries, names: seq<string>, stamp: string, parseTime: string -> Option<int>,
      cut: string)
    requires AllStorable(entries) && Listing(names, entries) && '\n' !in stamp && Trimmed(stamp)
    requires cut <= CacheText(entries, names, stamp)
    ensures Parsed(cut, parseTime).Ok? ==>
      CutFrom(Parsed(cut, parseTime).value.entries, entries) && Parsed(cut, parseTime).value.fetched == parseTime(stamp)
  {
    VersionIsOneLine();
    ParseLineReads(entries);
    if Parsed(cut, parseTime).Ok? {
      ReadCutText(HEADER, ParseLine, entries, names, stamp, parseTime, cut);
    }
  }
}
