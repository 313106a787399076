/** Bilingual pairing records: paths, text, and which are read back (scripts/translation-pairing-record.ts). */
module PairingRecord {
  import opened Common
  import opened Text

  datatype PairPaths = PairPaths(source: string, zh: string, meta: string)

  datatype PairRecord = PairRecord(sourceHash: string, zhHash: string)

  /** `path.replace(/suffix$/, replacement)`. */
  function ReplaceEnd(path: string, suffix: string, replacement: string): string {
    if EndsWith(path, suffix) then path[..|path| - |suffix|] + replacement else path
  }

  predicate IsSource(path: string) {
    EndsWith(path, ".md") && !EndsWith(path, ".zh.md")
  }

  /** `translationPairPaths`. */
  function PathsOf(source: string): Option<PairPaths> {
    if !IsSource(source) then None
    else Some(PairPaths(source, ReplaceEnd(source, ".md", ".zh.md"), ReplaceEnd(source, ".md", ".i18n.yaml")))
  }

  /** `translationPairPathsFromMeta`. */
  function PathsFromMeta(meta: string): Option<PairPaths> {
    if !EndsWith(meta, ".i18n.yaml") then None else PathsOf(ReplaceEnd(meta, ".i18n.yaml", ".md"))
  }

  lemma StemEnds(stem: string, suffix: string)
    ensures EndsWith(stem + suffix, suffix) && (stem + suffix)[..|stem|] == stem
  {
  }

  /** The two ways to a pair agree, and a sidecar belongs to one pair only. */
  lemma PathsAgree(source: string)
    requires IsSource(source)
    ensures PathsFromMeta(PathsOf(source).value.meta) == PathsOf(source)
  {
    var stem := source[..|source| - 3];
    assert source == stem + ".md";
    StemEnds(stem, ".i18n.yaml");
  }

  /** The pair read off a record path has that record. */
  lemma MetaAgrees(meta: string)
    requires PathsFromMeta(meta).Some?
    ensures PathsFromMeta(meta).value.meta == meta
  {
    var stem := meta[..|meta| - 10];
    assert meta == stem + ".i18n.yaml";
    StemEnds(stem, ".md");
  }

  /** `basename` of a path that does not end in a slash. */
  function Basename(path: string): (base: string)
    ensures '/' !in base && |base| <= |path| && path[|path| - |base|..] == base
  {
    if path == "" || path[|path| - 1] == '/' then ""
    else Basename(path[..|path| - 1]) + [path[|path| - 1]]
  }

  predicate IsHash(s: string) {
    |s| == 40 && forall i :: 0 <= i < |s| ==> ('0' <= s[i] <= '9' || 'a' <= s[i] <= 'f')
  }

  /** `[^:#]+\.md`. */
  predicate IsKey(s: string) {
    |s| > 3 && EndsWith(s, ".md") && ':' !in s && '#' !in s
  }

  /** What the pattern of a data line captures: the key, and the 40 digits at the end. */
  function MatchLine(line: string): Option<(string, string)> {
    var n := |line| - 42;
    if n >= 0 && line[n..n + 2] == ": " && IsKey(line[..n]) && IsHash(line[n + 2..]) then Some((line[..n], line[n + 2..]))
    else None
  }

  predicate Skipped(line: string) {
    line == "" || line[0] == '#'
  }

  /** One line: skipped, recorded, or the end of it. */
  function TakeLine(hashes: map<string, string>, line: string): Option<map<string, string>> {
    if Skipped(line) then Some(hashes)
    else
      var found := MatchLine(line);
      if found.None? || found.value.0 in hashes then None else Some(hashes[found.value.0 := found.value.1])
  }

  function TakeLines(hashes: map<string, string>, lines: seq<string>): Option<map<string, string>>
    decreases |lines|
  {
    if lines == [] then Some(hashes)
    else
      var next := TakeLine(hashes, lines[0]);
      if next.None? then None else TakeLines(next.value, lines[1..])
  }

  /** The final test: two entries, under the two names. */
  function Conclude(hashes: map<string, string>, paths: PairPaths): Option<PairRecord> {
    var source, zh := Basename(paths.source), Basename(paths.zh);
    if |hashes| != 2 || source !in hashes || zh !in hashes then None else Some(PairRecord(hashes[source], hashes[zh]))
  }

  function Parse(content: string, paths: PairPaths): Option<PairRecord> {
    var hashes := TakeLines(map[], Split(content));
    if hashes.None? then None else Conclude(hashes.value, paths)
  }

  /** `parseTranslationPairingRecord`. */
  method ParseTranslationPairingRecord(content: string, paths: PairPaths) returns (r: Option<PairRecord>)
    ensures r == Parse(content, paths)
  {
    var hashes: map<string, string> := map[];
    var lines := Split(content);
    for k := 0 to |lines|
      invariant TakeLines(hashes, lines[k..]) == TakeLines(map[], lines)
    {
      var line := lines[k];
      assert lines[k..][0] == line && lines[k..][1..] == lines[k + 1..];
      if line == "" || line[0] == '#' {
        continue;
      }
      var found := MatchLine(line);
      if found.None? || found.value.0 in hashes {
        return None;
      }
      hashes := hashes[found.value.0 := found.value.1];
    }
    assert lines[|lines|..] == [];
    r := Conclude(hashes, paths);
  }

  // The lines stand phrase by phrase, because the solver does not unfold literals of their full length.
  const FIRST := "# Bilingual-pair consistency record " + "(docs/i18n/README.md): " + "the git blob hash of each"
  const SECOND := "# side as of the last " + "confirmed-consistent state. " + "Both languages carry equal authority;"
  const THIRD := "# after editing either side, " + "bring the other along " + "and re-record with:"
  const HEADER := [FIRST, SECOND, THIRD]

  const COMMAND := "#   pnpm run " + "verify-translation-pairing --write "

  function Parts(paths: PairPaths, record: PairRecord): seq<string> {
    HEADER + [COMMAND + paths.source, Basename(paths.source) + ": " + record.sourceHash,
              Basename(paths.zh) + ": " + record.zhHash, ""]
  }

  /** `renderTranslationPairingRecord`. */
  function Render(paths: PairPaths, record: PairRecord): string {
    Join(Parts(paths, record))
  }

  /** The paths whose rendered record can be read back. */
  predicate Recordable(source: string) {
    && IsKey(Basename(source)) && '\n' !in Basename(source)
    && forall i :: 1 <= i < |Split(source)| ==> Skipped(Split(source)[i])
  }

  function Flat(parts: seq<string>): seq<string> {
    if parts == [] then [] else Split(parts[0]) + Flat(parts[1..])
  }

  lemma {:induction false} SplitParts(parts: seq<string>)
    requires parts != []
    ensures Split(Join(parts)) == Flat(parts)
  {
    if |parts| == 1 {
      assert parts[1..] == [];
    } else {
      SplitParts(parts[1..]);
      SplitTwo(parts[0], Join(parts[1..]));
    }
  }

  lemma {:induction false} SplitBehind(head: string, text: string)
    requires OneLine(head)
    ensures Split(head + text) == [head + Split(text)[0]] + Split(text)[1..]
  {
    if head == "" {
      assert head + text == text && head + Split(text)[0] == Split(text)[0];
      assert Split(text) == [Split(text)[0]] + Split(text)[1..];
    } else {
      var c, tail := head[0], head[1..];
      assert c in head;
      SplitBehind(tail, text);
      SplitFirst(c, tail + text);
      assert head + text == [c] + (tail + text) && head == [c] + tail;
      assert c != '\n';
      assert Split(tail + text)[0] == tail + Split(text)[0] && Split(tail + text)[1..] == Split(text)[1..];
      assert [c] + (tail + Split(text)[0]) == head + Split(text)[0];
    }
  }

  /** The lines of a rendered record. */
  lemma RenderedLines(paths: PairPaths, record: PairRecord)
    ensures Split(Render(paths, record))
      == HEADER + ([COMMAND + Split(paths.source)[0]] + Split(paths.source)[1..])
         + Split(Basename(paths.source) + ": " + record.sourceHash) + Split(Basename(paths.zh) + ": " + record.zhHash) + [""]
  {
    CommandLine();
    HeaderLines();
    hide Split, Join, Flat, FIRST, SECOND, THIRD, COMMAND;
    SplitParts(Parts(paths, record));
    SplitBehind(COMMAND, paths.source);
    FlatRecord(COMMAND + paths.source, Basename(paths.source) + ": " + record.sourceHash, Basename(paths.zh) + ": " + record.zhHash);
  }

  lemma FirstLine()
    ensures OneLine(FIRST) && Skipped(FIRST)
  {
  }

  lemma SecondLine()
    ensures OneLine(SECOND) && Skipped(SECOND)
  {
  }

  lemma ThirdLine()
    ensures OneLine(THIRD) && Skipped(THIRD)
  {
  }

  lemma CommandLine()
    ensures OneLine(COMMAND) && COMMAND != "" && COMMAND[0] == '#'
  {
  }

  lemma HeaderLines()
    ensures forall i :: 0 <= i < 3 ==> Split(HEADER[i]) == [HEADER[i]] && Skipped(HEADER[i])
  {
    FirstLine();
    SecondLine();
    ThirdLine();
    hide FIRST, SECOND, THIRD;
    SplitOneLine(FIRST);
    SplitOneLine(SECOND);
    SplitOneLine(THIRD);
  }

  lemma FlatCons(part: string, rest: seq<string>)
    ensures Flat([part] + rest) == Split(part) + Flat(rest)
  {
  }

  lemma FlatRecord(a: string, b: string, c: string)
    requires forall i :: 0 <= i < 3 ==> Split(HEADER[i]) == [HEADER[i]]
    ensures Flat(HEADER + [a, b, c, ""]) == HEADER + Split(a) + Split(b) + Split(c) + [""]
  {
    SplitEmpty();
    hide Split, Flat, FIRST, SECOND, THIRD;
    FlatTail(a, b, c);
    FlatCons(THIRD, [a, b, c, ""]);
    FlatCons(SECOND, [THIRD] + [a, b, c, ""]);
    FlatCons(FIRST, [SECOND] + ([THIRD] + [a, b, c, ""]));
    assert HEADER[0] == FIRST && HEADER[1] == SECOND && HEADER[2] == THIRD;
    assert HEADER + [a, b, c, ""] == [FIRST] + ([SECOND] + ([THIRD] + [a, b, c, ""]));
    HeaderConcat(Split(a) + Split(b) + Split(c) + [""]);
    FourConcat(HEADER, Split(a), Split(b), Split(c), [""]);
  }

  lemma HeaderConcat(rest: seq<string>)
    ensures [FIRST] + ([SECOND] + ([THIRD] + rest)) == HEADER + rest
  {
    hide FIRST, SECOND, THIRD;
  }

  lemma FourConcat<T>(h: seq<T>, a: seq<T>, b: seq<T>, c: seq<T>, d: seq<T>)
    ensures h + (a + b + c + d) == h + a + b + c + d
  {
  }

  lemma FlatTail(a: string, b: string, c: string)
    ensures Flat([a, b, c, ""]) == Split(a) + Split(b) + Split(c) + [""]
  {
    SplitEmpty();
    assert Flat([]) == [];
    hide Split, Flat;
    FlatCons("", []);
    FlatCons(c, [""]);
    FlatCons(b, [c] + [""]);
    FlatCons(a, [b] + ([c] + [""]));
    assert [""] + [] == [""] && [c] + [""] == [c, ""] && [b] + [c, ""] == [b, c, ""] && [a] + [b, c, ""] == [a, b, c, ""];
    RightConcat(Split(a), Split(b), Split(c), [""]);
  }

  lemma RightConcat<T>(a: seq<T>, b: seq<T>, c: seq<T>, d: seq<T>)
    ensures a + (b + (c + d)) == a + b + c + d
  {
  }

  lemma SplitEmpty()
    ensures Split("") == [""]
  {
  }

  lemma {:induction false} TakeAppend(hashes: map<string, string>, a: seq<string>, b: seq<string>)
    ensures TakeLines(hashes, a + b) ==
      if TakeLines(hashes, a).None? then None else TakeLines(TakeLines(hashes, a).value, b)
    decreases |a|
  {
    if a == [] {
      assert a + b == b;
    } else {
      assert (a + b)[1..] == a[1..] + b;
      if TakeLine(hashes, a[0]).Some? {
        TakeAppend(TakeLine(hashes, a[0]).value, a[1..], b);
      }
    }
  }

  lemma {:induction false} TakeSkipped(hashes: map<string, string>, lines: seq<string>)
    requires forall i :: 0 <= i < |lines| ==> Skipped(lines[i])
    ensures TakeLines(hashes, lines) == Some(hashes)
    decreases |lines|
  {
    if lines != [] {
      TakeSkipped(hashes, lines[1..]);
    }
  }

  function Count(lines: seq<string>): nat {
    if lines == [] then 0 else (if Skipped(lines[0]) then 0 else 1) + Count(lines[1..])
  }

  /** Every line that is not skipped adds an entry of its own, under a name of the right shape. */
  lemma {:induction false} EntriesCounted(hashes: map<string, string>, lines: seq<string>)
    requires TakeLines(hashes, lines).Some?
    requires forall i :: 0 <= i < |lines| ==> OneLine(lines[i])
    ensures var r := TakeLines(hashes, lines).value;
      && |r| == |hashes| + Count(lines) && (forall k :: k in hashes ==> k in r)
      && forall k :: k in r ==> k in hashes || (IsKey(k) && '\n' !in k)
    decreases |lines|
  {
    if lines != [] {
      var next := TakeLine(hashes, lines[0]).value;
      if !Skipped(lines[0]) {
        assert next.Keys == hashes.Keys + {MatchLine(lines[0]).value.0};
        assert |next.Keys| == |next| && |hashes.Keys| == |hashes|;
      }
      EntriesCounted(next, lines[1..]);
    }
  }

  lemma {:induction false} CountAppend(a: seq<string>, b: seq<string>)
    ensures Count(a + b) == Count(a) + Count(b)
  {
    if a == [] {
      assert a + b == b;
    } else {
      assert (a + b)[1..] == a[1..] + b;
      CountAppend(a[1..], b);
    }
  }

  lemma {:induction false} CountOne(lines: seq<string>, i: nat)
    requires i < |lines| && !Skipped(lines[i])
    ensures Count(lines) >= 1
  {
    if i > 0 {
      CountOne(lines[1..], i - 1);
    }
  }

  lemma DataLine(name: string, digits: string)
    requires IsHash(digits)
    ensures MatchLine(name + ": " + digits) == if IsKey(name) then Some((name, digits)) else None
  {
    var line := name + ": " + digits;
    assert line[..|name|] == name && line[|name|..|name| + 2] == ": " && line[|name| + 2..] == digits;
  }

  lemma HashIsLine(digits: string)
    requires IsHash(digits)
    ensures '\n' !in digits
  {
  }

  /** One data line with a proper name. */
  lemma TakeData(hashes: map<string, string>, name: string, digits: string)
    requires IsHash(digits) && IsKey(name) && '\n' !in name && name !in hashes
    ensures TakeLines(hashes, Split(name + ": " + digits)) == Some(hashes[name := digits])
  {
    var line := name + ": " + digits;
    HashIsLine(digits);
    SplitOneLine(line);
    DataLine(name, digits);
    assert line[0] == name[0] && name[0] in name;
    var lines := [line];
    assert lines[1..] == [];
  }

  lemma CountData(name: string, digits: string)
    requires IsHash(digits) && IsKey(name) && '\n' !in name
    ensures Count(Split(name + ": " + digits)) == 1
  {
    var line := name + ": " + digits;
    HashIsLine(digits);
    SplitOneLine(line);
    assert line[0] == name[0] && name[0] in name;
    var lines := [line];
    assert lines[1..] == [];
  }

  lemma BasenameSnoc(path: string, c: char)
    requires c != '/'
    ensures Basename(path + [c]) == Basename(path) + [c]
  {
    assert (path + [c])[..|path|] == path;
  }

  lemma {:induction false} BasenameBehind(stem: string, suffix: string)
    requires '/' !in suffix
    ensures Basename(stem + suffix) == Basename(stem) + suffix
  {
    hide Basename;
    if suffix == "" {
      assert stem + suffix == stem && Basename(stem) + suffix == Basename(stem);
    } else {
      var front, c := suffix[..|suffix| - 1], suffix[|suffix| - 1];
      assert suffix == front + [c] && c in suffix;
      BasenameBehind(stem, front);
      BasenameSnoc(stem + front, c);
      assert (stem + front) + [c] == stem + suffix;
      assert (Basename(stem) + front) + [c] == Basename(stem) + suffix;
    }
  }

  lemma StemNames(stem: string)
    ensures EndsWith(stem + ".md", ".md") && EndsWith(stem + ".zh.md", ".md")
    ensures (stem + ".md")[..|stem + ".md"| - 3] == stem && stem + ".md" != stem + ".zh.md"
    ensures IsKey(stem + ".md") ==> IsKey(stem + ".zh.md")
    ensures '\n' !in stem + ".md" ==> '\n' !in stem + ".zh.md"
  {
    assert stem + ".zh.md" == (stem + ".zh") + ".md";
    StemEnds(stem, ".md");
    StemEnds(stem + ".zh", ".md");
    assert |stem + ".md"| != |stem + ".zh.md"|;
  }

  lemma PathParts(source: string)
    requires IsSource(source)
    ensures |source| >= 3 && source == source[..|source| - 3] + ".md"
    ensures PathsOf(source).Some? && PathsOf(source).value.source == source
    ensures PathsOf(source).value.zh == source[..|source| - 3] + ".zh.md"
  {
  }

  /** The names of the two sides. */
  lemma Names(source: string)
    requires IsSource(source)
    ensures var base, zh := Basename(source), Basename(PathsOf(source).value.zh);
      && EndsWith(base, ".md") && zh == base[..|base| - 3] + ".zh.md" && base != zh
      && (IsKey(base) ==> IsKey(zh)) && ('\n' !in base ==> '\n' !in zh)
  {
    hide Basename, IsKey, EndsWith, IsSource, PathsOf;
    PathParts(source);
    var stem := source[..|source| - 3];
    BasenameBehind(stem, ".md");
    BasenameBehind(stem, ".zh.md");
    StemNames(Basename(stem));
  }

  /** What reading the lines of a record, up to the two data lines, comes to. */
  lemma TakeHeader(paths: PairPaths)
    requires forall i :: 1 <= i < |Split(paths.source)| ==> Skipped(Split(paths.source)[i])
    ensures TakeLines(map[], HEADER + ([COMMAND + Split(paths.source)[0]] + Split(paths.source)[1..])) == Some(map[])
  {
    HeaderLines();
    CommandLine();
    var lines := HEADER + ([COMMAND + Split(paths.source)[0]] + Split(paths.source)[1..]);
    hide FIRST, SECOND, THIRD, COMMAND, Split;
    assert (COMMAND + Split(paths.source)[0])[0] == COMMAND[0];
    forall i | 0 <= i < |lines| ensures Skipped(lines[i]) {
      if i < 3 {
        assert lines[i] == HEADER[i];
      } else if i > 3 {
        assert lines[i] == Split(paths.source)[i - 3];
      }
    }
    TakeSkipped(map[], lines);
  }

  lemma TakeFour(head: seq<string>, a: seq<string>, b: seq<string>, c: seq<string>,
                 m1: map<string, string>, m2: map<string, string>)
    requires TakeLines(map[], head) == Some(map[]) && TakeLines(map[], a) == Some(m1)
    requires TakeLines(m1, b) == Some(m2) && TakeLines(m2, c) == Some(m2)
    ensures TakeLines(map[], head + a + b + c) == Some(m2)
  {
    hide TakeLines;
    TakeAppend(map[], head, a);
    TakeAppend(map[], head + a, b);
    TakeAppend(map[], head + a + b, c);
  }

  lemma TwoEntries(base: string, zh: string, record: PairRecord, paths: PairPaths)
    requires base == Basename(paths.source) && zh == Basename(paths.zh) && base != zh
    ensures Conclude(map[base := record.sourceHash][zh := record.zhHash], paths) == Some(record)
  {
    hide Basename;
    var m := map[base := record.sourceHash][zh := record.zhHash];
    assert m.Keys == {base, zh} && |m.Keys| == |m|;
  }

  lemma TakeRecord(source: string, paths: PairPaths, record: PairRecord)
    requires IsSource(source) && PathsOf(source) == Some(paths) && Recordable(source)
    requires IsHash(record.sourceHash) && IsHash(record.zhHash)
    ensures TakeLines(map[], Split(Render(paths, record)))
      == Some(map[Basename(paths.source) := record.sourceHash][Basename(paths.zh) := record.zhHash])
  {
    var base, zh := Basename(paths.source), Basename(paths.zh);
    Names(source);
    PathParts(source);
    TakeHeader(paths);
    hide Split, Basename, Render, TakeLines, IsKey, IsHash, HEADER, COMMAND, IsSource, PathsOf;
    RenderedLines(paths, record);
    TakeSides(base, zh, record);
    var m1 := map[base := record.sourceHash];
    TakeFour(HEADER + ([COMMAND + Split(paths.source)[0]] + Split(paths.source)[1..]),
      Split(base + ": " + record.sourceHash), Split(zh + ": " + record.zhHash), [""], m1, m1[zh := record.zhHash]);
  }

  /** A record of a recordable path is read back as it was written. */
  lemma RecordRoundTrip(source: string, record: PairRecord)
    requires IsSource(source) && Recordable(source) && IsHash(record.sourceHash) && IsHash(record.zhHash)
    ensures Parse(Render(PathsOf(source).value, record), PathsOf(source).value) == Some(record)
  {
    hide Split, Basename, Render, TakeLines, IsHash, Recordable, IsSource, Conclude;
    PathParts(source);
    var paths := PathsOf(source).value;
    Names(source);
    TakeRecord(source, paths, record);
    TwoEntries(Basename(paths.source), Basename(paths.zh), record, paths);
  }

  lemma TakeSides(base: string, zh: string, record: PairRecord)
    requires IsHash(record.sourceHash) && IsHash(record.zhHash) && base != zh
    requires IsKey(base) && '\n' !in base && IsKey(zh) && '\n' !in zh
    ensures var m1 := map[base := record.sourceHash];
      && TakeLines(map[], Split(base + ": " + record.sourceHash)) == Some(m1)
      && TakeLines(m1, Split(zh + ": " + record.zhHash)) == Some(m1[zh := record.zhHash])
      && TakeLines(m1[zh := record.zhHash], [""]) == Some(m1[zh := record.zhHash])
  {
    hide IsHash, IsKey, Split;
    var m1 := map[base := record.sourceHash];
    TakeData(map[], base, record.sourceHash);
    assert map[][base := record.sourceHash] == m1;
    TakeData(m1, zh, record.zhHash);
    TakeSkipped(m1[zh := record.zhHash], [""]);
  }

  /** Reading the record of a path that is not recordable fails: it never yields other hashes. */
  lemma NotRecordable(source: string, record: PairRecord)
    requires IsSource(source) && !Recordable(source) && IsHash(record.sourceHash) && IsHash(record.zhHash)
    ensures Parse(Render(PathsOf(source).value, record), PathsOf(source).value) == None
  {
    var paths := PathsOf(source).value;
    var base, zh := Basename(source), Basename(paths.zh);
    var lines := Split(Render(paths, record));
    JoinSplit(Render(paths, record));
    Names(source);
    if TakeLines(map[], lines).Some? {
      EntriesCounted(map[], lines);
      if IsKey(base) && '\n' !in base {
        RenderedLines(paths, record);
        ExtraLine(paths, base, zh, record);
      }
    }
  }

  lemma ExtraLine(paths: PairPaths, base: string, zh: string, record: PairRecord)
    requires IsHash(record.sourceHash) && IsHash(record.zhHash)
    requires IsKey(base) && '\n' !in base && IsKey(zh) && '\n' !in zh
    requires exists i :: 1 <= i < |Split(paths.source)| && !Skipped(Split(paths.source)[i])
    ensures Count(HEADER + ([COMMAND + Split(paths.source)[0]] + Split(paths.source)[1..])
                  + Split(base + ": " + record.sourceHash) + Split(zh + ": " + record.zhHash) + [""]) >= 3
  {
    hide Split, IsHash, IsKey, HEADER, COMMAND, Skipped;
    var head := HEADER + ([COMMAND + Split(paths.source)[0]] + Split(paths.source)[1..]);
    var i :| 1 <= i < |Split(paths.source)| && !Skipped(Split(paths.source)[i]);
    HeaderCount();
    assert head[3 + i] == Split(paths.source)[i];
    CountOne(head, 3 + i);
    CountData(base, record.sourceHash);
    CountData(zh, record.zhHash);
    CountAppend(head, Split(base + ": " + record.sourceHash));
    CountAppend(head + Split(base + ": " + record.sourceHash), Split(zh + ": " + record.zhHash));
    CountAppend(head + Split(base + ": " + record.sourceHash) + Split(zh + ": " + record.zhHash), [""]);
  }

  lemma HeaderCount()
    ensures |HEADER| == 3
  {
  }

  /** Exactly the records of recordable paths can be read back. */
  lemma RecordReadBack(source: string, record: PairRecord)
    requires IsSource(source) && IsHash(record.sourceHash) && IsHash(record.zhHash)
    ensures var r := Parse(Render(PathsOf(source).value, record), PathsOf(source).value);
      (r == Some(record) <==> Recordable(source)) && (r == None <==> !Recordable(source))
  {
    hide Parse, Render, Recordable;
    if Recordable(source) {
      RecordRoundTrip(source, record);
    } else {
      NotRecordable(source, record);
    }
  }

  lemma WholeBase(name: string)
    requires '/' !in name
    ensures Basename(name) == name
  {
    assert Basename("") == "";
    hide Basename;
    assert "" + name == name;
    BasenameBehind("", name);
  }

  /** A name with a number sign, such as this one: its record is refused. */
  lemma NumberSignIsRefused(name: string, record: PairRecord)
    requires name == "a#b.md" && IsHash(record.sourceHash) && IsHash(record.zhHash)
    ensures IsSource(name) && !Recordable(name)
    ensures Parse(Render(PathsOf(name).value, record), PathsOf(name).value) == None
  {
    hide Basename, Split, Skipped, Parse, Render, IsHash;
    assert |name| == 6 && name[3..] == ".md" && name[0..] == name;
    WholeBase(name);
    assert name[1] == '#';
    NotRecordable(name, record);
  }
}
