/**
 * Rewriting a whole file (scripts/rescope-vendor.ts): which lines are eligible, how Markdown fences are
 * tracked, and what a forward and a reverse run do to the text.
 */
module Rescope {
  import opened Text
  import opened RescopeLine
  import opened RescopeLaws
  import opened RescopeFile
  import opened Renames

  const FENCE := "```"

  /** `/^\s*```/` */
  predicate IsFence(line: string) {
    StartsWith(line[Leading(line, IsSpace)..], FENCE)
  }

  predicate IsMarkdown(file: string) {
    EndsWith(file, ".md")
  }

  /** Prose is rewritten in Markdown under `docs/` only. */
  predicate RewritesProse(file: string) {
    IsMarkdown(file) && StartsWith(file, "docs/")
  }

  /** Whether a line is rewritten, given whether it stands inside a Markdown fence. */
  predicate Eligible(file: string, line: string, inside: bool) {
    !IsMarkdown(file) || (!IsFence(line) && (inside || RewritesProse(file)))
  }

  function NextInside(file: string, line: string, inside: bool): bool {
    if IsMarkdown(file) && IsFence(line) then !inside else inside
  }

  function RewriteLines(ps: seq<Pattern>, skips: Skips, file: string, lines: seq<string>, inside: bool): (out: seq<string>)
    ensures |out| == |lines|
  {
    if lines == [] then []
    else
      [if Eligible(file, lines[0], inside) then RewriteLine(ps, skips, lines[0]) else lines[0]]
      + RewriteLines(ps, skips, file, lines[1..], NextInside(file, lines[0], inside))
  }

  // ---------------------------------------------------------------- which lines are rewritten

  /** White space, then three backticks. */
  ghost predicate FenceLine(line: string) {
    exists blank, behind :: line == blank + "```" + behind && forall i :: 0 <= i < |blank| ==> IsSpace(blank[i])
  }

  ghost predicate MarkdownFile(file: string) {
    exists stem :: file == stem + ".md"
  }

  ghost predicate UnderDocs(file: string) {
    exists rest :: file == "docs/" + rest
  }

  /** The number of fence lines. */
  ghost function Fences(lines: seq<string>): nat {
    if lines == [] then 0 else Fences(lines[..|lines| - 1]) + if FenceLine(lines[|lines| - 1]) then 1 else 0
  }

  /** In Markdown a fence line stays, and so does prose, which stands behind an even number of fence lines, outside `docs/`. */
  ghost predicate Kept(file: string, lines: seq<string>, i: nat)
    requires i < |lines|
  {
    MarkdownFile(file) && (FenceLine(lines[i]) || (Fences(lines[..i]) % 2 == 0 && !UnderDocs(file)))
  }

  /** The lines that are not kept are rewritten. */
  ghost predicate RewrittenWhere(ps: seq<Pattern>, skips: Skips, file: string, lines: seq<string>, out: seq<string>) {
    |out| == |lines| &&
    forall i :: 0 <= i < |lines| ==> out[i] == if Kept(file, lines, i) then lines[i] else RewriteLine(ps, skips, lines[i])
  }

  ghost function Differing(before: seq<string>, after: seq<string>): set<nat> {
    set i: nat | i < |before| && i < |after| && before[i] != after[i]
  }

  lemma FenceIs(line: string)
    ensures IsFence(line) <==> FenceLine(line)
  {
    var n := Leading(line, IsSpace);
    if IsFence(line) {
      assert line == line[..n] + "```" + line[n + 3..];
    }
    if blank, behind :| line == blank + "```" + behind && forall i :: 0 <= i < |blank| ==> IsSpace(blank[i]) {
      assert line == blank + ("```" + behind);
      LeadingExact(blank, "```" + behind, IsSpace);
      assert line[|blank|..] == "```" + behind && ("```" + behind)[..3] == "```";
    }
  }

  lemma FileIs(file: string)
    ensures IsMarkdown(file) <==> MarkdownFile(file)
    ensures RewritesProse(file) <==> MarkdownFile(file) && UnderDocs(file)
  {
    if IsMarkdown(file) {
      assert file == file[..|file| - 3] + ".md";
    }
    if StartsWith(file, "docs/") {
      assert file == "docs/" + file[5..];
    }
    if rest :| file == "docs/" + rest {
      assert file[..5] == "docs/";
    }
  }

  lemma {:induction false} FencesFront(lines: seq<string>)
    requires lines != []
    ensures Fences(lines) == (if FenceLine(lines[0]) then 1 else 0) + Fences(lines[1..])
  {
    hide FenceLine;
    if |lines| == 1 {
      assert lines[..0] == [] && lines[1..] == [];
    } else {
      FencesFront(lines[..|lines| - 1]);
      assert lines[..|lines| - 1][1..] == lines[1..][..|lines[1..]| - 1];
    }
  }

  /** Line `i` of a rest of the file, given whether the rest begins inside a fence. */
  lemma {:induction false} RewrittenAt(ps: seq<Pattern>, skips: Skips, file: string, lines: seq<string>, inside: bool, i: nat)
    requires i < |lines|
    ensures var before := Fences(lines[..i]) + if inside then 1 else 0;
      RewriteLines(ps, skips, file, lines, inside)[i] ==
        if MarkdownFile(file) && (FenceLine(lines[i]) || (before % 2 == 0 && !UnderDocs(file)))
        then lines[i] else RewriteLine(ps, skips, lines[i])
  {
    hide RewriteLine, IsFence, FenceLine, IsMarkdown, MarkdownFile, RewritesProse, UnderDocs;
    FenceIs(lines[0]);
    FileIs(file);
    if i == 0 {
      assert lines[..0] == [];
    } else if IsMarkdown(file) {
      RewrittenAt(ps, skips, file, lines[1..], NextInside(file, lines[0], inside), i - 1);
      FencesFront(lines[..i]);
      assert lines[..i][1..] == lines[1..][..i - 1] && lines[..i][0] == lines[0];
    } else {
      RewrittenAt(ps, skips, file, lines[1..], inside, i - 1);
    }
  }

  lemma {:induction false} ChangedIsDiffering(before: seq<string>, after: seq<string>)
    requires |before| == |after|
    ensures Changed(before, after) == |Differing(before, after)|
  {
    if before == [] {
      assert Differing(before, after) == {};
    } else {
      var n := |before| - 1;
      var b, a := before[..n], after[..n];
      ChangedIsDiffering(b, a);
      assert b + [before[n]] == before && a + [after[n]] == after;
      ChangedAppend(b, a, before[n], after[n]);
      hide Changed;
      DifferingMore(b, a, before[n], after[n]);
    }
  }

  lemma DifferingMore(before: seq<string>, after: seq<string>, b: string, a: string)
    requires |before| == |after|
    ensures |Differing(before + [b], after + [a])| == |Differing(before, after)| + if b == a then 0 else 1
  {
    var n := |before|;
    var more, rest := Differing(before + [b], after + [a]), Differing(before, after);
    assert n !in rest;
    if b == a {
      assert more == rest;
    } else {
      assert more == rest + {n};
    }
  }

  lemma RewriteLinesWhere(ps: seq<Pattern>, skips: Skips, file: string, lines: seq<string>)
    ensures RewrittenWhere(ps, skips, file, lines, RewriteLines(ps, skips, file, lines, false))
  {
    hide RewriteLine, RewriteLines, FenceLine, MarkdownFile, UnderDocs, Fences;
    forall i | 0 <= i < |lines|
      ensures RewriteLines(ps, skips, file, lines, false)[i] == if Kept(file, lines, i) then lines[i] else RewriteLine(ps, skips, lines[i])
    {
      RewrittenAt(ps, skips, file, lines, false, i);
    }
  }

  function Changed(before: seq<string>, after: seq<string>): nat
    requires |before| == |after|
  {
    if before == [] then 0 else (if before[0] == after[0] then 0 else 1) + Changed(before[1..], after[1..])
  }

  lemma {:induction false} ChangedAppend(before: seq<string>, after: seq<string>, b: string, a: string)
    requires |before| == |after|
    ensures Changed(before + [b], after + [a]) == Changed(before, after) + if b == a then 0 else 1
  {
    if before != [] {
      ChangedAppend(before[1..], after[1..], b, a);
      assert (before + [b])[1..] == before[1..] + [b] && (after + [a])[1..] == after[1..] + [a];
    }
  }

  /** The loop over the lines of one file, with its fence state and its count of changed lines. */
  method RewriteFile(text: string, file: string, ps: seq<Pattern>, skips: Skips) returns (r: string, changed: nat)
    ensures r == Join(RewriteLines(ps, skips, file, Split(text), false))
    ensures changed == Changed(Split(text), RewriteLines(ps, skips, file, Split(text), false))
    ensures exists out ::
      r == Join(out) && RewrittenWhere(ps, skips, file, Split(text), out) && changed == |Differing(Split(text), out)|
  {
    var lines := Split(text);
    var out: seq<string> := [];
    var insideFence := false;
    changed := 0;
    assert lines[0..] == lines && Changed([], []) == 0;
    hide RewriteLines, RewriteLine, IsFence, IsMarkdown, RewritesProse, Changed, Split, Join, RewrittenWhere, Differing;
    ghost var all := RewriteLines(ps, skips, file, lines, false);
    for i := 0 to |lines|
      invariant |out| == i
      invariant all == out + RewriteLines(ps, skips, file, lines[i..], insideFence)
      invariant changed == Changed(lines[..i], out)
    {
      var line := lines[i];
      RewriteStep(ps, skips, file, lines[i..], insideFence);
      SliceStep(lines, i);
      var next := line;
      if IsMarkdown(file) && IsFence(line) {
        insideFence := !insideFence;
      } else if IsMarkdown(file) && !insideFence && !RewritesProse(file) {
      } else {
        next := RewriteLine(ps, skips, line);
        if next != line {
          changed := changed + 1;
        }
      }
      ChangedAppend(lines[..i], out, line, next);
      Regrouped(out, next, RewriteLines(ps, skips, file, lines[i + 1..], insideFence));
      out := out + [next];
    }
    assert lines[..|lines|] == lines;
    NothingLeft(ps, skips, file, lines[|lines|..], insideFence);
    assert all == out;
    r := Join(out);
    RewriteLinesWhere(ps, skips, file, lines);
    ChangedIsDiffering(lines, out);
  }

  lemma SliceStep(lines: seq<string>, i: nat)
    requires i < |lines|
    ensures lines[i..][0] == lines[i] && lines[i..][1..] == lines[i + 1..] && lines[..i + 1] == lines[..i] + [lines[i]]
  {
  }

  lemma Regrouped(a: seq<string>, x: string, b: seq<string>)
    ensures a + ([x] + b) == (a + [x]) + b
  {
  }

  lemma NothingLeft(ps: seq<Pattern>, skips: Skips, file: string, lines: seq<string>, inside: bool)
    requires lines == []
    ensures RewriteLines(ps, skips, file, lines, inside) == []
  {
  }

  lemma RewriteStep(ps: seq<Pattern>, skips: Skips, file: string, lines: seq<string>, inside: bool)
    requires lines != []
    ensures RewriteLines(ps, skips, file, lines, inside) ==
      [if Eligible(file, lines[0], inside) then RewriteLine(ps, skips, lines[0]) else lines[0]]
      + RewriteLines(ps, skips, file, lines[1..], NextInside(file, lines[0], inside))
  {
  }

  // ---------------------------------------------------------------- fences do not move

  ghost predicate AllSpace(s: string) {
    forall i :: 0 <= i < |s| ==> IsSpace(s[i])
  }

  /** A fence opener in the quoted view: three backquotes with nothing between, after white space. */
  ghost predicate FenceView(l: Line)
    requires |l.texts| == |l.quotes| + 1
  {
    && AllSpace(l.texts[0]) && |l.quotes| >= 3
    && l.quotes[0] == l.quotes[1] == l.quotes[2] == '`' && l.texts[1] == "" && l.texts[2] == ""
  }

  lemma {:induction false} SpaceLeading(s: string, rest: string)
    requires AllSpace(s) && (rest == "" || !IsSpace(rest[0]))
    ensures (s + rest)[Leading(s + rest, IsSpace)..] == rest
  {
    LeadingExact(s, rest, IsSpace);
  }

  lemma LeadingWhole(s: string)
    requires Leading(s, IsSpace) == |s|
    ensures AllSpace(s)
  {
  }

  lemma NotAllSpaceLeading(s: string, rest: string)
    requires !AllSpace(s)
    ensures Leading(s + rest, IsSpace) == Leading(s, IsSpace) < |s|
  {
    var k := Leading(s, IsSpace);
    if k == |s| {
      LeadingWhole(s);
    } else {
      assert s + rest == s[..k] + (s[k..] + rest);
      LeadingExact(s[..k], s[k..] + rest, IsSpace);
    }
  }

  /** The three characters a quoted view starts with after its first text. */
  lemma FenceStart(l: Line)
    requires WellFormed(l) && l.quotes != [] && l.texts[0] == ""
    ensures StartsWith(Unparse(l), FENCE) <==> FenceView(l)
  {
    assert Unparse(l) == [l.quotes[0]] + Unparse(Tail(l));
    var one := Tail(l);
    assert QuoteFree(one.texts[0]);
    if one.texts[0] != "" {
      assert Unparse(l)[1] == Unparse(one)[0] == one.texts[0][0];
      NotFenceAt(Unparse(l), 1);
    } else if one.quotes == [] {
      assert Unparse(one) == "";
    } else {
      assert Unparse(one) == [one.quotes[0]] + Unparse(Tail(one));
      var two := Tail(one);
      assert QuoteFree(two.texts[0]);
      assert Unparse(l) == [l.quotes[0], l.quotes[1]] + Unparse(two);
      if two.texts[0] != "" {
        assert Unparse(l)[2] == Unparse(two)[0] == two.texts[0][0];
        NotFenceAt(Unparse(l), 2);
      } else if two.quotes == [] {
        assert Unparse(two) == "";
      } else {
        assert Unparse(two) == [two.quotes[0]] + Unparse(Tail(two));
        assert Unparse(l)[..3] == [l.quotes[0], l.quotes[1], l.quotes[2]];
      }
    }
  }

  lemma NotFenceAt(s: string, k: nat)
    requires k < 3 && k < |s| && !IsQuote(s[k])
    ensures !StartsWith(s, FENCE)
  {
    if StartsWith(s, FENCE) {
      PrefixAgrees(s, FENCE, k);
    }
  }

  lemma FirstTextThen(s: string) returns (rest: string)
    ensures s == Parse(s).texts[0] + rest
    ensures Parse(s).quotes == [] ==> rest == ""
    ensures Parse(s).quotes != [] ==> rest == [Parse(s).quotes[0]] + Unparse(Tail(Parse(s)))
  {
    var l := Parse(s);
    ParseWellFormed(s);
    UnparseParse(s);
    rest := if l.quotes == [] then "" else [l.quotes[0]] + Unparse(Tail(l));
  }

  lemma FenceAfterBlanks(l: Line, rest: string)
    requires WellFormed(l) && AllSpace(l.texts[0])
    requires rest == if l.quotes == [] then "" else [l.quotes[0]] + Unparse(Tail(l))
    ensures IsFence(l.texts[0] + rest) <==> FenceView(l)
  {
    hide IsSpace;
    if l.quotes != [] {
      BlankNotQuote(l.quotes[0]);
      var bare := Line([""] + l.texts[1..], l.quotes);
      assert Tail(bare) == Tail(l);
      assert rest == "" + [l.quotes[0]] + Unparse(Tail(l)) == Unparse(bare);
      FenceStart(bare);
    }
    SpaceLeading(l.texts[0], rest);
  }

  lemma InkIsNoFence(text: string, rest: string)
    requires QuoteFree(text) && !AllSpace(text)
    ensures !IsFence(text + rest)
  {
    hide IsSpace;
    NotAllSpaceLeading(text, rest);
    var k := Leading(text, IsSpace);
    assert (text + rest)[k..][0] == text[k];
    NotFenceAt((text + rest)[k..], 0);
  }

  lemma FenceParsed(s: string)
    ensures IsFence(s) <==> FenceView(Parse(s))
  {
    hide Parse, Unparse, IsFence;
    var l := Parse(s);
    ParseWellFormed(s);
    var rest := FirstTextThen(s);
    if AllSpace(l.texts[0]) {
      FenceAfterBlanks(l, rest);
    } else {
      InkIsNoFence(l.texts[0], rest);
    }
  }

  lemma YamlTextNotSpace(name: string, text: string, alone: bool)
    requires PlainName(name) && YamlHit(name, text, alone)
    ensures !AllSpace(text)
  {
    var n := YamlPrefix(text).value;
    assert name[0] == text[n..][..|name|][0] == text[n];
  }

  /** A pass neither makes nor breaks a fence opener. */
  lemma FenceViewStays(ps: seq<Pattern>, skips: Skips, l: Line)
    requires Separated(ps) && WellFormed(l)
    ensures AllSpace(RewriteAll(ps, skips, l).texts[0]) <==> AllSpace(l.texts[0])
    ensures FenceView(RewriteAll(ps, skips, l)) <==> FenceView(l)
  {
    hide IsSpace, YamlHit, YamlRenamed;
    var m := RewriteAll(ps, skips, l);
    PassOnYaml(ps, skips, l);
    if p :| p in ps && YamlChanges(p, skips, l) {
      YamlTextNotSpace(p.from, l.texts[0], l.quotes == []);
      OthersApart(ps, p, p);
      YamlBack(p, l.texts[0], l.quotes == []);
      YamlTextNotSpace(p.to, m.texts[0], l.quotes == []);
    }
    forall i | 0 < i < |l.texts| ensures m.texts[i] == "" <==> l.texts[i] == "" {
      PassOnTokens(ps, skips, l, i);
      if p :| p in ps && Changes(p, skips, l, i) {
        OthersApart(ps, p, p);
        RenamedBack(p, l.texts[i]);
      }
    }
  }

  lemma PieceFenceStays(ps: seq<Pattern>, skips: Skips, s: string)
    requires Separated(ps) && Plain(s)
    ensures IsFence(RewriteLine(ps, skips, s)) <==> IsFence(s)
    ensures AllSpace(RewriteLine(ps, skips, s)) <==> AllSpace(s)
  {
    hide IsSpace, RewriteLine, RewriteAll, FenceView, IsFence;
    var t := RewriteLine(ps, skips, s);
    LineOnPiece(ps, skips, s);
    ParseWellFormed(s);
    FenceViewStays(ps, skips, Parse(s));
    FenceParsed(s);
    FenceParsed(t);
    AllSpaceParsed(s);
    AllSpaceParsed(t);
  }

  lemma AllSpaceParsed(s: string)
    ensures AllSpace(s) <==> Parse(s).quotes == [] && AllSpace(Parse(s).texts[0])
  {
    hide IsSpace;
    var l := Parse(s);
    ParseWellFormed(s);
    UnparseParse(s);
    if l.quotes != [] {
      BlankNotQuote(l.quotes[0]);
      assert s[|l.texts[0]|] == l.quotes[0];
    }
  }

  lemma FenceAcross(a: string, t: char, b: string)
    requires IsTerminator(t)
    ensures IsFence(a + [t] + b) <==> if AllSpace(a) then IsFence(b) else IsFence(a)
  {
    var line := a + [t] + b;
    if AllSpace(a) {
      var k := Leading(b, IsSpace);
      assert line == (a + [t] + b[..k]) + b[k..];
      LeadingExact(a + [t] + b[..k], b[k..], IsSpace);
      assert line[|a| + 1 + k..] == b[k..];
    } else {
      NotAllSpaceLeading(a, [t] + b);
      assert line == a + ([t] + b);
      var k := Leading(a, IsSpace);
      assert line[k..] == a[k..] + ([t] + b);
      if StartsWith(line[k..], FENCE) && |a[k..]| < 3 {
        PrefixAgrees(line[k..], FENCE, |a[k..]|);
      }
      if |a[k..]| >= 3 {
        assert line[k..][..3] == a[k..][..3];
      }
    }
  }

  lemma {:induction false} FenceStays(ps: seq<Pattern>, skips: Skips, line: string)
    requires Separated(ps)
    ensures IsFence(RewriteLine(ps, skips, line)) <==> IsFence(line)
    decreases |line|
  {
    hide IsFence, AllSpace, IsTerminator, RewriteLine, PlainName;
    var k := PieceOf(line);
    PieceFenceStays(ps, skips, line[..k]);
    if k < |line| {
      FenceStays(ps, skips, line[k + 1..]);
      LineAcross(ps, skips, line[..k], line[k], line[k + 1..]);
      FenceAcross(line[..k], line[k], line[k + 1..]);
      FenceAcross(RewriteLine(ps, skips, line[..k]), line[k], RewriteLine(ps, skips, line[k + 1..]));
    }
  }

  // ---------------------------------------------------------------- whole files

  /** No rewritten line carries a produced name already. */
  ghost predicate UnscopedLines(ps: seq<Pattern>, skips: Skips, file: string, lines: seq<string>, inside: bool) {
    lines == [] ||
    ((Eligible(file, lines[0], inside) ==> UnscopedLine(ps, skips, lines[0])) &&
     UnscopedLines(ps, skips, file, lines[1..], NextInside(file, lines[0], inside)))
  }

  /** On every rewritten line such names are shielded. */
  ghost predicate ReturningLines(ps: seq<Pattern>, skips: Skips, file: string, lines: seq<string>, inside: bool) {
    lines == [] ||
    ((Eligible(file, lines[0], inside) ==> ReturningLine(ps, skips, lines[0])) &&
     ReturningLines(ps, skips, file, lines[1..], NextInside(file, lines[0], inside)))
  }

  lemma {:induction false} UnscopedLinesReturn(ps: seq<Pattern>, skips: Skips, file: string, lines: seq<string>, inside: bool)
    requires UnscopedLines(ps, skips, file, lines, inside)
    ensures ReturningLines(ps, skips, file, lines, inside)
  {
    hide UnscopedLine, ReturningLine, Eligible, NextInside;
    if lines != [] {
      if Eligible(file, lines[0], inside) {
        UnscopedLineReturns(ps, skips, lines[0]);
      }
      UnscopedLinesReturn(ps, skips, file, lines[1..], NextInside(file, lines[0], inside));
    }
  }

  /** No rewritten line has a token that the first pass leaves behind. */
  ghost predicate SettledLines(ps: seq<Pattern>, skips: Skips, file: string, lines: seq<string>, inside: bool) {
    lines == [] ||
    ((Eligible(file, lines[0], inside) ==> SettledLine(ps, skips, lines[0])) &&
     SettledLines(ps, skips, file, lines[1..], NextInside(file, lines[0], inside)))
  }

  /** Rewriting changes neither which lines are rewritten nor where fences open and close. */
  lemma SameFences(ps: seq<Pattern>, skips: Skips, file: string, line: string, inside: bool)
    requires Separated(ps)
    ensures var next := if Eligible(file, line, inside) then RewriteLine(ps, skips, line) else line;
      (Eligible(file, next, inside) <==> Eligible(file, line, inside)) && NextInside(file, next, inside) == NextInside(file, line, inside)
  {
    FenceStays(ps, skips, line);
  }

  lemma {:induction false} RoundTripLines(
    ps: seq<Pattern>, rs: seq<Pattern>, skips: Skips, file: string, lines: seq<string>, inside: bool)
    requires Separated(ps) && Separated(rs) && Mirrors(ps, rs) && SparesTargets(ps, skips)
    ensures RewriteLines(rs, skips, file, RewriteLines(ps, skips, file, lines, inside), inside) == lines
      <==> ReturningLines(ps, skips, file, lines, inside)
  {
    hide Separated, Mirrors, SparesTargets, ReturningLine, RewriteLine, Eligible, NextInside;
    if lines != [] {
      var line := lines[0];
      SameFences(ps, skips, file, line, inside);
      RoundTripLine(ps, rs, skips, line);
      RoundTripLines(ps, rs, skips, file, lines[1..], NextInside(file, line, inside));
      var once := RewriteLines(ps, skips, file, lines, inside);
      var back := RewriteLines(rs, skips, file, once, inside);
      assert lines == [line] + lines[1..] && back == [back[0]] + back[1..];
    }
  }

  lemma {:induction false} SecondPassLines(ps: seq<Pattern>, skips: Skips, file: string, lines: seq<string>, inside: bool)
    requires Separated(ps)
    ensures var once := RewriteLines(ps, skips, file, lines, inside);
      RewriteLines(ps, skips, file, once, inside) == once <==> SettledLines(ps, skips, file, lines, inside)
  {
    hide Separated, RewriteLine, Eligible, NextInside;
    if lines != [] {
      var line := lines[0];
      SameFences(ps, skips, file, line, inside);
      SecondPassLine(ps, skips, line);
      SecondPassLines(ps, skips, file, lines[1..], NextInside(file, line, inside));
      var once := RewriteLines(ps, skips, file, lines, inside);
      var twice := RewriteLines(ps, skips, file, once, inside);
      assert once == [once[0]] + once[1..] && twice == [twice[0]] + twice[1..];
    }
  }

  /** No line break is made or lost. */
  lemma LineStaysOne(ps: seq<Pattern>, skips: Skips, line: string)
    requires PlainPatterns(ps) && OneLine(line)
    ensures OneLine(RewriteLine(ps, skips, line))
    decreases |line|
  {
    hide RewriteLine, PlainName;
    var k := PieceOf(line);
    LineOnPiece(ps, skips, line[..k]);
    if k < |line| {
      assert line[k] in line;
      assert forall c :: c in line[k + 1..] ==> c in line;
      LineStaysOne(ps, skips, line[k + 1..]);
      LineAcross(ps, skips, line[..k], line[k], line[k + 1..]);
    }
  }

  lemma {:induction false} LinesStayOne(ps: seq<Pattern>, skips: Skips, file: string, lines: seq<string>, inside: bool)
    requires PlainPatterns(ps) && forall i :: 0 <= i < |lines| ==> OneLine(lines[i])
    ensures forall i :: 0 <= i < |lines| ==> OneLine(RewriteLines(ps, skips, file, lines, inside)[i])
  {
    hide RewriteLine, PlainPatterns, OneLine;
    if lines != [] {
      LineStaysOne(ps, skips, lines[0]);
      LinesStayOne(ps, skips, file, lines[1..], NextInside(file, lines[0], inside));
    }
  }

  function Rewrite(text: string, file: string, ps: seq<Pattern>, skips: Skips): string {
    Join(RewriteLines(ps, skips, file, Split(text), false))
  }

  lemma RewriteSplits(text: string, file: string, ps: seq<Pattern>, skips: Skips)
    requires PlainPatterns(ps)
    ensures Split(Rewrite(text, file, ps, skips)) == RewriteLines(ps, skips, file, Split(text), false)
  {
    JoinSplit(text);
    LinesStayOne(ps, skips, file, Split(text), false);
    SplitJoin(RewriteLines(ps, skips, file, Split(text), false));
  }

  /** Skip tables as the program builds them, from the protected values. */
  ghost predicate FromTable(skips: Skips) {
    forall v :: v in skips.values ==> exists k :: 0 <= k < |TOKEN_VALUES| && TOKEN_VALUES[k] == v
  }

  /**
   * Reverse rescoping undoes forward rescoping exactly on the texts whose rewritten lines return, for
   * every file and under any skip tables built from the protected values.
   */
  lemma FileRoundTrip(text: string, file: string, skips: Skips)
    requires FromTable(skips)
    ensures Rewrite(Rewrite(text, file, Patterns(false), skips), file, Patterns(true), skips) == text
      <==> ReturningLines(Patterns(false), skips, file, Split(text), false)
  {
    var ps, rs := Patterns(false), Patterns(true);
    PatternsSeparated(false);
    PatternsSeparated(true);
    PatternsMirror();
    TablesSpareTargets(skips);
    hide Patterns, RewriteLines, ReturningLines, PlainName, FromTable;
    var once := Rewrite(text, file, ps, skips);
    RewriteSplits(text, file, ps, skips);
    RewriteSplits(once, file, rs, skips);
    RoundTripLines(ps, rs, skips, file, Split(text), false);
    JoinSplit(text);
    JoinSplit(Rewrite(once, file, rs, skips));
  }

  /** In particular on every text that carries no scoped token or YAML name on a rewritten line. */
  lemma UnscopedRoundTrip(text: string, file: string, skips: Skips)
    requires FromTable(skips)
    requires UnscopedLines(Patterns(false), skips, file, Split(text), false)
    ensures Rewrite(Rewrite(text, file, Patterns(false), skips), file, Patterns(true), skips) == text
  {
    hide Patterns, Rewrite, UnscopedLines, ReturningLines, FromTable;
    UnscopedLinesReturn(Patterns(false), skips, file, Split(text), false);
    FileRoundTrip(text, file, skips);
  }

  /** A second forward run is a no-op exactly when no rewritten line has a token left behind. */
  lemma FileSecondPass(text: string, file: string, skips: Skips)
    ensures var once := Rewrite(text, file, Patterns(false), skips);
      Rewrite(once, file, Patterns(false), skips) == once <==> SettledLines(Patterns(false), skips, file, Split(text), false)
  {
    hide Patterns, RewriteLines, SettledLines, PlainName;
    var ps := Patterns(false);
    PatternsSeparated(false);
    var once := Rewrite(text, file, ps, skips);
    RewriteSplits(text, file, ps, skips);
    RewriteSplits(once, file, ps, skips);
    SecondPassLines(ps, skips, file, Split(text), false);
  }

  ghost predicate NothingSharedLines(ps: seq<Pattern>, file: string, lines: seq<string>, inside: bool) {
    lines == [] ||
    ((Eligible(file, lines[0], inside) ==> NothingShared(ps, lines[0])) &&
     NothingSharedLines(ps, file, lines[1..], NextInside(file, lines[0], inside)))
  }

  lemma {:induction false} NothingSharedSettlesLines(ps: seq<Pattern>, skips: Skips, file: string, lines: seq<string>, inside: bool)
    requires NothingSharedLines(ps, file, lines, inside)
    ensures SettledLines(ps, skips, file, lines, inside)
  {
    hide NothingShared, SettledLine, Eligible, NextInside;
    if lines != [] {
      if Eligible(file, lines[0], inside) {
        NothingSharedSettles(ps, skips, lines[0]);
      }
      NothingSharedSettlesLines(ps, skips, file, lines[1..], NextInside(file, lines[0], inside));
    }
  }

  /** Whatever the skip tables protect: without tokens of one package that share a quote, a second run is a no-op. */
  lemma UnsharedSecondPass(text: string, file: string, skips: Skips)
    requires NothingSharedLines(Patterns(false), file, Split(text), false)
    ensures var once := Rewrite(text, file, Patterns(false), skips);
      Rewrite(once, file, Patterns(false), skips) == once
  {
    hide Patterns, Rewrite, NothingSharedLines, SettledLines;
    NothingSharedSettlesLines(Patterns(false), skips, file, Split(text), false);
    FileSecondPass(text, file, skips);
  }

  // ---------------------------------------------------------------- concrete lines

  lemma SharedParsed(name: string)
    requires PlainName(name)
    ensures Parse("'" + name + "'" + name + "'") == Line(["", name, name, ""], ['\'', '\'', '\''])
    ensures Plain("'" + name + "'" + name + "'")
  {
    var l := Line(["", name, name, ""], ['\'', '\'', '\'']);
    var t := Line([name, name, ""], ['\'', '\'']);
    assert Tail(l) == t && Tail(t) == Line([name, ""], ['\'']) && Tail(Tail(t)) == Line([""], []);
    assert Unparse(Line([""], [])) == "";
    assert Unparse(Line([name, ""], ['\''])) == name + ['\''] + "";
    assert Unparse(t) == name + ['\''] + Unparse(Line([name, ""], ['\'']));
    assert Unparse(l) == "" + ['\''] + Unparse(t) == "'" + name + "'" + name + "'";
    ParseUnparse(l);
    NoTerminator(name);
  }

  lemma NoTerminator(name: string)
    requires PlainName(name)
    ensures Plain(name)
  {
    forall k | 0 <= k < |name| ensures !IsTerminator(name[k]) {
      assert !IsSpace(name[k]);
    }
  }

  lemma SharingLeavesBehind(p: Pattern, skips: Skips, l: Line)
    requires Active(skips, p) && !SkippedToken(skips, p.from) && l == Line(["", p.from, p.from, ""], ['\'', '\'', '\''])
    ensures LeftBehind(p, skips, l, 1, 2)
  {
    assert IsTokenText(p.from, p.from);
    assert Token(p.from, l, 1) && Token(p.from, l, 2) && !Token(p.from, l, 0);
    assert !Hit(p.from, l, 0) && Hit(p.from, l, 1) && !Hit(p.from, l, 2);
    assert Chain(p.from, l, 1, 2);
  }

  /**
   * Two tokens of one package that share a quote, as in `'cordis'cordis'`: the first run renames one of them,
   * a second run would rename the other.
   */
  lemma SharedQuoteMoves(p: Pattern, skips: Skips)
    requires p in Patterns(false) && Active(skips, p) && !SkippedToken(skips, p.from)
    ensures var once := RewriteLine(Patterns(false), skips, "'" + p.from + "'" + p.from + "'");
      RewriteLine(Patterns(false), skips, once) != once
  {
    PatternsSeparated(false);
    hide RewriteLine, Patterns, Parse, LeftBehind, Leading, SkippedToken;
    var line := "'" + p.from + "'" + p.from + "'";
    SharedParsed(p.from);
    SharingLeavesBehind(p, skips, Parse(line));
    SecondPassPiece(Patterns(false), skips, line);
  }

  lemma QuotedParsed(name: string)
    requires PlainName(name)
    ensures Parse("'" + name + "'") == Line(["", name, ""], ['\'', '\''])
    ensures Plain("'" + name + "'")
  {
    var l := Line(["", name, ""], ['\'', '\'']);
    var t := Line([name, ""], ['\'']);
    assert Tail(l) == t && Tail(t) == Line([""], []);
    assert Unparse(Line([""], [])) == "";
    assert Unparse(t) == name + ['\''] + "";
    assert Unparse(l) == "" + ['\''] + Unparse(t) == "'" + name + "'";
    ParseUnparse(l);
    NoTerminator(name);
  }

  lemma OnlyToken(ps: seq<Pattern>, skips: Skips, p: Pattern, l: Line)
    requires p in ps && Active(skips, p) && l == Line(["", p.to, ""], ['\'', '\''])
    ensures !Returns(ps, skips, l)
  {
    assert IsTokenText(p.to, p.to);
    assert Token(p.to, l, 1) && !Token(p.from, l, 0);
    assert !Changes(p, skips, l, 0) && !Shielded(p, skips, l, 1);
  }

  /** A quoted scoped name alone does not return: the reverse run takes it for one the forward run produced. */
  lemma ScopedNameMoves(skips: Skips, p: Pattern)
    requires FromTable(skips) && p in Patterns(false) && Active(skips, p)
    ensures var line := "'" + p.to + "'";
      RewriteLine(Patterns(true), skips, RewriteLine(Patterns(false), skips, line)) != line
  {
    PatternsSeparated(false);
    PatternsSeparated(true);
    PatternsMirror();
    TablesSpareTargets(skips);
    hide RewriteLine, Patterns, Parse, Leading, FromTable, SparesTargets, Mirrors, Returns;
    QuotedParsed(p.to);
    OnlyToken(Patterns(false), skips, p, Parse("'" + p.to + "'"));
    RoundTripPiece(Patterns(false), Patterns(true), skips, "'" + p.to + "'");
  }
}
