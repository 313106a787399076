/** The units and sections a briefing maps, in scripts/translation-brief.ts. */
module BriefSpans {
  import Decimal
  import opened MarkdownLines
  import opened MechanicalUpdate
  import opened Sorting
  import opened Text

  /** A block or section of a document with the kind that alignment compares and the label a reader sees. */
  datatype Part = Part(span: Span, kind: string, title: string)

  /** What the Markdown parser says: the outermost blocks and the headings, in the order it visits them. */
  datatype Block = Block(kind: string, title: string, startLine: nat, endLine: nat)

  datatype Heading = Heading(depth: nat, line: nat, title: string)

  function BlocksByLine(): (Block, Block) -> int {
    (left: Block, right: Block) => left.startLine - right.startLine
  }

  function HeadingsByLine(): (Heading, Heading) -> int {
    (left: Heading, right: Heading) => left.line - right.line
  }

  ghost predicate BlocksPlaced(blocks: seq<Block>) {
    forall b :: b in blocks ==> 1 <= b.startLine <= b.endLine
  }

  /** Headings stand on different lines of the document. */
  ghost predicate HeadingsPlaced(headings: seq<Heading>, count: nat) {
    && (forall h :: h in headings ==> 1 <= h.line <= count)
    && forall i, j :: 0 <= i < j < |headings| ==> headings[i].line != headings[j].line
  }

  lemma SortedBlocks(blocks: seq<Block>)
    requires BlocksPlaced(blocks)
    ensures BlocksPlaced(Sort(blocks, BlocksByLine())) && |Sort(blocks, BlocksByLine())| == |blocks|
  {
    assert Comparison(BlocksByLine());
    SortCorrect(blocks, BlocksByLine());
    SameMultiset(blocks, Sort(blocks, BlocksByLine()));
  }

  /** `markdownUnits`. */
  function MarkdownUnits(blocks: seq<Block>, lines: seq<string>): (parts: seq<Part>)
    requires BlocksPlaced(blocks)
    ensures |parts| == |blocks| && forall i :: 0 <= i < |parts| ==> parts[i].span.index == i
  {
    SortedBlocks(blocks);
    var sorted := Sort(blocks, BlocksByLine());
    seq(|sorted|, i requires 0 <= i < |sorted| =>
      var b := sorted[i];
      Part(Span(i, b.startLine, b.endLine, SliceLines(lines, b.startLine, b.endLine)), b.kind, b.title))
  }

  /** The block a unit stands for. */
  ghost function BlockOf(part: Part): Block {
    Block(part.kind, part.title, part.span.startLine, part.span.endLine)
  }

  ghost function BlocksOf(parts: seq<Part>): seq<Block> {
    seq(|parts|, i requires 0 <= i < |parts| => BlockOf(parts[i]))
  }

  lemma UnitsAre(blocks: seq<Block>, lines: seq<string>)
    requires BlocksPlaced(blocks)
    ensures BlocksOf(MarkdownUnits(blocks, lines)) == Sort(blocks, BlocksByLine())
  {
    hide SliceLines, Sort;
    SortedBlocks(blocks);
  }

  lemma UnitText(blocks: seq<Block>, lines: seq<string>, i: nat)
    requires BlocksPlaced(blocks) && i < |MarkdownUnits(blocks, lines)|
    ensures var span, n := MarkdownUnits(blocks, lines)[i].span, |lines|;
      1 <= span.startLine <= span.endLine && span.text
        == Join(lines[if span.startLine - 1 < n then span.startLine - 1 else n..if span.endLine < n then span.endLine else n]) + "\n"
  {
    hide Sort, Join;
    SortedBlocks(blocks);
  }

  /** The units are the parser's blocks from the first line to the last, and each has the text of its lines. */
  lemma UnitsMean(blocks: seq<Block>, lines: seq<string>)
    requires BlocksPlaced(blocks)
    ensures var parts, n := MarkdownUnits(blocks, lines), |lines|;
      && multiset(BlocksOf(parts)) == multiset(blocks)
      && (forall i, j :: 0 <= i < j < |parts| ==> parts[i].span.startLine <= parts[j].span.startLine)
      && forall i :: 0 <= i < |parts| ==>
           var from, to := parts[i].span.startLine - 1, parts[i].span.endLine;
           0 <= from < to && parts[i].span.text == Join(lines[if from < n then from else n..if to < n then to else n]) + "\n"
  {
    hide MarkdownUnits, Sort, Join;
    UnitsAre(blocks, lines);
    assert Comparison(BlocksByLine());
    SortCorrect(blocks, BlocksByLine());
    var parts, sorted := MarkdownUnits(blocks, lines), Sort(blocks, BlocksByLine());
    forall i, j | 0 <= i < j < |parts| ensures parts[i].span.startLine <= parts[j].span.startLine {
      assert BlocksOf(parts)[i] == sorted[i] && BlocksOf(parts)[j] == sorted[j];
      assert BlocksByLine()(sorted[i], sorted[j]) <= 0;
    }
    forall i | 0 <= i < |parts|
      ensures var from, to := parts[i].span.startLine - 1, parts[i].span.endLine;
        0 <= from < to && parts[i].span.text == Join(lines[if from < |lines| then from else |lines|..if to < |lines| then to else |lines|]) + "\n"
    {
      UnitText(blocks, lines, i);
    }
  }

  const PREAMBLE := "(preamble before the first heading)"

  function SectionKind(heading: Heading): string {
    "section:" + Decimal.Print(heading.depth)
  }

  /** The line before the heading after the `order`-th, or the last line. */
  function SectionEnd(headings: seq<Heading>, order: nat, count: nat): int
    requires order < |headings|
  {
    (if order + 1 < |headings| then headings[order + 1].line else count + 1) - 1
  }

  ghost predicate Ascending(headings: seq<Heading>, count: nat) {
    && (forall i :: 0 <= i < |headings| ==> 1 <= headings[i].line <= count)
    && forall i, j :: 0 <= i < j < |headings| ==> headings[i].line < headings[j].line
  }

  lemma SortedHeadings(headings: seq<Heading>, count: nat)
    requires HeadingsPlaced(headings, count)
    ensures Ascending(Sort(headings, HeadingsByLine()), count) && |Sort(headings, HeadingsByLine())| == |headings|
  {
    hide Sort;
    var sorted := Sort(headings, HeadingsByLine());
    assert Comparison(HeadingsByLine());
    SortedStrictly(headings, HeadingsByLine());
    assert forall i, j :: 0 <= i < j < |sorted| ==> HeadingsByLine()(sorted[i], sorted[j]) < 0;
    forall i | 0 <= i < |sorted| ensures 1 <= sorted[i].line <= count {
      assert sorted[i] in headings;
    }
  }

  /** Where the next section starts, after the first `|parts|` of them. */
  ghost predicate Tiles(parts: seq<Part>, lines: seq<string>, upTo: int) {
    && (forall i :: 0 <= i < |parts| ==>
          parts[i].span.index == i && 1 <= parts[i].span.startLine <= parts[i].span.endLine <= |lines|)
    && (forall i :: 0 <= i < |parts| ==>
          parts[i].span.text == SliceLines(lines, parts[i].span.startLine, parts[i].span.endLine))
    && (parts != [] ==> parts[0].span.startLine == 1)
    && (forall i :: 0 < i < |parts| ==> parts[i].span.startLine == parts[i - 1].span.endLine + 1)
    && upTo == if parts == [] then 0 else parts[|parts| - 1].span.endLine
  }

  function SectionOf(headings: seq<Heading>, order: nat, lines: seq<string>, index: nat): Part
    requires order < |headings| && Ascending(headings, |lines|)
  {
    var heading, endLine := headings[order], SectionEnd(headings, order, |lines|);
    Part(Span(index, heading.line, endLine, SliceLines(lines, heading.line, endLine)),
         SectionKind(heading), if heading.title == "" then "(untitled section)" else heading.title)
  }

  function PreambleOf(lines: seq<string>, endLine: nat): Part
    requires endLine >= 1
  {
    Part(Span(0, 1, endLine, SliceLines(lines, 1, endLine)), "preamble", PREAMBLE)
  }

  /** The parts from `before` on are the sections the first headings open. */
  ghost predicate Opens(parts: seq<Part>, before: nat, headings: seq<Heading>, lines: seq<string>, order: nat)
    requires Ascending(headings, |lines|) && order <= |headings|
  {
    && |parts| == before + order
    && forall i :: before <= i < before + order ==> parts[i] == SectionOf(headings, i - before, lines, i)
  }

  lemma TilesPush(parts: seq<Part>, lines: seq<string>, upTo: int, part: Part)
    requires Tiles(parts, lines, upTo) && part.span.index == |parts|
    requires part.span.startLine == upTo + 1 && part.span.startLine <= part.span.endLine <= |lines|
    requires part.span.text == SliceLines(lines, part.span.startLine, part.span.endLine)
    ensures Tiles(parts + [part], lines, part.span.endLine)
  {
    hide SliceLines;
  }

  lemma NothingYet(headings: seq<Heading>, lines: seq<string>)
    requires Ascending(headings, |lines|)
    ensures Tiles([], lines, 0) && Opens([], 0, headings, lines, 0)
    ensures forall part :: Opens([part], 1, headings, lines, 0)
  {
  }

  lemma OpensPush(parts: seq<Part>, before: nat, headings: seq<Heading>, lines: seq<string>, order: nat)
    requires Ascending(headings, |lines|) && order < |headings| && Opens(parts, before, headings, lines, order)
    ensures Opens(parts + [SectionOf(headings, order, lines, |parts|)], before, headings, lines, order + 1)
  {
    hide SectionOf;
  }

  /** The sections of a document: the lines before the first heading, if any, then one section per heading. */
  function Sections(headings: seq<Heading>, lines: seq<string>): (parts: seq<Part>)
    requires HeadingsPlaced(headings, |lines|)
  {
    SortedHeadings(headings, |lines|);
    var sorted := Sort(headings, HeadingsByLine());
    var preamble := if sorted == [] then |lines| else sorted[0].line - 1;
    var before := if preamble > 0 then 1 else 0;
    (if preamble > 0 then [PreambleOf(lines, preamble)] else [])
    + seq(|sorted|, i requires 0 <= i < |sorted| => SectionOf(sorted, i, lines, before + i))
  }

  lemma OpensAll(parts: seq<Part>, headings: seq<Heading>, lines: seq<string>)
    requires HeadingsPlaced(headings, |lines|)
    requires Ascending(Sort(headings, HeadingsByLine()), |lines|)
    requires var sorted := Sort(headings, HeadingsByLine());
      var preamble := if sorted == [] then |lines| else sorted[0].line - 1;
      var before := if preamble > 0 then 1 else 0;
      Opens(parts, before, sorted, lines, |sorted|) && (preamble > 0 ==> parts[0] == PreambleOf(lines, preamble))
    ensures parts == Sections(headings, lines)
  {
    hide SectionOf, PreambleOf;
  }

  /** `sectionSpans`: the sections tile the document. */
  method SectionSpans(headings: seq<Heading>, lines: seq<string>) returns (parts: seq<Part>)
    requires HeadingsPlaced(headings, |lines|)
    ensures parts == Sections(headings, lines)
    ensures Tiles(parts, lines, |lines|)
  {
    hide SliceLines, Opens, Tiles;
    var sorted := Sort(headings, HeadingsByLine());
    SortedHeadings(headings, |lines|);
    parts := [];
    NothingYet(sorted, lines);
    var firstHeadingLine := if sorted == [] then |lines| + 1 else sorted[0].line;
    if firstHeadingLine > 1 {
      TilesPush([], lines, 0, PreambleOf(lines, firstHeadingLine - 1));
      parts := [PreambleOf(lines, firstHeadingLine - 1)];
      assert [] + parts == parts;
    }
    ghost var before := |parts|;
    for order := 0 to |sorted|
      invariant |parts| == before + order && Opens(parts, before, sorted, lines, order)
      invariant Tiles(parts, lines, if order == 0 then firstHeadingLine - 1 else SectionEnd(sorted, order - 1, |lines|))
      invariant before == 1 ==> parts[0] == PreambleOf(lines, firstHeadingLine - 1)
    {
      var section := SectionOf(sorted, order, lines, |parts|);
      TilesPush(parts, lines, sorted[order].line - 1, section);
      OpensPush(parts, before, sorted, lines, order);
      parts := parts + [section];
    }
    OpensAll(parts, headings, lines);
  }

  /** The part begins at the heading and is called after it. */
  ghost predicate Under(part: Part, h: Heading) {
    && part.span.startLine == h.line && part.kind == "section:" + Decimal.Print(h.depth)
    && part.title == if h.title == "" then "(untitled section)" else h.title
  }

  lemma OpensUnder(headings: seq<Heading>, order: nat, lines: seq<string>, index: nat)
    requires order < |headings| && Ascending(headings, |lines|)
    ensures Under(SectionOf(headings, order, lines, index), headings[order])
  {
    hide SliceLines;
  }

  lemma SortedKeepsHeadings(headings: seq<Heading>)
    ensures forall h :: h in Sort(headings, HeadingsByLine()) <==> h in headings
  {
    assert Comparison(HeadingsByLine());
    SortCorrect(headings, HeadingsByLine());
    SameMultiset(headings, Sort(headings, HeadingsByLine()));
  }

  lemma SectionsAt(headings: seq<Heading>, lines: seq<string>) returns (before: nat, sorted: seq<Heading>)
    requires HeadingsPlaced(headings, |lines|)
    ensures forall h :: h in sorted <==> h in headings
    ensures before <= 1 && |Sections(headings, lines)| == before + |sorted|
    ensures forall k :: 0 <= k < |sorted| ==> Under(Sections(headings, lines)[before + k], sorted[k])
    ensures before == 1 ==> Sections(headings, lines)[0].kind == "preamble"
  {
    hide Sort, SliceLines, Under, SectionOf, HeadingsPlaced, SectionKind;
    SortedHeadings(headings, |lines|);
    sorted := Sort(headings, HeadingsByLine());
    SortedKeepsHeadings(headings);
    var parts := Sections(headings, lines);
    before := |parts| - |sorted|;
    forall k | 0 <= k < |sorted| ensures Under(parts[before + k], sorted[k]) {
      OpensUnder(sorted, k, lines, before + k);
    }
  }

  ghost predicate Opened(parts: seq<Part>, h: Heading) {
    exists i :: 0 <= i < |parts| && Under(parts[i], h)
  }

  ghost predicate UnderSome(part: Part, headings: seq<Heading>) {
    exists h :: h in headings && Under(part, h)
  }

  /** Each heading opens one section, and the only other part is a preamble. */
  lemma SectionsMean(headings: seq<Heading>, lines: seq<string>)
    requires HeadingsPlaced(headings, |lines|)
    ensures var parts := Sections(headings, lines);
      && (forall h :: h in headings ==> Opened(parts, h))
      && (forall i :: 0 < i < |parts| ==> UnderSome(parts[i], headings))
      && (parts != [] ==> parts[0].kind == "preamble" || UnderSome(parts[0], headings))
  {
    var before, sorted := SectionsAt(headings, lines);
    var parts := Sections(headings, lines);
    hide Sections, Under, HeadingsPlaced;
    forall h | h in headings ensures Opened(parts, h) {
      var k :| 0 <= k < |sorted| && sorted[k] == h;
      assert Under(parts[before + k], h);
    }
    forall i | before <= i < |parts| ensures UnderSome(parts[i], headings) {
      var h := sorted[i - before];
      assert h in headings && Under(parts[before + (i - before)], h);
    }
  }

  /** `spansAligned`. */
  predicate Aligned(left: seq<Part>, right: seq<Part>) {
    |left| > 0 && |left| == |right| && forall i :: 0 <= i < |left| ==> left[i].kind == right[i].kind
  }

  /** The first lines of a tiled document, as far as its first `k` sections reach. */
  function Covered(parts: seq<Part>, k: nat): nat
    requires k <= |parts|
  {
    if k == 0 then 0 else parts[k - 1].span.endLine
  }

  lemma SectionStart(parts: seq<Part>, lines: seq<string>, k: nat)
    requires Tiles(parts, lines, |lines|) && 0 < k <= |parts|
    ensures var span, from := parts[k - 1].span, Covered(parts, k - 1);
      && from + 1 == span.startLine && from < span.endLine <= |lines|
      && span.text == MarkdownLines.Print(lines[from..span.endLine])
  {
    hide MarkdownLines.Print;
  }

  /** Equal section texts mean equal lines, so far. */
  lemma {:induction false} SameSoFar(a: seq<Part>, b: seq<Part>, linesA: seq<string>, linesB: seq<string>, k: nat)
    requires Tiles(a, linesA, |linesA|) && Tiles(b, linesB, |linesB|) && Lines(linesA) && Lines(linesB)
    requires |a| == |b| && k <= |a| && forall i :: 0 <= i < |a| ==> a[i].span.text == b[i].span.text
    ensures Covered(a, k) == Covered(b, k) && Covered(a, k) <= |linesA| && Covered(b, k) <= |linesB|
    ensures linesA[..Covered(a, k)] == linesB[..Covered(b, k)]
  {
    hide MarkdownLines.Print, Tiles;
    if k > 0 {
      SameSoFar(a, b, linesA, linesB, k - 1);
      SectionStart(a, linesA, k);
      SectionStart(b, linesB, k);
      var from, endA, endB := Covered(a, k - 1), a[k - 1].span.endLine, b[k - 1].span.endLine;
      PrintInjective(linesA[from..endA], linesB[from..endB]);
    }
  }

  /** Aligned sections without a changed one mean that the two documents have the same lines. */
  lemma UnchangedSections(a: seq<Part>, b: seq<Part>, linesA: seq<string>, linesB: seq<string>)
    requires Tiles(a, linesA, |linesA|) && Tiles(b, linesB, |linesB|) && Lines(linesA) && Lines(linesB)
    requires Aligned(a, b) && forall i :: 0 <= i < |a| ==> a[i].span.text == b[i].span.text
    ensures linesA == linesB
  {
    SameSoFar(a, b, linesA, linesB, |a|);
    assert linesA[..|linesA|] == linesA && linesB[..|linesB|] == linesB;
  }
}
