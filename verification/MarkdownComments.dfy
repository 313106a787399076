/** The prose lines of a Markdown document, outside code blocks and HTML comments, in scripts/markdown.ts. */
module MarkdownComments {
  import opened Common
  import opened Sorting
  import opened Splice
  import opened Text

  /** An HTML node of the parsed document: its text and the offset where it starts. */
  datatype HtmlNode = HtmlNode(value: string, offset: nat)

  datatype ProseLine = ProseLine(index: nat, raw: string)

  /** `s.indexOf(word, from)`. */
  function Find(s: string, word: string, from: nat): (r: int)
    ensures r == -1 || (from <= r && OccursAt(s, word, r))
    ensures forall at: nat :: from <= at && OccursAt(s, word, at) ==> r != -1 && r <= at
    decreases |s| - from
  {
    if from + |word| > |s| then -1
    else if OccursAt(s, word, from) then from
    else Find(s, word, from + 1)
  }

  const OPEN := "<!--"
  const CLOSE := "-->"

  /** The end of the comment that opens at `start`: behind the first closing mark, or the end of the node. */
  function CommentEnd(value: string, start: nat): (end: nat)
    requires OccursAt(value, OPEN, start)
    ensures start + 4 <= end <= |value|
  {
    var close := Find(value, CLOSE, start + |OPEN|);
    if close < 0 then |value| else close + |CLOSE|
  }

  /** The comments of one node, from `cursor` on. */
  function CommentsFrom(value: string, cursor: nat): seq<Range>
    decreases |value| - cursor
  {
    var start := Find(value, OPEN, cursor);
    if start < 0 then []
    else [Range(start, CommentEnd(value, start))] + CommentsFrom(value, CommentEnd(value, start))
  }

  /** No opening mark escapes: each one stands inside a comment, and comments open with one. */
  lemma {:induction false} CommentsCover(value: string, cursor: nat, at: nat)
    requires cursor <= at && OccursAt(value, OPEN, at)
    ensures exists r :: r in CommentsFrom(value, cursor) && r.start <= at < r.end
    decreases |value| - cursor
  {
    var start := Find(value, OPEN, cursor);
    var end := CommentEnd(value, start);
    var rest := CommentsFrom(value, end);
    assert CommentsFrom(value, cursor) == [Range(start, end)] + rest;
    if at < end {
      assert Range(start, end) in CommentsFrom(value, cursor);
    } else {
      CommentsCover(value, end, at);
      var r :| r in rest && r.start <= at < r.end;
      assert r in CommentsFrom(value, cursor);
    }
  }

  function Shifted(ranges: seq<Range>, offset: nat): seq<Range> {
    seq(|ranges|, i requires 0 <= i < |ranges| => Range(offset + ranges[i].start, offset + ranges[i].end))
  }

  /** The source offsets of every comment. */
  function Comments(nodes: seq<HtmlNode>): seq<Range> {
    if nodes == [] then []
    else
      var last := nodes[|nodes| - 1];
      Comments(nodes[..|nodes| - 1]) + Shifted(CommentsFrom(last.value, 0), last.offset)
  }

  /** The collection loop of `htmlCommentRanges`. */
  method CollectComments(nodes: seq<HtmlNode>) returns (comments: seq<Range>)
    ensures comments == Comments(nodes)
  {
    hide CommentsFrom;
    comments := [];
    for k := 0 to |nodes|
      invariant comments == Comments(nodes[..k])
    {
      assert nodes[..k + 1][..k] == nodes[..k];
      var found := CollectNode(nodes[k]);
      comments := comments + found;
    }
    assert nodes[..|nodes|] == nodes;
  }

  method CollectNode(node: HtmlNode) returns (found: seq<Range>)
    ensures found == Shifted(CommentsFrom(node.value, 0), node.offset)
  {
    hide Find, CommentEnd;
    found := [];
    var cursor: nat := 0;
    ghost var all := Shifted(CommentsFrom(node.value, 0), node.offset);
    assert [] + all == all;
    while true
      invariant found + Shifted(CommentsFrom(node.value, cursor), node.offset) == all
      decreases |node.value| - cursor
    {
      var start := Find(node.value, OPEN, cursor);
      if start < 0 {
        assert found + [] == found;
        break;
      }
      var end := CommentEnd(node.value, start);
      ShiftedCons(Range(start, end), CommentsFrom(node.value, end), node.offset);
      AppendCons(found, Range(node.offset + start, node.offset + end), Shifted(CommentsFrom(node.value, end), node.offset));
      found := found + [Range(node.offset + start, node.offset + end)];
      cursor := end;
    }
  }

  lemma ShiftedCons(first: Range, rest: seq<Range>, offset: nat)
    ensures Shifted([first] + rest, offset) == [Range(offset + first.start, offset + first.end)] + Shifted(rest, offset)
  {
  }

  lemma AppendCons<T>(a: seq<T>, x: T, b: seq<T>)
    ensures a + ([x] + b) == (a + [x]) + b
  {
  }

  /** The offset at which a line starts. */
  function LineStart(lines: seq<string>, index: nat): nat
    requires index <= |lines|
  {
    if index == 0 then 0 else LineStart(lines, index - 1) + |lines[index - 1]| + 1
  }

  function Max(a: nat, b: nat): nat {
    if a < b then b else a
  }

  function Min(a: nat, b: nat): nat {
    if a < b then a else b
  }

  /** The columns of a line that one comment covers, if it covers any, or the empty line as a whole. */
  function Columns(c: Range, lo: nat, length: nat): (r: Option<Range>)
    ensures r.Some? ==> r.value.start <= r.value.end <= length
  {
    var from, to := Max(c.start, lo), Min(c.end, lo + length);
    if from < to then Some(Range(from - lo, to - lo))
    else if length == 0 && c.start <= lo && c.end > lo then Some(Range(0, 0))
    else None
  }

  /** The comment shares a character with the line, or the line is empty and the comment goes on across it. */
  ghost predicate Touches(c: Range, lo: nat, length: nat) {
    || (exists offset: nat :: lo <= offset < lo + length && InRange(c, offset))
    || (length == 0 && InRange(c, lo))
  }

  predicate InRange(c: Range, offset: nat) {
    c.start <= offset < c.end
  }

  lemma ColumnsWhenTouched(c: Range, lo: nat, length: nat)
    ensures Columns(c, lo, length).Some? <==> Touches(c, lo, length)
    ensures Columns(c, lo, length).Some? ==>
      forall p: nat :: p < length ==> (InRange(Columns(c, lo, length).value, p) <==> InRange(c, lo + p))
  {
    var from, to := Max(c.start, lo), Min(c.end, lo + length);
    if from < to {
      assert InRange(c, from);
    }
  }

  function LineRanges(comments: seq<Range>, lo: nat, length: nat): seq<Range> {
    if comments == [] then []
    else
      var last := Columns(comments[|comments| - 1], lo, length);
      LineRanges(comments[..|comments| - 1], lo, length) + if last.Some? then [last.value] else []
  }

  ghost predicate Outside(ranges: seq<Range>, p: nat) {
    forall k :: 0 <= k < |ranges| ==> !InRange(ranges[k], p)
  }

  /** The ranges of a line say which of its characters are commented out, and are absent when nothing touches it. */
  lemma {:induction false} LineRangesMean(comments: seq<Range>, lo: nat, length: nat)
    ensures LineRanges(comments, lo, length) == [] <==> forall k :: 0 <= k < |comments| ==> !Touches(comments[k], lo, length)
    ensures forall p: nat :: p < length ==> (Outside(LineRanges(comments, lo, length), p) <==> Outside(comments, lo + p))
    ensures forall r :: r in LineRanges(comments, lo, length) ==> r.start <= r.end <= length
  {
    hide Columns, Touches;
    if comments != [] {
      var front, last := comments[..|comments| - 1], comments[|comments| - 1];
      LineRangesMean(front, lo, length);
      ColumnsWhenTouched(last, lo, length);
      var ranges := LineRanges(front, lo, length);
      assert comments == front + [last];
      forall p: nat | p < length
        ensures Outside(LineRanges(comments, lo, length), p) <==> Outside(comments, lo + p)
      {
        OutsidePush(front, last, lo + p);
        if Columns(last, lo, length).Some? {
          OutsidePush(ranges, Columns(last, lo, length).value, p);
        } else {
          NotTouched(last, lo, length, p);
          assert ranges + [] == ranges;
        }
      }
    }
  }

  lemma NotTouched(c: Range, lo: nat, length: nat, p: nat)
    requires !Touches(c, lo, length) && p < length
    ensures !InRange(c, lo + p)
  {
    assert lo <= lo + p < lo + length;
  }

  lemma OutsidePush(ranges: seq<Range>, r: Range, p: nat)
    ensures Outside(ranges + [r], p) <==> Outside(ranges, p) && !InRange(r, p)
  {
    if Outside(ranges + [r], p) {
      assert (ranges + [r])[|ranges|] == r;
      forall k | 0 <= k < |ranges| ensures !InRange(ranges[k], p) {
        assert (ranges + [r])[k] == ranges[k];
      }
    }
  }

  /** The line loop of `htmlCommentRanges`: only touched lines have an entry. */
  method HtmlCommentRanges(comments: seq<Range>, lines: seq<string>) returns (ranges: map<nat, seq<Range>>)
    ensures forall i: nat :: i in ranges <==> 1 <= i <= |lines| && LineRanges(comments, LineStart(lines, i - 1), |lines[i - 1]|) != []
    ensures forall i: nat :: i in ranges ==>
      1 <= i <= |lines| && ranges[i] == LineRanges(comments, LineStart(lines, i - 1), |lines[i - 1]|)
  {
    ranges := map[];
    var lineOffset := 0;
    for index := 0 to |lines|
      invariant lineOffset == LineStart(lines, index)
      invariant forall i: nat :: i in ranges <==> 1 <= i <= index && LineRanges(comments, LineStart(lines, i - 1), |lines[i - 1]|) != []
      invariant forall i: nat :: i in ranges ==>
        1 <= i <= |lines| && ranges[i] == LineRanges(comments, LineStart(lines, i - 1), |lines[i - 1]|)
    {
      var lineRanges := OneLineRanges(comments, lineOffset, |lines[index]|);
      if lineRanges != [] {
        ranges := ranges[index + 1 := lineRanges];
      }
      lineOffset := lineOffset + |lines[index]| + 1;
    }
  }

  method OneLineRanges(comments: seq<Range>, lo: nat, length: nat) returns (lineRanges: seq<Range>)
    ensures lineRanges == LineRanges(comments, lo, length)
  {
    hide Columns;
    lineRanges := [];
    for k := 0 to |comments|
      invariant lineRanges == LineRanges(comments[..k], lo, length)
    {
      assert comments[..k + 1][..k] == comments[..k];
      var columns := Columns(comments[k], lo, length);
      if columns.Some? {
        lineRanges := lineRanges + [columns.value];
      }
    }
    assert comments[..|comments|] == comments;
  }

  predicate HasInk(s: string) {
    exists i :: 0 <= i < |s| && !IsSpace(s[i])
  }

  /** Some character of the line, not white space, lies before `cursor` and outside every range. */
  ghost predicate InkOutside(raw: string, ranges: seq<Range>, cursor: nat) {
    exists p: nat :: p < cursor && p < |raw| && !IsSpace(raw[p]) && Outside(ranges, p)
  }

  function ByStart(): (Range, Range) -> int {
    (left: Range, right: Range) => left.start as int - right.start as int
  }

  /** A stretch before the next range adds its ink; the range itself adds none. */
  lemma Advance(raw: string, sorted: seq<Range>, k: nat, cursor: nat)
    requires k < |sorted| && cursor <= |raw| && sorted[k].start <= sorted[k].end <= |raw|
    requires forall i, j :: 0 <= i < j < |sorted| ==> sorted[i].start <= sorted[j].start
    requires forall i :: 0 <= i < k ==> sorted[i].end <= cursor
    ensures var start, next := Max(cursor, sorted[k].start), Max(cursor, sorted[k].end);
      InkOutside(raw, sorted, next) <==> InkOutside(raw, sorted, cursor) || HasInk(raw[cursor..start])
  {
    var start, next := Max(cursor, sorted[k].start), Max(cursor, sorted[k].end);
    if InkOutside(raw, sorted, next) {
      var p: nat :| p < next && p < |raw| && !IsSpace(raw[p]) && Outside(sorted, p);
      if p >= cursor {
        assert !InRange(sorted[k], p);
        assert raw[cursor..start][p - cursor] == raw[p];
      }
    }
    if HasInk(raw[cursor..start]) {
      var i :| 0 <= i < start - cursor && !IsSpace(raw[cursor..start][i]);
      var p := cursor + i;
      assert raw[p] == raw[cursor..start][i];
      assert Outside(sorted, p);
      assert p < next;
    }
  }

  lemma SortedByStart(ranges: seq<Range>, raw: string)
    requires forall r :: r in ranges ==> r.start <= r.end <= |raw|
    ensures var sorted := Sort(ranges, ByStart());
      && (forall i, j :: 0 <= i < j < |sorted| ==> sorted[i].start <= sorted[j].start)
      && (forall i :: 0 <= i < |sorted| ==> sorted[i].start <= sorted[i].end <= |raw|)
      && forall p: nat :: (Outside(sorted, p) <==> Outside(ranges, p))
  {
    var sorted := Sort(ranges, ByStart());
    assert Comparison(ByStart());
    SortCorrect(ranges, ByStart());
    SameMultiset(ranges, sorted);
    hide Sort, Outside;
    forall i, j | 0 <= i < j < |sorted| ensures sorted[i].start <= sorted[j].start {
      assert ByStart()(sorted[i], sorted[j]) <= 0;
    }
    forall p: nat ensures Outside(sorted, p) <==> Outside(ranges, p) {
      OutsideSame(sorted, ranges, p);
    }
  }

  lemma OutsideSame(a: seq<Range>, b: seq<Range>, p: nat)
    requires forall x :: x in a <==> x in b
    ensures Outside(a, p) <==> Outside(b, p)
  {
    assert forall i :: 0 <= i < |a| ==> a[i] in b;
    assert forall i :: 0 <= i < |b| ==> b[i] in a;
  }

  /** `hasRenderedTextOutsideComments`: ranges may overlap, nest or be empty. */
  method HasRenderedText(raw: string, ranges: Option<seq<Range>>) returns (kept: bool)
    requires ranges.Some? ==> forall r :: r in ranges.value ==> r.start <= r.end <= |raw|
    ensures kept <==> ranges.None? || InkOutside(raw, ranges.value, |raw|)
  {
    if ranges.None? {
      return true;
    }
    var cursor: nat := 0;
    var visible := "";
    var sorted := Sort(ranges.value, ByStart());
    SortedByStart(ranges.value, raw);
    assert sorted == Sort(ranges.value, ByStart());
    hide HasInk;
    NoInkYet();
    for k := 0 to |sorted|
      invariant cursor <= |raw| && forall i :: 0 <= i < k ==> sorted[i].end <= cursor
      invariant HasInk(visible) <==> InkOutside(raw, sorted, cursor)
    {
      Advance(raw, sorted, k, cursor);
      InkConcat(visible, raw[cursor..Max(cursor, sorted[k].start)]);
      visible := visible + (if cursor < sorted[k].start then raw[cursor..sorted[k].start] else "");
      cursor := Max(cursor, sorted[k].end);
    }
    InkConcat(visible, raw[cursor..]);
    InkAtEnd(raw, sorted, cursor);
    visible := visible + raw[cursor..];
    kept := HasInk(visible);
    assert InkOutside(raw, sorted, |raw|) <==> InkOutside(raw, ranges.value, |raw|);
  }

  lemma NoInkYet()
    ensures !HasInk("")
  {
  }

  lemma InkConcat(a: string, b: string)
    ensures HasInk(a + b) <==> HasInk(a) || HasInk(b)
  {
    if HasInk(a) {
      var i :| 0 <= i < |a| && !IsSpace(a[i]);
      assert (a + b)[i] == a[i];
    }
    if HasInk(b) {
      var i :| 0 <= i < |b| && !IsSpace(b[i]);
      assert (a + b)[|a| + i] == b[i];
    }
  }

  lemma InkAtEnd(raw: string, sorted: seq<Range>, cursor: nat)
    requires cursor <= |raw| && forall i :: 0 <= i < |sorted| ==> sorted[i].end <= cursor
    ensures InkOutside(raw, sorted, |raw|) <==> InkOutside(raw, sorted, cursor) || HasInk(raw[cursor..])
  {
    if InkOutside(raw, sorted, |raw|) {
      var p: nat :| p < |raw| && !IsSpace(raw[p]) && Outside(sorted, p);
      if p >= cursor {
        assert raw[cursor..][p - cursor] == raw[p];
      }
    }
    if HasInk(raw[cursor..]) {
      var i :| 0 <= i < |raw| - cursor && !IsSpace(raw[cursor..][i]);
      assert raw[cursor + i] == raw[cursor..][i] && Outside(sorted, cursor + i);
    }
  }

  /** Some character of the line, not white space, is in no comment of the document. */
  ghost predicate InkInLine(comments: seq<Range>, lines: seq<string>, index: nat)
    requires index < |lines|
  {
    exists p: nat :: p < |lines[index]| && !IsSpace(lines[index][p]) && Outside(comments, LineStart(lines, index) + p)
  }

  /** The rule: not in a code block, and either no comment touches the line or ink remains outside all of them. */
  ghost predicate Kept(comments: seq<Range>, fenced: set<nat>, lines: seq<string>, index: nat)
    requires index < |lines|
  {
    && index + 1 !in fenced
    && (|| (forall k :: 0 <= k < |comments| ==> !Touches(comments[k], LineStart(lines, index), |lines[index]|))
        || InkInLine(comments, lines, index))
  }

  ghost function KeptLines(comments: seq<Range>, fenced: set<nat>, lines: seq<string>, upTo: nat): seq<ProseLine>
    requires upTo <= |lines|
  {
    if upTo == 0 then []
    else
      KeptLines(comments, fenced, lines, upTo - 1)
      + if Kept(comments, fenced, lines, upTo - 1) then [ProseLine(upTo, lines[upTo - 1])] else []
  }

  lemma InkMeans(comments: seq<Range>, lines: seq<string>, index: nat)
    requires index < |lines|
    ensures InkInLine(comments, lines, index)
      <==> InkOutside(lines[index], LineRanges(comments, LineStart(lines, index), |lines[index]|), |lines[index]|)
  {
    LineRangesMean(comments, LineStart(lines, index), |lines[index]|);
    hide LineRanges, LineStart, Outside;
    var ranges, lo := LineRanges(comments, LineStart(lines, index), |lines[index]|), LineStart(lines, index);
    if InkInLine(comments, lines, index) {
      var p: nat :| p < |lines[index]| && !IsSpace(lines[index][p]) && Outside(comments, lo + p);
      assert Outside(ranges, p);
    }
    if InkOutside(lines[index], ranges, |lines[index]|) {
      var p: nat :| p < |lines[index]| && !IsSpace(lines[index][p]) && Outside(ranges, p);
      assert Outside(comments, lo + p);
    }
  }

  /** `markdownProseLines`, for the HTML nodes and the code lines the parser reports. */
  method MarkdownProseLines(source: string, nodes: seq<HtmlNode>, fenced: set<nat>) returns (kept: seq<ProseLine>)
    ensures kept == KeptLines(Comments(nodes), fenced, Split(source), |Split(source)|)
  {
    hide LineRanges, Touches, InkOutside, InkInLine, Outside, LineStart, Split;
    var lines := Split(source);
    var comments := CollectComments(nodes);
    var ranges := HtmlCommentRanges(comments, lines);
    kept := [];
    for i := 0 to |lines|
      invariant kept == KeptLines(comments, fenced, lines, i)
    {
      if i + 1 !in fenced {
        LineRangesMean(comments, LineStart(lines, i), |lines[i]|);
        InkMeans(comments, lines, i);
        var visible := HasRenderedText(lines[i], if i + 1 in ranges then Some(ranges[i + 1]) else None);
        if visible {
          kept := kept + [ProseLine(i + 1, lines[i])];
        }
      }
    }
  }
}
