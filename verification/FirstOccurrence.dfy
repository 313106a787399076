/** Where the first occurrence of a term stands, and which spans its move touches, in scripts/translation-brief.ts. */
module FirstOccurrence {
  import opened BriefSpans
  import opened Common
  import opened Text

  datatype Row = Row(english: string, first: string)

  /** The libraries the planner asks: the Markdown parser and the terminology matcher. */
  datatype Tools = Tools(blocks: string -> seq<Block>, headings: string -> seq<Heading>,
                         rows: string -> seq<Row>, firstOffset: (string, string) -> Option<nat>)

  /** The two states of the source and their spans. */
  datatype Context = Context(confirmedSource: string, currentSource: string, confirmed: seq<Part>, current: seq<Part>)

  /** `text.slice(0, offset).split('\n').length`. */
  function LineAtOffset(text: string, offset: nat): nat {
    |Split(text[..if offset < |text| then offset else |text|])|
  }

  predicate Holds(part: Part, line: nat) {
    part.span.startLine <= line <= part.span.endLine
  }

  function FindLine(parts: seq<Part>, line: nat): Option<nat> {
    if parts == [] then None
    else if Holds(parts[0], line) then Some(parts[0].span.index)
    else FindLine(parts[1..], line)
  }

  /** `spanIndexAtOffset` of the document's first occurrence of a term. */
  function FirstSpan(tools: Tools, text: string, parts: seq<Part>, term: string): Option<nat> {
    var offset := tools.firstOffset(text, term);
    if offset.None? then None else FindLine(parts, LineAtOffset(text, offset.value))
  }

  /** The number of line feeds among the first characters of a text. */
  ghost function FeedsBefore(text: string, offset: nat): nat {
    multiset(if offset <= |text| then text[..offset] else text)['\n']
  }

  ghost predicate OnLine(part: Part, feeds: nat) {
    part.span.startLine - 1 <= feeds < part.span.endLine
  }

  /** The `k`-th part is the first one with the line of the term's first occurrence. */
  ghost predicate FirstOn(tools: Tools, text: string, parts: seq<Part>, term: string, k: nat) {
    var offset := tools.firstOffset(text, term);
    && k < |parts| && offset.Some? && OnLine(parts[k], FeedsBefore(text, offset.value))
    && forall j :: 0 <= j < k ==> !OnLine(parts[j], FeedsBefore(text, offset.value))
  }

  ghost predicate StandsIn(tools: Tools, text: string, parts: seq<Part>, term: string, index: nat) {
    exists k: nat :: FirstOn(tools, text, parts, term, k) && parts[k].span.index == index
  }

  lemma {:induction false} SplitCounts(text: string)
    ensures |Split(text)| == multiset(text)['\n'] + 1
  {
    if text != "" {
      SplitCounts(text[1..]);
      assert text == [text[0]] + text[1..];
    }
  }

  /** Lines are counted from 1. */
  lemma LineAtOffsetIs(text: string, offset: nat)
    ensures LineAtOffset(text, offset) == FeedsBefore(text, offset) + 1
  {
    SplitCounts(if offset <= |text| then text[..offset] else text);
    assert text[..|text|] == text;
  }

  lemma {:induction false} FindLineIs(parts: seq<Part>, feeds: nat)
    ensures var r := FindLine(parts, feeds + 1);
      if r.Some? then
        exists k: nat :: k < |parts| && OnLine(parts[k], feeds) && parts[k].span.index == r.value
          && forall j :: 0 <= j < k ==> !OnLine(parts[j], feeds)
      else forall k :: 0 <= k < |parts| ==> !OnLine(parts[k], feeds)
  {
    if parts != [] && !OnLine(parts[0], feeds) {
      FindLineIs(parts[1..], feeds);
      var r := FindLine(parts[1..], feeds + 1);
      if r.Some? {
        var k: nat :| k < |parts| - 1 && OnLine(parts[1..][k], feeds) && parts[1..][k].span.index == r.value
          && forall j :: 0 <= j < k ==> !OnLine(parts[1..][j], feeds);
        assert OnLine(parts[k + 1], feeds) && parts[k + 1].span.index == r.value;
        assert forall j :: 0 <= j < k + 1 ==> !OnLine(parts[j], feeds) by {
          assert forall j :: 0 < j < k + 1 ==> parts[j] == parts[1..][j - 1];
        }
      } else {
        assert forall k :: 0 < k < |parts| ==> parts[k] == parts[1..][k - 1];
      }
    }
  }

  /** The span found is that of the first part with the line of the term, and there is none when no part has it. */
  lemma FirstSpanIs(tools: Tools, text: string, parts: seq<Part>, term: string, index: nat)
    ensures FirstSpan(tools, text, parts, term) == Some(index) <==> StandsIn(tools, text, parts, term, index)
  {
    var offset := tools.firstOffset(text, term);
    if offset.Some? {
      var feeds := FeedsBefore(text, offset.value);
      LineAtOffsetIs(text, offset.value);
      FindLineIs(parts, feeds);
      var r := FindLine(parts, feeds + 1);
      if r.Some? {
        var k: nat :| k < |parts| && OnLine(parts[k], feeds) && parts[k].span.index == r.value
          && forall j :: 0 <= j < k ==> !OnLine(parts[j], feeds);
        assert FirstOn(tools, text, parts, term, k);
        assert forall m: nat :: FirstOn(tools, text, parts, term, m) ==> m == k;
      }
    }
  }

  /** The edit takes the first occurrence of the row's term, which has a first form, out of the span or into it. */
  ghost predicate TouchedBy(tools: Tools, c: Context, row: Row, index: nat) {
    && row.first != ""
    && StandsIn(tools, c.confirmedSource, c.confirmed, row.english, index)
         != StandsIn(tools, c.currentSource, c.current, row.english, index)
  }

  ghost predicate Moved(tools: Tools, c: Context, row: Row) {
    exists index: nat :: TouchedBy(tools, c, row, index)
  }

  ghost predicate Touched(tools: Tools, c: Context, rows: seq<Row>, index: nat) {
    exists row :: row in rows && TouchedBy(tools, c, row, index)
  }

  /** What the loop compares. */
  lemma MovedIs(tools: Tools, c: Context, row: Row)
    ensures var before := FirstSpan(tools, c.confirmedSource, c.confirmed, row.english);
      var after := FirstSpan(tools, c.currentSource, c.current, row.english);
      && (Moved(tools, c, row) <==> row.first != "" && before != after)
      && forall index: nat :: TouchedBy(tools, c, row, index) <==>
           row.first != "" && before != after && (before == Some(index) || after == Some(index))
  {
    hide FirstSpan, StandsIn;
    var before := FirstSpan(tools, c.confirmedSource, c.confirmed, row.english);
    var after := FirstSpan(tools, c.currentSource, c.current, row.english);
    forall index: nat
      ensures TouchedBy(tools, c, row, index) <==>
        row.first != "" && before != after && (before == Some(index) || after == Some(index))
    {
      FirstSpanIs(tools, c.confirmedSource, c.confirmed, row.english, index);
      FirstSpanIs(tools, c.currentSource, c.current, row.english, index);
    }
    if row.first != "" && before != after {
      assert TouchedBy(tools, c, row, if before.Some? then before.value else after.value);
    }
  }

  /** `notes` are the rows at the positions `ix`, which are all those that moved, in the order of the table. */
  ghost predicate MovesOf(ix: seq<nat>, notes: seq<Row>, tools: Tools, c: Context, rows: seq<Row>) {
    && |ix| == |notes|
    && (forall i :: 0 <= i < |ix| ==> ix[i] < |rows| && notes[i] == rows[ix[i]])
    && (forall i, j :: 0 <= i < j < |ix| ==> ix[i] < ix[j])
    && (forall k :: 0 <= k < |rows| ==> (k in ix <==> Moved(tools, c, rows[k])))
  }

  lemma NothingMoved(tools: Tools, c: Context)
    ensures MovesOf([], [], tools, c, []) && forall index :: !Touched(tools, c, [], index)
  {
  }

  lemma MovesPush(ix: seq<nat>, notes: seq<Row>, tools: Tools, c: Context, rows: seq<Row>, k: nat)
    requires k < |rows| && MovesOf(ix, notes, tools, c, rows[..k])
    ensures Moved(tools, c, rows[k]) ==> MovesOf(ix + [k], notes + [rows[k]], tools, c, rows[..k + 1])
    ensures !Moved(tools, c, rows[k]) ==> MovesOf(ix, notes, tools, c, rows[..k + 1])
  {
    hide Moved;
    assert forall i :: i in ix ==> i < k;
    assert forall i :: 0 <= i < k ==> rows[..k + 1][i] == rows[..k][i];
  }

  lemma TouchedPush(tools: Tools, c: Context, rows: seq<Row>, row: Row, index: nat)
    ensures Touched(tools, c, rows + [row], index) <==> Touched(tools, c, rows, index) || TouchedBy(tools, c, row, index)
  {
    hide TouchedBy;
    if TouchedBy(tools, c, row, index) {
      assert row in rows + [row];
    }
  }
}
