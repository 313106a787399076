/** The splice of edited code fences into the counterpart of scripts/translation-brief.ts. */
module MechanicalUpdate {
  import opened Common
  import opened MarkdownLines
  import opened Sorting
  import opened Splice

  /** Lines are counted from 1, both ends included. */
  datatype Span = Span(index: nat, startLine: nat, endLine: nat, text: string)

  /** One entry of the map from span indices to new texts. */
  datatype Replacement = Replacement(index: nat, text: string)

  /** What the Markdown parser says of a document: where its code blocks stand. */
  type Fences = string -> seq<(nat, nat)>

  function Clip(line: nat, count: nat): nat {
    if line < count then line else count
  }

  /** Code blocks in document order, each starting on a line of its own within the document. */
  ghost predicate InOrder(positions: seq<(nat, nat)>, count: nat) {
    && (forall i :: 0 <= i < |positions| ==> 1 <= positions[i].0 <= positions[i].1 && positions[i].0 <= count)
    && (forall i, j :: 0 <= i < j < |positions| ==> positions[i].1 < positions[j].0)
  }

  ghost predicate Placed(spans: seq<Span>, count: nat) {
    && (forall i :: 0 <= i < |spans| ==>
          spans[i].index == i && 1 <= spans[i].startLine <= spans[i].endLine && spans[i].startLine <= count)
    && (forall i, j :: 0 <= i < j < |spans| ==> spans[i].endLine < spans[j].startLine)
  }

  /** `slice` and `splice` stop at the last line. */
  function RangeOf(span: Span, count: nat): Range
    requires span.startLine >= 1
  {
    Range(Clip(span.startLine - 1, count), Clip(span.endLine, count))
  }

  function RangesOf(spans: seq<Span>, count: nat): (ranges: seq<Range>)
    requires forall i :: 0 <= i < |spans| ==> spans[i].startLine >= 1
    ensures |ranges| == |spans|
  {
    seq(|spans|, i requires 0 <= i < |spans| => RangeOf(spans[i], count))
  }

  lemma {:induction false} ConsecutiveFit(ranges: seq<Range>, from: nat, n: nat)
    requires from <= n
    requires forall i :: 0 <= i < |ranges| ==> from <= ranges[i].start <= ranges[i].end <= n
    requires forall i, j :: 0 <= i < j < |ranges| ==> ranges[i].end <= ranges[j].start
    ensures Fits(ranges, from, n)
  {
    if ranges != [] {
      ConsecutiveFit(ranges[1..], ranges[0].end, n);
    }
  }

  lemma PlacedFits(spans: seq<Span>, count: nat)
    requires Placed(spans, count)
    ensures Fits(RangesOf(spans, count), 0, count)
    ensures forall i :: 0 <= i < |spans| ==>
      var r := RangesOf(spans, count)[i]; r.start == spans[i].startLine - 1 && r.start < r.end <= count
  {
    ConsecutiveFit(RangesOf(spans, count), 0, count);
  }

  function SliceLines(lines: seq<string>, startLine: nat, endLine: nat): string
    requires 1 <= startLine <= endLine
  {
    var count := |lines|;
    MarkdownLines.Print(lines[Clip(startLine - 1, count)..Clip(endLine, count)])
  }

  function CodeSpansOf(fences: Fences, markdown: string): (spans: seq<Span>)
    requires InOrder(fences(markdown), |LinesOf(markdown)|)
    ensures Placed(spans, |LinesOf(markdown)|)
  {
    var positions, lines := fences(markdown), LinesOf(markdown);
    seq(|positions|, i requires 0 <= i < |positions| =>
      Span(i, positions[i].0, positions[i].1, SliceLines(lines, positions[i].0, positions[i].1)))
  }

  function Find(replacements: seq<Replacement>, index: nat): Option<string> {
    if replacements == [] then None
    else if replacements[0].index == index then Some(replacements[0].text)
    else Find(replacements[1..], index)
  }

  /** The lines at every span: the new text where one is given. */
  function NewValues(lines: seq<string>, spans: seq<Span>, replacements: seq<Replacement>): (values: seq<seq<string>>)
    requires Placed(spans, |lines|)
    ensures |values| == |spans|
  {
    PlacedFits(spans, |lines|);
    var taken := Taken(lines, RangesOf(spans, |lines|));
    seq(|spans|, i requires 0 <= i < |spans| =>
      var text := Find(replacements, i);
      if text.Some? then LinesOf(text.value) else taken[i])
  }

  /** All replacements at once. */
  function Replaced(markdown: string, spans: seq<Span>, replacements: seq<Replacement>): string
    requires Placed(spans, |LinesOf(markdown)|)
  {
    var lines := LinesOf(markdown);
    PlacedFits(spans, |lines|);
    MarkdownLines.Print(Interleave(Gaps(lines, RangesOf(spans, |lines|), 0), NewValues(lines, spans, replacements)))
  }

  predicate DistinctKeys(replacements: seq<Replacement>) {
    forall i, j :: 0 <= i < j < |replacements| ==> replacements[i].index != replacements[j].index
  }

  function LaterFirst(): (Replacement, Replacement) -> int {
    (left: Replacement, right: Replacement) => right.index - left.index
  }

  function UpdatesOf(replacements: seq<Replacement>): (updates: seq<Update<string>>)
    ensures |updates| == |replacements|
    ensures forall i :: 0 <= i < |updates| ==>
      updates[i].index == replacements[i].index && updates[i].value == LinesOf(replacements[i].text)
  {
    seq(|replacements|, i requires 0 <= i < |replacements| =>
      Update(replacements[i].index, LinesOf(replacements[i].text)))
  }

  lemma {:induction false} FindKey(replacements: seq<Replacement>, k: nat)
    requires DistinctKeys(replacements) && k < |replacements|
    ensures Find(replacements, replacements[k].index) == Some(replacements[k].text)
  {
    if k > 0 {
      assert replacements[0].index != replacements[k].index;
      FindKey(replacements[1..], k - 1);
    }
  }

  lemma {:induction false} FindNoKey(replacements: seq<Replacement>, index: nat)
    requires forall k :: 0 <= k < |replacements| ==> replacements[k].index != index
    ensures Find(replacements, index) == None
  {
    if replacements != [] {
      FindNoKey(replacements[1..], index);
    }
  }

  /** Sorting the entries changes neither the keys nor what they map to. */
  lemma SortedEntries(replacements: seq<Replacement>)
    requires DistinctKeys(replacements)
    ensures var sorted := Sort(replacements, LaterFirst());
      && (forall i, j :: 0 <= i < j < |sorted| ==> sorted[i].index > sorted[j].index)
      && |sorted| == |replacements| && (forall x :: x in sorted <==> x in replacements)
  {
    hide Sort;
    assert Comparison(LaterFirst());
    SortedStrictly(replacements, LaterFirst());
    var sorted := Sort(replacements, LaterFirst());
    assert forall i, j :: 0 <= i < j < |sorted| ==> LaterFirst()(sorted[i], sorted[j]) < 0;
  }

  lemma FindSame(a: seq<Replacement>, b: seq<Replacement>, index: nat)
    requires DistinctKeys(a) && DistinctKeys(b) && forall x :: x in a <==> x in b
    ensures Find(a, index) == Find(b, index)
  {
    if k :| 0 <= k < |a| && a[k].index == index {
      FindKey(a, k);
      assert a[k] in b;
      var m :| 0 <= m < |b| && b[m] == a[k];
      FindKey(b, m);
    } else {
      FindNoKey(a, index);
      forall m | 0 <= m < |b| ensures b[m].index != index {
        assert b[m] in a;
      }
      FindNoKey(b, index);
    }
  }

  lemma UpdatedIsNewValues(lines: seq<string>, spans: seq<Span>, replacements: seq<Replacement>, sorted: seq<Replacement>)
    requires Placed(spans, |lines|) && DistinctKeys(replacements) && DistinctKeys(sorted)
    requires forall x :: x in sorted <==> x in replacements
    requires forall k :: 0 <= k < |sorted| ==> sorted[k].index < |spans|
    requires Fits(RangesOf(spans, |lines|), 0, |lines|)
    requires forall i :: 0 <= i < |spans| ==>
      RangesOf(spans, |lines|)[i].start <= RangesOf(spans, |lines|)[i].end <= |lines|
    requires forall u :: u in UpdatesOf(sorted) ==> u.index < |spans|
    ensures Updated(Taken(lines, RangesOf(spans, |lines|)), UpdatesOf(sorted)) == NewValues(lines, spans, replacements)
  {
    hide LinesOf;
    var taken, updates := Taken(lines, RangesOf(spans, |lines|)), UpdatesOf(sorted);
    forall i | 0 <= i < |spans| ensures Updated(taken, updates)[i] == NewValues(lines, spans, replacements)[i] {
      FindSame(sorted, replacements, i);
      if k :| 0 <= k < |sorted| && sorted[k].index == i {
        FindKey(sorted, k);
        UpdatedAt(taken, updates, k);
      } else {
        FindNoKey(sorted, i);
        UpdatedBelow(taken, updates, i);
      }
    }
  }

  /** `replaceSpanTexts`: splices in place, last span first; an unknown span index is an error. */
  method ReplaceSpanTexts(markdown: string, spans: seq<Span>, replacements: seq<Replacement>)
    returns (r: Result<string, nat>)
    requires Placed(spans, |LinesOf(markdown)|) && DistinctKeys(replacements)
    ensures r.Ok? <==> forall x :: x in replacements ==> x.index < |spans|
    ensures r.Ok? ==> r.value == Replaced(markdown, spans, replacements)
    ensures r.Err? ==> r.error >= |spans| && exists x :: x in replacements && x.index == r.error
    ensures r.Err? ==> forall x :: x in replacements ==> x.index <= r.error
  {
    hide LinesOf, Find;
    var lines := LinesOf(markdown);
    var sorted := Sort(replacements, LaterFirst());
    SortedEntries(replacements);
    PlacedFits(spans, |lines|);
    if sorted != [] && sorted[0].index >= |spans| {
      assert sorted[0] in replacements;
      return Err(sorted[0].index);
    }
    assert forall x :: x in replacements ==> x in sorted;
    var updates := UpdatesOf(sorted);
    var out := SpliceDescending(lines, RangesOf(spans, |lines|), updates);
    UpdatedIsNewValues(lines, spans, replacements, sorted);
    r := Ok(MarkdownLines.Print(out));
  }
}
