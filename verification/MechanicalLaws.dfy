/** When the code-only update of scripts/translation-brief.ts applies, and what it computes. */
module MechanicalLaws {
  import opened Common
  import opened MarkdownLines
  import opened MechanicalUpdate
  import opened Splice
  import opened Text
  import Decimal

  function MarkerLine(index: nat): string {
    "DSH_TRANSLATION_CODE_" + Decimal.Print(index)
  }

  /** `maskCodeSpans`. */
  function Mask(markdown: string, spans: seq<Span>): string
    requires Placed(spans, |LinesOf(markdown)|)
  {
    Replaced(markdown, spans,
      seq(|spans|, i requires 0 <= i < |spans| => Replacement(spans[i].index, MarkerLine(spans[i].index) + "\n")))
  }

  /** The current spans, from the `from`-th on, whose text is not the confirmed one. */
  function ChangedFrom(current: seq<Span>, confirmed: seq<Span>, from: nat): seq<Replacement>
    requires |current| == |confirmed| && from <= |current|
    decreases |current| - from
  {
    if from == |current| then []
    else
      (if current[from].text != confirmed[from].text then [Replacement(current[from].index, current[from].text)] else [])
      + ChangedFrom(current, confirmed, from + 1)
  }

  function ComputeMechanicalUpdate(fences: Fences, confirmedSource: string, currentSource: string, counterpart: string)
    : Option<string>
    requires InOrder(fences(confirmedSource), |LinesOf(confirmedSource)|)
    requires InOrder(fences(currentSource), |LinesOf(currentSource)|)
    requires InOrder(fences(counterpart), |LinesOf(counterpart)|)
  {
    var confirmed := CodeSpansOf(fences, confirmedSource);
    var current := CodeSpansOf(fences, currentSource);
    var target := CodeSpansOf(fences, counterpart);
    if |confirmed| == 0 || |confirmed| != |current| || |confirmed| != |target| then None
    else if Mask(confirmedSource, confirmed) != Mask(currentSource, current) then None
    else if exists i :: 0 <= i < |confirmed| && confirmed[i].text != target[i].text then None
    else
      var changed := ChangedFrom(current, confirmed, 0);
      if |changed| == 0 then None else Some(Replaced(counterpart, target, changed))
  }

  /** The lines of a document outside its code blocks, stretch by stretch. */
  ghost function Prose(fences: Fences, markdown: string): (gaps: seq<seq<string>>)
    requires InOrder(fences(markdown), |LinesOf(markdown)|)
    ensures |gaps| == |fences(markdown)| + 1
  {
    var lines, spans := LinesOf(markdown), CodeSpansOf(fences, markdown);
    PlacedFits(spans, |lines|);
    Gaps(lines, RangesOf(spans, |lines|), 0)
  }

  /** The lines of each code block. */
  ghost function Codes(fences: Fences, markdown: string): (values: seq<seq<string>>)
    requires InOrder(fences(markdown), |LinesOf(markdown)|)
    ensures |values| == |fences(markdown)|
  {
    var lines, spans := LinesOf(markdown), CodeSpansOf(fences, markdown);
    PlacedFits(spans, |lines|);
    Taken(lines, RangesOf(spans, |lines|))
  }

  lemma {:induction false} GapsAt<T>(s: seq<T>, ranges: seq<Range>, from: nat, i: nat)
    requires Fits(ranges, from, |s|) && i <= |ranges|
    requires forall k :: 0 <= k < |ranges| ==> ranges[k].start <= ranges[k].end <= |s|
    ensures var start := if i == 0 then from else ranges[i - 1].end;
      var end := if i < |ranges| then ranges[i].start else |s|;
      start <= end && Gaps(s, ranges, from)[i] == s[start..end]
    decreases i
  {
    FitsBounds(ranges, from, |s|);
    if i > 0 {
      GapsAt(s, ranges[1..], ranges[0].end, i - 1);
    }
  }

  /** Code is what stands at the parser's positions, counted from line 1. */
  lemma CodesAt(fences: Fences, markdown: string, i: nat)
    requires InOrder(fences(markdown), |LinesOf(markdown)|) && i < |fences(markdown)|
    ensures var lines, at := LinesOf(markdown), fences(markdown)[i];
      Codes(fences, markdown)[i] == lines[at.0 - 1..if at.1 < |lines| then at.1 else |lines|]
  {
    hide LinesOf, SliceLines;
    PlacedFits(CodeSpansOf(fences, markdown), |LinesOf(markdown)|);
  }

  /** Prose is what stands before, between and behind the parser's positions. */
  lemma ProseAt(fences: Fences, markdown: string, i: nat)
    requires InOrder(fences(markdown), |LinesOf(markdown)|) && i <= |fences(markdown)|
    ensures var lines, at := LinesOf(markdown), fences(markdown);
      var start := if i == 0 then 0 else if at[i - 1].1 < |lines| then at[i - 1].1 else |lines|;
      var end := if i < |at| then at[i].0 - 1 else |lines|;
      start <= end && Prose(fences, markdown)[i] == lines[start..end]
  {
    hide LinesOf, SliceLines, Gaps, Fits;
    var spans := CodeSpansOf(fences, markdown);
    PlacedFits(spans, |LinesOf(markdown)|);
    GapsAt(LinesOf(markdown), RangesOf(spans, |LinesOf(markdown)|), 0, i);
  }

  /** Prose and code blocks make up the document. */
  lemma DocumentIsProseAndCode(fences: Fences, markdown: string)
    requires InOrder(fences(markdown), |LinesOf(markdown)|)
    ensures Interleave(Prose(fences, markdown), Codes(fences, markdown)) == LinesOf(markdown)
  {
    var lines, spans := LinesOf(markdown), CodeSpansOf(fences, markdown);
    PlacedFits(spans, |lines|);
    Tiling(lines, RangesOf(spans, |lines|), 0);
    assert lines[0..] == lines;
  }

  /** A code block is never empty, and its text is its lines, printed. */
  lemma CodeText(fences: Fences, markdown: string, i: nat)
    requires InOrder(fences(markdown), |LinesOf(markdown)|) && i < |fences(markdown)|
    ensures Codes(fences, markdown)[i] != [] && Lines(Codes(fences, markdown)[i])
    ensures CodeSpansOf(fences, markdown)[i].text == MarkdownLines.Print(Codes(fences, markdown)[i])
    ensures NoLoneReturn(markdown) ==> LinesOf(CodeSpansOf(fences, markdown)[i].text) == Codes(fences, markdown)[i]
  {
    LinesAreLines(markdown);
    var lines, spans := LinesOf(markdown), CodeSpansOf(fences, markdown);
    hide LinesOf, MarkdownLines.Print;
    PlacedFits(spans, |lines|);
    if NoLoneReturn(markdown) {
      ReadPrint(Codes(fences, markdown)[i]);
    }
  }

  /** Code blocks of two documents have equal texts exactly when they have equal lines. */
  lemma SameText(fences: Fences, a: string, b: string, i: nat)
    requires InOrder(fences(a), |LinesOf(a)|) && InOrder(fences(b), |LinesOf(b)|)
    requires i < |fences(a)| && i < |fences(b)|
    ensures CodeSpansOf(fences, a)[i].text == CodeSpansOf(fences, b)[i].text <==> Codes(fences, a)[i] == Codes(fences, b)[i]
  {
    CodeText(fences, a, i);
    CodeText(fences, b, i);
    hide LinesOf, MarkdownLines.Print, Codes, CodeSpansOf;
    PrintInjective(Codes(fences, a)[i], Codes(fences, b)[i]);
  }

  /** The marker lines a mask puts in place of the code blocks. */
  ghost function Marks(from: nat, n: nat): (values: seq<seq<string>>)
    ensures |values| == n
  {
    seq(n, i requires 0 <= i < n => [MarkerLine(from + i)])
  }

  lemma MarkerIsLine(index: nat)
    ensures OneLine(MarkerLine(index)) && LinesOf(MarkerLine(index) + "\n") == [MarkerLine(index)]
  {
    var line := MarkerLine(index);
    assert forall c :: c in Decimal.Print(index) ==> Decimal.IsDigit(c);
    assert '\n' !in line && '\r' !in line;
    assert Settled([line]);
    ReadPrint([line]);
    assert Join([line]) == line;
  }

  lemma MaskIs(fences: Fences, markdown: string)
    requires InOrder(fences(markdown), |LinesOf(markdown)|)
    ensures Mask(markdown, CodeSpansOf(fences, markdown))
      == MarkdownLines.Print(Interleave(Prose(fences, markdown), Marks(0, |fences(markdown)|)))
  {
    hide LinesOf, MarkdownLines.Print, MarkerLine, Interleave, Gaps, SliceLines;
    var lines, spans := LinesOf(markdown), CodeSpansOf(fences, markdown);
    var masks := seq(|spans|, i requires 0 <= i < |spans| => Replacement(spans[i].index, MarkerLine(spans[i].index) + "\n"));
    forall i | 0 <= i < |spans| ensures NewValues(lines, spans, masks)[i] == Marks(0, |spans|)[i] {
      FindKey(masks, i);
      assert masks[i].index == i;
      MarkerIsLine(i);
    }
    assert NewValues(lines, spans, masks) == Marks(0, |spans|);
  }

  /** The mask of some code block is also a prose line directly before or behind that block. */
  ghost predicate Movable(gaps: seq<seq<string>>, from: nat, n: nat)
    requires |gaps| == n + 1
  {
    exists k: nat :: k < n && MovableAt(gaps, from, k)
  }

  ghost predicate MovableAt(gaps: seq<seq<string>>, from: nat, k: nat)
    requires k + 1 < |gaps|
  {
    MarkerLine(from + k) in gaps[k] || MarkerLine(from + k) in gaps[k + 1]
  }

  lemma MovableTail(gaps: seq<seq<string>>, from: nat, n: nat)
    requires |gaps| == n + 1 && n > 0 && !Movable(gaps, from, n)
    ensures !Movable(gaps[1..], from + 1, n - 1)
  {
    if Movable(gaps[1..], from + 1, n - 1) {
      var k: nat :| k < n - 1 && MovableAt(gaps[1..], from + 1, k);
      assert MovableAt(gaps, from, k + 1);
    }
  }

  lemma MarkersDiffer(i: nat, j: nat)
    requires i != j
    ensures MarkerLine(i) != MarkerLine(j)
  {
    var head := "DSH_TRANSLATION_CODE_";
    assert MarkerLine(i)[|head|..] == Decimal.Print(i) && MarkerLine(j)[|head|..] == Decimal.Print(j);
    Decimal.ReadPrint(i);
    Decimal.ReadPrint(j);
  }

  lemma FirstMarker<T>(a: seq<T>, b: seq<T>, m: T, restA: seq<T>, restB: seq<T>)
    requires a + [m] + restA == b + [m] + restB && m !in a
    ensures |a| <= |b| && (|a| == |b| ==> a == b && restA == restB)
    ensures |a| < |b| ==> restA == b[|a| + 1..] + [m] + restB
  {
    var s := a + [m] + restA;
    assert forall k :: 0 <= k < |a| ==> s[k] in a;
    assert s[|b|] == m;
    assert s[..|a|] == a && s[..|b|] == b;
    assert s[|a| + 1..] == restA && s[|b| + 1..] == restB;
    if |a| < |b| {
      assert (b + [m] + restB)[|a| + 1..] == b[|a| + 1..] + [m] + restB;
    }
  }

  lemma LaterMarker<T>(a: seq<T>, next: T, rest: seq<T>, y: seq<T>, m: T, tail: seq<T>)
    requires a + [next] + rest == y + [m] + tail && m !in a && m != next
    ensures |y| > |a| && rest == y[|a| + 1..] + [m] + tail
  {
    var s := a + [next] + rest;
    assert forall k :: 0 <= k < |a| ==> s[k] in a;
    assert s[|y|] == m && s[|a|] == next;
    assert s[|a| + 1..] == rest && (y + [m] + tail)[|a| + 1..] == y[|a| + 1..] + [m] + tail;
  }

  lemma InterleaveMarks(gaps: seq<seq<string>>, from: nat, n: nat)
    requires |gaps| == n + 1 && n > 0
    ensures Interleave(gaps, Marks(from, n)) == gaps[0] + [MarkerLine(from)] + Interleave(gaps[1..], Marks(from + 1, n - 1))
  {
    hide MarkerLine;
    assert Marks(from, n)[0] == [MarkerLine(from)] && Marks(from, n)[1..] == Marks(from + 1, n - 1);
  }

  /** Behind its own place in a document, a mask that no neighbouring prose line repeats does not come again. */
  lemma {:induction false} NotLater(y: seq<string>, a: seq<seq<string>>, b: seq<seq<string>>, from: nat, n: nat)
    requires |a| == |b| == n + 1 && MarkerLine(from) !in a[0]
    requires !Movable(a, from + 1, n)
    ensures Interleave(a, Marks(from + 1, n)) != y + [MarkerLine(from)] + Interleave(b, Marks(from + 1, n))
    decreases n
  {
    var m := MarkerLine(from);
    if n == 0 {
      assert m in y + [m] + Interleave(b, Marks(from + 1, n));
    } else {
      var next := MarkerLine(from + 1);
      assert !MovableAt(a, from + 1, 0);
      MovableTail(a, from + 1, n);
      InterleaveMarks(a, from + 1, n);
      InterleaveMarks(b, from + 1, n);
      MarkersDiffer(from, from + 1);
      if Interleave(a, Marks(from + 1, n)) == y + [m] + Interleave(b, Marks(from + 1, n)) {
        var restA, restB := Interleave(a[1..], Marks(from + 2, n - 1)), Interleave(b[1..], Marks(from + 2, n - 1));
        LaterMarker(a[0], next, restA, y, m, b[0] + [next] + restB);
        var y' := y[|a[0]| + 1..] + [m] + b[0];
        assert y[|a[0]| + 1..] + [m] + (b[0] + [next] + restB) == y' + [next] + restB;
        NotLater(y', a[1..], b[1..], from + 1, n - 1);
      }
    }
  }

  /** The mask of a document without a movable block determines its prose, stretch by stretch. */
  lemma {:induction false} UnmaskUnique(a: seq<seq<string>>, b: seq<seq<string>>, from: nat, n: nat)
    requires |a| == |b| == n + 1 && !Movable(a, from, n)
    requires Interleave(a, Marks(from, n)) == Interleave(b, Marks(from, n))
    ensures a == b
    decreases n
  {
    if n == 0 {
      assert a == [a[0]] && b == [b[0]];
    } else {
      assert !MovableAt(a, from, 0);
      MovableTail(a, from, n);
      InterleaveMarks(a, from, n);
      InterleaveMarks(b, from, n);
      var m, restA, restB := MarkerLine(from), Interleave(a[1..], Marks(from + 1, n - 1)), Interleave(b[1..], Marks(from + 1, n - 1));
      FirstMarker(a[0], b[0], m, restA, restB);
      NotLater(if |a[0]| < |b[0]| then b[0][|a[0]| + 1..] else [], a[1..], b[1..], from, n - 1);
      UnmaskUnique(a[1..], b[1..], from + 1, n - 1);
      assert a == [a[0]] + a[1..] && b == [b[0]] + b[1..];
    }
  }

  lemma Regroup<T>(a: seq<T>, b: seq<T>, c: seq<T>)
    ensures a + b + c == a + (b + c) && [] + b + c == b + c
  {
  }

  lemma InterleaveHead<T>(head: seq<T>, gaps: seq<seq<T>>, values: seq<seq<T>>)
    requires |gaps| == |values|
    ensures Interleave([head] + gaps, values) == head + Interleave([[]] + gaps, values)
  {
    if values != [] {
      assert ([head] + gaps)[1..] == gaps && ([[]] + gaps)[1..] == gaps;
      Regroup(head, values[0], Interleave(gaps, values[1..]));
    }
  }

  /** Another division of the first two stretches around the first mask. */
  lemma Redivide(a: seq<seq<string>>, x: seq<string>, y: seq<string>, from: nat, n: nat)
    requires |a| == n + 1 && n > 0
    requires x + [MarkerLine(from)] + y == a[0] + [MarkerLine(from)] + a[1]
    ensures Interleave([x, y] + a[2..], Marks(from, n)) == Interleave(a, Marks(from, n))
  {
    var b, m, marks := [x, y] + a[2..], MarkerLine(from), Marks(from + 1, n - 1);
    InterleaveMarks(a, from, n);
    InterleaveMarks(b, from, n);
    assert a[1..] == [a[1]] + a[2..] && b[1..] == [y] + a[2..];
    InterleaveHead(a[1], a[2..], marks);
    InterleaveHead(y, a[2..], marks);
    var rest := Interleave([[]] + a[2..], marks);
    hide Interleave, Marks, MarkerLine;
    Regroup(a[0] + [m], a[1], rest);
    Regroup(x + [m], y, rest);
  }

  /** Where a block is movable, other prose has the same mask. */
  lemma {:induction false} OtherProse(a: seq<seq<string>>, from: nat, n: nat, k: nat) returns (b: seq<seq<string>>)
    requires |a| == n + 1 && k < n && MovableAt(a, from, k)
    ensures |b| == n + 1 && b != a && Interleave(b, Marks(from, n)) == Interleave(a, Marks(from, n))
    decreases k
  {
    if k > 0 {
      var rest := OtherProse(a[1..], from + 1, n - 1, k - 1);
      b := [a[0]] + rest;
      assert b[1..] == rest;
      InterleaveMarks(a, from, n);
      InterleaveMarks(b, from, n);
    } else {
      var m := MarkerLine(from);
      if m in a[0] {
        var j :| 0 <= j < |a[0]| && a[0][j] == m;
        var x, y := a[0][..j], a[0][j + 1..] + [m] + a[1];
        assert x + [m] + a[0][j + 1..] == a[0];
        assert x + [m] + y == (x + [m] + a[0][j + 1..]) + [m] + a[1];
        Redivide(a, x, y, from, n);
        b := [x, y] + a[2..];
        assert |b[0]| != |a[0]|;
      } else {
        var j :| 0 <= j < |a[1]| && a[1][j] == m;
        var x, y := a[0] + [m] + a[1][..j], a[1][j + 1..];
        assert a[1][..j] + [m] + y == a[1];
        assert x + [m] + y == a[0] + [m] + (a[1][..j] + [m] + y);
        Redivide(a, x, y, from, n);
        b := [x, y] + a[2..];
        assert |b[0]| != |a[0]|;
      }
    }
  }

  /** A mask tells the prose, stretch by stretch, exactly when no block is movable. */
  lemma MaskTellsProse(a: seq<seq<string>>, n: nat)
    requires |a| == n + 1
    ensures !Movable(a, 0, n) <==>
      forall b :: |b| == n + 1 && Interleave(b, Marks(0, n)) == Interleave(a, Marks(0, n)) ==> b == a
  {
    hide Interleave, Marks;
    if Movable(a, 0, n) {
      var k: nat :| k < n && MovableAt(a, 0, k);
      var b := OtherProse(a, 0, n, k);
    } else {
      forall b | |b| == n + 1 && Interleave(b, Marks(0, n)) == Interleave(a, Marks(0, n)) ensures b == a {
        UnmaskUnique(a, b, 0, n);
      }
    }
  }

  lemma InterleavedLines(gaps: seq<seq<string>>, values: seq<seq<string>>)
    requires |gaps| == |values| + 1
    requires forall i :: 0 <= i < |gaps| ==> Lines(gaps[i])
    requires forall i :: 0 <= i < |values| ==> Lines(values[i])
    ensures Lines(Interleave(gaps, values))
  {
    if values != [] {
      InterleavedLines(gaps[1..], values[1..]);
    }
  }

  lemma {:induction false} GapsOfLines(lines: seq<string>, ranges: seq<Range>, from: nat)
    requires Fits(ranges, from, |lines|) && Lines(lines)
    ensures forall i :: 0 <= i < |Gaps(lines, ranges, from)| ==> Lines(Gaps(lines, ranges, from)[i])
  {
    FitsBounds(ranges, from, |lines|);
    if ranges != [] {
      GapsOfLines(lines, ranges[1..], ranges[0].end);
    }
  }

  lemma ProseLines(fences: Fences, markdown: string)
    requires InOrder(fences(markdown), |LinesOf(markdown)|)
    ensures forall i :: 0 <= i < |Prose(fences, markdown)| ==> Lines(Prose(fences, markdown)[i])
  {
    LinesAreLines(markdown);
    var lines, spans := LinesOf(markdown), CodeSpansOf(fences, markdown);
    hide LinesOf, CodeSpansOf;
    PlacedFits(spans, |lines|);
    GapsOfLines(lines, RangesOf(spans, |lines|), 0);
  }

  lemma InterleaveNonempty<T>(gaps: seq<seq<T>>, values: seq<seq<T>>)
    requires |gaps| == |values| + 1 && values != [] && values[0] != []
    ensures Interleave(gaps, values) != []
  {
    assert values[0][0] in gaps[0] + values[0] + Interleave(gaps[1..], values[1..]);
  }

  /** Masks agree exactly when the prose does, stretch by stretch, unless some block of the first document is movable. */
  lemma MaskIsProse(fences: Fences, a: string, b: string)
    requires InOrder(fences(a), |LinesOf(a)|) && InOrder(fences(b), |LinesOf(b)|)
    requires |fences(a)| == |fences(b)| > 0
    requires !Movable(Prose(fences, a), 0, |fences(a)|)
    ensures Mask(a, CodeSpansOf(fences, a)) == Mask(b, CodeSpansOf(fences, b)) <==> Prose(fences, a) == Prose(fences, b)
  {
    hide LinesOf, CodeSpansOf, Mask, Prose, MarkdownLines.Print, MarkerLine, Interleave, Movable;
    var n := |fences(a)|;
    MaskIs(fences, a);
    MaskIs(fences, b);
    forall i | 0 <= i < n ensures Lines(Marks(0, n)[i]) {
      MarkerIsLine(0 + i);
    }
    ProseLines(fences, a);
    ProseLines(fences, b);
    InterleavedLines(Prose(fences, a), Marks(0, n));
    InterleavedLines(Prose(fences, b), Marks(0, n));
    assert Marks(0, n)[0] == [MarkerLine(0)];
    InterleaveNonempty(Prose(fences, a), Marks(0, n));
    InterleaveNonempty(Prose(fences, b), Marks(0, n));
    PrintInjective(Interleave(Prose(fences, a), Marks(0, n)), Interleave(Prose(fences, b), Marks(0, n)));
    if Mask(a, CodeSpansOf(fences, a)) == Mask(b, CodeSpansOf(fences, b)) {
      UnmaskUnique(Prose(fences, a), Prose(fences, b), 0, n);
    }
  }

  lemma {:induction false} ChangedKeys(current: seq<Span>, confirmed: seq<Span>, from: nat, count: nat)
    requires |current| == |confirmed| && from <= |current| && Placed(current, count)
    ensures forall x :: x in ChangedFrom(current, confirmed, from) ==> from <= x.index < |current|
    ensures DistinctKeys(ChangedFrom(current, confirmed, from))
    decreases |current| - from
  {
    if from < |current| {
      ChangedKeys(current, confirmed, from + 1, count);
      var rest := ChangedFrom(current, confirmed, from + 1);
      assert forall k :: 0 <= k < |rest| ==> rest[k] in rest;
    }
  }

  lemma ChangedFirst(current: seq<Span>, confirmed: seq<Span>, from: nat)
    requires |current| == |confirmed| && from < |current| && current[from].index == from
    ensures ChangedFrom(current, confirmed, from) ==
      if current[from].text != confirmed[from].text
      then [Replacement(from, current[from].text)] + ChangedFrom(current, confirmed, from + 1)
      else ChangedFrom(current, confirmed, from + 1)
  {
  }

  lemma {:induction false} ChangedFound(current: seq<Span>, confirmed: seq<Span>, from: nat, count: nat, i: nat)
    requires |current| == |confirmed| && from <= i < |current| && Placed(current, count)
    ensures Find(ChangedFrom(current, confirmed, from), i)
      == (if current[i].text != confirmed[i].text then Some(current[i].text) else None)
    decreases |current| - from
  {
    hide ChangedFrom, Find;
    var rest := ChangedFrom(current, confirmed, from + 1);
    ChangedFirst(current, confirmed, from);
    if from < i {
      ChangedFound(current, confirmed, from + 1, count, i);
    } else {
      ChangedKeys(current, confirmed, from + 1, count);
      assert forall k :: 0 <= k < |rest| ==> rest[k] in rest;
      FindNoKey(rest, i);
    }
    FindFirst(Replacement(from, current[from].text), rest, i);
  }

  lemma FindFirst(x: Replacement, rest: seq<Replacement>, index: nat)
    ensures Find([x] + rest, index) == if x.index == index then Some(x.text) else Find(rest, index)
  {
    assert ([x] + rest)[1..] == rest;
  }

  lemma {:induction false} NothingChanged(current: seq<Span>, confirmed: seq<Span>, from: nat)
    requires |current| == |confirmed| && from <= |current|
    ensures ChangedFrom(current, confirmed, from) == []
      <==> forall i :: from <= i < |current| ==> current[i].text == confirmed[i].text
    decreases |current| - from
  {
    if from < |current| {
      NothingChanged(current, confirmed, from + 1);
    }
  }

  /** Splicing only the changed blocks leaves all blocks as in the current source. */
  lemma ChangedSuffices(fences: Fences, confirmedSource: string, currentSource: string, counterpart: string)
    requires InOrder(fences(confirmedSource), |LinesOf(confirmedSource)|)
    requires InOrder(fences(currentSource), |LinesOf(currentSource)|)
    requires InOrder(fences(counterpart), |LinesOf(counterpart)|)
    requires |fences(confirmedSource)| == |fences(currentSource)| == |fences(counterpart)|
    requires Codes(fences, confirmedSource) == Codes(fences, counterpart)
    requires NoLoneReturn(currentSource)
    ensures var confirmed, current := CodeSpansOf(fences, confirmedSource), CodeSpansOf(fences, currentSource);
      Replaced(counterpart, CodeSpansOf(fences, counterpart), ChangedFrom(current, confirmed, 0))
      == MarkdownLines.Print(Interleave(Prose(fences, counterpart), Codes(fences, currentSource)))
  {
    var confirmed, current, target :=
      CodeSpansOf(fences, confirmedSource), CodeSpansOf(fences, currentSource), CodeSpansOf(fences, counterpart);
    var lines := LinesOf(counterpart);
    var changed := ChangedFrom(current, confirmed, 0);
    PlacedFits(target, |lines|);
    assert Codes(fences, counterpart) == Taken(lines, RangesOf(target, |lines|));
    hide LinesOf, MarkdownLines.Print, SliceLines, Interleave, Codes, CodeSpansOf;
    forall i | 0 <= i < |target| ensures NewValues(lines, target, changed)[i] == Codes(fences, currentSource)[i] {
      ChangedFound(current, confirmed, 0, |LinesOf(currentSource)|, i);
      CodeText(fences, currentSource, i);
      SameText(fences, currentSource, confirmedSource, i);
    }
    assert NewValues(lines, target, changed) == Codes(fences, currentSource);
  }

  /** Whenever an update is computed, it is the counterpart's prose around the current source's code. */
  lemma UpdateMeans(fences: Fences, confirmedSource: string, currentSource: string, counterpart: string)
    requires InOrder(fences(confirmedSource), |LinesOf(confirmedSource)|)
    requires InOrder(fences(currentSource), |LinesOf(currentSource)|)
    requires InOrder(fences(counterpart), |LinesOf(counterpart)|)
    requires NoLoneReturn(currentSource)
    ensures var r := ComputeMechanicalUpdate(fences, confirmedSource, currentSource, counterpart);
      r.Some? ==>
        && |fences(confirmedSource)| == |fences(currentSource)| == |fences(counterpart)| > 0
        && Codes(fences, confirmedSource) == Codes(fences, counterpart)
        && Codes(fences, confirmedSource) != Codes(fences, currentSource)
        && r.value == MarkdownLines.Print(Interleave(Prose(fences, counterpart), Codes(fences, currentSource)))
  {
    hide LinesOf, Mask, Prose, Codes, CodeSpansOf, Interleave, MarkdownLines.Print, Replaced, NoLoneReturn;
    CodeSpanCount(fences, confirmedSource);
    CodeSpanCount(fences, currentSource);
    CodeSpanCount(fences, counterpart);
    if ComputeMechanicalUpdate(fences, confirmedSource, currentSource, counterpart).Some? {
      SameTexts(fences, confirmedSource, counterpart);
      SameTexts(fences, confirmedSource, currentSource);
      NothingChanged(CodeSpansOf(fences, currentSource), CodeSpansOf(fences, confirmedSource), 0);
      ChangedSuffices(fences, confirmedSource, currentSource, counterpart);
    }
  }

  /**
   * Unless a block of the confirmed source is movable, an update is computed exactly when the source's
   * prose is unchanged, its code is not, and the counterpart has the confirmed code.
   */
  lemma UpdateExactly(fences: Fences, confirmedSource: string, currentSource: string, counterpart: string)
    requires InOrder(fences(confirmedSource), |LinesOf(confirmedSource)|)
    requires InOrder(fences(currentSource), |LinesOf(currentSource)|)
    requires InOrder(fences(counterpart), |LinesOf(counterpart)|)
    requires !Movable(Prose(fences, confirmedSource), 0, |fences(confirmedSource)|)
    ensures ComputeMechanicalUpdate(fences, confirmedSource, currentSource, counterpart).Some? <==>
      && Prose(fences, confirmedSource) == Prose(fences, currentSource)
      && Codes(fences, confirmedSource) != Codes(fences, currentSource)
      && Codes(fences, confirmedSource) == Codes(fences, counterpart)
  {
    hide LinesOf, Mask, Prose, Codes, CodeSpansOf, Replaced, Movable;
    var n := |fences(confirmedSource)|;
    CodeSpanCount(fences, confirmedSource);
    CodeSpanCount(fences, currentSource);
    CodeSpanCount(fences, counterpart);
    if n > 0 && n == |fences(currentSource)| == |fences(counterpart)| {
      MaskIsProse(fences, confirmedSource, currentSource);
      SameTexts(fences, confirmedSource, counterpart);
      SameTexts(fences, confirmedSource, currentSource);
      NothingChanged(CodeSpansOf(fences, currentSource), CodeSpansOf(fences, confirmedSource), 0);
    } else if n == 0 {
      assert Codes(fences, confirmedSource) == [];
    }
  }

  lemma CodeSpanCount(fences: Fences, markdown: string)
    requires InOrder(fences(markdown), |LinesOf(markdown)|)
    ensures |CodeSpansOf(fences, markdown)| == |fences(markdown)|
  {
  }

  lemma SameTexts(fences: Fences, a: string, b: string)
    requires InOrder(fences(a), |LinesOf(a)|) && InOrder(fences(b), |LinesOf(b)|)
    requires |CodeSpansOf(fences, a)| == |CodeSpansOf(fences, b)| == |fences(a)| == |fences(b)|
    ensures (forall i :: 0 <= i < |fences(a)| ==> CodeSpansOf(fences, a)[i].text == CodeSpansOf(fences, b)[i].text)
      <==> Codes(fences, a) == Codes(fences, b)
  {
    hide LinesOf, Codes, CodeSpansOf;
    forall i | 0 <= i < |fences(a)|
      ensures CodeSpansOf(fences, a)[i].text == CodeSpansOf(fences, b)[i].text <==> Codes(fences, a)[i] == Codes(fences, b)[i]
    {
      SameText(fences, a, b, i);
    }
  }

  lemma {:induction false} InterleavedKeepOut(gaps: seq<seq<string>>, values: seq<seq<string>>)
    requires |gaps| == |values| + 1
    requires forall i :: 0 <= i < |gaps| ==> Settled(gaps[i])
    requires forall i :: 0 <= i < |values| ==> Settled(values[i])
    ensures Settled(Interleave(gaps, values))
  {
    if values != [] {
      InterleavedKeepOut(gaps[1..], values[1..]);
    }
  }

  lemma {:induction false} GapsSettled(lines: seq<string>, ranges: seq<Range>, from: nat)
    requires Fits(ranges, from, |lines|) && Settled(lines)
    ensures forall i :: 0 <= i < |Gaps(lines, ranges, from)| ==> Settled(Gaps(lines, ranges, from)[i])
  {
    FitsBounds(ranges, from, |lines|);
    if ranges != [] {
      GapsSettled(lines, ranges[1..], ranges[0].end);
    }
  }

  lemma PartsSettled(fences: Fences, markdown: string)
    requires InOrder(fences(markdown), |LinesOf(markdown)|) && NoLoneReturn(markdown)
    ensures forall i :: 0 <= i < |Prose(fences, markdown)| ==> Settled(Prose(fences, markdown)[i])
    ensures forall i :: 0 <= i < |Codes(fences, markdown)| ==> Settled(Codes(fences, markdown)[i])
  {
    LinesAreLines(markdown);
    var lines, spans := LinesOf(markdown), CodeSpansOf(fences, markdown);
    hide LinesOf, CodeSpansOf, NoLoneReturn;
    PlacedFits(spans, |lines|);
    GapsSettled(lines, RangesOf(spans, |lines|), 0);
  }

  /** Read back, a computed update has the counterpart's own prose and the current source's code, in order. */
  lemma UpdateKeepsProse(fences: Fences, confirmedSource: string, currentSource: string, counterpart: string)
    requires InOrder(fences(confirmedSource), |LinesOf(confirmedSource)|)
    requires InOrder(fences(currentSource), |LinesOf(currentSource)|) && NoLoneReturn(currentSource)
    requires InOrder(fences(counterpart), |LinesOf(counterpart)|) && NoLoneReturn(counterpart)
    requires ComputeMechanicalUpdate(fences, confirmedSource, currentSource, counterpart).Some?
    ensures |fences(currentSource)| == |fences(counterpart)|
    ensures var gaps, codes := Prose(fences, counterpart), Codes(fences, currentSource);
      var lines := LinesOf(ComputeMechanicalUpdate(fences, confirmedSource, currentSource, counterpart).value);
      var ranges := Layout(gaps, codes, 0);
      && Fits(ranges, 0, |lines|)
      && (forall i :: 0 <= i < |ranges| ==> ranges[i].start <= ranges[i].end <= |lines|)
      && Gaps(lines, ranges, 0) == gaps && Taken(lines, ranges) == codes
  {
    hide LinesOf, CodeSpansOf, NoLoneReturn, MarkdownLines.Print, Settled, Prose, Codes, ComputeMechanicalUpdate;
    UpdateMeans(fences, confirmedSource, currentSource, counterpart);
    var gaps, codes := Prose(fences, counterpart), Codes(fences, currentSource);
    PartsSettled(fences, currentSource);
    PartsSettled(fences, counterpart);
    InterleavedKeepOut(gaps, codes);
    CodeText(fences, currentSource, 0);
    InterleaveNonempty(gaps, codes);
    ReadPrint(Interleave(gaps, codes));
    ReadBack([], gaps, codes);
    assert [] + Interleave(gaps, codes) == Interleave(gaps, codes);
  }

  const CONFIRMED := ["```", "```", MarkerLine(0)]
  const MOVED := [MarkerLine(0), "```", "", "```"]
  const COUNTERPART := ["```", "```", "text"]

  lemma PlainLines(lines: seq<string>)
    requires lines == CONFIRMED || lines == MOVED || lines == COUNTERPART
    ensures Settled(lines) && LinesOf(MarkdownLines.Print(lines)) == lines
  {
    MarkerIsLine(0);
    assert forall c :: c in Decimal.Print(0) ==> Decimal.IsDigit(c);
    assert '\r' !in MarkerLine(0);
    ReadPrint(lines);
  }

  lemma OneFence(fences: Fences, lines: seq<string>, start: nat, end: nat)
    requires LinesOf(MarkdownLines.Print(lines)) == lines && fences(MarkdownLines.Print(lines)) == [(start, end)]
    requires 1 <= start <= end <= |lines|
    ensures InOrder(fences(MarkdownLines.Print(lines)), |LinesOf(MarkdownLines.Print(lines))|)
    ensures Prose(fences, MarkdownLines.Print(lines)) == [lines[..start - 1], lines[end..]]
    ensures Codes(fences, MarkdownLines.Print(lines)) == [lines[start - 1..end]]
  {
    hide LinesOf, MarkdownLines.Print;
    var markdown := MarkdownLines.Print(lines);
    var spans := CodeSpansOf(fences, markdown);
    PlacedFits(spans, |lines|);
    assert RangesOf(spans, |lines|) == [Range(start - 1, end)];
    assert Gaps(lines, [Range(start - 1, end)], 0) == [lines[0..start - 1], lines[end..]];
  }

  lemma UpdateApplies(fences: Fences, a: string, b: string, c: string)
    requires InOrder(fences(a), |LinesOf(a)|) && InOrder(fences(b), |LinesOf(b)|) && InOrder(fences(c), |LinesOf(c)|)
    requires |fences(a)| == |fences(b)| == |fences(c)| > 0
    requires Mask(a, CodeSpansOf(fences, a)) == Mask(b, CodeSpansOf(fences, b))
    requires Codes(fences, a) == Codes(fences, c) && Codes(fences, a) != Codes(fences, b)
    ensures ComputeMechanicalUpdate(fences, a, b, c).Some?
  {
    hide LinesOf, Codes, Mask, CodeSpansOf, Replaced;
    CodeSpanCount(fences, a);
    CodeSpanCount(fences, b);
    CodeSpanCount(fences, c);
    SameTexts(fences, a, c);
    SameTexts(fences, a, b);
    NothingChanged(CodeSpansOf(fences, b), CodeSpansOf(fences, a), 0);
  }

  ghost predicate MovedFences(fences: Fences) {
    && fences(MarkdownLines.Print(CONFIRMED)) == [(1, 2)] && fences(MarkdownLines.Print(MOVED)) == [(2, 4)]
    && fences(MarkdownLines.Print(COUNTERPART)) == [(1, 2)]
  }

  lemma MovedDocuments(fences: Fences)
    requires MovedFences(fences)
    ensures var a, b, c := MarkdownLines.Print(CONFIRMED), MarkdownLines.Print(MOVED), MarkdownLines.Print(COUNTERPART);
      && InOrder(fences(a), |LinesOf(a)|) && InOrder(fences(b), |LinesOf(b)|) && InOrder(fences(c), |LinesOf(c)|)
      && Prose(fences, a) == [CONFIRMED[..0], CONFIRMED[2..]] && Prose(fences, b) == [MOVED[..1], MOVED[4..]]
      && Codes(fences, a) == Codes(fences, c) == [CONFIRMED[0..2]] && Codes(fences, b) == [MOVED[1..4]]
  {
    PlainLines(CONFIRMED);
    PlainLines(MOVED);
    PlainLines(COUNTERPART);
    assert CONFIRMED[0..2] == ["```", "```"] == COUNTERPART[0..2];
    hide LinesOf, MarkdownLines.Print, MarkerLine, Codes, Prose;
    OneFence(fences, CONFIRMED, 1, 2);
    OneFence(fences, MOVED, 2, 4);
    OneFence(fences, COUNTERPART, 1, 2);
  }

  /** A prose line that looks like a mask can hide that a code block moved: the update goes to the old place. */
  lemma MarkerProseHidesMove(fences: Fences)
    requires MovedFences(fences)
    ensures var a, b, c := MarkdownLines.Print(CONFIRMED), MarkdownLines.Print(MOVED), MarkdownLines.Print(COUNTERPART);
      && InOrder(fences(a), |LinesOf(a)|) && InOrder(fences(b), |LinesOf(b)|) && InOrder(fences(c), |LinesOf(c)|)
      && Prose(fences, a) != Prose(fences, b)
      && ComputeMechanicalUpdate(fences, a, b, c).Some?
  {
    var a, b, c := MarkdownLines.Print(CONFIRMED), MarkdownLines.Print(MOVED), MarkdownLines.Print(COUNTERPART);
    MovedDocuments(fences);
    assert |CONFIRMED[..0]| == 0 && |MOVED[..1]| == 1 && |CONFIRMED[0..2]| == 2 && |MOVED[1..4]| == 3;
    MovedMask(MarkerLine(0));
    hide LinesOf, MarkdownLines.Print, MarkerLine, Prose, Codes, Mask, CodeSpansOf, Interleave, CONFIRMED, MOVED, COUNTERPART, SliceLines;
    assert Prose(fences, a)[0] != Prose(fences, b)[0];
    MaskIs(fences, a);
    MaskIs(fences, b);
    assert Codes(fences, a)[0] != Codes(fences, b)[0];
    UpdateApplies(fences, a, b, c);
  }

  lemma MovedMask(m: string)
    requires m == MarkerLine(0)
    ensures Interleave([CONFIRMED[..0], CONFIRMED[2..]], Marks(0, 1)) == Interleave([MOVED[..1], MOVED[4..]], Marks(0, 1))
  {
    assert Marks(0, 1) == [[m]];
    assert CONFIRMED[..0] == [] && CONFIRMED[2..] == [m] && MOVED[..1] == [m] && MOVED[4..] == [];
    assert Interleave([CONFIRMED[..0], CONFIRMED[2..]], [[m]]) == [m, m];
    assert Interleave([MOVED[..1], MOVED[4..]], [[m]]) == [m, m];
  }
}
