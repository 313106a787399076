module Splice {
  // In-place replacement of disjoint ranges, by lines (scripts/translation-brief.ts) and by characters
  // (scripts/project-doc-site.ts).

  datatype Range = Range(start: nat, end: nat)

  /** One entry of the list of replacements: a range by its place in document order, and what to put there. */
  datatype Update<T> = Update(index: nat, value: seq<T>)

  /** Ranges in document order that do not overlap, between `from` and `n`. */
  predicate Fits(ranges: seq<Range>, from: nat, n: nat) {
    if ranges == [] then from <= n
    else from <= ranges[0].start <= ranges[0].end && Fits(ranges[1..], ranges[0].end, n)
  }

  lemma {:induction false} FitsBounds(ranges: seq<Range>, from: nat, n: nat)
    requires Fits(ranges, from, n)
    ensures from <= n
    ensures forall i :: 0 <= i < |ranges| ==> from <= ranges[i].start <= ranges[i].end <= n
    ensures forall i, j :: 0 <= i < j < |ranges| ==> ranges[i].end <= ranges[j].start
  {
    if ranges != [] {
      FitsBounds(ranges[1..], ranges[0].end, n);
      assert ranges == [ranges[0]] + ranges[1..];
    }
  }

  /** The stretches of `s[from..]` outside the ranges: before the first, between neighbours, after the last. */
  function Gaps<T>(s: seq<T>, ranges: seq<Range>, from: nat): (gaps: seq<seq<T>>)
    requires Fits(ranges, from, |s|)
    ensures |gaps| == |ranges| + 1
  {
    if ranges == [] then [s[from..]]
    else
      FitsBounds(ranges, from, |s|);
      [s[from..ranges[0].start]] + Gaps(s, ranges[1..], ranges[0].end)
  }

  /** The text of each range. */
  function Taken<T>(s: seq<T>, ranges: seq<Range>): (values: seq<seq<T>>)
    requires forall i :: 0 <= i < |ranges| ==> ranges[i].start <= ranges[i].end <= |s|
    ensures |values| == |ranges|
  {
    seq(|ranges|, i requires 0 <= i < |ranges| => s[ranges[i].start..ranges[i].end])
  }

  /** Simultaneous substitution: the gaps stay, the i-th value stands in the i-th place. */
  function Interleave<T>(gaps: seq<seq<T>>, values: seq<seq<T>>): seq<T>
    requires |gaps| == |values| + 1
  {
    if values == [] then gaps[0]
    else gaps[0] + values[0] + Interleave(gaps[1..], values[1..])
  }

  lemma ThreeParts<T>(s: seq<T>, a: nat, b: nat, c: nat)
    requires a <= b <= c <= |s|
    ensures s[a..b] + s[b..c] + s[c..] == s[a..]
  {
  }

  lemma InterleaveOne<T>(gaps: seq<seq<T>>, values: seq<seq<T>>, restGaps: seq<seq<T>>, restValues: seq<seq<T>>)
    requires |gaps| == |values| + 1 && values != [] && restGaps == gaps[1..] && restValues == values[1..]
    ensures Interleave(gaps, values) == gaps[0] + values[0] + Interleave(restGaps, restValues)
  {
  }

  /** Gaps and ranges tile the sequence. */
  lemma {:induction false} Tiling<T>(s: seq<T>, ranges: seq<Range>, from: nat)
    requires Fits(ranges, from, |s|)
    requires forall i :: 0 <= i < |ranges| ==> ranges[i].start <= ranges[i].end <= |s|
    ensures Interleave(Gaps(s, ranges, from), Taken(s, ranges)) == s[from..]
  {
    if ranges != [] {
      var r, rest := ranges[0], ranges[1..];
      FitsBounds(ranges, from, |s|);
      var gaps, values := Gaps(s, ranges, from), Taken(s, ranges);
      assert gaps == [s[from..r.start]] + Gaps(s, rest, r.end);
      assert values[0] == s[r.start..r.end] && values[1..] == Taken(s, rest);
      hide Gaps, Taken, Interleave, Fits;
      Tiling(s, rest, r.end);
      InterleaveOne(gaps, values, Gaps(s, rest, r.end), Taken(s, rest));
      ThreeParts(s, from, r.start, r.end);
    }
  }

  /** `s.splice(start, end - start, ...value)`. */
  function SpliceAt<T>(s: seq<T>, start: nat, end: nat, value: seq<T>): seq<T>
    requires start <= end <= |s|
  {
    s[..start] + value + s[end..]
  }

  /** The ranges of the substituted sequence where the values stand. */
  function Layout<T>(gaps: seq<seq<T>>, values: seq<seq<T>>, from: nat): (ranges: seq<Range>)
    requires |gaps| == |values| + 1
    ensures |ranges| == |values|
  {
    if values == [] then []
    else
      var start := from + |gaps[0]|;
      [Range(start, start + |values[0]|)] + Layout(gaps[1..], values[1..], start + |values[0]|)
  }

  lemma ConcatParts<T>(head: seq<T>, a: seq<T>, b: seq<T>, tail: seq<T>)
    ensures var s := head + a + b + tail;
      && s[|head|..|head| + |a|] == a
      && s[|head| + |a|..|head| + |a| + |b|] == b
      && s[..|head|] == head
      && s[|head| + |a| + |b|..] == tail
  {
  }

  lemma ReadFirst<T>(s: seq<T>, head: seq<T>, gap: seq<T>, value: seq<T>, tail: seq<T>, rest: seq<Range>)
    requires s == head + gap + value + tail
    requires Fits(rest, |head| + |gap| + |value|, |s|)
    ensures var ranges := [Range(|head| + |gap|, |head| + |gap| + |value|)] + rest;
      && Fits(ranges, |head|, |s|)
      && (forall i :: 0 <= i < |ranges| ==> ranges[i].start <= ranges[i].end <= |s|)
      && Gaps(s, ranges, |head|) == [gap] + Gaps(s, rest, |head| + |gap| + |value|)
      && (forall i :: 0 <= i < |rest| ==> rest[i].start <= rest[i].end <= |s|)
      && Taken(s, ranges) == [value] + Taken(s, rest)
  {
    var ranges := [Range(|head| + |gap|, |head| + |gap| + |value|)] + rest;
    FitsBounds(rest, |head| + |gap| + |value|, |s|);
    assert ranges[1..] == rest;
    ConcatParts(head, gap, value, tail);
  }

  lemma HeadAndTail<T>(s: seq<T>)
    requires s != []
    ensures s == [s[0]] + s[1..]
  {
  }

  lemma InterleaveHead<T>(head: seq<T>, gaps: seq<seq<T>>, values: seq<seq<T>>)
    requires |gaps| == |values| + 1 && values != []
    ensures head + Interleave(gaps, values) == (head + gaps[0] + values[0]) + Interleave(gaps[1..], values[1..])
  {
  }

  /** Read at the given places, the sequence has these gaps and values. */
  ghost predicate Reads<T>(s: seq<T>, ranges: seq<Range>, from: nat, gaps: seq<seq<T>>, values: seq<seq<T>>) {
    && Fits(ranges, from, |s|)
    && (forall i :: 0 <= i < |ranges| ==> ranges[i].start <= ranges[i].end <= |s|)
    && Gaps(s, ranges, from) == gaps && Taken(s, ranges) == values
  }

  lemma ReadNone<T>(head: seq<T>, gap: seq<T>)
    ensures Reads(head + gap, [], |head|, [gap], [])
  {
    assert (head + gap)[|head|..] == gap;
  }

  lemma ReadOne<T>(head: seq<T>, gap: seq<T>, value: seq<T>, tail: seq<T>, rest: seq<Range>,
                         gaps: seq<seq<T>>, values: seq<seq<T>>)
    requires Reads(head + gap + value + tail, rest, |head| + |gap| + |value|, gaps, values)
    ensures Reads(head + gap + value + tail, [Range(|head| + |gap|, |head| + |gap| + |value|)] + rest, |head|,
                  [gap] + gaps, [value] + values)
  {
    hide Gaps, Taken, Fits;
    ReadFirst(head + gap + value + tail, head, gap, value, tail, rest);
  }

  lemma {:induction false} ReadAll<T>(head: seq<T>, gaps: seq<seq<T>>, values: seq<seq<T>>)
    requires |gaps| == |values| + 1
    ensures Reads(head + Interleave(gaps, values), Layout(gaps, values, |head|), |head|, gaps, values)
    decreases |values|
  {
    hide Reads;
    if values == [] {
      ReadNone(head, gaps[0]);
      assert gaps == [gaps[0]];
    } else {
      var newHead := head + gaps[0] + values[0];
      var rest := Layout(gaps[1..], values[1..], |newHead|);
      assert Layout(gaps, values, |head|) == [Range(|head| + |gaps[0]|, |newHead|)] + rest;
      InterleaveHead(head, gaps, values);
      hide Interleave, Layout;
      ReadAll(newHead, gaps[1..], values[1..]);
      ReadOne(head, gaps[0], values[0], Interleave(gaps[1..], values[1..]), rest, gaps[1..], values[1..]);
      HeadAndTail(gaps);
      HeadAndTail(values);
    }
  }

  /** Substitution loses nothing: the result, read at the new places, has the same gaps and the given values. */
  lemma ReadBack<T>(head: seq<T>, gaps: seq<seq<T>>, values: seq<seq<T>>)
    requires |gaps| == |values| + 1
    ensures var s, ranges := head + Interleave(gaps, values), Layout(gaps, values, |head|);
      && Fits(ranges, |head|, |s|)
      && (forall i :: 0 <= i < |ranges| ==> ranges[i].start <= ranges[i].end <= |s|)
      && Gaps(s, ranges, |head|) == gaps && Taken(s, ranges) == values
  {
    hide Gaps, Taken, Fits, Interleave, Layout;
    ReadAll(head, gaps, values);
  }

  lemma InterleaveCons<T>(s: seq<T>, ranges: seq<Range>, from: nat, values: seq<seq<T>>)
    requires Fits(ranges, from, |s|) && |values| == |ranges| && ranges != []
    ensures Fits(ranges[1..], ranges[0].end, |s|) && from <= ranges[0].start <= ranges[0].end <= |s|
    ensures Interleave(Gaps(s, ranges, from), values)
      == s[from..ranges[0].start] + values[0] + Interleave(Gaps(s, ranges[1..], ranges[0].end), values[1..])
  {
    FitsBounds(ranges, from, |s|);
    assert Gaps(s, ranges, from)[1..] == Gaps(s, ranges[1..], ranges[0].end);
  }

  lemma SpliceBehind<T>(s: seq<T>, from: nat, r: Range, tail: seq<T>, range: Range, value: seq<T>)
    requires from <= r.start <= r.end <= |s| && r.end <= range.start <= range.end && range.end - r.end <= |tail|
    ensures range.end - from <= |s[from..r.start] + s[r.start..r.end] + tail|
    ensures SpliceAt(s[from..r.start] + s[r.start..r.end] + tail, range.start - from, range.end - from, value)
      == s[from..r.start] + s[r.start..r.end] + SpliceAt(tail, range.start - r.end, range.end - r.end, value)
  {
    assert s[from..r.start] + s[r.start..r.end] == s[from..r.end];
    SpliceLater(s[from..r.end], tail, range.start - r.end, range.end - r.end, value);
  }

  /** Nothing up to and including the i-th range has been replaced. */
  ghost predicate UntouchedTo<T>(s: seq<T>, ranges: seq<Range>, values: seq<seq<T>>, i: nat) {
    && |values| == |ranges| && i < |ranges|
    && forall j :: 0 <= j <= i ==> ranges[j].start <= ranges[j].end <= |s| && values[j] == s[ranges[j].start..ranges[j].end]
  }

  /** A splice at the i-th range turns one list of values into the other. */
  ghost predicate SplicesTo<T>(s: seq<T>, ranges: seq<Range>, from: nat, values: seq<seq<T>>, updated: seq<seq<T>>, i: nat, value: seq<T>)
    requires Fits(ranges, from, |s|) && |values| == |updated| == |ranges| && i < |ranges|
  {
    var woven, range := Interleave(Gaps(s, ranges, from), values), ranges[i];
    && from <= range.start <= range.end && range.end - from <= |woven|
    && SpliceAt(woven, range.start - from, range.end - from, value) == Interleave(Gaps(s, ranges, from), updated)
  }

  lemma SpliceHead<T>(s: seq<T>, ranges: seq<Range>, from: nat, values: seq<seq<T>>, updated: seq<seq<T>>, value: seq<T>)
    requires Fits(ranges, from, |s|) && UntouchedTo(s, ranges, values, 0) && |updated| == |ranges|
    requires updated[0] == value && updated[1..] == values[1..]
    ensures SplicesTo(s, ranges, from, values, updated, 0, value)
  {
    InterleaveCons(s, ranges, from, values);
    InterleaveCons(s, ranges, from, updated);
    hide Interleave, Gaps, Fits, SpliceAt;
    SpliceFirst(s[from..ranges[0].start], values[0], Interleave(Gaps(s, ranges[1..], ranges[0].end), values[1..]), value);
  }

  lemma UpdateTail<T>(values: seq<T>, i: nat, value: T)
    requires 0 < i < |values|
    ensures values[i := value][1..] == values[1..][i - 1 := value] && values[i := value][0] == values[0]
  {
  }

  lemma SpliceTail<T>(s: seq<T>, ranges: seq<Range>, from: nat, values: seq<seq<T>>, updated: seq<seq<T>>, i: nat, value: seq<T>)
    requires Fits(ranges, from, |s|) && |values| == |updated| == |ranges| && 0 < i < |ranges|
    requires from <= ranges[0].start <= ranges[0].end <= |s| && ranges[0].end <= ranges[i].start
    requires values[0] == updated[0] == s[ranges[0].start..ranges[0].end]
    requires Fits(ranges[1..], ranges[0].end, |s|)
    requires SplicesTo(s, ranges[1..], ranges[0].end, values[1..], updated[1..], i - 1, value)
    ensures SplicesTo(s, ranges, from, values, updated, i, value)
  {
    InterleaveCons(s, ranges, from, values);
    InterleaveCons(s, ranges, from, updated);
    assert ranges[1..][i - 1] == ranges[i];
    hide Interleave, Gaps, Fits, SpliceAt;
    SpliceBehind(s, from, ranges[0], Interleave(Gaps(s, ranges[1..], ranges[0].end), values[1..]), ranges[i], value);
  }

  /** One splice at a range before which nothing has been replaced yet. */
  lemma {:induction false} SpliceOne<T>(s: seq<T>, ranges: seq<Range>, from: nat, values: seq<seq<T>>, i: nat, value: seq<T>)
    requires Fits(ranges, from, |s|) && UntouchedTo(s, ranges, values, i)
    ensures SplicesTo(s, ranges, from, values, values[i := value], i, value)
    decreases |ranges|
  {
    if i == 0 {
      SpliceHead(s, ranges, from, values, values[0 := value], value);
    } else {
      FitsBounds(ranges, from, |s|);
      assert UntouchedTo(s, ranges[1..], values[1..], i - 1);
      assert values[0] == s[ranges[0].start..ranges[0].end];
      hide Interleave, Gaps, SpliceAt, SplicesTo, UntouchedTo;
      SpliceOne(s, ranges[1..], ranges[0].end, values[1..], i - 1, value);
      UpdateTail(values, i, value);
      SpliceTail(s, ranges, from, values, values[i := value], i, value);
    }
  }

  lemma SpliceFirst<T>(gap: seq<T>, taken: seq<T>, tail: seq<T>, value: seq<T>)
    ensures SpliceAt(gap + taken + tail, |gap|, |gap| + |taken|, value) == gap + value + tail
  {
  }

  lemma SpliceLater<T>(head: seq<T>, tail: seq<T>, start: nat, end: nat, value: seq<T>)
    requires start <= end <= |tail|
    ensures SpliceAt(head + tail, |head| + start, |head| + end, value) == head + SpliceAt(tail, start, end, value)
  {
    assert (head + tail)[..|head| + start] == head + tail[..start];
    assert (head + tail)[|head| + end..] == tail[end..];
  }

  /** Each update stands in its own place, every other place is kept. */
  function Updated<T>(values: seq<seq<T>>, updates: seq<Update<T>>): (r: seq<seq<T>>)
    requires forall u :: u in updates ==> u.index < |values|
    ensures |r| == |values|
  {
    if updates == [] then values
    else
      var front, last := updates[..|updates| - 1], updates[|updates| - 1];
      Updated(values, front)[last.index := last.value]
  }

  ghost predicate Descending<T>(updates: seq<Update<T>>) {
    forall i, j :: 0 <= i < j < |updates| ==> updates[i].index > updates[j].index
  }

  lemma {:induction false} UpdatedBelow<T>(values: seq<seq<T>>, updates: seq<Update<T>>, j: nat)
    requires forall u :: u in updates ==> u.index < |values|
    requires j < |values| && forall i :: 0 <= i < |updates| ==> updates[i].index != j
    ensures Updated(values, updates)[j] == values[j]
  {
    if updates != [] {
      UpdatedBelow(values, updates[..|updates| - 1], j);
    }
  }

  lemma {:induction false} UpdatedAt<T>(values: seq<seq<T>>, updates: seq<Update<T>>, k: nat)
    requires forall u :: u in updates ==> u.index < |values|
    requires k < |updates| && forall i, j :: 0 <= i < j < |updates| ==> updates[i].index != updates[j].index
    ensures Updated(values, updates)[updates[k].index] == updates[k].value
  {
    if k < |updates| - 1 {
      UpdatedAt(values, updates[..|updates| - 1], k);
    }
  }

  /** Splices from the last range to the first are one simultaneous substitution. */
  method SpliceDescending<T>(s: seq<T>, ranges: seq<Range>, updates: seq<Update<T>>) returns (out: seq<T>)
    requires Fits(ranges, 0, |s|)
    requires forall i :: 0 <= i < |ranges| ==> ranges[i].start <= ranges[i].end <= |s|
    requires Descending(updates) && forall u :: u in updates ==> u.index < |ranges|
    ensures out == Interleave(Gaps(s, ranges, 0), Updated(Taken(s, ranges), updates))
  {
    out := s;
    Tiling(s, ranges, 0);
    for k := 0 to |updates|
      invariant out == Interleave(Gaps(s, ranges, 0), Updated(Taken(s, ranges), updates[..k]))
    {
      var u := updates[k];
      var range := ranges[u.index];
      ghost var before := Updated(Taken(s, ranges), updates[..k]);
      forall j | 0 <= j <= u.index ensures ranges[j].start <= ranges[j].end <= |s| && before[j] == s[ranges[j].start..ranges[j].end] {
        UpdatedBelow(Taken(s, ranges), updates[..k], j);
      }
      SpliceOne(s, ranges, 0, before, u.index, u.value);
      assert updates[..k + 1][..k] == updates[..k];
      out := out[..range.start] + u.value + out[range.end..];
    }
    assert updates[..|updates|] == updates;
  }
}
