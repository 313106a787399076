module DestinationMeaning {
  // What the scans of scripts/project-doc-site.ts find in any raw node, well formed or not: which range is the
  // destination, and which texts fail with which error.

  import opened Common
  import opened Destination
  import opened Splice
  import opened Text

  /** The first bracket of the text opens a label that closes at `end`. */
  ghost predicate LabelCloses(raw: string, end: nat) {
    exists first: nat :: first < end < |raw| && LabelBetween(raw, first, end)
  }

  ghost predicate LabelBetween(raw: string, first: nat, end: nat)
    requires first < end < |raw|
  {
    && raw[first] == '[' && '[' !in raw[..first]
    && raw[end] == ']' && Balanced(raw[first + 1..end], 0)
  }

  lemma {:induction false} CloseSound(s: string, index: nat, depth: nat)
    requires CloseFrom(s, index, depth + 1) != -1
    ensures var r := CloseFrom(s, index, depth + 1); index <= r < |s| && s[r] == ']' && Balanced(s[index..r], depth)
    decreases |s| - index
  {
    var r := CloseFrom(s, index, depth + 1);
    var n := if s[index] == '\\' then 2 else 1;
    if s[index] == ']' && depth == 0 {
      assert s[index..r] == "";
    } else {
      CloseSound(s, index + n, if s[index] == '[' then depth + 1 else if s[index] == ']' then depth - 1 else depth);
      assert s[index..r][n..] == s[index + n..r] && s[index..r][0] == s[index];
    }
  }

  lemma {:induction false} FirstOrNone(s: string, c: char, from: nat)
    ensures var r := IndexOf(s, c, from);
      if r == -1 then forall i :: from <= i < |s| ==> s[i] != c
      else from <= r < |s| && s[r] == c && forall i :: from <= i < r ==> s[i] != c
    decreases |s| - from
  {
    if from < |s| && s[from] != c {
      FirstOrNone(s, c, from + 1);
    }
  }

  /** The label found is the label, and none is found only where there is none. */
  lemma LabelMeans(raw: string)
    ensures var r := LabelEndOf(raw);
      if r == -1 then forall end: nat :: !LabelCloses(raw, end)
      else LabelCloses(raw, r) && forall end: nat :: LabelCloses(raw, end) ==> end == r
  {
    FirstOrNone(raw, '[', 0);
    var r := LabelEndOf(raw);
    forall end: nat | LabelCloses(raw, end) ensures end == r {
      var first: nat :| first < end < |raw| && LabelBetween(raw, first, end);
      LabelIsFound(raw, first, end);
    }
    if r != -1 {
      var first := IndexOf(raw, '[', 0);
      assert CloseFrom(raw, first, 0) == CloseFrom(raw, first + 1, 1);
      CloseSound(raw, first + 1, 0);
      assert LabelBetween(raw, first, r);
    }
  }

  lemma Pieces(raw: string, a: nat, b: nat)
    requires a < b < |raw|
    ensures raw == raw[..a] + [raw[a]] + raw[a + 1..b] + [raw[b]] + raw[b + 1..]
  {
  }

  lemma LabelIsFound(raw: string, first: nat, end: nat)
    requires first < end < |raw| && LabelBetween(raw, first, end)
    ensures LabelEndOf(raw) == end
  {
    var bang, text, tail := raw[..first], raw[first + 1..end], raw[end + 1..];
    Pieces(raw, first, end);
    assert raw == bang + "[" + text + "]" + tail;
    OpeningLabel(bang, text, tail);
  }

  /** Where the separator stands: the first colon behind the label of a definition, a parenthesis right behind another. */
  ghost predicate SeparatorAt(raw: string, kind: Kind, end: nat, at: nat) {
    && end < at < |raw|
    && if kind == Definition then raw[at] == ':' && forall i :: end < i < at ==> raw[i] != ':'
       else at == end + 1 && raw[at] == '('
  }

  /** From `from` to `to` there is white space, and no more behind it. */
  ghost predicate Spaces(raw: string, from: nat, to: nat) {
    && from <= to <= |raw| && (forall i :: from <= i < to ==> IsSpace(raw[i]))
    && (to < |raw| ==> !IsSpace(raw[to]))
  }

  ghost predicate StartsAt(raw: string, kind: Kind, start: nat) {
    exists end: nat, at: nat :: LabelCloses(raw, end) && SeparatorAt(raw, kind, end, at) && Spaces(raw, at + 1, start)
  }

  lemma SkipMeans(raw: string, from: nat)
    requires from <= |raw|
    ensures Spaces(raw, from, SkipSpace(raw, from))
  {
    var n := Leading(raw[from..], IsSpace);
    forall i | from <= i < from + n ensures IsSpace(raw[i]) {
      assert raw[from..][i - from] == raw[i];
    }
    assert from + n < |raw| ==> raw[from..][n] == raw[from + n];
  }

  lemma SpacesUnique(raw: string, from: nat, a: nat, b: nat)
    requires Spaces(raw, from, a) && Spaces(raw, from, b)
    ensures a == b
  {
  }

  lemma SeparatorMeans(raw: string, kind: Kind, end: nat)
    requires LabelEndOf(raw) == end
    ensures var r := DestinationStart(raw, kind);
      && (r.Ok? ==> exists at: nat :: SeparatorAt(raw, kind, end, at) && Spaces(raw, at + 1, r.value))
      && (r.Err? ==> r.error == if kind == Definition then NoSeparator else NoInlineDestination)
      && (r.Err? ==> forall at: nat :: !SeparatorAt(raw, kind, end, at))
  {
    hide LabelEndOf, SkipSpace, IndexOf;
    FirstOrNone(raw, ':', end + 1);
    var colon := IndexOf(raw, ':', end + 1);
    if kind == Definition && colon != -1 {
      SkipMeans(raw, colon + 1);
      assert SeparatorAt(raw, kind, end, colon);
    } else if kind != Definition && end + 1 < |raw| && raw[end + 1] == '(' {
      SkipMeans(raw, end + 2);
      assert SeparatorAt(raw, kind, end, end + 1);
    }
  }

  lemma SeparatorUnique(raw: string, kind: Kind, end: nat, a: nat, b: nat)
    requires SeparatorAt(raw, kind, end, a) && SeparatorAt(raw, kind, end, b)
    ensures a == b
  {
  }

  /** The one place where the destination may begin, or the error for the part that is not there. */
  lemma StartMeans(raw: string, kind: Kind)
    ensures var r := DestinationStart(raw, kind);
      && (forall start: nat :: r == Ok(start) <==> StartsAt(raw, kind, start))
      && (r == Err(NoLabelEnd) <==> forall end: nat :: !LabelCloses(raw, end))
      && (r.Err? && r.error != NoLabelEnd ==> r.error == if kind == Definition then NoSeparator else NoInlineDestination)
  {
    LabelMeans(raw);
    var r, end := DestinationStart(raw, kind), LabelEndOf(raw);
    if end != -1 {
      SeparatorMeans(raw, kind, end);
      hide DestinationStart, LabelEndOf, LabelCloses, SeparatorAt, Spaces;
      forall start: nat | StartsAt(raw, kind, start) ensures r == Ok(start) {
        var e: nat, at: nat :| LabelCloses(raw, e) && SeparatorAt(raw, kind, e, at) && Spaces(raw, at + 1, start);
        if r.Ok? {
          var b: nat :| SeparatorAt(raw, kind, end, b) && Spaces(raw, b + 1, r.value);
          SeparatorUnique(raw, kind, end, at, b);
          SpacesUnique(raw, at + 1, start, r.value);
        }
      }
      if r.Ok? {
        assert StartsAt(raw, kind, r.value);
      }
    }
  }

  lemma {:induction false} AngleSound(s: string, index: nat)
    requires AngleEnd(s, index) != -1
    ensures var r := AngleEnd(s, index); index <= r < |s| && s[r] == '>' && Angled(s[index..r])
    decreases |s| - index
  {
    var r := AngleEnd(s, index);
    if s[index] == '>' {
      assert s[index..r] == "";
    } else {
      var n := if s[index] == '\\' then 2 else 1;
      AngleSound(s, index + n);
      assert s[index..r][n..] == s[index + n..r] && s[index..r][0] == s[index];
    }
  }

  ghost predicate AngleCloses(raw: string, from: nat, end: nat) {
    from <= end < |raw| && raw[end] == '>' && Angled(raw[from..end])
  }

  lemma AngleMeans(raw: string, from: nat)
    ensures var r := AngleEnd(raw, from);
      if r == -1 then forall end: nat :: !AngleCloses(raw, from, end)
      else AngleCloses(raw, from, r) && forall end: nat :: AngleCloses(raw, from, end) ==> end == r
  {
    forall end: nat | AngleCloses(raw, from, end) ensures end == AngleEnd(raw, from) {
      assert raw == raw[..from] + raw[from..end] + ">" + raw[end + 1..];
      AngleExact(raw[..from], raw[from..end], raw[end + 1..]);
    }
    if AngleEnd(raw, from) != -1 {
      AngleSound(raw, from);
    }
  }

  /** A bare destination up to an unmatched parenthesis, white space outside parentheses or the end. */
  ghost predicate BareCloses(raw: string, from: nat, end: nat) {
    && from <= end <= |raw| && Bare(raw[from..end], 0)
    && (end < |raw| ==> raw[end] == ')' || IsSpace(raw[end]))
  }

  lemma {:induction false} BareSound(s: string, index: nat, depth: nat)
    requires BareEnd(s, index, depth) < |s|
    ensures var r := BareEnd(s, index, depth); index <= r && (s[r] == ')' || IsSpace(s[r])) && Bare(s[index..r], depth)
    decreases |s| - index
  {
    var r := BareEnd(s, index, depth);
    var c := s[index];
    if c != '\\' && c != '(' && ((c == ')' && depth == 0) || (c != ')' && IsSpace(c) && depth == 0)) {
      assert s[index..r] == "";
    } else {
      var n := if c == '\\' then 2 else 1;
      BareSound(s, index + n, if c == '(' then depth + 1 else if c == ')' then depth - 1 else depth);
      assert s[index..r][n..] == s[index + n..r] && s[index..r][0] == c;
    }
  }

  /** A bare destination that closes nowhere runs to the end of the node. */
  lemma BareMeans(raw: string, from: nat)
    requires from <= |raw|
    ensures var r := BareEnd(raw, from, 0);
      && (BareCloses(raw, from, r) || (r == |raw| && forall end: nat :: !BareCloses(raw, from, end)))
      && forall end: nat :: BareCloses(raw, from, end) ==> end == r
  {
    forall end: nat | BareCloses(raw, from, end) ensures end == BareEnd(raw, from, 0) {
      assert raw == raw[..from] + raw[from..end] + raw[end..];
      BareExact(raw[..from], raw[from..end], raw[end..], 0);
    }
    if BareEnd(raw, from, 0) < |raw| {
      BareSound(raw, from, 0);
    }
  }

  /** The destination of a raw node. */
  ghost predicate Stands(raw: string, kind: Kind, range: Range) {
    exists start: nat :: StartsAt(raw, kind, start) && EndsAt(raw, start, range)
  }

  ghost predicate EndsAt(raw: string, start: nat, range: Range) {
    if start < |raw| && raw[start] == '<' then range.start == start + 1 && AngleCloses(raw, start + 1, range.end)
    else
      && range.start == start
      && (BareCloses(raw, start, range.end) || (range.end == |raw| && forall end: nat :: !BareCloses(raw, start, end)))
  }

  lemma EndMeans(raw: string, start: nat, range: Range)
    requires start <= |raw|
    ensures EndsAt(raw, start, range) <==>
      if start < |raw| && raw[start] == '<' then AngleEnd(raw, start + 1) != -1 && range == Range(start + 1, AngleEnd(raw, start + 1))
      else range == Range(start, BareEnd(raw, start, 0))
  {
    AngleMeans(raw, start + 1);
    BareMeans(raw, start);
    hide AngleEnd, BareEnd, AngleCloses, BareCloses;
  }

  lemma FromStart(raw: string, kind: Kind, start: nat)
    requires DestinationStart(raw, kind) == Ok(start)
    ensures forall range :: DestinationOf(raw, kind) == Ok(range) <==> EndsAt(raw, start, range)
    ensures DestinationOf(raw, kind).Err? ==> DestinationOf(raw, kind).error == NoAngleEnd
  {
    forall range ensures DestinationOf(raw, kind) == Ok(range) <==> EndsAt(raw, start, range) {
      EndMeans(raw, start, range);
    }
  }

  /** A range is found exactly where the destination stands; a node without one fails for the first part it lacks. */
  lemma DestinationMeans(raw: string, kind: Kind)
    ensures var r := DestinationOf(raw, kind);
      && (forall range :: r == Ok(range) <==> Stands(raw, kind, range))
      && (r == Err(NoLabelEnd) <==> forall end: nat :: !LabelCloses(raw, end))
      && (r == Err(NoAngleEnd) <==> exists start: nat :: StartsAt(raw, kind, start) && forall range :: !EndsAt(raw, start, range))
      && (r == Err(NoSeparator) ==> kind == Definition) && (r == Err(NoInlineDestination) ==> kind != Definition)
  {
    StartMeans(raw, kind);
    var found := DestinationStart(raw, kind);
    var r := DestinationOf(raw, kind);
    assert found.Err? ==> r == Err(found.error);
    if found.Ok? {
      FromStart(raw, kind, found.value);
    }
    hide DestinationOf, DestinationStart, StartsAt, EndsAt, LabelCloses;
    assert r == Err(NoAngleEnd) ==> found.Ok? && forall range :: r != Ok(range);
  }
}
