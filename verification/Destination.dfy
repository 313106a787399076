/** Locating the destination of a Markdown link without a serializer, in scripts/project-doc-site.ts. */
module Destination {
  import opened Common
  import opened Splice
  import opened Text

  datatype Kind = Link | Image | Definition

  datatype Failure = NoLabelEnd | NoSeparator | NoInlineDestination | NoAngleEnd

  /** The first position of a character, or -1. */
  function IndexOf(s: string, c: char, from: nat): (r: int)
    ensures r == -1 || (from <= r < |s| && s[r] == c)
    decreases |s| - from
  {
    if from >= |s| then -1 else if s[from] == c then from else IndexOf(s, c, from + 1)
  }

  /** Where the bracket opened `depth` levels up closes; a backslash hides the character behind it. */
  function CloseFrom(s: string, index: nat, depth: int): (r: int)
    ensures r == -1 || (index <= r < |s| && s[r] == ']')
    decreases |s| - index
  {
    if index >= |s| then -1
    else if s[index] == '\\' then CloseFrom(s, index + 2, depth)
    else if s[index] == '[' then CloseFrom(s, index + 1, depth + 1)
    else if s[index] == ']' then (if depth == 1 then index else CloseFrom(s, index + 1, depth - 1))
    else CloseFrom(s, index + 1, depth)
  }

  function LabelEndOf(s: string): (r: int)
    ensures r == -1 || 0 <= r < |s|
  {
    var first := IndexOf(s, '[', 0);
    if first == -1 then -1 else CloseFrom(s, first, 0)
  }

  /** `labelEnd`. */
  method LabelEnd(source: string) returns (end: int)
    ensures end == LabelEndOf(source)
  {
    var first := IndexOf(source, '[', 0);
    if first == -1 {
      return -1;
    }
    var depth := 0;
    var index := first;
    while index < |source|
      invariant first <= index && CloseFrom(source, index, depth) == LabelEndOf(source)
      decreases |source| - index
    {
      var ch := source[index];
      if ch == '\\' {
        index := index + 1;
      } else if ch == '[' {
        depth := depth + 1;
      } else if ch == ']' {
        depth := depth - 1;
        if depth == 0 {
          return index;
        }
      }
      index := index + 1;
    }
    end := -1;
  }

  /** The end of a bare destination: an unmatched parenthesis, white space outside parentheses, or the end. */
  function BareEnd(s: string, index: nat, depth: nat): (r: nat)
    ensures r <= |s| && (index <= |s| ==> index <= r)
    decreases |s| - index
  {
    if index >= |s| then |s|
    else if s[index] == '\\' then BareEnd(s, index + 2, depth)
    else if s[index] == '(' then BareEnd(s, index + 1, depth + 1)
    else if s[index] == ')' then (if depth == 0 then index else BareEnd(s, index + 1, depth - 1))
    else if IsSpace(s[index]) && depth == 0 then index
    else BareEnd(s, index + 1, depth)
  }

  function AngleEnd(s: string, index: nat): (r: int)
    ensures r == -1 || index <= r < |s|
    decreases |s| - index
  {
    if index >= |s| then -1
    else if s[index] == '\\' then AngleEnd(s, index + 2)
    else if s[index] == '>' then index
    else AngleEnd(s, index + 1)
  }

  function SkipSpace(s: string, start: nat): (r: nat)
    requires start <= |s|
    ensures start <= r <= |s|
  {
    start + Leading(s[start..], IsSpace)
  }

  /** Where the destination may begin: past the label and its separator. */
  function DestinationStart(raw: string, kind: Kind): (r: Result<nat, Failure>)
    ensures r.Ok? ==> LabelEndOf(raw) != -1 && LabelEndOf(raw) < r.value <= |raw|
  {
    var end := LabelEndOf(raw);
    if end == -1 then Err(NoLabelEnd)
    else if kind == Definition then
      var colon := IndexOf(raw, ':', end + 1);
      if colon == -1 then Err(NoSeparator) else Ok(SkipSpace(raw, colon + 1))
    else if end + 1 < |raw| && raw[end + 1] == '(' then Ok(SkipSpace(raw, end + 2))
    else Err(NoInlineDestination)
  }

  function DestinationOf(raw: string, kind: Kind): (r: Result<Range, Failure>)
    ensures r.Ok? ==> LabelEndOf(raw) != -1 && LabelEndOf(raw) < r.value.start <= r.value.end <= |raw|
  {
    var start := DestinationStart(raw, kind);
    if start.Err? then Err(start.error)
    else if start.value < |raw| && raw[start.value] == '<' then
      var end := AngleEnd(raw, start.value + 1);
      if end == -1 then Err(NoAngleEnd) else Ok(Range(start.value + 1, end))
    else Ok(Range(start.value, BareEnd(raw, start.value, 0)))
  }

  method SkipWhitespace(source: string, start: nat) returns (index: nat)
    requires start <= |source|
    ensures index == SkipSpace(source, start)
  {
    index := start;
    while index < |source| && IsSpace(source[index])
      invariant start <= index <= |source|
      invariant forall i :: start <= i < index ==> IsSpace(source[i])
    {
      index := index + 1;
    }
    assert source[start..] == source[start..index] + source[index..];
    LeadingExact(source[start..index], source[index..], IsSpace);
  }

  method FindAngle(rawNode: string, start: nat) returns (end: int)
    ensures end == AngleEnd(rawNode, start)
  {
    var index := start;
    while index < |rawNode|
      invariant start <= index && AngleEnd(rawNode, index) == AngleEnd(rawNode, start)
      decreases |rawNode| - index
    {
      if rawNode[index] == '\\' {
        index := index + 1;
      } else if rawNode[index] == '>' {
        return index;
      }
      index := index + 1;
    }
    end := -1;
  }

  method FindBareEnd(rawNode: string, start: nat) returns (end: nat)
    ensures end == BareEnd(rawNode, start, 0)
  {
    var depth := 0;
    var index := start;
    while index < |rawNode|
      invariant start <= index && depth >= 0 && BareEnd(rawNode, index, depth) == BareEnd(rawNode, start, 0)
      decreases |rawNode| - index
    {
      var ch := rawNode[index];
      if ch == '\\' {
        index := index + 1;
      } else if ch == '(' {
        depth := depth + 1;
      } else if ch == ')' {
        if depth == 0 {
          return index;
        }
        depth := depth - 1;
      } else if IsSpace(ch) && depth == 0 {
        return index;
      }
      index := index + 1;
    }
    end := |rawNode|;
  }

  /** The first half of `destinationRange`: past the label, its separator and white space. */
  method FindStart(rawNode: string, kind: Kind) returns (r: Result<nat, Failure>)
    ensures r == DestinationStart(rawNode, kind)
  {
    hide SkipSpace, LabelEndOf, IndexOf;
    var endOfLabel := LabelEnd(rawNode);
    if endOfLabel == -1 {
      return Err(NoLabelEnd);
    }
    if kind == Definition {
      var colon := IndexOf(rawNode, ':', endOfLabel + 1);
      if colon == -1 {
        return Err(NoSeparator);
      }
      var start := SkipWhitespace(rawNode, colon + 1);
      return Ok(start);
    }
    if endOfLabel + 1 >= |rawNode| || rawNode[endOfLabel + 1] != '(' {
      return Err(NoInlineDestination);
    }
    var start := SkipWhitespace(rawNode, endOfLabel + 2);
    r := Ok(start);
  }

  /** `destinationRange`: in bounds and past the label, or one of the four errors. */
  method DestinationRange(rawNode: string, kind: Kind) returns (r: Result<Range, Failure>)
    ensures r == DestinationOf(rawNode, kind)
  {
    hide DestinationStart, BareEnd, AngleEnd, LabelEndOf;
    var found := FindStart(rawNode, kind);
    if found.Err? {
      return Err(found.error);
    }
    var start := found.value;
    if start < |rawNode| && rawNode[start] == '<' {
      var angle := FindAngle(rawNode, start + 1);
      return if angle == -1 then Err(NoAngleEnd) else Ok(Range(start + 1, angle));
    }
    var end := FindBareEnd(rawNode, start);
    r := Ok(Range(start, end));
  }

  /** Label text: brackets nest from `depth` back to none, every backslash has a character behind it. */
  predicate Balanced(text: string, depth: nat)
    decreases |text|
  {
    if text == "" then depth == 0
    else if text[0] == '\\' then |text| >= 2 && Balanced(text[2..], depth)
    else if text[0] == '[' then Balanced(text[1..], depth + 1)
    else if text[0] == ']' then depth > 0 && Balanced(text[1..], depth - 1)
    else Balanced(text[1..], depth)
  }

  /** A bare destination: parentheses nest, no white space outside them. */
  predicate Bare(text: string, depth: nat)
    decreases |text|
  {
    if text == "" then depth == 0
    else if text[0] == '\\' then |text| >= 2 && Bare(text[2..], depth)
    else if text[0] == '(' then Bare(text[1..], depth + 1)
    else if text[0] == ')' then depth > 0 && Bare(text[1..], depth - 1)
    else (IsSpace(text[0]) ==> depth > 0) && Bare(text[1..], depth)
  }

  /** The inside of an angle-bracketed destination. */
  predicate Angled(text: string)
    decreases |text|
  {
    if text == "" then true
    else if text[0] == '\\' then |text| >= 2 && Angled(text[2..])
    else text[0] != '>' && Angled(text[1..])
  }

  lemma Shift(head: string, text: string, rest: string, n: nat)
    requires n <= |text|
    ensures head + text + rest == (head + text[..n]) + text[n..] + rest
  {
    assert text == text[..n] + text[n..];
  }

  /** The label ends where its text does. */
  lemma {:induction false} CloseExact(head: string, text: string, rest: string, depth: nat)
    requires Balanced(text, depth)
    ensures CloseFrom(head + text + "]" + rest, |head|, depth + 1) == |head| + |text|
    decreases |text|
  {
    var s := head + text + "]" + rest;
    assert s == head + text + ("]" + rest);
    if text == "" {
      assert s[|head|] == ']';
    } else {
      var n := if text[0] == '\\' then 2 else 1;
      Shift(head, text, "]" + rest, n);
      assert (head + text[..n]) + text[n..] + ("]" + rest) == (head + text[..n]) + text[n..] + "]" + rest;
      CloseExact(head + text[..n], text[n..], rest,
        if text[0] == '[' then depth + 1 else if text[0] == ']' then depth - 1 else depth);
    }
  }

  lemma {:induction false} BareExact(head: string, text: string, rest: string, depth: nat)
    requires Bare(text, depth) && (rest == "" || rest[0] == ')' || IsSpace(rest[0]))
    ensures BareEnd(head + text + rest, |head|, depth) == |head| + |text|
    decreases |text|
  {
    var s := head + text + rest;
    if text == "" {
      assert rest != "" ==> s[|head|] == rest[0];
    } else {
      var n := if text[0] == '\\' then 2 else 1;
      Shift(head, text, rest, n);
      BareExact(head + text[..n], text[n..], rest,
        if text[0] == '(' then depth + 1 else if text[0] == ')' then depth - 1 else depth);
    }
  }

  lemma {:induction false} AngleExact(head: string, text: string, rest: string)
    requires Angled(text)
    ensures AngleEnd(head + text + ">" + rest, |head|) == |head| + |text|
    decreases |text|
  {
    var s := head + text + ">" + rest;
    assert s == head + text + (">" + rest);
    if text == "" {
      assert s[|head|] == '>';
    } else {
      var n := if text[0] == '\\' then 2 else 1;
      Shift(head, text, ">" + rest, n);
      assert (head + text[..n]) + text[n..] + (">" + rest) == (head + text[..n]) + text[n..] + ">" + rest;
      AngleExact(head + text[..n], text[n..], rest);
    }
  }

  lemma {:induction false} FirstFrom(s: string, c: char, from: nat, first: nat)
    requires from <= first < |s| && s[first] == c && forall i :: from <= i < first ==> s[i] != c
    ensures IndexOf(s, c, from) == first
    decreases first - from
  {
    if from < first {
      FirstFrom(s, c, from + 1, first);
    }
  }

  lemma FirstIs(head: string, c: char, rest: string)
    requires c !in head
    ensures IndexOf(head + [c] + rest, c, 0) == |head|
  {
    var s := head + [c] + rest;
    assert s[|head|] == c && forall i :: 0 <= i < |head| ==> s[i] == head[i];
    FirstFrom(s, c, 0, |head|);
  }

  /** What stands between the label and the destination. */
  ghost function Separator(kind: Kind): char {
    if kind == Definition then ':' else '('
  }

  /** The opening of a link, an image or a definition, up to its destination. */
  ghost function Opening(kind: Kind, bang: string, text: string, spaces: string): string {
    bang + "[" + text + "]" + [Separator(kind)] + spaces
  }

  lemma LabelAt(s: string, first: nat, end: nat)
    requires IndexOf(s, '[', 0) == first && first + 1 <= end && CloseFrom(s, first + 1, 1) == end
    ensures LabelEndOf(s) == end
  {
  }

  lemma OpeningParts(bang: string, text: string, tail: string)
    ensures bang + "[" + text + "]" + tail == bang + ['['] + (text + "]" + tail)
  {
    assert text + "]" + tail == text + ("]" + tail);
    assert bang + "[" + text + "]" + tail == (bang + "[") + (text + ("]" + tail));
  }

  lemma LabelOpens(bang: string, text: string, tail: string)
    requires '[' !in bang
    ensures IndexOf(bang + "[" + text + "]" + tail, '[', 0) == |bang|
  {
    hide IndexOf;
    OpeningParts(bang, text, tail);
    FirstIs(bang, '[', text + "]" + tail);
  }

  lemma OpeningLabel(bang: string, text: string, tail: string)
    requires '[' !in bang && Balanced(text, 0)
    ensures LabelEndOf(bang + "[" + text + "]" + tail) == |bang| + 1 + |text|
  {
    hide Balanced, LabelEndOf, IndexOf, CloseFrom;
    LabelOpens(bang, text, tail);
    var head := bang + "[";
    CloseExact(head, text, tail, 0);
    LabelAt(head + text + "]" + tail, |bang|, |bang| + 1 + |text|);
  }

  lemma SpacesParts(kind: Kind, bang: string, text: string, spaces: string, rest: string)
    ensures var raw, end := Opening(kind, bang, text, spaces) + rest, |bang| + 1 + |text|;
      && raw == bang + "[" + text + "]" + ([Separator(kind)] + spaces + rest)
      && raw[end + 1] == Separator(kind) && raw[end + 2..] == spaces + rest
  {
    assert Opening(kind, bang, text, spaces) + rest == (bang + "[" + text + "]") + ([Separator(kind)] + spaces + rest);
    assert |bang + "[" + text + "]"| == |bang| + 2 + |text|;
  }

  lemma StartAt(kind: Kind, raw: string, end: nat, spaces: string, rest: string)
    requires LabelEndOf(raw) == end && end + 1 < |raw| && raw[end + 1] == Separator(kind)
    requires raw[end + 2..] == spaces + rest && (forall c :: c in spaces ==> IsSpace(c))
    requires rest == "" || !IsSpace(rest[0])
    ensures DestinationStart(raw, kind) == Ok(end + 2 + |spaces|)
  {
    assert kind == Definition ==> IndexOf(raw, ':', end + 1) == end + 1;
    hide IndexOf, LabelEndOf, IsSpace;
    LeadingExact(spaces, rest, IsSpace);
  }

  lemma StartExact(kind: Kind, bang: string, text: string, spaces: string, rest: string)
    requires '[' !in bang && Balanced(text, 0)
    requires forall c :: c in spaces ==> IsSpace(c)
    requires rest == "" || !IsSpace(rest[0])
    ensures DestinationStart(Opening(kind, bang, text, spaces) + rest, kind) == Ok(|Opening(kind, bang, text, spaces)|)
  {
    assert |Opening(kind, bang, text, spaces)| == |bang| + 3 + |text| + |spaces|;
    hide DestinationStart, Balanced, LabelEndOf, Opening;
    SpacesParts(kind, bang, text, spaces, rest);
    OpeningLabel(bang, text, [Separator(kind)] + spaces + rest);
    StartAt(kind, Opening(kind, bang, text, spaces) + rest, |bang| + 1 + |text|, spaces, rest);
  }

  /** A bare destination is found exactly: what the range holds is what was written there. */
  lemma BareDestinationFound(kind: Kind, bang: string, text: string, spaces: string, dest: string, tail: string)
    requires '[' !in bang && Balanced(text, 0)
    requires forall c :: c in spaces ==> IsSpace(c)
    requires Bare(dest, 0) && dest != "" && !IsSpace(dest[0]) && dest[0] != '<'
    requires tail == "" || tail[0] == ')' || IsSpace(tail[0])
    ensures var head := Opening(kind, bang, text, spaces);
      DestinationOf(head + dest + tail, kind) == Ok(Range(|head|, |head| + |dest|))
  {
    hide Opening, DestinationStart, Bare, BareEnd, Balanced, LabelEndOf;
    var head := Opening(kind, bang, text, spaces);
    assert head + dest + tail == head + (dest + tail);
    StartExact(kind, bang, text, spaces, dest + tail);
    BareExact(head, dest, tail, 0);
    assert (head + dest + tail)[|head|] == dest[0];
  }

  lemma AngleParts(opening: string, dest: string, tail: string)
    ensures var raw := (opening + "<") + dest + ">" + tail;
      raw == opening + ("<" + dest + ">" + tail) && raw[|opening|] == '<'
  {
  }

  /** ... and so is one in angle brackets. */
  lemma AngledDestinationFound(kind: Kind, bang: string, text: string, spaces: string, dest: string, tail: string)
    requires '[' !in bang && Balanced(text, 0)
    requires (forall c :: c in spaces ==> IsSpace(c)) && Angled(dest)
    ensures var head := Opening(kind, bang, text, spaces) + "<";
      DestinationOf(head + dest + ">" + tail, kind) == Ok(Range(|head|, |head| + |dest|))
  {
    hide Opening, DestinationStart, Angled, AngleEnd, Balanced, LabelEndOf;
    var opening := Opening(kind, bang, text, spaces);
    AngleParts(opening, dest, tail);
    StartExact(kind, bang, text, spaces, "<" + dest + ">" + tail);
    AngleExact(opening + "<", dest, tail);
  }
}
