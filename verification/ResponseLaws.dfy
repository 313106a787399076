/**
 * Parsing gives back a rendered response exactly when no body line hides a later delimiter between
 * carriage returns or Unicode line separators (scripts/translation-prompt.ts). The rendered text is a
 * list of eleven parts joined by line feeds; every search of the parser is followed to the part in
 * which it ends.
 */
module ResponseLaws {
  import opened Common
  import opened Text
  import opened ResponseBody
  import opened ResponseCodec

  // ---------------------------------------------------------------- texts joined from parts

  function Offset(parts: seq<string>, i: nat): nat
    requires i <= |parts|
  {
    if i == 0 then 0 else Offset(parts, i - 1) + |parts[i - 1]| + 1
  }

  lemma {:induction false} OffsetShift(parts: seq<string>, i: nat)
    requires 0 < i <= |parts|
    ensures Offset(parts, i) == |parts[0]| + 1 + Offset(parts[1..], i - 1)
  {
    if i > 1 {
      OffsetShift(parts, i - 1);
    }
  }

  lemma {:induction false} OffsetsAscend(parts: seq<string>, i: nat, j: nat)
    requires i < j <= |parts|
    ensures Offset(parts, i) + |parts[i]| < Offset(parts, j)
  {
    if i + 1 < j {
      OffsetsAscend(parts, i, j - 1);
    }
  }

  /** Where part `i` lies in the joined text, and the line feeds around it. */
  lemma {:induction false} PartAt(parts: seq<string>, i: nat)
    requires i < |parts|
    ensures var o, text := Offset(parts, i), Join(parts);
      && o + |parts[i]| <= |text| && text[o..o + |parts[i]|] == parts[i]
      && (i > 0 ==> o > 0 && text[o - 1] == '\n')
      && (i < |parts| - 1 ==> o + |parts[i]| < |text| && text[o + |parts[i]|] == '\n')
      && (i == |parts| - 1 ==> o + |parts[i]| == |text|)
  {
    if |parts| > 1 {
      var head, rest := parts[0] + "\n", Join(parts[1..]);
      assert Join(parts) == head + rest;
      if i > 0 {
        PartAt(parts[1..], i - 1);
        OffsetShift(parts, i);
        PlacedBehind(head, rest, Offset(parts[1..], i - 1), |parts[i]|);
      }
    }
  }

  lemma PlacedBehind(head: string, rest: string, q: nat, n: nat)
    requires q + n <= |rest| && head != ""
    ensures (head + rest)[|head| + q..|head| + q + n] == rest[q..q + n]
    ensures (head + rest)[|head| + q - 1] == if q > 0 then rest[q - 1] else head[|head| - 1]
    ensures q + n < |rest| ==> (head + rest)[|head| + q + n] == rest[q + n]
  {
  }

  ghost predicate Unbroken(s: string) {
    forall i :: 0 <= i < |s| ==> !IsTerminator(s[i])
  }

  lemma FindInOneLine(line: string, delimiter: string)
    requires Unbroken(line)
    ensures FindLine(line, delimiter) == if line == delimiter then Some(0) else None
  {
    var k := Leading(line, NotTerminator);
    assert k == |line| && line[..k] == line;
  }

  function Shifted(o: Option<nat>, shift: nat): Option<nat> {
    if o.Some? then Some(o.value + shift) else None
  }

  lemma HeadOf(head: string, t: char, rest: string)
    requires Unbroken(head) && IsTerminator(t)
    ensures var text := head + [t] + rest;
      |head| < |text| && Leading(text, NotTerminator) == |head| && text[..|head|] == head && text[|head| + 1..] == rest
  {
    assert head + [t] + rest == head + ([t] + rest);
    LeadingExact(head, [t] + rest, NotTerminator);
  }

  lemma FindStep(text: string, k: nat, line: string)
    requires k < |text| && k == Leading(text, NotTerminator)
    ensures FindLine(text, line) == if text[..k] == line then Some(0) else Shifted(FindLine(text[k + 1..], line), k + 1)
  {
    hide Leading, NotTerminator;
  }

  lemma FindAfterLine(head: string, t: char, rest: string, line: string)
    requires Unbroken(head) && IsTerminator(t)
    ensures FindLine(head + [t] + rest, line) == if head == line then Some(0) else Shifted(FindLine(rest, line), |head| + 1)
  {
    hide FindLine;
    HeadOf(head, t, rest);
    FindStep(head + [t] + rest, |head|, line);
  }

  lemma {:induction false} FindAcross(a: string, b: string, line: string)
    ensures FindLine(a + "\n" + b, line) ==
      if FindLine(a, line).Some? then FindLine(a, line) else Shifted(FindLine(b, line), |a| + 1)
    decreases |a|
  {
    hide FindLine, IsTerminator;
    var k := FirstLine(a);
    if k == |a| {
      FindInOneLine(a, line);
      FindAfterLine(a, '\n', b, line);
    } else {
      var rest := a[k + 1..];
      FindAcross(rest, b, line);
      FindAfterLine(a[..k], a[k], rest, line);
      FindAfterLine(a[..k], a[k], rest + "\n" + b, line);
      CutAtLine(a, k, "\n" + b);
      assert a + "\n" + b == a + ("\n" + b) && rest + "\n" + b == rest + ("\n" + b);
    }
  }

  lemma CutAtLine(a: string, k: nat, tail: string)
    requires k < |a|
    ensures a == a[..k] + [a[k]] + a[k + 1..] && a + tail == a[..k] + [a[k]] + (a[k + 1..] + tail)
  {
  }

  lemma FirstLine(a: string) returns (k: nat)
    ensures k <= |a| && Unbroken(a[..k]) && (k < |a| ==> IsTerminator(a[k])) && (k == |a| ==> Unbroken(a))
    ensures IsTerminator('\n')
  {
    k := Leading(a, NotTerminator);
  }

  /** A line is found in the first part that has it. */
  lemma {:induction false} FindInParts(parts: seq<string>, line: string, i: nat)
    requires i < |parts| && FindLine(parts[i], line).Some?
    requires forall j :: 0 <= j < i ==> FindLine(parts[j], line).None?
    ensures FindLine(Join(parts), line) == Some(Offset(parts, i) + FindLine(parts[i], line).value)
  {
    hide FindLine;
    if |parts| > 1 {
      FindAcross(parts[0], Join(parts[1..]), line);
      if i > 0 {
        assert FindLine(parts[0], line).None?;
        FindInParts(parts[1..], line, i - 1);
        OffsetShift(parts, i);
      }
    }
  }

  lemma {:induction false} CountAppend(a: seq<string>, b: seq<string>, line: string)
    ensures Count(a + b, line) == Count(a, line) + Count(b, line)
  {
    if a == [] {
      assert a + b == b;
    } else {
      CountAppend(a[1..], b, line);
      assert (a + b)[1..] == a[1..] + b;
    }
  }

  lemma {:induction false} CountAbsent(lines: seq<string>, line: string)
    requires forall i :: 0 <= i < |lines| ==> lines[i] != line
    ensures Count(lines, line) == 0
  {
    if lines != [] {
      CountAbsent(lines[1..], line);
    }
  }

  /** A line that stands alone as part `i` and in no other part is counted once. */
  lemma {:induction false} CountInParts(parts: seq<string>, line: string, i: int)
    requires parts != [] && OneLine(line) && i < |parts| && (i >= 0 ==> parts[i] == line)
    requires forall j :: 0 <= j < |parts| && j != i ==> Count(Split(parts[j]), line) == 0
    ensures Count(Split(Join(parts)), line) == if i >= 0 then 1 else 0
  {
    SplitOneLine(line);
    if |parts| > 1 {
      SplitTwo(parts[0], Join(parts[1..]));
      CountAppend(Split(parts[0]), Split(Join(parts[1..])), line);
      forall j | 0 <= j < |parts[1..]| && j != i - 1 ensures Count(Split(parts[1..][j]), line) == 0 {
        assert parts[1..][j] == parts[j + 1];
      }
      CountInParts(parts[1..], line, if i > 0 then i - 1 else -1);
    }
  }

  // ---------------------------------------------------------------- torn lines

  /** A line of the value, other than the delimiter itself, that shows the delimiter between other terminators. */
  ghost predicate Torn(value: string, delimiter: string) {
    exists i :: 0 <= i < |Split(value)| && Split(value)[i] != delimiter && FindLine(Split(value)[i], delimiter).Some?
  }

  lemma NotTornWithoutSeparators(value: string, delimiter: string)
    requires forall i :: 0 <= i < |value| ==> value[i] == '\n' || !IsTerminator(value[i])
    ensures !Torn(value, delimiter)
  {
    forall i | 0 <= i < |Split(value)| ensures Split(value)[i] == delimiter || FindLine(Split(value)[i], delimiter).None? {
      SplitChars(value, i);
      FindInOneLine(Split(value)[i], delimiter);
    }
  }

  lemma {:induction false} SplitChars(value: string, i: nat)
    requires i < |Split(value)|
    requires forall k :: 0 <= k < |value| ==> value[k] == '\n' || !IsTerminator(value[k])
    ensures forall k :: 0 <= k < |Split(value)[i]| ==> !IsTerminator(Split(value)[i][k])
  {
    if value != "" {
      var rest := Split(value[1..]);
      if value[0] == '\n' {
        if i > 0 {
          SplitChars(value[1..], i - 1);
        }
      } else {
        SplitChars(value[1..], i);
        assert value[0] == value[0] && !IsTerminator(value[0]);
        assert i > 0 ==> Split(value)[i] == rest[i];
      }
    }
  }

  lemma EscapedLineShows(line: string, delimiter: string)
    requires IsDelimiter(delimiter)
    ensures FindLine(EscapeLine(line), delimiter).Some? <==> line != delimiter && FindLine(line, delimiter).Some?
  {
    hide FindLine;
    DelimiterForm(delimiter);
    if IsDelimiter(Unslashed(line)) {
      DelimiterForm(Unslashed(line));
      var k := Leading(line, IsBackslash);
      forall i | 0 <= i < |line| ensures !IsTerminator(line[i]) {
        if i >= k {
          assert line[i] == Unslashed(line)[i - k];
        } else {
          assert IsBackslash(line[i]);
        }
      }
      FindInOneLine(line, delimiter);
      FindInOneLine("\\" + line, delimiter);
      EscapeLineLaws(line);
    }
  }

  lemma {:induction false} FindInJoin(lines: seq<string>, delimiter: string)
    requires lines != []
    ensures FindLine(Join(lines), delimiter).Some? <==> exists i :: 0 <= i < |lines| && FindLine(lines[i], delimiter).Some?
  {
    if |lines| > 1 {
      FindAcross(lines[0], Join(lines[1..]), delimiter);
      FindInJoin(lines[1..], delimiter);
      if i :| 0 <= i < |lines| && FindLine(lines[i], delimiter).Some? {
        assert i > 0 ==> lines[1..][i - 1] == lines[i];
      }
      if i :| 0 <= i < |lines[1..]| && FindLine(lines[1..][i], delimiter).Some? {
        assert lines[i + 1] == lines[1..][i];
      }
    }
  }

  /** Inside an escaped body a delimiter shows exactly where the value was torn. */
  lemma TornShows(value: string, delimiter: string)
    requires IsDelimiter(delimiter)
    ensures FindLine(Escape(value), delimiter).Some? <==> Torn(value, delimiter)
  {
    hide IsDelimiter, EscapeLine, FindLine;
    var lines := Split(value);
    FindInJoin(EscapeLines(lines), delimiter);
    forall i | 0 <= i < |lines|
      ensures FindLine(EscapeLines(lines)[i], delimiter).Some? <==> lines[i] != delimiter && FindLine(lines[i], delimiter).Some?
    {
      EscapedLineShows(lines[i], delimiter);
    }
  }

  // ---------------------------------------------------------------- the rendered text

  /** The eleven parts of a rendered response, joined by line feeds: part 4k opens section k. */
  function Parts(r: Response): (parts: seq<string>)
    ensures |parts| == 11
  {
    [Open(Translation), Escape(r.translation), Close(Translation), "",
     Open(Review), Escape(r.review), Close(Review), "",
     Open(Final), Escape(r.final), Close(Final)]
  }

  lemma PartsAt(r: Response, k: nat)
    requires k < 3
    ensures Parts(r)[4 * k] == Open(SECTIONS[k]) && Parts(r)[4 * k + 2] == Close(SECTIONS[k])
    ensures Parts(r)[4 * k + 1] == Escape(Body(r, SECTIONS[k])) && (k < 2 ==> Parts(r)[4 * k + 3] == "")
  {
    hide Open, Close, Escape;
    if k == 0 {
    } else if k == 1 {
    } else {
    }
  }

  lemma JoinMore(a: string, rest: seq<string>)
    requires rest != []
    ensures Join([a] + rest) == a + "\n" + Join(rest)
  {
  }

  lemma JoinThree(a: string, b: string, c: string)
    ensures Join([a, b, c]) == a + "\n" + b + "\n" + c
  {
    JoinMore(b, [c]);
    JoinMore(a, [b, c]);
    assert [a] + [b, c] == [a, b, c] && [b] + [c] == [b, c];
  }

  lemma {:induction false} JoinAppend(xs: seq<string>, ys: seq<string>)
    requires xs != [] && ys != []
    ensures Join(xs + ys) == Join(xs) + "\n" + Join(ys)
  {
    if |xs| == 1 {
      JoinMore(xs[0], ys);
      assert xs == [xs[0]];
    } else {
      JoinAppend(xs[1..], ys);
      JoinMore(xs[0], xs[1..] + ys);
      assert xs + ys == [xs[0]] + (xs[1..] + ys);
    }
  }

  lemma RenderIsJoin(r: Response)
    ensures Render(r) == Join(Parts(r))
  {
    hide Join, Escape;
    var a := [Open(Translation), Escape(r.translation), Close(Translation)];
    var b := [Open(Review), Escape(r.review), Close(Review)];
    var c := [Open(Final), Escape(r.final), Close(Final)];
    JoinThree(a[0], a[1], a[2]);
    JoinThree(b[0], b[1], b[2]);
    JoinThree(c[0], c[1], c[2]);
    JoinOne("");
    JoinAppend(a, [""]);
    JoinAppend(a + [""], b);
    JoinAppend(a + [""] + b, [""]);
    JoinAppend(a + [""] + b + [""], c);
    assert Parts(r) == a + [""] + b + [""] + c;
    Gaps(Join(a), Join(b), Join(c));
  }

  lemma JoinOne(a: string)
    ensures Join([a]) == a
  {
  }

  lemma Gaps(a: string, b: string, c: string)
    ensures (((a + "\n" + "") + "\n" + b) + "\n" + "") + "\n" + c == a + "\n\n" + b + "\n\n" + c
  {
  }

  /** The position of a delimiter's own part. */
  function Own(k: nat, closing: bool): nat {
    if closing then 4 * k + 2 else 4 * k
  }

  function Delimiter(k: nat, closing: bool): string
    requires k < 3
  {
    if closing then Close(SECTIONS[k]) else Open(SECTIONS[k])
  }

  lemma DelimitersDiffer(k: nat, closing: bool, m: nat, other: bool)
    requires k < 3 && m < 3
    ensures IsDelimiter(Delimiter(k, closing))
    ensures Delimiter(k, closing) == Delimiter(m, other) <==> k == m && closing == other
  {
    var a, b := Delimiter(k, closing), Delimiter(m, other);
    assert |Delimiter(0, false)| == 13 && |Delimiter(0, true)| == 14 && |Delimiter(1, false)| == 8;
    assert |Delimiter(1, true)| == 9 && |Delimiter(2, false)| == 7 && |Delimiter(2, true)| == 8;
    assert Delimiter(1, false)[1] == 'r' && Delimiter(2, true)[1] == '/';
  }

  /** Where a delimiter shows in the rendered text: at its own part, and in torn bodies. */
  lemma ShowsAt(r: Response, k: nat, closing: bool, i: nat)
    requires k < 3 && i < 11
    ensures FindLine(Parts(r)[i], Delimiter(k, closing)).Some? <==>
      i == Own(k, closing) || (i % 4 == 1 && Torn(Body(r, SECTIONS[i / 4]), Delimiter(k, closing)))
    ensures i == Own(k, closing) ==> FindLine(Parts(r)[i], Delimiter(k, closing)) == Some(0)
  {
    hide FindLine, Delimiter, IsDelimiter, Escape, Open, Close;
    var m := i / 4;
    DelimitersDiffer(k, closing, m, i % 4 == 2);
    DelimiterForm(Delimiter(k, closing));
    if i % 4 == 1 {
      TornShows(Body(r, SECTIONS[m]), Delimiter(k, closing));
      PartsAt(r, m);
    } else if i % 4 == 3 {
      PartsAt(r, m);
      FindInOneLine("", Delimiter(k, closing));
    } else {
      PartIsDelimiter(r, i);
      DelimiterForm(Delimiter(m, i % 4 == 2));
      DelimitersDiffer(m, i % 4 == 2, k, closing);
      FindInOneLine(Parts(r)[i], Delimiter(k, closing));
    }
  }

  lemma PartIsDelimiter(r: Response, i: nat)
    requires i < 11 && (i % 4 == 0 || i % 4 == 2)
    ensures Parts(r)[i] == Delimiter(i / 4, i % 4 == 2)
  {
    PartsAt(r, i / 4);
  }

  /** Each delimiter is a whole line of the rendered text exactly once. */
  lemma CountedOnce(r: Response, k: nat, closing: bool)
    requires k < 3
    ensures Count(Split(Join(Parts(r))), Delimiter(k, closing)) == 1
  {
    hide Split, Join, Count, Delimiter, IsDelimiter, Escape, Open, Close;
    var line := Delimiter(k, closing);
    DelimitersDiffer(k, closing, k, closing);
    DelimiterForm(line);
    DelimiterIsOneLine(line);
    PartIsDelimiter(r, Own(k, closing));
    forall j | 0 <= j < 11 && j != Own(k, closing) ensures Count(Split(Parts(r)[j]), line) == 0 {
      var m := j / 4;
      if j % 4 == 1 {
        PartsAt(r, m);
        EscapeSplits(Body(r, SECTIONS[m]));
      } else if j % 4 == 3 {
        PartsAt(r, m);
        SplitOneLine("");
      } else {
        PartIsDelimiter(r, j);
        DelimitersDiffer(m, j % 4 == 2, k, closing);
        DelimiterForm(Parts(r)[j]);
        DelimiterIsOneLine(Parts(r)[j]);
        SplitOneLine(Parts(r)[j]);
      }
      CountAbsent(Split(Parts(r)[j]), line);
    }
    CountInParts(Parts(r), line, Own(k, closing));
  }

  lemma DelimiterIsOneLine(line: string)
    requires forall i :: 0 <= i < |line| ==> !IsSpace(line[i])
    ensures OneLine(line)
  {
  }

  // ---------------------------------------------------------------- locating the sections

  lemma {:induction false} FirstShowing(parts: seq<string>, line: string, own: nat) returns (i: nat)
    requires own < |parts| && FindLine(parts[own], line).Some?
    ensures i <= own && FindLine(parts[i], line).Some? && forall j :: 0 <= j < i ==> FindLine(parts[j], line).None?
    decreases own
  {
    if j :| 0 <= j < own && FindLine(parts[j], line).Some? {
      i := FirstShowing(parts, line, j);
    } else {
      i := own;
    }
  }

  /** Where the search for a delimiter ends up: at its own line, or inside an earlier torn body. */
  lemma SearchResult(r: Response, k: nat, closing: bool) returns (i: nat, o: nat)
    requires k < 3
    ensures i <= Own(k, closing)
    ensures o + |Delimiter(k, closing)| <= |Parts(r)[i]| && FindLine(Parts(r)[i], Delimiter(k, closing)) == Some(o)
    ensures FindLine(Join(Parts(r)), Delimiter(k, closing)) == Some(Offset(Parts(r), i) + o)
    ensures i == Own(k, closing) || (i % 4 == 1 && Torn(Body(r, SECTIONS[i / 4]), Delimiter(k, closing)))
    ensures i == Own(k, closing) ==> o == 0
    ensures forall j :: 0 <= j < 3 && 4 * j + 1 < i ==> !Torn(Body(r, SECTIONS[j]), Delimiter(k, closing))
  {
    hide FindLine, Delimiter, Torn, Join, Parts;
    var line := Delimiter(k, closing);
    ShowsAt(r, k, closing, Own(k, closing));
    i := FirstShowing(Parts(r), line, Own(k, closing));
    o := FindLine(Parts(r)[i], line).value;
    ShowsAt(r, k, closing, i);
    FindInParts(Parts(r), line, i);
    forall j | 0 <= j < 3 && 4 * j + 1 < i ensures !Torn(Body(r, SECTIONS[j]), line) {
      ShowsAt(r, k, closing, 4 * j + 1);
    }
  }

  /** No body is torn at a delimiter that the parser looks for after the body has begun. */
  ghost predicate Intact(r: Response) {
    forall j, k :: 0 <= j <= k < 3 ==> IntactFor(r, j, k)
  }

  ghost predicate IntactFor(r: Response, j: nat, k: nat)
    requires j <= k < 3
  {
    !Torn(Body(r, SECTIONS[j]), Close(SECTIONS[k])) && (j < k ==> !Torn(Body(r, SECTIONS[j]), Open(SECTIONS[k])))
  }

  /** Where section `k` may begin to look for its separator. */
  function PreviousEnd(parts: seq<string>, k: nat): nat
    requires k <= 3 && |parts| == 11
  {
    if k == 0 then 0 else Offset(parts, 4 * k - 2) + |parts[4 * k - 2]|
  }

  /** A part, as far as its place goes: it lies inside, between line feeds. */
  lemma PartEnd(parts: seq<string>, i: nat)
    requires i < |parts|
    ensures var o, text := Offset(parts, i), Join(parts);
      && o + |parts[i]| <= |text|
      && (i > 0 ==> o > 0 && text[o - 1] == '\n')
      && (i < |parts| - 1 ==> o + |parts[i]| < |text| && text[o + |parts[i]|] == '\n')
    ensures Offset(parts, i + 1) == Offset(parts, i) + |parts[i]| + 1
  {
    PartAt(parts, i);
  }

  lemma PreviousEnds(r: Response, k: nat)
    requires 0 < k <= 3
    ensures PreviousEnd(Parts(r), k) == Offset(Parts(r), 4 * k - 2) + |Close(SECTIONS[k - 1])|
  {
    hide Parts, Offset, Close;
    PartsAt(r, k - 1);
  }

  /** The text before a section's opening line is empty, or exactly two line feeds. */
  lemma SeparatorAt(r: Response, k: nat)
    requires k < 3
    ensures var text, end, open := Join(Parts(r)), PreviousEnd(Parts(r), k), Offset(Parts(r), 4 * k);
      open <= |text| && end <= |text| && Slice(text, end, open) == if k == 0 then "" else "\n\n"
  {
    hide Join, Parts;
    var parts := Parts(r);
    if k == 0 {
      assert Offset(parts, 0) == PreviousEnd(parts, 0) == 0;
    } else {
      hide Offset, PreviousEnd, Slice, Close;
      PartsAt(r, k - 1);
      PartEnd(parts, 4 * k - 2);
      PartEnd(parts, 4 * k - 1);
      PreviousEnds(r, k);
      TwoFeeds(Join(parts), PreviousEnd(parts, k), Offset(parts, 4 * k));
    }
  }

  lemma TwoFeeds(text: string, end: nat, open: nat)
    requires end + 2 == open <= |text| && text[end] == '\n' && text[end + 1] == '\n'
    ensures Slice(text, end, open) == "\n\n"
  {
  }

  /** A section whose two delimiters are found at their own lines is read back exactly. */
  lemma LocateOwn(r: Response, k: nat)
    requires k < 3
    requires FindLine(Join(Parts(r)), Open(SECTIONS[k])) == Some(Offset(Parts(r), 4 * k))
    requires FindLine(Join(Parts(r)), Close(SECTIONS[k])) == Some(Offset(Parts(r), 4 * k + 2))
    ensures PreviousEnd(Parts(r), k) <= |Join(Parts(r))|
    ensures Locate(Join(Parts(r)), SECTIONS[k], PreviousEnd(Parts(r), k)) ==
      Ok(Located(Offset(Parts(r), 4 * k), Offset(Parts(r), 4 * k + 2), Body(r, SECTIONS[k]), PreviousEnd(Parts(r), k + 1)))
  {
    hide Join, Parts, FindLine, Open, Close, Split, Count, Escape, Unescape, Locate, Slice, Offset, PreviousEnd;
    var parts, text := Parts(r), Join(Parts(r));
    CountedOnce(r, k, false);
    CountedOnce(r, k, true);
    SeparatorAt(r, k);
    PartsAt(r, k);
    PreviousEnds(r, k + 1);
    PartEnd(parts, 4 * k);
    PartEnd(parts, 4 * k + 1);
    PartEnd(parts, 4 * k + 2);
    BodySlice(r, k);
    LocateAt(text, SECTIONS[k], PreviousEnd(parts, k), Offset(parts, 4 * k), Offset(parts, 4 * k + 2),
      Body(r, SECTIONS[k]), PreviousEnd(parts, k + 1));
  }

  /** What stands between the two delimiters is the escaped body. */
  lemma BodySlice(r: Response, k: nat)
    requires k < 3
    ensures var parts, text := Parts(r), Join(Parts(r));
      var start, end := Offset(parts, 4 * k) + |Open(SECTIONS[k])| + 1, Offset(parts, 4 * k + 2) - 1;
      start <= |text| && 0 <= end <= |text| && Unescape(Slice(text, start, end)) == Body(r, SECTIONS[k])
  {
    hide Join, Parts, Offset, Escape, Unescape, Open;
    PartsAt(r, k);
    PartEnd(Parts(r), 4 * k);
    PartEnd(Parts(r), 4 * k + 1);
    PartAt(Parts(r), 4 * k + 1);
    UnescapeEscape(Body(r, SECTIONS[k]));
  }

  lemma TwoLines(s: Section, separator: string)
    requires separator == if s.Translation? then "" else "\n\n"
    ensures if s.Translation? then separator == "" else separator != "" && AllNewlines(separator)
  {
  }

  /** One turn of the section loop, when both delimiters stand on lines of their own behind a proper separator. */
  lemma LocateAt(body: string, s: Section, previous: nat, open: nat, close: nat, value: string, end: nat)
    requires previous <= |body| && open + |Open(s)| < close && close + |Close(s)| <= |body|
    requires Count(Split(body), Open(s)) == 1 && Count(Split(body), Close(s)) == 1
    requires FindLine(body, Open(s)) == Some(open) && FindLine(body, Close(s)) == Some(close)
    requires Slice(body, previous, open) == if s.Translation? then "" else "\n\n"
    requires body[open + |Open(s)|] == '\n' && body[close - 1] == '\n'
    requires Unescape(Slice(body, open + |Open(s)| + 1, close - 1)) == value && end == close + |Close(s)|
    ensures Locate(body, s, previous) == Ok(Located(open, close, value, end))
  {
    hide FindLine, Count, Split, Open, Close, Unescape, Slice;
    TwoLines(s, Slice(body, previous, open));
    hide AllNewlines;
  }

  // ---------------------------------------------------------------- a body cut short

  lemma {:induction false} FoundAfterTerminator(text: string, line: string)
    requires FindLine(text, line).Some? && FindLine(text, line).value > 0
    ensures IsTerminator(text[FindLine(text, line).value - 1])
    decreases |text|
  {
    var k := Leading(text, NotTerminator);
    assert k < |text| && !NotTerminator(text[k]);
    FindStep(text, k, line);
    hide FindLine, IsTerminator;
    if FindLine(text[k + 1..], line).value > 0 {
      FoundAfterTerminator(text[k + 1..], line);
    }
  }

  lemma {:induction false} SplitPrefix(a: string, rest: string)
    ensures |Split(a)| <= |Split(a + rest)|
    ensures forall i :: 0 <= i < |Split(a)| - 1 ==> Split(a)[i] == Split(a + rest)[i]
    ensures a != "" && a[|a| - 1] != '\n' ==>
      var last := Split(a)[|Split(a)| - 1]; last != "" && last[|last| - 1] == a[|a| - 1]
  {
    if a == "" {
      assert a + rest == rest;
    } else {
      SplitPrefix(a[1..], rest);
      assert (a + rest)[1..] == a[1..] + rest && (a + rest)[0] == a[0];
      var shorter := Split(a[1..]);
      if a[0] == '\n' {
        assert Split(a)[1..] == shorter;
      } else if |shorter| > 1 {
        assert Split(a)[|Split(a)| - 1] == shorter[|shorter| - 1];
      } else if |a| > 1 {
        assert Split(a)[0] == [a[0]] + shorter[0];
      }
    }
  }

  /** What the parser takes as content when the closing delimiter shows at `o` inside the body. */
  function CutAt(body: string, o: nat): string
    requires o <= |body|
  {
    if o > 0 && body[o - 1] == '\n' then body[..o - 1] else body[..o]
  }

  lemma CutAtLineFeed(cut: string, rest: string)
    requires NoBare(Split(cut + "\n" + rest))
    ensures NoBare(Split(cut))
  {
    hide IsDelimiter, Split;
    SplitTwo(cut, rest);
    forall i | 0 <= i < |Split(cut)| ensures !IsDelimiter(Split(cut)[i]) {
      assert Split(cut)[i] == Split(cut + "\n" + rest)[i];
    }
  }

  lemma CutInsideLine(cut: string, rest: string)
    requires NoBare(Split(cut + rest)) && cut != "" && cut[|cut| - 1] != '\n' && IsTerminator(cut[|cut| - 1])
    ensures NoBare(Split(cut))
  {
    hide IsDelimiter, Split;
    SplitPrefix(cut, rest);
    NotDelimiters(cut[|cut| - 1]);
    forall i | 0 <= i < |Split(cut)| ensures !IsDelimiter(Split(cut)[i]) {
      if i < |Split(cut)| - 1 {
        assert Split(cut)[i] == Split(cut + rest)[i];
      }
    }
  }

  lemma CutHasNoBare(body: string, o: nat)
    requires NoBare(Split(body)) && o <= |body| && (o > 0 ==> IsTerminator(body[o - 1]))
    ensures NoBare(Split(CutAt(body, o)))
  {
    hide IsDelimiter, Split, NoBare;
    var cut := CutAt(body, o);
    if o == 0 {
      assert cut == "";
      NothingBare();
    } else if body[o - 1] == '\n' {
      assert body == cut + "\n" + body[o..];
      CutAtLineFeed(cut, body[o..]);
    } else {
      assert body == cut + body[o..];
      CutInsideLine(cut, body[o..]);
    }
  }

  lemma NothingBare()
    ensures NoBare(Split(""))
  {
    NotDelimiters('\r');
  }

  lemma NotDelimiters(t: char)
    requires IsTerminator(t)
    ensures !IsDelimiter("")
    ensures forall line: string :: line != "" && line[|line| - 1] == t ==> !IsDelimiter(line)
  {
    forall line: string | line != "" && line[|line| - 1] == t ensures !IsDelimiter(line) {
      if IsDelimiter(line) {
        DelimiterForm(line);
      }
    }
  }

  /** A body cut short at a torn delimiter never unescapes to the value. */
  lemma CutDiffers(value: string, delimiter: string, o: nat)
    requires IsDelimiter(delimiter) && FindLine(Escape(value), delimiter) == Some(o)
    ensures o <= |Escape(value)| && Unescape(CutAt(Escape(value), o)) != value
  {
    hide FindLine, IsDelimiter, Escape, Unescape;
    var body := Escape(value);
    DelimiterForm(delimiter);
    assert o + |delimiter| <= |body|;
    if o > 0 {
      FoundAfterTerminator(body, delimiter);
    }
    EscapeSplits(value);
    CutHasNoBare(body, o);
    EscapeUnescape(CutAt(body, o));
  }

  // ---------------------------------------------------------------- exactly the intact responses

  lemma OpensAtOwn(r: Response, k: nat)
    requires k < 3 && PreviousEnd(Parts(r), k) <= |Join(Parts(r))|
    requires Locate(Join(Parts(r)), SECTIONS[k], PreviousEnd(Parts(r), k)).Ok?
    ensures FindLine(Join(Parts(r)), Open(SECTIONS[k])) == Some(Offset(Parts(r), 4 * k))
    ensures forall j :: 0 <= j < k ==> !Torn(Body(r, SECTIONS[j]), Open(SECTIONS[k]))
  {
    hide FindLine, Torn, Join, Parts, Open, Close, Split, Count, Unescape;
    var parts := Parts(r);
    var i, o := SearchResult(r, k, false);
    if i != 4 * k {
      OffsetsAscend(parts, i, 4 * k - 2);
    }
  }

  /** A section that is read back exactly has its closing delimiter found at its own line. */
  lemma CloseFound(r: Response, k: nat, i: nat, o: nat)
    requires k < 3 && PreviousEnd(Parts(r), k) <= |Join(Parts(r))|
    requires Locate(Join(Parts(r)), SECTIONS[k], PreviousEnd(Parts(r), k)).Ok?
    requires Locate(Join(Parts(r)), SECTIONS[k], PreviousEnd(Parts(r), k)).value.value == Body(r, SECTIONS[k])
    requires FindLine(Join(Parts(r)), Open(SECTIONS[k])) == Some(Offset(Parts(r), 4 * k))
    requires i <= 4 * k + 2 && (i == 4 * k + 2 || i % 4 == 1) && o <= |Parts(r)[i]|
    requires FindLine(Parts(r)[i], Close(SECTIONS[k])) == Some(o)
    requires FindLine(Join(Parts(r)), Close(SECTIONS[k])) == Some(Offset(Parts(r), i) + o)
    ensures i == 4 * k + 2
  {
    hide FindLine, Torn, Join, Parts, Open, Close, Locate, Body, Escape, Unescape, CutAt, IsDelimiter;
    if i < 4 * k {
      OffsetsAscend(Parts(r), i, 4 * k);
      ClosesTooEarly(r, k);
    } else if i == 4 * k + 1 {
      PartsAt(r, k);
      CloseIsDelimiter(k);
      CutDiffers(Body(r, SECTIONS[k]), Close(SECTIONS[k]), o);
      CutContent(r, k, o);
    }
  }

  lemma CloseIsDelimiter(k: nat)
    requires k < 3
    ensures IsDelimiter(Close(SECTIONS[k]))
  {
    DelimitersDiffer(k, true, k, true);
  }

  lemma ClosesAtOwn(r: Response, k: nat)
    requires k < 3 && PreviousEnd(Parts(r), k) <= |Join(Parts(r))|
    requires Locate(Join(Parts(r)), SECTIONS[k], PreviousEnd(Parts(r), k)).Ok?
    requires Locate(Join(Parts(r)), SECTIONS[k], PreviousEnd(Parts(r), k)).value.value == Body(r, SECTIONS[k])
    ensures FindLine(Join(Parts(r)), Close(SECTIONS[k])) == Some(Offset(Parts(r), 4 * k + 2))
    ensures forall j :: 0 <= j <= k ==> !Torn(Body(r, SECTIONS[j]), Close(SECTIONS[k]))
  {
    hide FindLine, Torn, Join, Parts, Open, Close, Locate, Body;
    OpensAtOwn(r, k);
    var i, o := SearchResult(r, k, true);
    CloseFound(r, k, i, o);
  }

  lemma ClosesTooEarly(r: Response, k: nat)
    requires k < 3 && PreviousEnd(Parts(r), k) <= |Join(Parts(r))|
    requires FindLine(Join(Parts(r)), Open(SECTIONS[k])) == Some(Offset(Parts(r), 4 * k))
    requires var c := FindLine(Join(Parts(r)), Close(SECTIONS[k])); c.Some? && c.value < Offset(Parts(r), 4 * k)
    ensures Locate(Join(Parts(r)), SECTIONS[k], PreviousEnd(Parts(r), k)).Err?
  {
    hide FindLine, Join, Parts, Open, Close, Split, Count, Unescape;
  }

  lemma CutContent(r: Response, k: nat, o: nat)
    requires k < 3 && PreviousEnd(Parts(r), k) <= |Join(Parts(r))| && o <= |Parts(r)[4 * k + 1]|
    requires FindLine(Join(Parts(r)), Open(SECTIONS[k])) == Some(Offset(Parts(r), 4 * k))
    requires FindLine(Join(Parts(r)), Close(SECTIONS[k])) == Some(Offset(Parts(r), 4 * k + 1) + o)
    requires Locate(Join(Parts(r)), SECTIONS[k], PreviousEnd(Parts(r), k)).Ok?
    ensures Locate(Join(Parts(r)), SECTIONS[k], PreviousEnd(Parts(r), k)).value.value == Unescape(CutAt(Parts(r)[4 * k + 1], o))
  {
    hide FindLine, Join, Parts, Open, Close, Unescape, CutAt, Locate, Slice, Offset, PreviousEnd;
    var parts, text := Parts(r), Join(Parts(r));
    ContentCut(r, k, o);
    PartsAt(r, k);
    LocatedValue(text, SECTIONS[k], PreviousEnd(parts, k), Offset(parts, 4 * k), Offset(parts, 4 * k + 1) + o);
  }

  /** The content of a located section whose opening delimiter ends its line. */
  lemma LocatedValue(body: string, s: Section, previous: nat, open: nat, close: nat)
    requires previous <= |body| && FindLine(body, Open(s)) == Some(open) && FindLine(body, Close(s)) == Some(close)
    requires open + |Open(s)| + 1 <= close <= |body| && body[open + |Open(s)|] == '\n'
    requires Locate(body, s, previous).Ok?
    ensures Locate(body, s, previous).value.value ==
      Unescape(Slice(body, open + |Open(s)| + 1, if body[close - 1] == '\n' then close - 1 else close))
  {
    hide FindLine, Open, Close, Split, Count, Unescape, Slice, AllNewlines;
  }

  /** The content taken when the closing delimiter shows at `o` inside a body that stands at `start`. */
  lemma CutSlice(text: string, start: nat, body: string, o: nat)
    requires 0 < start && start + |body| <= |text| && text[start..start + |body|] == body && o <= |body|
    requires text[start - 1] == '\n'
    ensures Slice(text, start, if text[start + o - 1] == '\n' then start + o - 1 else start + o) == CutAt(body, o)
  {
    SliceFront(text, start, body, o);
    if o > 0 {
      SliceFront(text, start, body, o - 1);
    }
  }

  lemma ContentCut(r: Response, k: nat, o: nat)
    requires k < 3 && o <= |Parts(r)[4 * k + 1]|
    ensures var parts, text := Parts(r), Join(Parts(r));
      var start, close := Offset(parts, 4 * k + 1), Offset(parts, 4 * k + 1) + o;
      && start == Offset(parts, 4 * k) + |Open(SECTIONS[k])| + 1 && close <= |text| && start <= |text|
      && text[start - 1] == '\n'
      && Slice(text, start, if text[close - 1] == '\n' then close - 1 else close) == CutAt(parts[4 * k + 1], o)
  {
    hide Join, Parts, Open, Offset, Slice, CutAt;
    var parts, text := Parts(r), Join(Parts(r));
    PartsAt(r, k);
    PartEnd(parts, 4 * k);
    PartAt(parts, 4 * k + 1);
    CutSlice(text, Offset(parts, 4 * k + 1), parts[4 * k + 1], o);
  }

  lemma SliceFront(text: string, start: nat, body: string, o: nat)
    requires start + |body| <= |text| && text[start..start + |body|] == body && o <= |body|
    ensures text[start..start + o] == body[..o] && (o < |body| ==> text[start + o] == body[o])
  {
    assert text[start..start + o] == text[start..start + |body|][..o];
    assert o < |body| ==> text[start..start + |body|][o] == text[start + o];
  }

  /** Parsing the sections of a rendered response gives it back exactly when it is intact. */
  lemma SectionsRoundTrip(r: Response)
    ensures ParseSections(Join(Parts(r))) == Ok(r) <==> Intact(r)
  {
    hide Join, Parts, Locate, Torn;
    if Intact(r) {
      AfterIntact(r, 3);
      PartAt(Parts(r), 10);
    }
    if ParseSections(Join(Parts(r))) == Ok(r) {
      AfterForced(r, 3);
    }
  }

  function Bodies(r: Response, k: nat): seq<string>
    requires k <= 3
  {
    [r.translation, r.review, r.final][..k]
  }

  lemma BodiesStep(r: Response, k: nat)
    requires k < 3
    ensures Bodies(r, k + 1) == Bodies(r, k) + [Body(r, SECTIONS[k])]
  {
  }

  lemma AfterNone(body: string)
    ensures After(body, 0) == Ok((0, []))
  {
  }

  lemma AfterStep(body: string, k: nat, previous: nat, values: seq<string>, located: Located)
    requires 0 < k <= 3 && After(body, k - 1) == Ok((previous, values))
    requires Locate(body, SECTIONS[k - 1], previous) == Ok(located)
    ensures After(body, k) == Ok((located.closeEnd, values + [located.value]))
  {
    hide Locate;
  }

  lemma NotTornAt(r: Response, j: nat, k: nat, closing: bool)
    requires Intact(r) && j <= k < 3 && (j < k || closing)
    ensures !Torn(Body(r, SECTIONS[j]), Delimiter(k, closing))
  {
    hide Torn, Body, Open, Close;
    assert IntactFor(r, j, k);
  }

  /** An intact response shows each delimiter at its own line first. */
  lemma OwnFound(r: Response, k: nat, closing: bool)
    requires k < 3 && Intact(r)
    ensures FindLine(Join(Parts(r)), Delimiter(k, closing)) == Some(Offset(Parts(r), Own(k, closing)))
  {
    hide Join, Parts, Torn, FindLine, Offset, Delimiter, Intact, Body;
    var i, o := SearchResult(r, k, closing);
    if i != Own(k, closing) {
      NotTornAt(r, i / 4, k, closing);
    }
  }

  lemma {:induction false} AfterIntact(r: Response, k: nat)
    requires k <= 3 && Intact(r)
    ensures After(Join(Parts(r)), k) == Ok((PreviousEnd(Parts(r), k), Bodies(r, k)))
  {
    hide Join, Parts, Locate, FindLine, Intact, Open, Close, Offset;
    if k == 0 {
      AfterNone(Join(Parts(r)));
    } else {
      hide PreviousEnd, Bodies, After;
      AfterIntact(r, k - 1);
      BodiesStep(r, k - 1);
      OwnFound(r, k - 1, false);
      OwnFound(r, k - 1, true);
      LocateOwn(r, k - 1);
      AfterStep(Join(Parts(r)), k, PreviousEnd(Parts(r), k - 1), Bodies(r, k - 1),
        Locate(Join(Parts(r)), SECTIONS[k - 1], PreviousEnd(Parts(r), k - 1)).value);
    }
  }

  lemma {:induction false} AfterForced(r: Response, k: nat)
    requires k <= 3 && After(Join(Parts(r)), k).Ok? && After(Join(Parts(r)), k).value.1 == Bodies(r, k)
    ensures After(Join(Parts(r)), k).value.0 == PreviousEnd(Parts(r), k)
    ensures forall j, m :: 0 <= j <= m < k ==> IntactFor(r, j, m)
  {
    hide Join, Parts, Locate, Torn, FindLine;
    if k > 0 {
      var before := After(Join(Parts(r)), k - 1).value;
      var located := Locate(Join(Parts(r)), SECTIONS[k - 1], before.0).value;
      BodiesStep(r, k - 1);
      assert before.1 == (before.1 + [located.value])[..k - 1] == Bodies(r, k)[..k - 1] == Bodies(r, k - 1);
      AfterForced(r, k - 1);
      OpensAtOwn(r, k - 1);
      ClosesAtOwn(r, k - 1);
      LocateOwn(r, k - 1);
    }
  }

  // ---------------------------------------------------------------- the whole codec

  lemma OuterDelimiters()
    ensures Open(Translation) != "" && Open(Translation)[0] == '<'
    ensures |Close(Final)| > 1 && Close(Final)[|Close(Final)| - 1] == '>'
  {
    DelimitersDiffer(0, false, 0, false);
    DelimitersDiffer(2, true, 2, true);
    DelimiterForm(Delimiter(0, false));
    DelimiterForm(Delimiter(2, true));
  }

  lemma RenderedEnds(r: Response)
    ensures var text := Render(r); |text| > 1 && text[0] == '<' && text[|text| - 1] == '>'
  {
    hide Join, Render, Parts, Escape;
    RenderIsJoin(r);
    PartAt(Parts(r), 0);
    PartAt(Parts(r), 10);
    PartsAt(r, 0);
    PartsAt(r, 2);
    OuterDelimiters();
    hide Open, Close, Offset;
    Ends(Render(r), Open(Translation), Close(Final), Offset(Parts(r), 10));
  }

  lemma Ends(text: string, first: string, last: string, o: nat)
    requires |first| <= |text| && text[..|first|] == first && first != "" && last != ""
    requires o + |last| == |text| && text[o..] == last
    ensures text[0] == first[0] && text[|text| - 1] == last[|last| - 1]
  {
    assert text[..|first|][0] == text[0];
    assert text[o..][|last| - 1] == text[|text| - 1];
  }

  lemma BareTextStays(text: string)
    requires |text| > 1 && text[0] == '<' && text[|text| - 1] == '>'
    ensures Trim(text) == text && Unwrap(text) == text
  {
    assert !IsSpace('<') && !IsSpace('>');
    if StartsWith(text, "```\n") {
      PrefixAgrees(text, "```\n", 0);
    }
    if StartsWith(text, "```xml\n") {
      PrefixAgrees(text, "```xml\n", 0);
    }
  }

  /** Parsing a rendered response gives it back exactly when it is intact. */
  lemma ResponseRoundTrip(r: Response)
    ensures Parse(Render(r)) == Ok(r) <==> Intact(r)
  {
    hide ParseSections, Intact, Unwrap, Render;
    RenderedEnds(r);
    BareTextStays(Render(r));
    RenderIsJoin(r);
    SectionsRoundTrip(r);
  }

  /** Bodies whose only line terminator is the line feed always come back. */
  lemma PlainResponseRoundTrip(r: Response)
    requires forall s, i :: 0 <= i < |Body(r, s)| ==> Body(r, s)[i] == '\n' || !IsTerminator(Body(r, s)[i])
    ensures Parse(Render(r)) == Ok(r)
  {
    hide Torn, Parse, Render;
    forall j, k | 0 <= j <= k < 3 ensures IntactFor(r, j, k) {
      NotTornWithoutSeparators(Body(r, SECTIONS[j]), Close(SECTIONS[k]));
      NotTornWithoutSeparators(Body(r, SECTIONS[j]), Open(SECTIONS[k]));
    }
    ResponseRoundTrip(r);
  }

  lemma HiddenBehindReturn(delimiter: string)
    requires IsDelimiter(delimiter)
    ensures Torn("\r" + delimiter, delimiter)
  {
    hide IsDelimiter;
    var value := "\r" + delimiter;
    DelimiterForm(delimiter);
    assert OneLine(value);
    SplitOneLine(value);
    assert value == "" + ['\r'] + delimiter;
    FindAfterLine("", '\r', delimiter, delimiter);
    FindInOneLine(delimiter, delimiter);
    assert Split(value)[0] == value && |value| > |delimiter|;
  }

  /** A carriage return is enough to hide a delimiter from the escape and show it to the search. */
  lemma CarriageReturnBreaks()
    ensures var r := Response("\r" + Close(Translation), "", ""); Parse(Render(r)) != Ok(r)
  {
    hide Parse, Render, Torn, IsDelimiter;
    var r := Response("\r" + Close(Translation), "", "");
    DelimitersDiffer(0, true, 0, true);
    HiddenBehindReturn(Close(Translation));
    assert !IntactFor(r, 0, 0);
    ResponseRoundTrip(r);
  }

  /** A fenced wrapper around a rendered response changes nothing. */
  lemma WrapperIsIgnored(r: Response, language: string)
    requires language == "" || language == "xml"
    ensures Parse("```" + language + "\n" + Render(r) + "\n```") == Parse(Render(r))
  {
    hide Render, ParseSections;
    var inner := Render(r);
    var open := "```" + language + "\n";
    var text := open + inner + "\n```";
    RenderedEnds(r);
    BareTextStays(inner);
    assert !IsSpace('`');
    assert text[0] == '`' && text[|text| - 1] == '`';
    assert Trim(text) == text;
    WrappedInner(language, inner);
  }

  lemma WrappedInner(language: string, inner: string)
    requires language == "" || language == "xml"
    ensures Wrapped("```" + language + "\n" + inner + "\n```") == Some(inner)
  {
    var open := "```" + language + "\n";
    var text := open + inner + "\n```";
    assert text[..|open|] == open && text[|text| - 4..] == WRAPPER_END && text[|open|..|text| - 4] == inner;
    if language == "" {
      assert open == "```\n";
    } else {
      assert open == "```xml\n" && text[3] == 'x' && text[..4][3] == 'x';
    }
  }
}
