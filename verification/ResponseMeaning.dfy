module ResponseMeaning {
  // Which texts the reader of scripts/translation-prompt.ts accepts, what it reads from them, and with which error
  // it refuses the others, told by where delimiter lines stand and how often.

  import opened Common
  import opened ResponseBody
  import opened ResponseCodec
  import opened ResponseLaws
  import opened Text

  ghost function OpenLine(s: Section): string {
    match s case Translation => "<translation>" case Review => "<review>" case Final => "<final>"
  }

  ghost function CloseLine(s: Section): string {
    match s case Translation => "</translation>" case Review => "</review>" case Final => "</final>"
  }

  lemma DelimiterLines(s: Section)
    ensures Open(s) == OpenLine(s) && Close(s) == CloseLine(s)
  {
  }

  lemma AreDelimiters(s: Section)
    ensures IsDelimiter(Open(s)) && IsDelimiter(Close(s))
  {
    assert Open(s) in DELIMITERS && Close(s) in DELIMITERS;
  }

  lemma OpenIsNotClose(s: Section)
    ensures Open(s) != Close(s)
  {
    assert Close(s)[1] == '/' && Open(s)[1] == Name(s)[0];
  }

  lemma DelimitersUnbroken(s: Section)
    ensures Unbroken(Open(s)) && Unbroken(Close(s)) && Open(s) != Close(s)
  {
    hide IsDelimiter, IsSpace, Open, Close, Unbroken;
    AreDelimiters(s);
    OpenIsNotClose(s);
    DelimiterForm(Open(s));
    DelimiterForm(Close(s));
    TerminatorsAreSpace(Open(s));
    TerminatorsAreSpace(Close(s));
  }

  lemma TerminatorsAreSpace(line: string)
    requires forall i :: 0 <= i < |line| ==> !IsSpace(line[i])
    ensures Unbroken(line)
  {
  }

  /** The text has the line there, between terminators or the ends of the text. */
  ghost predicate StandsAt(text: string, line: string, o: nat) {
    && o + |line| <= |text| && text[o..o + |line|] == line
    && (o == 0 || IsTerminator(text[o - 1])) && (o + |line| == |text| || IsTerminator(text[o + |line|]))
  }

  ghost predicate FirstAt(text: string, line: string, o: nat) {
    StandsAt(text, line, o) && forall p: nat :: p < o ==> !StandsAt(text, line, p)
  }

  lemma NoBreakInside(text: string, line: string, o: nat)
    requires Unbroken(line)
    ensures StandsAt(text, line, o) ==> forall j :: o <= j < o + |line| ==> !IsTerminator(text[j])
  {
    if StandsAt(text, line, o) {
      forall j | o <= j < o + |line| ensures !IsTerminator(text[j]) {
        assert text[o..o + |line|][j - o] == line[j - o];
      }
    }
  }

  lemma StandsInHead(text: string, k: nat, line: string, o: nat)
    requires k == Leading(text, NotTerminator) && Unbroken(line) && o <= k
    ensures StandsAt(text, line, o) <==> o == 0 && text[..k] == line
  {
    assert forall i :: 0 <= i < k ==> NotTerminator(text[i]);
    assert k < |text| ==> !NotTerminator(text[k]);
    assert o > 0 ==> NotTerminator(text[o - 1]);
    NoBreakInside(text, line, o);
  }

  lemma StandsInTail(text: string, k: nat, line: string, o: nat)
    requires k < |text| && IsTerminator(text[k])
    ensures StandsAt(text, line, k + 1 + o) <==> StandsAt(text[k + 1..], line, o)
  {
    if k + 1 + o + |line| <= |text| {
      assert text[k + 1..][o..o + |line|] == text[k + 1 + o..k + 1 + o + |line|];
    }
  }

  lemma FirstShifts(text: string, k: nat, tail: string, line: string, found: Option<nat>)
    requires k < |text| && IsTerminator(text[k]) && tail == text[k + 1..]
    requires forall o: nat :: StandsAt(text, line, o) ==> o > k
    requires if found.Some? then FirstAt(tail, line, found.value) else forall o: nat :: !StandsAt(tail, line, o)
    ensures if found.Some? then FirstAt(text, line, k + 1 + found.value) else forall o: nat :: !StandsAt(text, line, o)
  {
    forall o: nat | StandsAt(text, line, o) ensures o > k && StandsAt(tail, line, o - k - 1) {
      StandsInTail(text, k, line, o - k - 1);
    }
    if found.Some? {
      StandsInTail(text, k, line, found.value);
    }
    hide StandsAt, IsTerminator;
  }

  lemma StandsOnFirst(text: string, k: nat, line: string)
    requires k == Leading(text, NotTerminator) && Unbroken(line)
    ensures forall o: nat :: StandsAt(text, line, o) ==> (o == 0 && text[..k] == line) || o > k
    ensures text[..k] == line ==> StandsAt(text, line, 0)
    ensures k == |text| ==> forall o: nat :: StandsAt(text, line, o) ==> o <= k
  {
    forall o: nat | o <= k ensures StandsAt(text, line, o) <==> o == 0 && text[..k] == line {
      StandsInHead(text, k, line, o);
    }
    assert k == |text| ==> forall o: nat :: StandsAt(text, line, o) ==> o <= k;
    hide StandsAt;
  }

  /** The search finds the first place where the line stands. */
  lemma {:induction false} FindLineIs(text: string, line: string)
    requires Unbroken(line)
    ensures var r := FindLine(text, line);
      if r.Some? then FirstAt(text, line, r.value) else forall o: nat :: !StandsAt(text, line, o)
    decreases |text|
  {
    var k := Leading(text, NotTerminator);
    assert k < |text| ==> !NotTerminator(text[k]);
    StandsOnFirst(text, k, line);
    hide StandsAt, Leading, NotTerminator;
    if k < |text| {
      FindStep(text, k, line);
      hide FindLine;
      if text[..k] != line {
        FindLineIs(text[k + 1..], line);
        FirstShifts(text, k, text[k + 1..], line, FindLine(text[k + 1..], line));
      }
    }
  }

  ghost function Times(body: string, line: string): nat {
    multiset(Split(body))[line]
  }

  lemma {:induction false} CountIs(lines: seq<string>, line: string)
    ensures Count(lines, line) == multiset(lines)[line]
  {
    if lines != [] {
      CountIs(lines[1..], line);
      assert lines == [lines[0]] + lines[1..];
    }
  }

  lemma LineIsFound(body: string, line: string)
    requires Unbroken(line) && Times(body, line) > 0
    ensures FindLine(body, line).Some?
  {
    assert line in Split(body);
    var i :| 0 <= i < |Split(body)| && Split(body)[i] == line;
    FindInOneLine(line, line);
    JoinSplit(body);
    FindInJoin(Split(body), line);
  }

  /** What stands between two delimiters, without one line feed at either end. */
  ghost function Inner(between: string): string {
    var rest := if between != "" && between[0] == '\n' then between[1..] else between;
    if rest != "" && rest[|rest| - 1] == '\n' then rest[..|rest| - 1] else rest
  }

  ghost predicate Feeds(s: string) {
    forall i :: 0 <= i < |s| ==> s[i] == '\n'
  }

  ghost predicate Behind(body: string, s: Section, previous: nat, open: nat) {
    if s.Translation? then open <= previous else previous < open <= |body| && Feeds(body[previous..open])
  }

  /** The two delimiters of a section, each one line of its own, in order and behind the section before by line feeds alone. */
  ghost predicate Delimited(body: string, s: Section, previous: nat, open: nat, close: nat) {
    && Times(body, OpenLine(s)) == 1 == Times(body, CloseLine(s))
    && FirstAt(body, OpenLine(s), open) && FirstAt(body, CloseLine(s), close)
    && open + |OpenLine(s)| <= close
    && Behind(body, s, previous, open)
  }

  ghost predicate SectionRead(body: string, s: Section, previous: nat, end: nat, value: string) {
    exists open: nat, close: nat :: ReadAt(body, s, previous, open, close, end, value)
  }

  ghost predicate ReadAt(body: string, s: Section, previous: nat, open: nat, close: nat, end: nat, value: string) {
    && Delimited(body, s, previous, open, close)
    && end == close + |CloseLine(s)| && value == Unescape(Inner(body[open + |OpenLine(s)|..close]))
  }

  ghost predicate Refused(body: string, s: Section, previous: nat, e: ParseError) {
    if Times(body, OpenLine(s)) == 0 || Times(body, CloseLine(s)) == 0 then e == MissingSection(s)
    else if Times(body, OpenLine(s)) > 1 || Times(body, CloseLine(s)) > 1 then e == DuplicateSection(s)
    else e == OutOfOrder && forall open: nat, close: nat :: !Delimited(body, s, previous, open, close)
  }

  /** Two different lines do not overlap. */
  lemma Apart(body: string, a: string, b: string, o: nat, p: nat)
    requires StandsAt(body, a, o) && StandsAt(body, b, p) && Unbroken(a) && o < p
    ensures o + |a| < p
  {
    NoBreakInside(body, a, o);
  }

  lemma FirstUnique(body: string, line: string, o: nat, p: nat)
    requires FirstAt(body, line, o) && FirstAt(body, line, p)
    ensures o == p
  {
    hide StandsAt;
  }

  lemma InnerIs(body: string, from: nat, close: nat)
    requires from < close <= |body|
    ensures Content(body, from, close) == Inner(body[from..close])
  {
    var between := body[from..close];
    assert between[0] == body[from] && between[|between| - 1] == body[close - 1];
    assert between[1..] == body[from + 1..close] && between[..|between| - 1] == body[from..close - 1];
    assert |between| > 1 ==> between[1..][..|between| - 2] == body[from + 1..close - 1];
  }

  /** The delimiters of a section that stands once: where they are, and whether they are in order. */
  lemma Placed(body: string, s: Section) returns (open: nat, close: nat)
    requires Times(body, OpenLine(s)) == 1 == Times(body, CloseLine(s))
    ensures FindLine(body, Open(s)) == Some(open) && FirstAt(body, OpenLine(s), open)
    ensures FindLine(body, Close(s)) == Some(close) && FirstAt(body, CloseLine(s), close)
    ensures open < close ==> open + |OpenLine(s)| < close
    ensures open != close && open <= |body| && close + |CloseLine(s)| <= |body|
  {
    DelimiterLines(s);
    DelimitersUnbroken(s);
    hide Split, OpenLine, CloseLine, Open, Close, FindLine, Unbroken;
    LineIsFound(body, Open(s));
    LineIsFound(body, Close(s));
    FindLineIs(body, Open(s));
    FindLineIs(body, Close(s));
    open, close := FindLine(body, Open(s)).value, FindLine(body, Close(s)).value;
    SamePlace(body, Open(s), Close(s), open, close);
    if open < close {
      Apart(body, Open(s), Close(s), open, close);
    }
  }

  lemma SamePlace(body: string, a: string, b: string, o: nat, p: nat)
    requires StandsAt(body, a, o) && StandsAt(body, b, p) && Unbroken(a) && Unbroken(b) && a != b
    ensures o != p
  {
    NoBreakInside(body, a, o);
    NoBreakInside(body, b, p);
    assert o == p && |a| == |b| ==> a == b;
  }

  lemma SeparatorMeans(body: string, s: Section, previous: nat, open: nat)
    requires previous <= |body| && open <= |body|
    ensures Separates(Slice(body, previous, open), s) <==> Behind(body, s, previous, open)
  {
  }

  lemma LocateRefuses(body: string, s: Section, previous: nat, open: nat, close: nat)
    requires previous <= |body| && open <= |body|
    requires Count(Split(body), Open(s)) == 1 == Count(Split(body), Close(s))
    requires FindLine(body, Open(s)) == Some(open) && FindLine(body, Close(s)) == Some(close)
    requires close < open || !Separates(Slice(body, previous, open), s)
    ensures Locate(body, s, previous) == Err(OutOfOrder)
  {
    hide Split, Count, Open, Close, FindLine, Unescape, Content, Separates, Slice;
  }

  lemma LocateReads(body: string, s: Section, previous: nat, open: nat, close: nat)
    requires previous <= |body| && open + |Open(s)| < close <= |body|
    requires Count(Split(body), Open(s)) == 1 == Count(Split(body), Close(s))
    requires FindLine(body, Open(s)) == Some(open) && FindLine(body, Close(s)) == Some(close)
    requires Separates(Slice(body, previous, open), s)
    ensures Locate(body, s, previous)
      == Ok(Located(open, close, Unescape(Content(body, open + |Open(s)|, close)), close + |Close(s)|))
  {
    hide Split, Count, Open, Close, FindLine, Unescape, Content, Separates, Slice;
  }

  lemma LocateInOrder(body: string, s: Section, previous: nat, open: nat, close: nat)
    requires previous <= |body| && open + |Open(s)| < close <= |body|
    requires Count(Split(body), Open(s)) == 1 == Count(Split(body), Close(s))
    requires FindLine(body, Open(s)) == Some(open) && FindLine(body, Close(s)) == Some(close)
    requires Behind(body, s, previous, open)
    ensures Locate(body, s, previous)
      == Ok(Located(open, close, Unescape(Inner(body[open + |Open(s)|..close])), close + |Close(s)|))
  {
    hide Split, Count, Open, Close, FindLine, Unescape, Inner, Behind, Separates, Slice, Locate, Content;
    SeparatorMeans(body, s, previous, open);
    InnerIs(body, open + |Open(s)|, close);
    LocateReads(body, s, previous, open, close);
  }

  lemma InOrderMeans(body: string, s: Section, previous: nat, open: nat, close: nat)
    requires previous <= |body| && open <= |body| && close <= |body| && open != close
    requires Count(Split(body), Open(s)) == 1 == Count(Split(body), Close(s))
    requires FindLine(body, Open(s)) == Some(open) && FindLine(body, Close(s)) == Some(close)
    requires open < close ==> open + |Open(s)| < close
    ensures Locate(body, s, previous)
      == if open < close && Behind(body, s, previous, open)
         then Ok(Located(open, close, Unescape(Inner(body[open + |Open(s)|..close])), close + |Close(s)|))
         else Err(OutOfOrder)
  {
    hide Split, Count, Open, Close, FindLine, Unescape, Inner, Behind, Separates, Slice, Locate;
    if open < close && Behind(body, s, previous, open) {
      LocateInOrder(body, s, previous, open, close);
    } else {
      SeparatorMeans(body, s, previous, open);
      LocateRefuses(body, s, previous, open, close);
    }
  }

  lemma OnePlace(body: string, s: Section, previous: nat, open: nat, close: nat)
    requires FirstAt(body, OpenLine(s), open) && FirstAt(body, CloseLine(s), close)
    ensures forall o: nat, c: nat :: Delimited(body, s, previous, o, c) ==> o == open && c == close
  {
    hide StandsAt, OpenLine, CloseLine, Times, Behind;
  }

  lemma TimesIs(body: string, s: Section)
    ensures Times(body, OpenLine(s)) == Count(Split(body), Open(s)) && Times(body, CloseLine(s)) == Count(Split(body), Close(s))
  {
    hide Split, Count, OpenLine, CloseLine, Open, Close;
    DelimiterLines(s);
    CountIs(Split(body), Open(s));
    CountIs(Split(body), Close(s));
  }

  lemma LocateOnce(body: string, s: Section, previous: nat)
    requires previous <= |body| && Times(body, OpenLine(s)) == 1 == Times(body, CloseLine(s))
    ensures var r := Locate(body, s, previous);
      if r.Ok? then SectionRead(body, s, previous, r.value.closeEnd, r.value.value)
      else Refused(body, s, previous, r.error)
  {
    hide Split, Count, OpenLine, CloseLine, Open, Close, FindLine, Unescape, Inner, FirstAt, Times, Behind, Locate;
    DelimiterLines(s);
    TimesIs(body, s);
    var open, close := Placed(body, s);
    InOrderMeans(body, s, previous, open, close);
    OnePlace(body, s, previous, open, close);
    if open < close && Behind(body, s, previous, open) {
      assert ReadAt(body, s, previous, open, close, Locate(body, s, previous).value.closeEnd, Locate(body, s, previous).value.value);
    }
  }

  lemma LocateNotOnce(body: string, s: Section, previous: nat)
    requires previous <= |body| && !(Times(body, OpenLine(s)) == 1 == Times(body, CloseLine(s)))
    ensures Locate(body, s, previous).Err? && Refused(body, s, previous, Locate(body, s, previous).error)
  {
    TimesIs(body, s);
    hide Split, Count, OpenLine, CloseLine, Open, Close, FindLine, Unescape, Times, Separates, Slice, Content, Delimited;
  }

  /** One turn of the loop reads the section that is there, or refuses the text for the first reason that applies. */
  lemma LocateMeans(body: string, s: Section, previous: nat)
    requires previous <= |body|
    ensures var r := Locate(body, s, previous);
      if r.Ok? then SectionRead(body, s, previous, r.value.closeEnd, r.value.value)
      else Refused(body, s, previous, r.error)
  {
    hide Times, Locate, SectionRead, Refused;
    if Times(body, OpenLine(s)) == 1 == Times(body, CloseLine(s)) {
      LocateOnce(body, s, previous);
    } else {
      LocateNotOnce(body, s, previous);
    }
  }

  lemma ReadUnique(body: string, s: Section, previous: nat, end: nat, value: string, end': nat, value': string)
    requires SectionRead(body, s, previous, end, value) && SectionRead(body, s, previous, end', value')
    ensures end == end' && value == value' && end <= |body|
  {
    hide Times, StandsAt, Inner, Unescape, OpenLine, CloseLine;
    var open: nat, close: nat :| ReadAt(body, s, previous, open, close, end, value);
    var open': nat, close': nat :| ReadAt(body, s, previous, open', close', end', value');
    FirstUnique(body, OpenLine(s), open, open');
    FirstUnique(body, CloseLine(s), close, close');
    StandsInside(body, CloseLine(s), close);
  }

  lemma StandsInside(text: string, line: string, o: nat)
    requires StandsAt(text, line, o)
    ensures o + |line| <= |text|
  {
  }

  /** The section can be read exactly in one way. */
  lemma LocateReadsOnly(body: string, s: Section, previous: nat, end: nat, value: string)
    requires previous <= |body| && SectionRead(body, s, previous, end, value)
    ensures Locate(body, s, previous).Ok?
    ensures Locate(body, s, previous).value.closeEnd == end && Locate(body, s, previous).value.value == value
  {
    LocateMeans(body, s, previous);
    ReadOrRefused(body, s, previous, end, value);
    hide Locate, SectionRead;
    if Locate(body, s, previous).Ok? {
      ReadUnique(body, s, previous, end, value, Locate(body, s, previous).value.closeEnd, Locate(body, s, previous).value.value);
    }
  }

  lemma ReadOrRefused(body: string, s: Section, previous: nat, end: nat, value: string)
    requires SectionRead(body, s, previous, end, value)
    ensures forall e :: !Refused(body, s, previous, e)
  {
    hide FirstAt, Unescape, Inner, OpenLine, CloseLine, Times;
    var open: nat, close: nat :| ReadAt(body, s, previous, open, close, end, value);
  }

  lemma RefusedOnce(body: string, s: Section, previous: nat, e: ParseError)
    requires previous <= |body| && Refused(body, s, previous, e)
    ensures Locate(body, s, previous) == Err(e)
  {
    LocateMeans(body, s, previous);
    hide Times, Delimited, Locate, Unescape, OpenLine, CloseLine;
    var r := Locate(body, s, previous);
    if r.Ok? {
      ReadOrRefused(body, s, previous, r.value.closeEnd, r.value.value);
    }
  }

  ghost function Nth(i: nat): Section {
    if i == 1 then Translation else if i == 2 then Review else Final
  }

  /** The first `i` sections have these contents, and the last of them closes at `end`. */
  ghost predicate SectionsRead(body: string, i: nat, end: nat, values: seq<string>)
    decreases i, 0
  {
    if i == 0 then end == 0 && values == []
    else exists previous: nat :: LastRead(body, i, previous, end, values)
  }

  ghost predicate LastRead(body: string, i: nat, previous: nat, end: nat, values: seq<string>)
    requires i > 0
    decreases i - 1, 1
  {
    && values != [] && previous <= |body| && SectionsRead(body, i - 1, previous, values[..|values| - 1])
    && SectionRead(body, Nth(i), previous, end, values[|values| - 1])
  }

  /** The text is refused at the section after the first `i`. */
  ghost predicate RefusedAfter(body: string, i: nat, e: ParseError) {
    exists previous: nat, values ::
      && previous <= |body| && SectionsRead(body, i, previous, values) && Refused(body, Nth(i + 1), previous, e)
  }

  lemma AfterStep(body: string, i: nat)
    requires 0 < i <= 3
    ensures After(body, i - 1).Err? ==> After(body, i) == Err(After(body, i - 1).error)
    ensures After(body, i - 1).Ok? ==>
      var before := After(body, i - 1).value;
      var r := Locate(body, Nth(i), before.0);
      After(body, i) == if r.Ok? then Ok((r.value.closeEnd, before.1 + [r.value.value])) else Err(r.error)
  {
    hide Locate;
  }

  lemma {:induction false} AfterReads(body: string, i: nat)
    requires i <= 3
    ensures After(body, i).Ok? ==> SectionsRead(body, i, After(body, i).value.0, After(body, i).value.1)
    decreases i
  {
    hide Locate, SectionRead, After;
    if i == 0 {
      AfterNone(body);
    } else {
      AfterReads(body, i - 1);
      AfterStep(body, i);
      if After(body, i).Ok? {
        var before, r := After(body, i - 1).value, After(body, i).value;
        LocateMeans(body, Nth(i), before.0);
        assert r.1[..|r.1| - 1] == before.1;
        assert LastRead(body, i, before.0, r.0, r.1);
      }
    }
  }

  lemma AfterNone(body: string)
    ensures After(body, 0) == Ok((0, []))
  {
  }

  lemma {:induction false} ReadIsAfter(body: string, i: nat, end: nat, values: seq<string>)
    requires i <= 3 && SectionsRead(body, i, end, values)
    ensures After(body, i) == Ok((end, values))
    decreases i
  {
    hide Locate, SectionRead, After;
    if i == 0 {
      AfterNone(body);
    } else {
      var previous: nat :| LastRead(body, i, previous, end, values);
      var front, value := values[..|values| - 1], values[|values| - 1];
      ReadIsAfter(body, i - 1, previous, front);
      AfterStep(body, i);
      LocateReadsOnly(body, Nth(i), previous, end, value);
      assert front + [value] == values;
    }
  }

  lemma {:induction false} AfterRefuses(body: string, n: nat, e: ParseError)
    requires n <= 3
    ensures After(body, n) == Err(e) <==> exists i: nat :: i < n && RefusedAfter(body, i, e)
    decreases n
  {
    hide Locate, Refused, SectionsRead, After;
    if n == 0 {
      AfterNone(body);
    } else {
      AfterRefuses(body, n - 1, e);
      AfterStep(body, n);
      AfterReads(body, n - 1);
      var before := After(body, n - 1);
      if before.Ok? {
        LocateMeans(body, Nth(n), before.value.0);
        assert After(body, n) == Err(e) ==> RefusedAfter(body, n - 1, e);
      }
      if RefusedAfter(body, n - 1, e) {
        var previous: nat, values :|
          previous <= |body| && SectionsRead(body, n - 1, previous, values) && Refused(body, Nth(n - 1 + 1), previous, e);
        ReadIsAfter(body, n - 1, previous, values);
        RefusedOnce(body, Nth(n), previous, e);
      }
    }
  }

  /** What is accepted, and what is read from it. */
  lemma AcceptedMeans(text: string, r: Response)
    ensures var body := Unwrap(text);
      Parse(text) == Ok(r) <==> SectionsRead(body, 3, |body|, [r.translation, r.review, r.final])
  {
    var body := Unwrap(text);
    hide Unwrap, After, SectionsRead;
    AfterReads(body, 3);
    if SectionsRead(body, 3, |body|, [r.translation, r.review, r.final]) {
      ReadIsAfter(body, 3, |body|, [r.translation, r.review, r.final]);
    }
    if After(body, 3).Ok? {
      var values := After(body, 3).value.1;
      assert values == [values[0], values[1], values[2]];
    }
  }

  /** Which error any other text is refused with. */
  lemma RefusedMeans(text: string, e: ParseError)
    ensures var body := Unwrap(text);
      Parse(text) == Err(e) <==>
        || (exists i: nat :: i < 3 && RefusedAfter(body, i, e))
        || (e == OutsideSections && exists end: nat, values :: SectionsRead(body, 3, end, values) && end != |body|)
  {
    var body := Unwrap(text);
    hide Unwrap, After, SectionsRead, RefusedAfter;
    AfterReads(body, 3);
    AfterRefuses(body, 3, e);
    if end: nat, values :| SectionsRead(body, 3, end, values) && end != |body| {
      ReadIsAfter(body, 3, end, values);
    }
  }

  /** What is left of a text without the white space at its ends. */
  ghost predicate Trimmed(text: string, t: string) {
    && (exists a, b :: text == a + t + b && AllSpace(a) && AllSpace(b))
    && (t != "" ==> !IsSpace(t[0]) && !IsSpace(t[|t| - 1]))
  }

  ghost predicate AllSpace(s: string) {
    forall i :: 0 <= i < |s| ==> IsSpace(s[i])
  }

  lemma TrimmedMore(text: string, t: string, c: char)
    requires Trimmed(text, t) && IsSpace(c)
    ensures Trimmed([c] + text, t) && Trimmed(text + [c], t)
  {
    hide IsSpace;
    var a, b :| text == a + t + b && AllSpace(a) && AllSpace(b);
    assert [c] + text == ([c] + a) + t + b && text + [c] == a + t + (b + [c]);
    assert AllSpace([c] + a) && AllSpace(b + [c]);
  }

  lemma {:induction false} TrimMeans(text: string)
    ensures Trimmed(text, Trim(text))
    decreases |text|
  {
    hide IsSpace;
    if text != "" && IsSpace(text[0]) {
      TrimMeans(text[1..]);
      TrimmedMore(text[1..], Trim(text[1..]), text[0]);
      assert [text[0]] + text[1..] == text;
    } else if text != "" && IsSpace(text[|text| - 1]) {
      var front := text[..|text| - 1];
      TrimMeans(front);
      TrimmedMore(front, Trim(front), text[|text| - 1]);
      assert front + [text[|text| - 1]] == text;
    } else {
      assert text == "" + text + "" && AllSpace("");
    }
  }

  /** The text is the inner one between the two lines of a fence. */
  ghost predicate InFence(text: string, inner: string) {
    text == "```\n" + inner + "\n```" || text == "```xml\n" + inner + "\n```"
  }

  lemma FenceEnds(text: string, inner: string, head: string, tail: string)
    requires text == head + inner + tail
    ensures |text| == |head| + |inner| + |tail| && StartsWith(text, head) && EndsWith(text, tail)
    ensures text[|head|..|text| - |tail|] == inner
  {
  }

  lemma FenceKinds(text: string)
    ensures !(StartsWith(text, "```\n") && StartsWith(text, "```xml\n"))
  {
    if StartsWith(text, "```\n") {
      PrefixAgrees(text, "```\n", 3);
    }
    if StartsWith(text, "```xml\n") {
      PrefixAgrees(text, "```xml\n", 3);
    }
  }

  lemma FencedText(text: string, head: string, tail: string)
    requires StartsWith(text, head) && EndsWith(text, tail) && |head| + |tail| <= |text|
    ensures text == head + text[|head|..|text| - |tail|] + tail
  {
  }

  lemma WrappedMeans(text: string, inner: string)
    ensures Wrapped(text) == Some(inner) <==> InFence(text, inner)
  {
    FenceKinds(text);
    var plain, xml, tail := "```\n", "```xml\n", WRAPPER_END;
    assert |plain| == 4 && |xml| == 7 && |tail| == 4;
    hide StartsWith, EndsWith;
    if InFence(text, inner) {
      FenceEnds(text, inner, if text == plain + inner + tail then plain else xml, tail);
    }
    if Wrapped(text) == Some(inner) {
      FencedText(text, if StartsWith(text, plain) then plain else xml, tail);
    }
  }

  /** A fence around the whole text does not count, nor does white space outside or directly inside it. */
  lemma UnwrapMeans(text: string)
    ensures exists t ::
      && Trimmed(text, t)
      && ((exists inner :: InFence(t, inner) && Trimmed(inner, Unwrap(text))) || (Unwrap(text) == t && forall inner :: !InFence(t, inner)))
  {
    hide Trim, Trimmed, InFence, Wrapped;
    var t := Trim(text);
    TrimMeans(text);
    forall inner ensures Wrapped(t) == Some(inner) <==> InFence(t, inner) {
      WrappedMeans(t, inner);
    }
    if Wrapped(t).Some? {
      TrimMeans(Wrapped(t).value);
    }
  }
}
