/**
 * Rewriting a line of a file (scripts/rescope-vendor.ts). The YAML pattern matches at every line
 * terminator of ECMA-262, so a line is the pieces between its terminators; each piece is rewritten as
 * the quoted view says, and the laws of the quoted view carry over to the line.
 */
module RescopeFile {
  import opened Text
  import opened RescopeLine
  import opened RescopeLaws
  import opened RescopeScan

  // ---------------------------------------------------------------- one line

  predicate NotTerminator(c: char) {
    !IsTerminator(c)
  }

  function YamlPiece(p: Pattern, piece: string): string {
    if YamlHit(p.from, piece, true) then YamlRenamed(p, piece) else piece
  }

  /** The `m` flag lets the YAML expression match between any two terminators of the line. */
  function ReplaceYaml(p: Pattern, line: string): string
    decreases |line|
  {
    var k := Leading(line, NotTerminator);
    var piece := YamlPiece(p, line[..k]);
    if k == |line| then piece else piece + [line[k]] + ReplaceYaml(p, line[k + 1..])
  }

  function RewritePattern(p: Pattern, skips: Skips, line: string): string {
    if Active(skips, p) then ReplaceYaml(p, ReplaceTokens(p, skips, line)) else line
  }

  /** `rewriteLine`: for each pattern in turn, its tokens and then its YAML name. */
  function RewriteLine(ps: seq<Pattern>, skips: Skips, line: string): string {
    if ps == [] then line else RewriteLine(ps[1..], skips, RewritePattern(ps[0], skips, line))
  }

  ghost predicate Plain(s: string) {
    forall i :: 0 <= i < |s| ==> !IsTerminator(s[i])
  }

  // ---------------------------------------------------------------- a piece without terminators

  lemma FirstText(s: string)
    ensures var l := Parse(s);
      && |l.texts| == |l.quotes| + 1
      && s == l.texts[0] + if l.quotes == [] then "" else [l.quotes[0]] + Unparse(Tail(l))
  {
    ParseWellFormed(s);
    UnparseParse(s);
    hide Parse;
  }

  /** YAML names are seen in text 0 of the quoted view. */
  lemma YamlHitParsed(name: string, s: string)
    requires PlainName(name)
    ensures var l := Parse(s); YamlHit(name, s, true) <==> YamlHit(name, l.texts[0], l.quotes == [])
  {
    var l := Parse(s);
    ParseWellFormed(s);
    FirstText(s);
    if l.quotes != [] {
      assert QuoteFree(l.texts[0]) && IsQuote(l.quotes[0]);
      hide YamlHit, Parse, Unparse, PlainName, QuoteFree, IsQuote, WellFormed;
      var rest := [l.quotes[0]] + Unparse(Tail(l));
      if YamlHit(name, s, true) {
        YamlHitShrinks(name, l.texts[0], rest);
      }
      if YamlHit(name, l.texts[0], false) {
        YamlHitGrows(name, l.texts[0], rest);
      }
    } else {
      assert s == l.texts[0];
    }
  }

  lemma BlankNotQuote(c: char)
    requires IsQuote(c)
    ensures !IsBlank(c) && !IsSpace(c) && c != '#'
  {
  }

  lemma YamlHitGrows(name: string, text: string, rest: string)
    requires PlainName(name) && YamlHit(name, text, false) && rest != "" && IsQuote(rest[0])
    ensures YamlHit(name, text + rest, true) && YamlPrefix(text + rest) == YamlPrefix(text)
  {
    hide YamlEnd, YamlPieces, YamlHead, YamlPrefix, PlainName, YamlHit;
    var indent, dash, gap, end := YamlOpen(name, text, false);
    EndGrows(end, rest);
    SwapRest(indent, dash, gap, name, end, end + rest);
    YamlClose(name, indent, dash, gap, end + rest, true);
    var head := YamlHead(indent, dash, gap);
    assert head + (name + (end + rest)) == (head + (name + end)) + rest;
  }

  lemma EndGrows(end: string, rest: string)
    requires YamlEnd(end, false)
    ensures YamlEnd(end + rest, true)
  {
    var e := Leading(end, IsBlank);
    assert end + rest == end[..e] + (end[e..] + rest);
    LeadingExact(end[..e], end[e..] + rest, IsBlank);
  }

  lemma SwapRest(indent: string, dash: string, gap: string, name: string, rest: string, other: string)
    requires PlainName(name) && YamlPieces(indent, dash, gap, name + rest)
    ensures YamlPieces(indent, dash, gap, name + other)
  {
    assert (name + other)[0] == name[0] == (name + rest)[0];
  }

  lemma QuoteInFront(front: string, end: string, text: string, rest: string)
    requires text + rest == front + end && |front| > |text| && rest != "" && IsQuote(rest[0])
    ensures !QuoteFree(front)
  {
    assert front[|text|] == (front + end)[|text|] == (text + rest)[|text|] == rest[0];
  }

  lemma CutBoth(text: string, rest: string, front: string, end: string)
    requires text + rest == front + end && |front| <= |text|
    ensures text == front + text[|front|..] && end == text[|front|..] + rest
  {
    assert text == (text + rest)[..|text|] == (front + end)[..|text|];
    assert front == (front + end)[..|front|] == (text + rest)[..|front|];
    assert end == (front + end)[|front|..] == (text + rest)[|front|..];
  }

  lemma YamlHitShrinks(name: string, text: string, rest: string)
    requires PlainName(name) && YamlHit(name, text + rest, true) && QuoteFree(text) && rest != "" && IsQuote(rest[0])
    ensures YamlHit(name, text, false)
  {
    hide YamlEnd, YamlPieces, YamlPrefix, PlainName, YamlHit;
    var indent, dash, gap, end := YamlOpen(name, text + rest, true);
    var head := YamlHead(indent, dash, gap);
    HeadHasNoQuote(name, indent, dash, gap, end);
    var front := head + name;
    assert text + rest == front + end;
    if |front| > |text| {
      QuoteInFront(front, end, text, rest);
    }
    var short := text[|front|..];
    CutBoth(text, rest, front, end);
    EndShrinks(short, rest);
    SwapRest(indent, dash, gap, name, end, short);
    YamlClose(name, indent, dash, gap, short, false);
    assert head + (name + short) == text;
  }

  lemma HeadHasNoQuote(name: string, indent: string, dash: string, gap: string, end: string)
    requires PlainName(name) && YamlPieces(indent, dash, gap, name + end)
    ensures QuoteFree(YamlHead(indent, dash, gap) + name)
  {
    assert QuoteFree(indent) && QuoteFree(dash) && QuoteFree(NAME_KEY) && QuoteFree(gap) && QuoteFree(name);
  }

  lemma EndShrinks(short: string, rest: string)
    requires YamlEnd(short + rest, true) && QuoteFree(short) && rest != "" && IsQuote(rest[0])
    ensures YamlEnd(short, false)
  {
    var e := Leading(short, IsBlank);
    assert short + rest == short[..e] + (short[e..] + rest);
    BlankNotQuote(rest[0]);
    LeadingExact(short[..e], short[e..] + rest, IsBlank);
  }

  // ---------------------------------------------------------------- a piece through the whole pass

  lemma YamlPieceParsed(p: Pattern, s: string)
    requires PlainName(p.from)
    ensures YamlPiece(p, s) == Unparse(RewriteYaml(p, Parse(s)))
  {
    hide YamlHit, YamlPrefix, PlainName;
    var l := Parse(s);
    YamlHitParsed(p.from, s);
    UnparseParse(s);
    if YamlHit(p.from, s, true) {
      YamlRenamedParsed(p, s);
    }
  }

  lemma RenamedGrows(p: Pattern, text: string, rest: string)
    requires YamlPrefix(text).Some? && StartsWith(text[YamlPrefix(text).value..], p.from)
    requires YamlPrefix(text + rest) == YamlPrefix(text)
    ensures StartsWith((text + rest)[YamlPrefix(text).value..], p.from)
    ensures YamlRenamed(p, text + rest) == YamlRenamed(p, text) + rest
  {
    hide YamlPrefix;
    var n := YamlPrefix(text).value;
    var s := text + rest;
    assert s[n..][..|p.from|] == text[n..][..|p.from|];
    assert s[..n] == text[..n] && s[n + |p.from|..] == text[n + |p.from|..] + rest;
  }

  lemma YamlRenamedParsed(p: Pattern, s: string)
    requires PlainName(p.from) && YamlHit(p.from, s, true) && YamlHit(p.from, Parse(s).texts[0], Parse(s).quotes == [])
    ensures YamlRenamed(p, s) == Unparse(RewriteYaml(p, Parse(s)))
  {
    hide YamlPrefix, YamlEnd, PlainName, Parse, IsQuote, StartsWith, YamlRenamed;
    var l := Parse(s);
    UnparseParse(s);
    ParseWellFormed(s);
    if l.quotes != [] {
      var rest := [l.quotes[0]] + Unparse(Tail(l));
      assert s == l.texts[0] + rest;
      YamlHitGrows(p.from, l.texts[0], rest);
      RenamedGrows(p, l.texts[0], rest);
      assert Tail(RewriteYaml(p, l)) == Tail(l);
    }
  }

  ghost predicate PlainTexts(l: Line) {
    forall i :: 0 <= i < |l.texts| ==> Plain(l.texts[i])
  }

  lemma {:induction false} PlainParse(s: string)
    requires Plain(s)
    ensures PlainTexts(Parse(s))
  {
    if s != "" {
      PlainParse(s[1..]);
      assert Plain(Parse(s[1..]).texts[0]);
    }
  }

  lemma {:induction false} PlainUnparse(l: Line)
    requires WellFormed(l) && PlainTexts(l)
    ensures Plain(Unparse(l))
    decreases |l.quotes|
  {
    if l.quotes != [] {
      assert WellFormed(Tail(l)) && PlainTexts(Tail(l));
      PlainUnparse(Tail(l));
      BlankNotQuote(l.quotes[0]);
      assert Plain(l.texts[0]);
    }
  }

  lemma RenamedKeepsForm(p: Pattern, text: string, n: nat)
    requires PlainName(p.to) && QuoteFree(text) && n + |p.from| <= |text|
    ensures QuoteFree(text[..n] + p.to + text[n + |p.from|..])
    ensures Plain(text) ==> Plain(text[..n] + p.to + text[n + |p.from|..])
  {
  }

  /** One pattern keeps a line well formed and free of terminators. */
  lemma OneKeepsForm(p: Pattern, skips: Skips, l: Line)
    requires WellFormed(l) && PlainName(p.from) && PlainName(p.to)
    ensures WellFormed(RewriteOne(p, skips, l)) && (PlainTexts(l) ==> PlainTexts(RewriteOne(p, skips, l)))
  {
    hide RewriteOne, PlainName, IsQuote, Plain, QuoteFree;
    var m := RewriteOne(p, skips, l);
    SameShape(p, skips, l);
    forall i | 0 <= i < |l.texts| ensures QuoteFree(m.texts[i]) && (Plain(l.texts[i]) ==> Plain(m.texts[i])) {
      OneTextKeepsForm(p, skips, l, i);
    }
  }

  lemma SameShape(p: Pattern, skips: Skips, l: Line)
    requires WellFormed(l)
    ensures RewriteOne(p, skips, l).quotes == l.quotes && |RewriteOne(p, skips, l).texts| == |l.texts|
  {
  }

  lemma OneTextKeepsForm(p: Pattern, skips: Skips, l: Line, i: nat)
    requires WellFormed(l) && PlainName(p.from) && PlainName(p.to) && i < |l.texts| == |RewriteOne(p, skips, l).texts|
    ensures QuoteFree(RewriteOne(p, skips, l).texts[i])
    ensures Plain(l.texts[i]) ==> Plain(RewriteOne(p, skips, l).texts[i])
  {
    hide YamlPrefix, YamlEnd, PlainName, IsQuote, Plain, QuoteFree, SkippedToken;
    var m := RewriteOne(p, skips, l);
    assert QuoteFree(l.texts[i]);
    if i == 0 {
      OnePassOnYaml(p, skips, l);
      if YamlChanges(p, skips, l) {
        RenamedKeepsForm(p, l.texts[0], YamlPrefix(l.texts[0]).value);
      }
    } else {
      TokenKeepsForm(p, skips, l, i);
    }
  }

  lemma TokenKeepsForm(p: Pattern, skips: Skips, l: Line, i: nat)
    requires WellFormed(l) && PlainName(p.from) && PlainName(p.to) && 0 < i < |l.texts| == |RewriteOne(p, skips, l).texts|
    ensures QuoteFree(RewriteOne(p, skips, l).texts[i])
    ensures Plain(l.texts[i]) ==> Plain(RewriteOne(p, skips, l).texts[i])
  {
    hide PlainName, Plain, QuoteFree, RewriteOne, Changes;
    assert QuoteFree(l.texts[i]);
    OneStepText(p, skips, l, i);
    if Changes(p, skips, l, i) {
      RenamedKeepsForm(p, l.texts[i], 0);
      assert l.texts[i][..0] + p.to + l.texts[i][0 + |p.from|..] == Renamed(p, l.texts[i]);
    }
  }

  lemma {:induction false} AllKeepForm(ps: seq<Pattern>, skips: Skips, l: Line)
    requires WellFormed(l) && forall p :: p in ps ==> PlainName(p.from) && PlainName(p.to)
    ensures WellFormed(RewriteAll(ps, skips, l)) && (PlainTexts(l) ==> PlainTexts(RewriteAll(ps, skips, l)))
  {
    if ps != [] {
      OneKeepsForm(ps[0], skips, l);
      AllKeepForm(ps[1..], skips, RewriteOne(ps[0], skips, l));
    }
  }

  lemma {:induction false} PlainLeading(s: string)
    requires Plain(s)
    ensures Leading(s, NotTerminator) == |s|
  {
    if s != "" {
      PlainLeading(s[1..]);
    }
  }

  lemma PatternOnPiece(p: Pattern, skips: Skips, s: string)
    requires Plain(s) && PlainName(p.from) && PlainName(p.to)
    ensures RewritePattern(p, skips, s) == Unparse(RewriteOne(p, skips, Parse(s)))
    ensures Plain(RewritePattern(p, skips, s))
    ensures Parse(RewritePattern(p, skips, s)) == RewriteOne(p, skips, Parse(s))
  {
    hide YamlPiece, RewriteTokens, RewriteYaml, PlainName, Parse, Unparse, ReplaceTokens;
    var l := Parse(s);
    ParseWellFormed(s);
    PlainParse(s);
    OneKeepsForm(p, skips, l);
    ParseUnparse(RewriteOne(p, skips, l));
    PlainUnparse(RewriteOne(p, skips, l));
    if Active(skips, p) {
      var tokens := ReplaceTokens(p, skips, s);
      ScanIsRewrite(p, skips, s);
      TokensKeepForm(p, skips, l);
      ParseUnparse(RewriteTokens(p, skips, l));
      PlainUnparse(RewriteTokens(p, skips, l));
      PlainLeading(tokens);
      assert tokens[..|tokens|] == tokens;
      YamlPieceParsed(p, tokens);
    } else {
      UnparseParse(s);
    }
  }

  lemma TokensKeepForm(p: Pattern, skips: Skips, l: Line)
    requires WellFormed(l) && PlainTexts(l) && PlainName(p.from) && PlainName(p.to)
    ensures WellFormed(RewriteTokens(p, skips, l)) && PlainTexts(RewriteTokens(p, skips, l))
  {
    var m := RewriteTokens(p, skips, l);
    forall i | 0 <= i < |l.texts| ensures QuoteFree(m.texts[i]) && Plain(m.texts[i]) {
      assert Plain(l.texts[i]);
      assert m.texts[i] == l.texts[i] || m.texts[i] == p.to + l.texts[i][|p.from|..];
    }
  }

  /** On a piece without terminators, the scans are the pass over its quoted view. */
  lemma {:induction false} LineOnPiece(ps: seq<Pattern>, skips: Skips, s: string)
    requires Plain(s) && forall p :: p in ps ==> PlainName(p.from) && PlainName(p.to)
    ensures RewriteLine(ps, skips, s) == Unparse(RewriteAll(ps, skips, Parse(s)))
    ensures Plain(RewriteLine(ps, skips, s)) && Parse(RewriteLine(ps, skips, s)) == RewriteAll(ps, skips, Parse(s))
  {
    hide PlainName, Parse, Unparse, RewriteOne, RewritePattern;
    if ps == [] {
      UnparseParse(s);
    } else {
      PatternOnPiece(ps[0], skips, s);
      LineOnPiece(ps[1..], skips, RewritePattern(ps[0], skips, s));
    }
  }

  // ---------------------------------------------------------------- several pieces

  lemma {:induction false} TokensAcross(p: Pattern, skips: Skips, a: string, t: char, b: string)
    requires IsTerminator(t) && PlainName(p.from)
    ensures ReplaceTokens(p, skips, a + [t] + b) == ReplaceTokens(p, skips, a) + [t] + ReplaceTokens(p, skips, b)
    decreases |a|
  {
    hide MatchToken, Replacement, PlainName, IsTerminator;
    var line := a + [t] + b;
    if a == "" {
      NoMatchAtTerminator(p.from, t, b);
      assert line == [t] + b && line[1..] == b;
    } else {
      MatchAcross(p.from, a, t, b);
      var n := if MatchToken(a, p.from).Some? then MatchToken(a, p.from).value else 1;
      var head := if MatchToken(a, p.from).Some? then Replacement(p, skips, a[..n]) else [a[0]];
      TokensAcross(p, skips, a[n..], t, b);
      Across(a, t, b, n);
      Regroup(head, ReplaceTokens(p, skips, a[n..]), t, ReplaceTokens(p, skips, b));
    }
  }

  lemma Across(a: string, t: char, b: string, n: nat)
    requires 0 < n <= |a|
    ensures var line := a + [t] + b; line[n..] == a[n..] + [t] + b && line[..n] == a[..n] && line[0] == a[0]
  {
  }

  lemma Regroup(x: string, y: string, t: char, z: string)
    ensures x + (y + [t] + z) == (x + y) + [t] + z
  {
  }

  lemma NoMatchAtTerminator(name: string, t: char, b: string)
    requires IsTerminator(t)
    ensures MatchToken([t] + b, name).None?
  {
  }

  lemma NameWithSpace(name: string, body: string, k: nat)
    requires k < |name| && StartsWith(body, name) && IsSpace(body[k])
    ensures !PlainName(name)
  {
    assert name[k] == body[..|name|][k] == body[k];
  }

  lemma MatchAcross(name: string, a: string, t: char, b: string)
    requires a != "" && IsTerminator(t) && PlainName(name)
    ensures MatchToken(a + [t] + b, name) == MatchToken(a, name)
  {
    var line := a + [t] + b;
    assert line[0] == a[0];
    if IsQuote(a[0]) {
      if |name| < |a| {
        PrefixAcross(name, a, t, b);
        if StartsWith(a[1..], name) {
          hide PlainName, IsSpace;
          MatchBehind(name, a, t, b);
        }
      } else if StartsWith(line[1..], name) {
        NameWithSpace(name, line[1..], |a| - 1);
      }
    }
  }

  lemma PrefixAcross(name: string, a: string, t: char, b: string)
    requires |name| < |a|
    ensures StartsWith((a + [t] + b)[1..], name) <==> StartsWith(a[1..], name)
  {
    assert (a + [t] + b)[1..][..|name|] == a[1..][..|name|];
  }

  lemma MatchBehind(name: string, a: string, t: char, b: string)
    requires a != "" && IsQuote(a[0]) && IsTerminator(t) && |name| < |a| && StartsWith(a[1..], name)
    requires (a + [t] + b)[0] == a[0] && StartsWith((a + [t] + b)[1..], name)
    ensures MatchToken(a + [t] + b, name) == MatchToken(a, name)
  {
    hide IsSpace, StartsWith;
    var after := a[1 + |name|..];
    assert (a + [t] + b)[1 + |name|..] == after + [t] + b;
    SubpathAcross(after, t, b);
  }

  lemma {:induction false} SubpathAcross(after: string, t: char, b: string)
    requires IsTerminator(t)
    ensures SubpathLength(after + [t] + b) == SubpathLength(after)
  {
    var k := Leading(after, InSubpath);
    assert after + [t] + b == after[..k] + (after[k..] + ([t] + b));
    LeadingExact(after[..k], after[k..] + ([t] + b), InSubpath);
  }

  lemma {:induction false} LeadingTerminator(a: string, t: char, b: string)
    requires Plain(a) && IsTerminator(t)
    ensures Leading(a + [t] + b, NotTerminator) == |a|
  {
    assert a + [t] + b == a + ([t] + b);
    LeadingExact(a, [t] + b, NotTerminator);
  }

  lemma YamlAcross(p: Pattern, a: string, t: char, b: string)
    requires Plain(a) && IsTerminator(t)
    ensures ReplaceYaml(p, a + [t] + b) == ReplaceYaml(p, a) + [t] + ReplaceYaml(p, b)
  {
    hide YamlPiece;
    LeadingTerminator(a, t, b);
    PlainLeading(a);
    assert (a + [t] + b)[..|a|] == a && (a + [t] + b)[|a| + 1..] == b && a[..|a|] == a;
  }

  ghost predicate PlainPatterns(ps: seq<Pattern>) {
    forall p :: p in ps ==> PlainName(p.from) && PlainName(p.to)
  }

  lemma PatternAcross(p: Pattern, skips: Skips, a: string, t: char, b: string)
    requires Plain(a) && IsTerminator(t) && PlainName(p.from) && PlainName(p.to)
    ensures RewritePattern(p, skips, a + [t] + b) == RewritePattern(p, skips, a) + [t] + RewritePattern(p, skips, b)
    ensures Plain(RewritePattern(p, skips, a))
  {
    hide ReplaceTokens, ReplaceYaml, PlainName;
    PatternOnPiece(p, skips, a);
    if Active(skips, p) {
      TokensAcross(p, skips, a, t, b);
      TokensStayPlain(p, skips, a);
      YamlAcross(p, ReplaceTokens(p, skips, a), t, ReplaceTokens(p, skips, b));
    }
  }

  lemma TokensStayPlain(p: Pattern, skips: Skips, a: string)
    requires Plain(a) && PlainName(p.from) && PlainName(p.to)
    ensures Plain(ReplaceTokens(p, skips, a))
  {
    ScanIsRewrite(p, skips, a);
    ParseWellFormed(a);
    PlainParse(a);
    TokensKeepForm(p, skips, Parse(a));
    PlainUnparse(RewriteTokens(p, skips, Parse(a)));
  }

  /** A whole line is rewritten piece by piece. */
  lemma {:induction false} LineAcross(ps: seq<Pattern>, skips: Skips, a: string, t: char, b: string)
    requires Plain(a) && IsTerminator(t) && PlainPatterns(ps)
    ensures RewriteLine(ps, skips, a + [t] + b) == RewriteLine(ps, skips, a) + [t] + RewriteLine(ps, skips, b)
  {
    hide RewritePattern, PlainName;
    if ps != [] {
      PatternAcross(ps[0], skips, a, t, b);
      LineAcross(ps[1..], skips, RewritePattern(ps[0], skips, a), t, RewritePattern(ps[0], skips, b));
    }
  }

  // ---------------------------------------------------------------- round trip and second pass of a line

  /** No piece of the line carries a name that an enabled pattern would produce. */
  ghost predicate UnscopedLine(ps: seq<Pattern>, skips: Skips, line: string)
    decreases |line|
  {
    var k := Leading(line, NotTerminator);
    Unscoped(ps, skips, Parse(line[..k])) && (k < |line| ==> UnscopedLine(ps, skips, line[k + 1..]))
  }

  /** On every piece of the line such names are shielded. */
  ghost predicate ReturningLine(ps: seq<Pattern>, skips: Skips, line: string)
    decreases |line|
  {
    var k := Leading(line, NotTerminator);
    Returns(ps, skips, Parse(line[..k])) && (k < |line| ==> ReturningLine(ps, skips, line[k + 1..]))
  }

  lemma {:induction false} UnscopedLineReturns(ps: seq<Pattern>, skips: Skips, line: string)
    requires UnscopedLine(ps, skips, line)
    ensures ReturningLine(ps, skips, line)
    decreases |line|
  {
    hide Unscoped, Returns, Parse;
    var k := Leading(line, NotTerminator);
    ParseWellFormed(line[..k]);
    UnscopedReturns(ps, skips, Parse(line[..k]));
    if k < |line| {
      UnscopedLineReturns(ps, skips, line[k + 1..]);
    }
  }

  ghost predicate Settled(ps: seq<Pattern>, skips: Skips, piece: string) {
    forall p, i: nat, j: nat :: p in ps ==> !LeftBehind(p, skips, Parse(piece), i, j)
  }

  /** No piece of the line has a token that the first pass leaves behind for a second. */
  ghost predicate SettledLine(ps: seq<Pattern>, skips: Skips, line: string)
    decreases |line|
  {
    var k := Leading(line, NotTerminator);
    && Settled(ps, skips, line[..k])
    && (k < |line| ==> SettledLine(ps, skips, line[k + 1..]))
  }

  lemma PieceOf(line: string) returns (k: nat)
    ensures k == Leading(line, NotTerminator) && k <= |line| && Plain(line[..k])
    ensures k < |line| ==> IsTerminator(line[k]) && line == line[..k] + [line[k]] + line[k + 1..]
    ensures k == |line| ==> line[..k] == line
  {
    k := Leading(line, NotTerminator);
    forall i | 0 <= i < k ensures !IsTerminator(line[i]) {
      assert NotTerminator(line[i]);
    }
    if k < |line| {
      assert !NotTerminator(line[k]);
    }
  }

  /** Reverse after forward gives the line back exactly when it returns. */
  lemma {:induction false} RoundTripLine(ps: seq<Pattern>, rs: seq<Pattern>, skips: Skips, line: string)
    requires Separated(ps) && Separated(rs) && Mirrors(ps, rs) && SparesTargets(ps, skips)
    ensures RewriteLine(rs, skips, RewriteLine(ps, skips, line)) == line <==> ReturningLine(ps, skips, line)
    decreases |line|
  {
    hide Returns, RewriteLine, RewriteAll, Parse, Unparse, SparesTargets, PlainName, IsTerminator;
    var k := PieceOf(line);
    var piece := line[..k];
    RoundTripPiece(ps, rs, skips, piece);
    if k < |line| {
      var rest := line[k + 1..];
      RoundTripLine(ps, rs, skips, rest);
      var once, onceRest := RewriteLine(ps, skips, piece), RewriteLine(ps, skips, rest);
      LineOnPiece(ps, skips, piece);
      LineOnPiece(rs, skips, once);
      LineAcross(ps, skips, piece, line[k], rest);
      LineAcross(rs, skips, once, line[k], onceRest);
      SameSplit(RewriteLine(rs, skips, once), piece, line[k], RewriteLine(rs, skips, onceRest), rest);
    }
  }

  lemma RoundTripPiece(ps: seq<Pattern>, rs: seq<Pattern>, skips: Skips, piece: string)
    requires Separated(ps) && Separated(rs) && Mirrors(ps, rs) && SparesTargets(ps, skips) && Plain(piece)
    ensures RewriteLine(rs, skips, RewriteLine(ps, skips, piece)) == piece <==> Returns(ps, skips, Parse(piece))
  {
    hide Returns, RewriteLine, RewriteAll, Parse, Unparse, SparesTargets, PlainName;
    var once := RewriteLine(ps, skips, piece);
    LineOnPiece(ps, skips, piece);
    LineOnPiece(rs, skips, once);
    LineRoundTrip(ps, rs, skips, Parse(piece));
    UnparseParse(piece);
  }

  /** A second forward pass leaves the line alone exactly when the line is settled. */
  lemma {:induction false} SecondPassLine(ps: seq<Pattern>, skips: Skips, line: string)
    requires Separated(ps)
    ensures RewriteLine(ps, skips, RewriteLine(ps, skips, line)) == RewriteLine(ps, skips, line) <==> SettledLine(ps, skips, line)
    decreases |line|
  {
    hide RewriteLine, RewriteAll, Parse, Unparse, PlainName, Settled, IsTerminator;
    var k := PieceOf(line);
    var piece := line[..k];
    SecondPassPiece(ps, skips, piece);
    if k < |line| {
      var rest := line[k + 1..];
      SecondPassLine(ps, skips, rest);
      var once, onceRest := RewriteLine(ps, skips, piece), RewriteLine(ps, skips, rest);
      LineOnPiece(ps, skips, piece);
      LineOnPiece(ps, skips, once);
      LineAcross(ps, skips, piece, line[k], rest);
      LineAcross(ps, skips, once, line[k], onceRest);
      SameSplit(RewriteLine(ps, skips, once), once, line[k], RewriteLine(ps, skips, onceRest), onceRest);
    }
  }

  lemma SecondPassPiece(ps: seq<Pattern>, skips: Skips, piece: string)
    requires Separated(ps) && Plain(piece)
    ensures RewriteLine(ps, skips, RewriteLine(ps, skips, piece)) == RewriteLine(ps, skips, piece)
      <==> Settled(ps, skips, piece)
  {
    hide RewriteLine, RewriteAll, Parse, Unparse, PlainName, LeftBehind;
    var once := RewriteLine(ps, skips, piece);
    LineOnPiece(ps, skips, piece);
    LineOnPiece(ps, skips, once);
    SecondPass(ps, skips, Parse(piece));
  }

  /** No piece of the line has two tokens of one package that share a quote. */
  ghost predicate NothingShared(ps: seq<Pattern>, line: string)
    decreases |line|
  {
    var k := Leading(line, NotTerminator);
    && (forall p, i: nat :: p in ps ==> !Shares(p.from, Parse(line[..k]), i))
    && (k < |line| ==> NothingShared(ps, line[k + 1..]))
  }

  lemma {:induction false} NothingSharedSettles(ps: seq<Pattern>, skips: Skips, line: string)
    requires NothingShared(ps, line)
    ensures SettledLine(ps, skips, line)
    decreases |line|
  {
    hide Parse, Shares, LeftBehind;
    var k := Leading(line, NotTerminator);
    forall p, i: nat, j: nat | p in ps ensures !LeftBehind(p, skips, Parse(line[..k]), i, j) {
      if LeftBehind(p, skips, Parse(line[..k]), i, j) {
        LeftBehindShares(p, skips, Parse(line[..k]), i, j);
      }
    }
    if k < |line| {
      NothingSharedSettles(ps, skips, line[k + 1..]);
    }
  }

  lemma SameSplit(a: string, b: string, t: char, c: string, d: string)
    requires Plain(a) && Plain(b) && IsTerminator(t)
    ensures a + [t] + c == b + [t] + d <==> a == b && c == d
  {
    if a + [t] + c == b + [t] + d {
      LeadingTerminator(a, t, c);
      LeadingTerminator(b, t, d);
      assert (a + [t] + c)[..|a|] == a && (b + [t] + d)[..|b|] == b;
      assert (a + [t] + c)[|a| + 1..] == c && (b + [t] + d)[|b| + 1..] == d;
    }
  }
}
