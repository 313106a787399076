module RescopeScan {
  // The replacements of scripts/rescope-vendor.ts as left-to-right scans, and their agreement with the quoted
  // view.

  import opened Common
  import opened Text
  import opened RescopeLine
  import opened RescopeLaws

  /** The length of `/[^'"`\s]*`, or 0 where the subpath group matches nothing. */
  function SubpathLength(s: string): (n: nat)
    ensures n <= |s|
  {
    if s != "" && s[0] == '/' then Leading(s, InSubpath) else 0
  }

  predicate InSubpath(c: char) {
    !IsQuote(c) && !IsSpace(c)
  }

  /** `(['"`])NAME((?:/[^'"`\s]*)?)\1` at the start of `s`: the length of the match. */
  function MatchToken(s: string, name: string): (n: Option<nat>)
    ensures n.Some? ==> |name| + 2 <= n.value <= |s|
  {
    if s == "" || !IsQuote(s[0]) || !StartsWith(s[1..], name) then None
    else
      var after := s[1 + |name|..];
      var k := SubpathLength(after);
      if k < |after| && after[k] == s[0] then Some(1 + |name| + k + 1) else None
  }

  /** What replaces one match: itself if its value is protected, else the renamed token. */
  function Replacement(p: Pattern, skips: Skips, found: string): string
    requires |p.from| + 2 <= |found|
  {
    var value := found[1..|found| - 1];
    if SkippedToken(skips, value) then found else [found[0]] + p.to + value[|p.from|..] + [found[0]]
  }

  /** The global replacement: leftmost matches first, each search starting after the previous match. */
  function ReplaceTokens(p: Pattern, skips: Skips, s: string): string
    decreases |s|
  {
    if s == "" then ""
    else match MatchToken(s, p.from)
      case None => [s[0]] + ReplaceTokens(p, skips, s[1..])
      case Some(n) => Replacement(p, skips, s[..n]) + ReplaceTokens(p, skips, s[n..])
  }

  // ---------------------------------------------------------------- agreement on tokens

  function Drop(l: Line, d: nat): (m: Line)
    requires |l.texts| == |l.quotes| + 1 && d <= |l.quotes|
    ensures |m.texts| == |m.quotes| + 1
  {
    Line(l.texts[d..], l.quotes[d..])
  }

  lemma {:induction false} HitShift(name: string, l: Line, d: nat, i: nat)
    requires |l.texts| == |l.quotes| + 1 && d <= |l.quotes| && d + i < |l.texts| && !Hit(name, l, d)
    ensures Hit(name, l, d + i) <==> Hit(name, Drop(l, d), i)
  {
    if i > 0 {
      HitShift(name, l, d, i - 1);
    }
  }

  lemma RewriteShift(p: Pattern, skips: Skips, l: Line, d: nat)
    requires |l.texts| == |l.quotes| + 1 && d <= |l.quotes| && !Hit(p.from, l, d)
    ensures Drop(RewriteTokens(p, skips, l), d) == RewriteTokens(p, skips, Drop(l, d))
  {
    var a, b := Drop(RewriteTokens(p, skips, l), d), RewriteTokens(p, skips, Drop(l, d));
    forall i | 0 <= i < |a.texts| ensures a.texts[i] == b.texts[i] {
      HitShift(p.from, l, d, i);
    }
    assert a.texts == b.texts;
  }

  /** A match at an opening quote is a token text up to the next quote. */
  lemma MatchIsToken(s: string, name: string)
    requires s != "" && IsQuote(s[0]) && PlainName(name)
    ensures var l := Parse(s); MatchToken(s, name).Some? <==> |l.texts| > 1 && Token(name, l, 1)
    ensures MatchToken(s, name).Some? ==> MatchToken(s, name).value == |Parse(s).texts[1]| + 2
  {
    var l, rest := Parse(s), Parse(s[1..]);
    ParseWellFormed(s[1..]);
    UnparseParse(s[1..]);
    var text := rest.texts[0];
    assert l.texts[1] == text && QuoteFree(text);
    if rest.quotes == [] {
      assert s[1..] == text;
      NoMatchWithoutQuote(s, name);
    } else {
      assert s[1..] == text + [rest.quotes[0]] + Unparse(Tail(rest));
      MatchBeforeQuote(s, name, text, rest.quotes[0]);
    }
  }

  lemma NoMatchWithoutQuote(s: string, name: string)
    requires s != "" && IsQuote(s[0]) && QuoteFree(s[1..])
    ensures MatchToken(s, name).None?
  {
    if StartsWith(s[1..], name) {
      var after := s[1 + |name|..];
      forall k | 0 <= k < |after| ensures after[k] != s[0] {
        assert after[k] == s[1..][|name| + k];
      }
    }
  }

  lemma NameWithQuote(name: string, body: string, k: nat)
    requires k < |name| && StartsWith(body, name) && IsQuote(body[k])
    ensures !PlainName(name)
  {
    assert name[k] == body[..|name|][k] == body[k];
  }

  lemma MatchBeforeQuote(s: string, name: string, text: string, q: char)
    requires s != "" && IsQuote(s[0]) && PlainName(name) && QuoteFree(text) && IsQuote(q)
    requires |text| + 1 < |s| && s[1..1 + |text|] == text && s[1 + |text|] == q
    ensures MatchToken(s, name).Some? <==> q == s[0] && IsTokenText(name, text)
    ensures MatchToken(s, name).Some? ==> MatchToken(s, name).value == |text| + 2
  {
    var body := s[1..];
    assert body[..|text|] == text && body[|text|] == q;
    if |name| <= |text| {
      assert body[..|name|] == text[..|name|];
      if StartsWith(text, name) {
        var after, subpath := s[1 + |name|..], text[|name|..];
        assert after[..|subpath|] == subpath && after[|subpath|] == q;
        SubpathEnds(after, subpath, q);
      }
    } else if StartsWith(body, name) {
      NameWithQuote(name, body, |text|);
    }
  }

  lemma SubpathEnds(after: string, subpath: string, q: char)
    requires QuoteFree(subpath) && IsQuote(q) && |subpath| < |after| && after[..|subpath|] == subpath && after[|subpath|] == q
    ensures var k := SubpathLength(after);
      k <= |subpath| && (k == |subpath| <==> subpath == "" || (subpath[0] == '/' && forall i :: 0 <= i < |subpath| ==> !IsSpace(subpath[i])))
    ensures var k := SubpathLength(after); k < |subpath| ==> !IsQuote(after[k])
  {
    var k := SubpathLength(after);
    assert forall i :: 0 <= i < |subpath| ==> subpath[i] == after[i];
    if subpath != "" && subpath[0] == '/' && k < |subpath| {
      assert !IsQuote(subpath[k]);
    }
  }

  lemma {:induction false} ScanIsRewrite(p: Pattern, skips: Skips, s: string)
    requires PlainName(p.from)
    ensures ReplaceTokens(p, skips, s) == Unparse(RewriteTokens(p, skips, Parse(s)))
    decreases |s|
  {
    if s == "" {
    } else if !IsQuote(s[0]) {
      ScanPlain(p, skips, s);
    } else {
      ScanQuote(p, skips, s);
    }
  }

  lemma {:induction false} ScanPlain(p: Pattern, skips: Skips, s: string)
    requires PlainName(p.from) && s != "" && !IsQuote(s[0])
    ensures ReplaceTokens(p, skips, s) == Unparse(RewriteTokens(p, skips, Parse(s)))
    decreases |s|, 0
  {
    assert MatchToken(s, p.from).None?;
    hide MatchToken, Replacement, PlainName, IsTokenText, SkippedToken;
    ScanIsRewrite(p, skips, s[1..]);
    var l, rest := Parse(s), Parse(s[1..]);
    var m, n := RewriteTokens(p, skips, l), RewriteTokens(p, skips, rest);
    forall i | 0 < i < |l.texts| ensures m.texts[i] == n.texts[i] {
      assert l.texts[i] == rest.texts[i];
      SameHits(p.from, l, rest, i);
    }
    assert m.texts[0] == [s[0]] + n.texts[0];
    hide RewriteTokens, Parse;
    UnparseGrow(s[0], m, n);
  }

  lemma UnparseGrow(c: char, m: Line, n: Line)
    requires |m.texts| == |n.texts| == |m.quotes| + 1 && m.quotes == n.quotes
    requires m.texts[0] == [c] + n.texts[0] && forall i :: 0 < i < |m.texts| ==> m.texts[i] == n.texts[i]
    ensures Unparse(m) == [c] + Unparse(n)
  {
    if m.quotes != [] {
      assert Tail(m) == Tail(n);
      assert ([c] + n.texts[0]) + [n.quotes[0]] + Unparse(Tail(n)) == [c] + (n.texts[0] + [n.quotes[0]] + Unparse(Tail(n)));
    }
  }

  lemma {:induction false} SameHits(name: string, l: Line, m: Line, i: nat)
    requires |l.texts| == |l.quotes| + 1 && l.quotes == m.quotes && |m.texts| == |l.texts| && i < |l.texts|
    requires forall k :: 0 < k < |l.texts| ==> l.texts[k] == m.texts[k]
    ensures Hit(name, l, i) <==> Hit(name, m, i)
  {
    if i > 0 {
      SameHits(name, l, m, i - 1);
    }
  }

  lemma {:induction false} ScanQuote(p: Pattern, skips: Skips, s: string)
    requires PlainName(p.from) && s != "" && IsQuote(s[0])
    ensures ReplaceTokens(p, skips, s) == Unparse(RewriteTokens(p, skips, Parse(s)))
    decreases |s|, 0
  {
    hide MatchToken, IsTokenText, SkippedToken, PlainName, Parse, Unparse, IsQuote;
    MatchIsToken(s, p.from);
    assert !Hit(p.from, Parse(s), 0);
    if MatchToken(s, p.from).None? {
      ScanIsRewrite(p, skips, s[1..]);
      NoHitStep(p, skips, s);
    } else {
      var n := MatchToken(s, p.from).value;
      assert Hit(p.from, Parse(s), 1);
      QuoteFirst(s);
      MatchedText(s, n);
      ScanIsRewrite(p, skips, s[n..]);
      HitStep(p, skips, s, n);
      ReplaceHit(p, skips, s, n);
    }
  }

  lemma ReplaceHit(p: Pattern, skips: Skips, s: string, n: nat)
    requires s != "" && MatchToken(s, p.from) == Some(n) && s[..n] == [s[0]] + s[1..n - 1] + [s[0]]
    ensures var value := s[1..n - 1];
      ReplaceTokens(p, skips, s) ==
        [s[0]] + (if SkippedToken(skips, value) then value else p.to + value[|p.from|..]) + [s[0]] + ReplaceTokens(p, skips, s[n..])
  {
    hide MatchToken, SkippedToken;
    assert s[..n][1..n - 1] == s[1..n - 1];
    Grouping([s[0]], p.to, s[1..n - 1][|p.from|..], [s[0]]);
  }

  lemma Grouping(a: string, b: string, c: string, d: string)
    ensures a + b + c + d == a + (b + c) + d
  {
  }

  lemma NoHitStep(p: Pattern, skips: Skips, s: string)
    requires s != "" && IsQuote(s[0]) && (|Parse(s).texts| > 1 ==> !Hit(p.from, Parse(s), 1))
    ensures Unparse(RewriteTokens(p, skips, Parse(s))) == [s[0]] + Unparse(RewriteTokens(p, skips, Parse(s[1..])))
  {
    hide IsTokenText, SkippedToken, Unparse;
    var l, rest := Parse(s), Parse(s[1..]);
    var m := RewriteTokens(p, skips, l);
    assert Drop(l, 1) == rest && Tail(m) == Drop(m, 1);
    RewriteShift(p, skips, l, 1);
    assert m.texts[0] == "" && m.quotes[0] == s[0];
    UnparseOne(m);
    assert m.texts[0] + [s[0]] == [s[0]];
  }

  lemma UnparseOne(m: Line)
    requires |m.texts| == |m.quotes| + 1 && |m.quotes| >= 1
    ensures Unparse(m) == m.texts[0] + [m.quotes[0]] + Unparse(Tail(m))
  {
  }

  lemma HitStep(p: Pattern, skips: Skips, s: string, n: nat)
    requires s != "" && IsQuote(s[0]) && |Parse(s).texts| > 1 && Hit(p.from, Parse(s), 1) && n == |Parse(s).texts[1]| + 2
    requires n <= |s| && Parse(s[n..]) == Drop(Parse(s), 2)
    ensures Unparse(RewriteTokens(p, skips, Parse(s))) ==
      [s[0]] + RewriteTokens(p, skips, Parse(s)).texts[1] + [s[0]] + Unparse(RewriteTokens(p, skips, Parse(s[n..])))
  {
    hide IsTokenText, SkippedToken, Unparse;
    var l := Parse(s);
    var m := RewriteTokens(p, skips, l);
    assert l.quotes[0] == s[0] == l.quotes[1] && m.texts[0] == "";
    RewriteShift(p, skips, l, 2);
    UnparseTwo(m);
    assert m.texts[0] + [s[0]] == [s[0]];
  }

  lemma UnparseTwo(m: Line)
    requires |m.texts| == |m.quotes| + 1 && |m.quotes| >= 2
    ensures Unparse(m) == m.texts[0] + [m.quotes[0]] + m.texts[1] + [m.quotes[1]] + Unparse(Drop(m, 2))
  {
    assert Tail(Tail(m)) == Drop(m, 2);
    assert Unparse(Tail(m)) == m.texts[1] + [m.quotes[1]] + Unparse(Drop(m, 2));
  }

  /** Where the text between the first two quotes ends, and how the rest parses. */
  lemma MatchedText(s: string, n: nat)
    requires s != "" && IsQuote(s[0]) && |Parse(s).quotes| > 1 && n == |Parse(s).texts[1]| + 2
    ensures n <= |s| && s[1..n - 1] == Parse(s).texts[1] && s[n - 1] == Parse(s).quotes[1]
    ensures s[..n] == [s[0]] + Parse(s).texts[1] + [Parse(s).quotes[1]]
    ensures Parse(s[n..]) == Drop(Parse(s), 2)
  {
    hide IsQuote, Parse, Unparse;
    var l := Parse(s);
    UnparseParse(s);
    UnparseTwo(l);
    QuoteFirst(s);
    ParseWellFormed(s);
    var u := Unparse(Drop(l, 2));
    assert s == [s[0]] + l.texts[1] + [l.quotes[1]] + u;
    Bracketed(s[0], l.texts[1], l.quotes[1], u);
    assert WellFormed(Drop(l, 2));
    ParseUnparse(Drop(l, 2));
  }

  lemma QuoteFirst(s: string)
    requires s != "" && IsQuote(s[0])
    ensures Parse(s).texts[0] == "" && |Parse(s).quotes| > 0 && Parse(s).quotes[0] == s[0]
  {
  }

  lemma Bracketed(c: char, t: string, d: char, u: string)
    ensures var s := [c] + t + [d] + u;
      s[1..|t| + 1] == t && s[|t| + 1] == d && s[|t| + 2..] == u && s[..|t| + 2] == [c] + t + [d]
  {
  }
}
