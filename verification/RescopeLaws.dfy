/**
 * What a whole pass over one piece of a line does: patterns do not interfere, the reverse pass
 * undoes the forward pass, and when a second forward pass changes nothing.
 */
module RescopeLaws {
  import opened Common
  import opened Text
  import opened RescopeLine

  /** A package name as a token or a YAML value can carry it. */
  predicate PlainName(n: string) {
    n != "" && forall i :: 0 <= i < |n| ==> !IsQuote(n[i]) && !IsSpace(n[i]) && n[i] != '#' && n[i] != '\\'
  }

  /** Two different names that no text can carry both: neither is the other plus a subpath. */
  predicate Apart(a: string, b: string) {
    a != b && !IsTokenText(a, b) && !IsTokenText(b, a)
  }

  /** The names on both sides of a rename table are plain and pairwise apart. */
  ghost predicate Separated(ps: seq<Pattern>) {
    && Distinct(ps)
    && (forall p :: p in ps ==> PlainName(p.from) && PlainName(p.to))
    && (forall p, q :: p in ps && q in ps ==> Apart(p.from, q.to))
    && (forall p, q :: p in ps && q in ps && p != q ==> Apart(p.from, q.from) && Apart(p.to, q.to))
  }

  lemma TwoTokenNames(short: string, long: string, text: string)
    requires |short| <= |long| && IsTokenText(short, text) && IsTokenText(long, text)
    ensures short == long || IsTokenText(short, long)
  {
    assert long[..|short|] == text[..|long|][..|short|] == short;
    assert long[|short|..] == text[|short|..|long|];
    if |long| > |short| {
      assert long[|short|..][0] == text[|short|..][0];
      forall i | 0 <= i < |long[|short|..]| ensures !IsSpace(long[|short|..][i]) {
        assert long[|short|..][i] == text[|short|..][i];
      }
    } else {
      assert short == long[..|short|] == long;
    }
  }

  lemma OneOwner(a: string, b: string, text: string)
    requires Apart(a, b) && IsTokenText(a, text)
    ensures !IsTokenText(b, text)
  {
    if IsTokenText(b, text) {
      if |a| <= |b| {
        TwoTokenNames(a, b, text);
      } else {
        TwoTokenNames(b, a, text);
      }
    }
  }

  function Reverse(p: Pattern): Pattern {
    Pattern(p.upstream, p.to, p.from)
  }

  lemma RenamedBack(p: Pattern, text: string)
    requires IsTokenText(p.from, text)
    ensures IsTokenText(p.to, Renamed(p, text)) && Renamed(Reverse(p), Renamed(p, text)) == text
  {
    var subpath := text[|p.from|..];
    assert Renamed(p, text)[|p.to|..] == subpath && Renamed(p, text)[..|p.to|] == p.to;
    assert text == p.from + subpath;
  }

  // ---------------------------------------------------------------- tokens

  /** A pattern's pass leaves the tokens of every other name alone. */
  lemma {:induction false} OtherTokensStay(p: Pattern, skips: Skips, l: Line, name: string, i: nat)
    requires |l.texts| == |l.quotes| + 1 && i < |l.texts|
    requires PlainName(name) && PlainName(p.from) && PlainName(p.to) && Apart(p.from, name) && Apart(p.to, name)
    ensures Token(name, RewriteOne(p, skips, l), i) <==> Token(name, l, i)
    ensures Hit(name, RewriteOne(p, skips, l), i) <==> Hit(name, l, i)
    ensures Token(name, l, i) ==> RewriteOne(p, skips, l).texts[i] == l.texts[i]
  {
    if i > 0 {
      OtherTokensStay(p, skips, l, name, i - 1);
      if Active(skips, p) && Rewrites(p, skips, l, i) {
        RenamedBack(p, l.texts[i]);
        OneOwner(p.from, name, l.texts[i]);
        OneOwner(p.to, name, Renamed(p, l.texts[i]));
      }
    }
  }

  predicate Changes(p: Pattern, skips: Skips, l: Line, i: nat)
    requires |l.texts| == |l.quotes| + 1 && i < |l.texts|
  {
    Active(skips, p) && Rewrites(p, skips, l, i)
  }

  /** What one renaming does to the token at `i`, seen from another pattern. */
  lemma OneStepApart(first: Pattern, p: Pattern, skips: Skips, l: Line, i: nat)
    requires |l.texts| == |l.quotes| + 1 && 0 < i < |l.texts|
    requires PlainName(p.from) && PlainName(first.from) && PlainName(first.to)
    requires Apart(first.from, p.from) && Apart(first.to, p.from)
    ensures Changes(p, skips, RewriteOne(first, skips, l), i) <==> Changes(p, skips, l, i)
    ensures Changes(p, skips, l, i) ==>
      RewriteOne(first, skips, l).texts[i] == l.texts[i] && !Changes(first, skips, l, i)
  {
    OtherTokensStay(first, skips, l, p.from, i);
    if Token(p.from, l, i) {
      OneOwner(p.from, first.from, l.texts[i]);
    }
  }

  lemma OneStepText(p: Pattern, skips: Skips, l: Line, i: nat)
    requires |l.texts| == |l.quotes| + 1 && 0 < i < |l.texts|
    ensures Changes(p, skips, l, i) ==> IsTokenText(p.from, l.texts[i]) && RewriteOne(p, skips, l).texts[i] == Renamed(p, l.texts[i])
    ensures !Changes(p, skips, l, i) ==> RewriteOne(p, skips, l).texts[i] == l.texts[i]
  {
    hide YamlHit, IsTokenText, YamlRenamed;
  }

  lemma TailSeparated(ps: seq<Pattern>)
    requires Separated(ps) && ps != []
    ensures Separated(ps[1..]) && PlainName(ps[0].from) && PlainName(ps[0].to)
    ensures forall p :: p in ps <==> p == ps[0] || p in ps[1..]
    ensures forall p :: p in ps[1..] ==> p != ps[0] && PlainName(p.from) && Apart(ps[0].from, p.from) && Apart(ps[0].to, p.from)
  {
    hide PlainName, IsTokenText;
    assert ps == [ps[0]] + ps[1..];
    forall p | p in ps[1..] ensures p != ps[0] {
      var k :| 0 <= k < |ps[1..]| && ps[1..][k] == p;
      assert ps[k + 1] == p;
    }
    forall p, q | p in ps && q in ps ensures Apart(p.from, q.to) && Apart(q.to, p.from) {}
  }

  /** Text `i` after a whole pass: renamed by the one pattern that rewrites it in the original line, if any. */
  lemma {:induction false} PassOnTokens(ps: seq<Pattern>, skips: Skips, l: Line, i: nat)
    requires Separated(ps) && |l.texts| == |l.quotes| + 1 && 0 < i < |l.texts|
    ensures forall p :: p in ps && Changes(p, skips, l, i) ==> RewriteAll(ps, skips, l).texts[i] == Renamed(p, l.texts[i])
    ensures (forall p :: p in ps ==> !Changes(p, skips, l, i)) ==> RewriteAll(ps, skips, l).texts[i] == l.texts[i]
  {
    if ps != [] {
      var first, rest := ps[0], ps[1..];
      var m := RewriteOne(first, skips, l);
      assert RewriteAll(ps, skips, l) == RewriteAll(rest, skips, m);
      hide Apart, PlainName, IsTokenText, Separated, RewriteAll, RewriteOne, Rewrites;
      TailSeparated(ps);
      OneStepText(first, skips, l, i);
      forall p | p in rest
        ensures Changes(p, skips, m, i) <==> Changes(p, skips, l, i)
        ensures Changes(p, skips, l, i) ==> m.texts[i] == l.texts[i] && !Changes(first, skips, l, i)
      {
        OneStepApart(first, p, skips, l, i);
      }
      PassOnTokens(rest, skips, m, i);
    }
  }

  // ---------------------------------------------------------------- YAML names

  lemma YamlStop(rest: string, alone: bool)
    requires YamlEnd(rest, alone)
    ensures rest == "" || IsBlank(rest[0]) || rest[0] == '#'
  {
  }

  lemma LongerName(short: string, long: string, value: string)
    requires PlainName(long) && |short| < |long| && StartsWith(value, long)
    ensures value[|short|..] != "" && !IsBlank(value[|short|..][0]) && value[|short|..][0] != '#'
  {
    assert value[|short|] == value[..|long|][|short|] == long[|short|];
  }

  lemma NoLongerName(short: string, long: string, text: string, alone: bool)
    requires PlainName(long) && |short| <= |long|
    requires YamlHit(short, text, alone) && YamlHit(long, text, alone)
    ensures short == long
  {
    hide YamlEnd;
    var value := text[YamlPrefix(text).value..];
    assert value[|short|..] == text[YamlPrefix(text).value + |short|..];
    if |short| < |long| {
      LongerName(short, long, value);
      YamlStop(value[|short|..], alone);
    } else {
      assert short == value[..|short|] == long;
    }
  }

  /** A YAML value carries one name only. */
  lemma OneYamlName(a: string, b: string, text: string, alone: bool)
    requires PlainName(a) && PlainName(b) && YamlHit(a, text, alone) && YamlHit(b, text, alone)
    ensures a == b
  {
    if |a| <= |b| {
      NoLongerName(a, b, text, alone);
    } else {
      NoLongerName(b, a, text, alone);
    }
  }

  lemma ThreePieces(a: string, b: string, c: string)
    ensures var s := a + (b + c);
      s[..|a|] == a && s[|a|..] == b + c && s[|a| + |b|..] == c && StartsWith(s[|a|..], b)
  {
    assert (b + c)[..|b|] == b;
  }

  /** A hit takes a text apart into what precedes the name, the name, and what follows. */
  lemma YamlOpen(name: string, text: string, alone: bool) returns (indent: string, dash: string, gap: string, rest: string)
    requires PlainName(name) && YamlHit(name, text, alone)
    ensures YamlPieces(indent, dash, gap, name + rest) && YamlEnd(rest, alone)
    ensures text == YamlHead(indent, dash, gap) + (name + rest)
    ensures YamlPrefix(text) == Some(|YamlHead(indent, dash, gap)|)
  {
    hide YamlEnd, YamlPieces, YamlHead, YamlPrefix;
    var value;
    indent, dash, gap, value := YamlSplit(text);
    rest := NameFirst(YamlHead(indent, dash, gap), value, name);
  }

  lemma NameFirst(head: string, value: string, name: string) returns (rest: string)
    requires StartsWith((head + value)[|head|..], name)
    ensures value == name + rest && rest == (head + value)[|head| + |name|..]
  {
    assert (head + value)[|head|..] == value;
    rest := value[|name|..];
    assert value[..|name|] == name;
  }

  lemma YamlClose(name: string, indent: string, dash: string, gap: string, rest: string, alone: bool)
    requires PlainName(name) && YamlPieces(indent, dash, gap, name + rest) && YamlEnd(rest, alone)
    ensures YamlHit(name, YamlHead(indent, dash, gap) + (name + rest), alone)
    ensures YamlPrefix(YamlHead(indent, dash, gap) + (name + rest)) == Some(|YamlHead(indent, dash, gap)|)
  {
    hide YamlEnd, YamlPieces, YamlHead, YamlPrefix;
    YamlBuild(indent, dash, gap, name + rest);
    ThreePieces(YamlHead(indent, dash, gap), name, rest);
  }

  lemma SwapName(from: string, to: string, indent: string, dash: string, gap: string, rest: string)
    requires PlainName(to) && YamlPieces(indent, dash, gap, from + rest)
    ensures YamlPieces(indent, dash, gap, to + rest)
  {
    assert (to + rest)[0] == to[0] && !IsSpace(to[0]);
  }

  lemma YamlBack(p: Pattern, text: string, alone: bool)
    requires PlainName(p.from) && PlainName(p.to) && YamlHit(p.from, text, alone)
    ensures YamlHit(p.to, YamlRenamed(p, text), alone)
    ensures YamlRenamed(Reverse(p), YamlRenamed(p, text)) == text
  {
    hide YamlEnd, YamlPieces, YamlHead, YamlPrefix, PlainName;
    var indent, dash, gap, rest := YamlOpen(p.from, text, alone);
    var head := YamlHead(indent, dash, gap);
    SwapName(p.from, p.to, indent, dash, gap, rest);
    YamlClose(p.to, indent, dash, gap, rest, alone);
    hide YamlHit, YamlRenamed;
    RenamedPieces(p, head, rest);
    RenamedPieces(Reverse(p), head, rest);
  }

  lemma RenamedPieces(p: Pattern, head: string, rest: string)
    requires YamlPrefix(head + (p.from + rest)) == Some(|head|)
    ensures StartsWith((head + (p.from + rest))[|head|..], p.from)
    ensures YamlRenamed(p, head + (p.from + rest)) == head + (p.to + rest)
  {
    hide YamlPrefix;
    ThreePieces(head, p.from, rest);
    assert head + p.to + rest == head + (p.to + rest);
  }

  predicate YamlChanges(p: Pattern, skips: Skips, l: Line)
    requires |l.texts| == |l.quotes| + 1
  {
    Active(skips, p) && YamlHit(p.from, l.texts[0], l.quotes == [])
  }

  lemma OnePassOnYaml(p: Pattern, skips: Skips, l: Line)
    requires |l.texts| == |l.quotes| + 1
    ensures RewriteOne(p, skips, l).texts[0] == if YamlChanges(p, skips, l) then YamlRenamed(p, l.texts[0]) else l.texts[0]
  {
    assert RewriteTokens(p, skips, l).texts[0] == l.texts[0];
  }

  /** Text 0 after a whole pass: renamed by the one pattern whose YAML name it carries, if any. */
  lemma {:induction false} PassOnYaml(ps: seq<Pattern>, skips: Skips, l: Line)
    requires Separated(ps) && |l.texts| == |l.quotes| + 1
    ensures forall p :: p in ps && YamlChanges(p, skips, l) ==> RewriteAll(ps, skips, l).texts[0] == YamlRenamed(p, l.texts[0])
    ensures (forall p :: p in ps ==> !YamlChanges(p, skips, l)) ==> RewriteAll(ps, skips, l).texts[0] == l.texts[0]
  {
    hide YamlHit, YamlRenamed, PlainName, IsTokenText;
    if ps != [] {
      var first, rest := ps[0], ps[1..];
      var m := RewriteOne(first, skips, l);
      OnePassOnYaml(first, skips, l);
      forall p | p in rest
        ensures YamlChanges(p, skips, m) <==> YamlChanges(p, skips, l)
        ensures YamlChanges(p, skips, l) ==> m.texts[0] == l.texts[0] && !YamlChanges(first, skips, l)
      {
        var k :| 0 <= k < |rest| && rest[k] == p;
        assert ps[k + 1] == p && Apart(first.from, p.from) && Apart(p.from, first.to);
        if YamlChanges(first, skips, l) {
          YamlBack(first, l.texts[0], l.quotes == []);
          if YamlChanges(p, skips, l) {
            OneYamlName(first.from, p.from, l.texts[0], l.quotes == []);
          }
          if YamlChanges(p, skips, m) {
            OneYamlName(first.to, p.from, m.texts[0], l.quotes == []);
          }
        }
      }
      PassOnYaml(rest, skips, m);
      assert ps == [first] + rest;
    }
  }

  // ---------------------------------------------------------------- the reverse pass

  /**
   * The names an enabled pattern would produce stand on the line only behind a token that the forward pass
   * renames to the same name, where the reverse pass cannot match them either.
   */
  ghost predicate Returns(ps: seq<Pattern>, skips: Skips, l: Line)
    requires |l.texts| == |l.quotes| + 1
  {
    forall p :: p in ps && Active(skips, p) ==>
      !YamlHit(p.to, l.texts[0], l.quotes == []) && forall i :: 0 <= i < |l.texts| ==> Shielded(p, skips, l, i)
  }

  ghost predicate Shielded(p: Pattern, skips: Skips, l: Line, i: nat)
    requires |l.texts| == |l.quotes| + 1 && i < |l.texts|
  {
    Token(p.to, l, i) ==> Changes(p, skips, l, i - 1)
  }

  /** The line carries no name that an enabled pattern would produce. */
  ghost predicate Unscoped(ps: seq<Pattern>, skips: Skips, l: Line)
    requires |l.texts| == |l.quotes| + 1
  {
    forall p :: p in ps && Active(skips, p) ==>
      !YamlHit(p.to, l.texts[0], l.quotes == []) && forall i :: 0 <= i < |l.texts| ==> !Token(p.to, l, i)
  }

  lemma UnscopedReturns(ps: seq<Pattern>, skips: Skips, l: Line)
    requires |l.texts| == |l.quotes| + 1 && Unscoped(ps, skips, l)
    ensures Returns(ps, skips, l)
  {
    hide Token, YamlHit, Changes;
  }

  /** The value skip table lists no produced name. */
  ghost predicate SparesTargets(ps: seq<Pattern>, skips: Skips) {
    forall p, v :: p in ps && v in skips.values ==> !StartsWith(v, p.to)
  }

  /** `rs` holds the same renames, turned around, in any order. */
  ghost predicate Mirrors(ps: seq<Pattern>, rs: seq<Pattern>) {
    forall p :: p in ps <==> Reverse(p) in rs
  }

  lemma {:induction false} NormalizedKeeps(value: string, name: string)
    requires PlainName(name) && StartsWith(value, name)
    ensures StartsWith(Normalized(value), name)
  {
    assert value[|name| - 1] == value[..|name|][|name| - 1] == name[|name| - 1];
    if value[|value| - 1] == '\\' {
      assert value[..|value| - 1][..|name|] == value[..|name|];
      NormalizedKeeps(value[..|value| - 1], name);
    }
  }

  lemma OthersApart(ps: seq<Pattern>, p: Pattern, q: Pattern)
    requires Separated(ps) && p in ps && q in ps
    ensures PlainName(p.from) && PlainName(p.to) && Apart(p.from, q.to)
    ensures p != q ==> Apart(p.from, q.from) && Apart(p.to, q.to)
  {
  }

  /** After the forward pass, a produced token stands where the pattern rewrote or where one stood before. */
  lemma ProducedTokens(ps: seq<Pattern>, skips: Skips, l: Line, p: Pattern, i: nat)
    requires Separated(ps) && |l.texts| == |l.quotes| + 1 && i < |l.texts| && p in ps
    ensures Token(p.to, RewriteAll(ps, skips, l), i) <==> Changes(p, skips, l, i) || Token(p.to, l, i)
    ensures Token(p.to, l, i) ==> RewriteAll(ps, skips, l).texts[i] == l.texts[i] && !Changes(p, skips, l, i)
  {
    if i > 0 {
      PassOnTokens(ps, skips, l, i);
      if q :| q in ps && Changes(q, skips, l, i) {
        ProducedBy(ps, skips, l, p, q, i);
      }
    }
  }

  lemma ProducedBy(ps: seq<Pattern>, skips: Skips, l: Line, p: Pattern, q: Pattern, i: nat)
    requires Separated(ps) && |l.texts| == |l.quotes| + 1 && 0 < i < |l.texts| && p in ps && q in ps
    requires Changes(q, skips, l, i) && RewriteAll(ps, skips, l).texts[i] == Renamed(q, l.texts[i])
    ensures Token(p.to, RewriteAll(ps, skips, l), i) <==> p == q
    ensures Changes(p, skips, l, i) <==> p == q
    ensures !Token(p.to, l, i)
  {
    hide RewriteAll, Separated, Apart, IsTokenText, PlainName;
    var text := RewriteAll(ps, skips, l).texts[i];
    RenamedBack(q, l.texts[i]);
    OthersApart(ps, q, p);
    OneOwner(q.from, p.to, l.texts[i]);
    if p != q {
      OneOwner(q.to, p.to, text);
      OneOwner(q.from, p.from, l.texts[i]);
    }
  }

  /** A text that the pass renamed is not protected against the way back. */
  lemma TargetsNotSkipped(ps: seq<Pattern>, skips: Skips, p: Pattern, text: string)
    requires Separated(ps) && SparesTargets(ps, skips) && p in ps && IsTokenText(p.to, text)
    ensures !SkippedToken(skips, text)
  {
    OthersApart(ps, p, p);
    NormalizedKeeps(text, p.to);
  }

  /** As long as produced names are shielded, the reverse pattern matches what the forward pattern rewrote. */
  lemma {:induction false} ProducedHit(ps: seq<Pattern>, skips: Skips, l: Line, p: Pattern, i: nat)
    requires Separated(ps) && |l.texts| == |l.quotes| + 1 && i < |l.texts| && p in ps
    requires forall k :: 0 <= k <= i ==> Shielded(p, skips, l, k)
    ensures Hit(p.to, RewriteAll(ps, skips, l), i) <==> Changes(p, skips, l, i)
  {
    hide RewriteAll, Separated, Changes, Token, Shielded;
    ProducedTokens(ps, skips, l, p, i);
    if i > 0 {
      ProducedHit(ps, skips, l, p, i - 1);
      assert Shielded(p, skips, l, i);
    }
    ProducedHitStep(skips, l, RewriteAll(ps, skips, l), p, i);
  }

  lemma ProducedHitStep(skips: Skips, l: Line, m: Line, p: Pattern, i: nat)
    requires |l.texts| == |l.quotes| + 1 && |m.texts| == |m.quotes| + 1 == |l.texts| && i < |l.texts|
    requires Token(p.to, m, i) <==> Changes(p, skips, l, i) || Token(p.to, l, i)
    requires Token(p.to, l, i) ==> !Changes(p, skips, l, i)
    requires i > 0 ==> (Hit(p.to, m, i - 1) <==> Changes(p, skips, l, i - 1)) && Shielded(p, skips, l, i)
    ensures Hit(p.to, m, i) <==> Changes(p, skips, l, i)
  {
    hide IsTokenText;
  }

  /** The reverse pattern rewrites exactly what the forward pattern rewrote. */
  lemma ReverseHits(ps: seq<Pattern>, skips: Skips, l: Line, p: Pattern, i: nat)
    requires Separated(ps) && |l.texts| == |l.quotes| + 1 && i < |l.texts|
    requires Returns(ps, skips, l) && SparesTargets(ps, skips) && p in ps
    ensures Changes(Reverse(p), skips, RewriteAll(ps, skips, l), i) <==> Changes(p, skips, l, i)
  {
    hide RewriteAll, Separated, Shielded, YamlHit, Token;
    if Active(skips, p) {
      ProducedHit(ps, skips, l, p, i);
      if Changes(p, skips, l, i) {
        HitIsToken(p.to, RewriteAll(ps, skips, l), i);
        TargetsNotSkipped(ps, skips, p, RewriteAll(ps, skips, l).texts[i]);
      }
    }
  }

  lemma HitIsToken(name: string, l: Line, i: nat)
    requires |l.texts| == |l.quotes| + 1 && i < |l.texts| && Hit(name, l, i)
    ensures i > 0 && IsTokenText(name, l.texts[i]) && Token(name, l, i)
  {
  }

  lemma ReverseToken(ps: seq<Pattern>, rs: seq<Pattern>, skips: Skips, l: Line, i: nat)
    requires Separated(ps) && Separated(rs) && Mirrors(ps, rs) && |l.texts| == |l.quotes| + 1 && 0 < i < |l.texts|
    requires Returns(ps, skips, l) && SparesTargets(ps, skips)
    ensures RewriteAll(rs, skips, RewriteAll(ps, skips, l)).texts[i] == l.texts[i]
  {
    var m := RewriteAll(ps, skips, l);
    PassOnTokens(ps, skips, l, i);
    PassOnTokens(rs, skips, m, i);
    if p :| p in ps && Changes(p, skips, l, i) {
      ReverseHits(ps, skips, l, p, i);
      assert Reverse(p) in rs;
      RenamedBack(p, l.texts[i]);
    } else {
      forall r | r in rs ensures !Changes(r, skips, m, i) {
        assert Reverse(Reverse(r)) == r;
        ReverseHits(ps, skips, l, Reverse(r), i);
      }
    }
  }

  lemma ReverseYaml(ps: seq<Pattern>, rs: seq<Pattern>, skips: Skips, l: Line)
    requires Separated(ps) && Separated(rs) && Mirrors(ps, rs) && |l.texts| == |l.quotes| + 1
    requires Returns(ps, skips, l)
    ensures RewriteAll(rs, skips, RewriteAll(ps, skips, l)).texts[0] == l.texts[0]
  {
    var m := RewriteAll(ps, skips, l);
    PassOnYaml(ps, skips, l);
    PassOnYaml(rs, skips, m);
    if p :| p in ps && YamlChanges(p, skips, l) {
      OthersApart(ps, p, p);
      YamlBack(p, l.texts[0], l.quotes == []);
      assert Reverse(p) in rs && YamlChanges(Reverse(p), skips, m);
    } else {
      forall r | r in rs ensures !YamlChanges(r, skips, m) {
        assert Reverse(Reverse(r)) == r && Reverse(r) in ps;
      }
    }
  }

  lemma ReturnsBack(ps: seq<Pattern>, rs: seq<Pattern>, skips: Skips, l: Line)
    requires Separated(ps) && Separated(rs) && Mirrors(ps, rs) && |l.texts| == |l.quotes| + 1
    requires Returns(ps, skips, l) && SparesTargets(ps, skips)
    ensures RewriteAll(rs, skips, RewriteAll(ps, skips, l)) == l
  {
    hide Separated, Mirrors, SparesTargets, Returns;
    var back := RewriteAll(rs, skips, RewriteAll(ps, skips, l));
    forall i | 0 <= i < |l.texts| ensures back.texts[i] == l.texts[i] {
      if i == 0 {
        ReverseYaml(ps, rs, skips, l);
      } else {
        ReverseToken(ps, rs, skips, l, i);
      }
    }
    assert back.texts == l.texts;
  }

  /** A produced YAML name on the line is taken for one that the forward pass produced. */
  lemma YamlDoesNotReturn(ps: seq<Pattern>, rs: seq<Pattern>, skips: Skips, l: Line, p: Pattern)
    requires Separated(ps) && Separated(rs) && Mirrors(ps, rs) && |l.texts| == |l.quotes| + 1
    requires p in ps && Active(skips, p) && YamlHit(p.to, l.texts[0], l.quotes == [])
    ensures RewriteAll(rs, skips, RewriteAll(ps, skips, l)).texts[0] != l.texts[0]
  {
    hide YamlHit, YamlRenamed, Apart, PlainName;
    var m, alone := RewriteAll(ps, skips, l), l.quotes == [];
    forall q | q in ps ensures !YamlChanges(q, skips, l) {
      OthersApart(ps, q, p);
      OthersApart(ps, p, p);
      if YamlHit(q.from, l.texts[0], alone) {
        OneYamlName(q.from, p.to, l.texts[0], alone);
        NotApart(p.to);
      }
    }
    PassOnYaml(ps, skips, l);
    assert Reverse(p) in rs && YamlChanges(Reverse(p), skips, m);
    PassOnYaml(rs, skips, m);
    OthersApart(ps, p, p);
    YamlMoves(Reverse(p), l.texts[0], alone);
  }

  lemma YamlMoves(p: Pattern, text: string, alone: bool)
    requires PlainName(p.from) && PlainName(p.to) && p.from != p.to && YamlHit(p.from, text, alone)
    ensures YamlRenamed(p, text) != text
  {
    YamlBack(p, text, alone);
    hide YamlHit;
    if YamlRenamed(p, text) == text {
      OneYamlName(p.from, p.to, text, alone);
    }
  }

  lemma NotApart(name: string)
    ensures !Apart(name, name)
  {
  }

  /** So is the first produced token that is not shielded. */
  lemma TokenDoesNotReturn(ps: seq<Pattern>, rs: seq<Pattern>, skips: Skips, l: Line, p: Pattern, i: nat)
    requires Separated(ps) && Separated(rs) && Mirrors(ps, rs) && SparesTargets(ps, skips) && |l.texts| == |l.quotes| + 1
    requires p in ps && Active(skips, p) && i < |l.texts| && !Shielded(p, skips, l, i)
    requires forall k :: 0 <= k < i ==> Shielded(p, skips, l, k)
    ensures RewriteAll(rs, skips, RewriteAll(ps, skips, l)).texts[i] != l.texts[i]
  {
    hide Separated, Mirrors, SparesTargets, RewriteAll, Shielded, Apart, PlainName;
    var m := RewriteAll(ps, skips, l);
    UnshieldedHit(ps, skips, l, p, i);
    HitIsToken(p.to, m, i);
    TargetsNotSkipped(ps, skips, p, m.texts[i]);
    MirrorIn(ps, rs, p);
    PassOnTokens(rs, skips, m, i);
    assert Changes(Reverse(p), skips, m, i);
    RenamedBack(Reverse(p), m.texts[i]);
    OthersApart(ps, p, p);
    hide IsTokenText, Renamed;
    OneOwner(p.from, p.to, Renamed(Reverse(p), m.texts[i]));
  }

  lemma MirrorIn(ps: seq<Pattern>, rs: seq<Pattern>, p: Pattern)
    requires Mirrors(ps, rs) && p in ps
    ensures Reverse(p) in rs
  {
  }

  lemma UnshieldedHit(ps: seq<Pattern>, skips: Skips, l: Line, p: Pattern, i: nat)
    requires Separated(ps) && |l.texts| == |l.quotes| + 1 && p in ps && i < |l.texts| && !Shielded(p, skips, l, i)
    requires forall k :: 0 <= k < i ==> Shielded(p, skips, l, k)
    ensures Hit(p.to, RewriteAll(ps, skips, l), i) && RewriteAll(ps, skips, l).texts[i] == l.texts[i]
  {
    hide RewriteAll, Separated, Changes, IsTokenText;
    ProducedTokens(ps, skips, l, p, i);
    ProducedHit(ps, skips, l, p, i - 1);
  }

  lemma {:induction false} FirstUnshielded(p: Pattern, skips: Skips, l: Line, n: nat) returns (i: nat)
    requires |l.texts| == |l.quotes| + 1 && n < |l.texts| && !Shielded(p, skips, l, n)
    ensures i <= n && !Shielded(p, skips, l, i) && forall k :: 0 <= k < i ==> Shielded(p, skips, l, k)
  {
    hide Shielded;
    if k :| 0 <= k < n && !Shielded(p, skips, l, k) {
      i := FirstUnshielded(p, skips, l, k);
    } else {
      i := n;
    }
  }

  /** The reverse pass, with its patterns in any order, undoes the forward pass exactly on the lines that return. */
  lemma LineRoundTrip(ps: seq<Pattern>, rs: seq<Pattern>, skips: Skips, l: Line)
    requires Separated(ps) && Separated(rs) && Mirrors(ps, rs) && SparesTargets(ps, skips) && |l.texts| == |l.quotes| + 1
    ensures RewriteAll(rs, skips, RewriteAll(ps, skips, l)) == l <==> Returns(ps, skips, l)
  {
    hide Separated, Mirrors, SparesTargets, RewriteAll, Shielded, YamlHit;
    if Returns(ps, skips, l) {
      ReturnsBack(ps, rs, skips, l);
    } else {
      var p :| p in ps && Active(skips, p) &&
        !(!YamlHit(p.to, l.texts[0], l.quotes == []) && forall i :: 0 <= i < |l.texts| ==> Shielded(p, skips, l, i));
      if YamlHit(p.to, l.texts[0], l.quotes == []) {
        YamlDoesNotReturn(ps, rs, skips, l, p);
      } else {
        var n :| 0 <= n < |l.texts| && !Shielded(p, skips, l, n);
        var i := FirstUnshielded(p, skips, l, n);
        TokenDoesNotReturn(ps, rs, skips, l, p, i);
      }
    }
  }

  // ---------------------------------------------------------------- a second pass

  /** Tokens of one name from `i` to `j`, each sharing a quote with the next. */
  ghost predicate Chain(name: string, l: Line, i: nat, j: nat)
    requires |l.texts| == |l.quotes| + 1
  {
    i < j < |l.texts| && forall k :: i <= k <= j ==> Token(name, l, k)
  }

  /**
   * A rewritten token followed, along tokens of the same name that share quotes, by a token the
   * first pass could not match although no skip table protects it.
   */
  ghost predicate LeftBehind(p: Pattern, skips: Skips, l: Line, i: nat, j: nat)
    requires |l.texts| == |l.quotes| + 1
  {
    && Active(skips, p) && Chain(p.from, l, i, j)
    && Rewrites(p, skips, l, i) && !Hit(p.from, l, j) && !SkippedToken(skips, l.texts[j])
  }

  /** A source token that remains after a pass is one the pass did not rewrite. */
  lemma RemainingTokens(ps: seq<Pattern>, skips: Skips, l: Line, p: Pattern, i: nat)
    requires Separated(ps) && |l.texts| == |l.quotes| + 1 && i < |l.texts| && p in ps && Active(skips, p)
    ensures Token(p.from, RewriteAll(ps, skips, l), i) <==> Token(p.from, l, i) && !Rewrites(p, skips, l, i)
    ensures Token(p.from, RewriteAll(ps, skips, l), i) ==> RewriteAll(ps, skips, l).texts[i] == l.texts[i]
  {
    if i > 0 {
      PassOnTokens(ps, skips, l, i);
      var text := RewriteAll(ps, skips, l).texts[i];
      if q :| q in ps && Changes(q, skips, l, i) {
        RenamedBack(q, l.texts[i]);
        OthersApart(ps, p, q);
        OneOwner(q.to, p.from, text);
        if p != q {
          OneOwner(q.from, p.from, l.texts[i]);
        }
      } else {
        assert !Changes(p, skips, l, i) && text == l.texts[i];
      }
    }
  }

  /** A token that only the second pass hits is preceded by a rewritten one along a chain. */
  lemma {:induction false} NewHitHasCause(ps: seq<Pattern>, skips: Skips, l: Line, p: Pattern, j: nat) returns (i: nat)
    requires Separated(ps) && |l.texts| == |l.quotes| + 1 && j < |l.texts| && p in ps && Active(skips, p)
    requires Hit(p.from, RewriteAll(ps, skips, l), j) && !Hit(p.from, l, j)
    ensures Chain(p.from, l, i, j) && Rewrites(p, skips, l, i)
    decreases j
  {
    hide Separated, RewriteAll, SkippedToken, IsTokenText;
    var m := RewriteAll(ps, skips, l);
    RemainingTokens(ps, skips, l, p, j);
    assert Hit(p.from, l, j - 1);
    if Rewrites(p, skips, l, j - 1) {
      i := j - 1;
    } else {
      RemainingTokens(ps, skips, l, p, j - 1);
      assert Hit(p.from, m, j - 2) && !Hit(p.from, l, j - 2);
      i := NewHitHasCause(ps, skips, l, p, j - 2);
      RemainingTokens(ps, skips, l, p, j - 2);
    }
  }

  /** Along a chain after a rewritten token, hits and misses swap in the second pass, up to the next rewritten one. */
  lemma {:induction false} HitsSwap(ps: seq<Pattern>, skips: Skips, l: Line, p: Pattern, i: nat, j: nat)
    requires Separated(ps) && |l.texts| == |l.quotes| + 1 && p in ps && Active(skips, p)
    requires Chain(p.from, l, i, j) && Rewrites(p, skips, l, i)
    requires forall k :: i < k <= j ==> !Rewrites(p, skips, l, k)
    ensures Hit(p.from, RewriteAll(ps, skips, l), j) <==> !Hit(p.from, l, j)
    decreases j
  {
    hide Separated, RewriteAll, SkippedToken, IsTokenText;
    RemainingTokens(ps, skips, l, p, j);
    if j > i + 1 {
      HitsSwap(ps, skips, l, p, i, j - 1);
    } else {
      RemainingTokens(ps, skips, l, p, i);
    }
  }

  lemma {:induction false} LastRewrite(p: Pattern, skips: Skips, l: Line, i: nat, j: nat) returns (k: nat)
    requires |l.texts| == |l.quotes| + 1 && LeftBehind(p, skips, l, i, j)
    ensures LeftBehind(p, skips, l, k, j) && forall n :: k < n <= j ==> !Rewrites(p, skips, l, n)
    decreases j - i
  {
    if n :| i < n <= j && Rewrites(p, skips, l, n) {
      k := LastRewrite(p, skips, l, n, j);
    } else {
      k := i;
    }
  }

  /** The second pass touches a text exactly when some token was left behind. */
  lemma SecondPassMoves(ps: seq<Pattern>, skips: Skips, l: Line, p: Pattern)
    requires Separated(ps) && |l.texts| == |l.quotes| + 1 && p in ps
    ensures (exists j :: 0 <= j < |l.texts| && Changes(p, skips, RewriteAll(ps, skips, l), j))
       <==> (exists i: nat, j: nat :: LeftBehind(p, skips, l, i, j))
  {
    var m := RewriteAll(ps, skips, l);
    if j :| 0 <= j < |l.texts| && Changes(p, skips, m, j) {
      RemainingTokens(ps, skips, l, p, j);
      var i := NewHitHasCause(ps, skips, l, p, j);
      assert LeftBehind(p, skips, l, i, j);
    }
    if i: nat, j: nat :| LeftBehind(p, skips, l, i, j) {
      var k := LastRewrite(p, skips, l, i, j);
      HitsSwap(ps, skips, l, p, k, j);
      RemainingTokens(ps, skips, l, p, j);
      assert Changes(p, skips, m, j);
    }
  }

  lemma YamlSettles(ps: seq<Pattern>, skips: Skips, l: Line, p: Pattern)
    requires Separated(ps) && |l.texts| == |l.quotes| + 1 && p in ps
    ensures !YamlChanges(p, skips, RewriteAll(ps, skips, l))
  {
    PassOnYaml(ps, skips, l);
    if q :| q in ps && YamlChanges(q, skips, l) {
      OthersApart(ps, p, q);
      OthersApart(ps, q, q);
      YamlBack(q, l.texts[0], l.quotes == []);
      if YamlChanges(p, skips, RewriteAll(ps, skips, l)) {
        OneYamlName(p.from, q.to, RewriteAll(ps, skips, l).texts[0], l.quotes == []);
      }
    }
  }

  lemma RenamedDiffers(p: Pattern, text: string)
    requires IsTokenText(p.from, text) && PlainName(p.from) && PlainName(p.to) && Apart(p.from, p.to)
    ensures Renamed(p, text) != text
  {
    RenamedBack(p, text);
    OneOwner(p.from, p.to, text);
  }

  /** Exactly when a second forward pass is a no-op: no token of any enabled name was left behind. */
  lemma SecondPass(ps: seq<Pattern>, skips: Skips, l: Line)
    requires Separated(ps) && |l.texts| == |l.quotes| + 1
    ensures RewriteAll(ps, skips, RewriteAll(ps, skips, l)) == RewriteAll(ps, skips, l)
       <==> (forall p, i: nat, j: nat :: p in ps ==> !LeftBehind(p, skips, l, i, j))
  {
    var m := RewriteAll(ps, skips, l);
    var n := RewriteAll(ps, skips, m);
    if forall p, i: nat, j: nat :: p in ps ==> !LeftBehind(p, skips, l, i, j) {
      forall i | 0 <= i < |l.texts| ensures n.texts[i] == m.texts[i] {
        NothingMoves(ps, skips, l, i);
      }
      assert n.texts == m.texts;
    } else {
      var p, i: nat, j: nat :| p in ps && LeftBehind(p, skips, l, i, j);
      SecondPassMoves(ps, skips, l, p);
      var k :| 0 <= k < |l.texts| && Changes(p, skips, m, k);
      PassOnTokens(ps, skips, m, k);
      OthersApart(ps, p, p);
      RenamedDiffers(p, m.texts[k]);
    }
  }

  lemma NoLeftBehind(ps: seq<Pattern>, skips: Skips, l: Line, p: Pattern, i: nat)
    requires Separated(ps) && |l.texts| == |l.quotes| + 1 && i < |l.texts| && p in ps
    requires forall a: nat, b: nat :: !LeftBehind(p, skips, l, a, b)
    ensures !Changes(p, skips, RewriteAll(ps, skips, l), i)
  {
    SecondPassMoves(ps, skips, l, p);
  }

  lemma NothingMoves(ps: seq<Pattern>, skips: Skips, l: Line, i: nat)
    requires Separated(ps) && |l.texts| == |l.quotes| + 1 && i < |l.texts|
    requires forall p, i: nat, j: nat :: p in ps ==> !LeftBehind(p, skips, l, i, j)
    ensures RewriteAll(ps, skips, RewriteAll(ps, skips, l)).texts[i] == RewriteAll(ps, skips, l).texts[i]
  {
    var m := RewriteAll(ps, skips, l);
    if i == 0 {
      forall p | p in ps ensures !YamlChanges(p, skips, m) {
        YamlSettles(ps, skips, l, p);
      }
      PassOnYaml(ps, skips, m);
    } else {
      forall p | p in ps ensures !Changes(p, skips, m, i) {
        NoLeftBehind(ps, skips, l, p, i);
      }
      PassOnTokens(ps, skips, m, i);
    }
  }

  /** Two tokens of one name that share a quote. */
  ghost predicate Shares(name: string, l: Line, i: nat)
    requires |l.texts| == |l.quotes| + 1
  {
    Chain(name, l, i, i + 1)
  }

  /** Whatever is protected: a token left behind takes two tokens of its name that share a quote. */
  lemma LeftBehindShares(p: Pattern, skips: Skips, l: Line, i: nat, j: nat)
    requires |l.texts| == |l.quotes| + 1 && LeftBehind(p, skips, l, i, j)
    ensures Shares(p.from, l, i)
  {
  }

  /** On a line whose tokens of the name are not protected, a shared quote always leaves a token behind. */
  lemma LeftBehindIsSharing(p: Pattern, skips: Skips, l: Line)
    requires |l.texts| == |l.quotes| + 1 && Active(skips, p)
    requires forall i :: 0 <= i < |l.texts| && Token(p.from, l, i) ==> !SkippedToken(skips, l.texts[i])
    ensures (exists i: nat, j: nat :: LeftBehind(p, skips, l, i, j)) <==> (exists i: nat :: Shares(p.from, l, i))
  {
    if i: nat, j: nat :| LeftBehind(p, skips, l, i, j) {
      LeftBehindShares(p, skips, l, i, j);
    }
    if i: nat :| Shares(p.from, l, i) {
      assert Token(p.from, l, i) && Token(p.from, l, i + 1);
      if Hit(p.from, l, i) {
        assert LeftBehind(p, skips, l, i, i + 1);
      } else {
        assert Hit(p.from, l, i - 1) && Chain(p.from, l, i - 1, i);
        assert LeftBehind(p, skips, l, i - 1, i);
      }
    }
  }
}
