/**
 * The rename table of scripts/rescope-vendor.ts and the order its patterns run in. The table meets
 * what the laws ask of it: names that do not overlap, and protected values that no scoped name begins.
 */
module Renames {
  import opened Sorting
  import opened Text
  import opened RescopeLine
  import opened RescopeLaws

  const TABLE: seq<(string, string)> := [
    ("cordis", "@deepseek-ai/cordis"),
    ("cosmokit", "@deepseek-ai/cosmokit"),
    ("schemastery", "@deepseek-ai/schemastery"),
    ("@cordisjs/plugin-loader", "@deepseek-ai/cordis-plugin-loader"),
    ("@cordisjs/plugin-include", "@deepseek-ai/cordis-plugin-include"),
    ("@cordisjs/plugin-group", "@deepseek-ai/cordis-plugin-group"),
    ("@cordisjs/plugin-timer", "@deepseek-ai/cordis-plugin-timer"),
    ("@cordisjs/plugin-hmr", "@deepseek-ai/cordis-plugin-hmr"),
    ("@cordisjs/plugin-logger-console", "@deepseek-ai/cordis-plugin-logger-console")]

  lemma ApartAt(a: string, b: string, k: nat)
    requires k < |a| && k < |b| && a[k] != b[k]
    ensures Apart(a, b)
  {
    if StartsWith(b, a) {
      PrefixAgrees(b, a, k);
    }
    if StartsWith(a, b) {
      PrefixAgrees(a, b, k);
    }
  }

  lemma ApartLonger(a: string, b: string)
    requires |a| < |b| && b[|a|] != '/'
    ensures Apart(a, b)
  {
    assert b[|a|..][0] == b[|a|];
  }

  lemma UpstreamApart(i: nat, j: nat)
    requires i < j < |TABLE|
    ensures Apart(TABLE[i].0, TABLE[j].0)
  {
    ApartAt(TABLE[i].0, TABLE[j].0, if i == 0 && j == 1 then 2 else if i < 3 then 0 else if i == 3 && j == 8 then 19 else 17);
  }

  lemma ScopedApart(i: nat, j: nat)
    requires i < j < |TABLE|
    ensures Apart(TABLE[i].1, TABLE[j].1)
  {
    if i == 0 && j > 2 {
      ApartLonger(TABLE[i].1, TABLE[j].1);
    } else {
      ApartAt(TABLE[i].1, TABLE[j].1,
        if i == 0 && j == 1 then 15 else if i == 1 && j > 2 then 15 else if i < 3 then 13 else if i == 3 && j == 8 then 29 else 27);
    }
  }

  lemma SidesApart(i: nat, j: nat)
    requires i < |TABLE| && j < |TABLE|
    ensures Apart(TABLE[i].0, TABLE[j].1)
  {
    ApartAt(TABLE[i].0, TABLE[j].1, if i < 3 then 0 else 1);
  }

  predicate NameChar(c: char) {
    'a' <= c <= 'z' || c == '@' || c == '/' || c == '-'
  }

  lemma NameCharIsPlain(c: char)
    requires NameChar(c)
    ensures !IsQuote(c) && !IsSpace(c) && c != '#' && c != '\\'
  {
  }

  ghost predicate NameChars(n: string) {
    n != "" && forall k :: 0 <= k < |n| ==> NameChar(n[k])
  }

  lemma UpstreamChars(i: nat)
    requires i < |TABLE|
    ensures NameChars(TABLE[i].0)
  {
  }

  lemma LongScopedChars(i: nat)
    requires 5 < i < |TABLE|
    ensures NameChars(TABLE[i].1)
  {
  }

  lemma MiddleScopedChars(i: nat)
    requires 2 < i <= 5
    ensures NameChars(TABLE[i].1)
  {
  }

  lemma ScopedChars(i: nat)
    requires i < |TABLE|
    ensures NameChars(TABLE[i].1)
  {
    if i > 5 {
      LongScopedChars(i);
    } else if i > 2 {
      MiddleScopedChars(i);
    }
  }

  lemma NameCharsArePlain(n: string)
    requires NameChars(n)
    ensures PlainName(n)
  {
    hide IsSpace, IsQuote, NameChar;
    forall k | 0 <= k < |n| ensures !IsQuote(n[k]) && !IsSpace(n[k]) && n[k] != '#' && n[k] != '\\' {
      NameCharIsPlain(n[k]);
    }
  }

  lemma PlainNames(i: nat)
    requires i < |TABLE|
    ensures PlainName(TABLE[i].0) && PlainName(TABLE[i].1)
  {
    hide PlainName, NameChars;
    UpstreamChars(i);
    ScopedChars(i);
    NameCharsArePlain(TABLE[i].0);
    NameCharsArePlain(TABLE[i].1);
  }

  // ---------------------------------------------------------------- patterns

  function Entry(reverse: bool, i: nat): Pattern
    requires i < |TABLE|
  {
    if reverse then Pattern(TABLE[i].0, TABLE[i].1, TABLE[i].0) else Pattern(TABLE[i].0, TABLE[i].0, TABLE[i].1)
  }

  lemma EntryReverses(i: nat)
    requires i < |TABLE|
    ensures Entry(true, i) == Reverse(Entry(false, i)) && Entry(false, i) == Reverse(Entry(true, i))
  {
  }

  function Unsorted(reverse: bool): (ps: seq<Pattern>)
    ensures |ps| == |TABLE| && forall i :: 0 <= i < |ps| ==> ps[i] == Entry(reverse, i)
  {
    seq(|TABLE|, i requires 0 <= i < |TABLE| => Entry(reverse, i))
  }

  function LongerFirst(): (Pattern, Pattern) -> int {
    (a: Pattern, b: Pattern) => |b.from| - |a.from|
  }

  /** `patterns(reverse)`: longest source name first, table order among equals. */
  function Patterns(reverse: bool): seq<Pattern> {
    Sort(Unsorted(reverse), LongerFirst())
  }

  lemma UnsortedSeparated(reverse: bool)
    ensures Separated(Unsorted(reverse))
  {
    var ps := Unsorted(reverse);
    forall i, j | 0 <= i < |ps| && 0 <= j < |ps|
      ensures PlainName(ps[i].from) && PlainName(ps[i].to) && Apart(ps[i].from, ps[j].to)
      ensures i != j ==> ps[i] != ps[j] && Apart(ps[i].from, ps[j].from) && Apart(ps[i].to, ps[j].to)
    {
      hide PlainName, IsTokenText;
      PlainNames(i);
      SidesApart(if reverse then j else i, if reverse then i else j);
      if i < j {
        UpstreamApart(i, j);
        ScopedApart(i, j);
      } else if j < i {
        UpstreamApart(j, i);
        ScopedApart(j, i);
      }
    }
  }

  lemma PatternsSeparated(reverse: bool)
    ensures Separated(Patterns(reverse))
    ensures forall p :: p in Patterns(reverse) <==> p in Unsorted(reverse)
  {
    UnsortedSeparated(reverse);
    SortCorrect(Unsorted(reverse), LongerFirst());
    SameMultiset(Unsorted(reverse), Patterns(reverse));
  }

  lemma UnsortedMirror(p: Pattern, reverse: bool)
    requires p in Unsorted(reverse)
    ensures Reverse(p) in Unsorted(!reverse)
  {
    hide Entry;
    var i :| 0 <= i < |Unsorted(reverse)| && Unsorted(reverse)[i] == p;
    EntryReverses(i);
    assert Unsorted(!reverse)[i] == Reverse(p);
  }

  /** The reverse patterns are the forward ones turned around, although they run in another order. */
  lemma PatternsMirror()
    ensures Mirrors(Patterns(false), Patterns(true))
  {
    hide Entry, Patterns, Unsorted, Separated;
    PatternsSeparated(false);
    PatternsSeparated(true);
    forall p ensures p in Patterns(false) <==> Reverse(p) in Patterns(true) {
      if p in Patterns(false) {
        UnsortedMirror(p, false);
      }
      if Reverse(p) in Patterns(true) {
        UnsortedMirror(Reverse(p), true);
        assert Reverse(Reverse(p)) == p;
      }
    }
  }

  /** The token values the tables protect: the preset id and the event names. */
  const TOKEN_VALUES := [
    "cordis", "cordis/", "cordis/*", "cordis/dynamic-package", "cordis/dynamic-retract", "cordis/inspect-query",
    "cordis/inspect-query-resolved", "cordis/request-run", "cordis/request-run-resolved"]

  lemma ScopedStart(i: nat)
    requires i < |TABLE|
    ensures Entry(false, i).to != "" && Entry(false, i).to[0] == '@'
  {
  }

  lemma ValueStart(k: nat)
    requires k < |TOKEN_VALUES|
    ensures TOKEN_VALUES[k] != "" && TOKEN_VALUES[k][0] == 'c'
  {
  }

  lemma TablesSpareTargets(skips: Skips)
    requires forall v :: v in skips.values ==> exists k :: 0 <= k < |TOKEN_VALUES| && TOKEN_VALUES[k] == v
    ensures SparesTargets(Patterns(false), skips)
  {
    hide Entry, Patterns, Separated;
    PatternsSeparated(false);
    forall p, v | p in Patterns(false) && v in skips.values ensures !StartsWith(v, p.to) {
      var i :| 0 <= i < |Unsorted(false)| && Unsorted(false)[i] == p;
      ScopedStart(i);
      var k :| 0 <= k < |TOKEN_VALUES| && TOKEN_VALUES[k] == v;
      ValueStart(k);
      if StartsWith(v, p.to) {
        PrefixAgrees(v, p.to, 0);
      }
    }
  }
}
