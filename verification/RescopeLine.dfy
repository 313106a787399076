/** One piece of a line as the texts between its quote characters (scripts/rescope-vendor.ts). */
module RescopeLine {
  import opened Common
  import opened Text

  // Text 0 stands before the first quote and may hold a YAML name; a later text is a token when two
  // equal quotes enclose it.

  /** One name's rewrite; `upstream` is what the skip tables are keyed by, in either direction. */
  datatype Pattern = Pattern(upstream: string, from: string, to: string)

  /** The skip tables for one file: disabled upstream names, and token values that are not imports. */
  datatype Skips = Skips(upstreams: seq<string>, values: seq<string>)

  predicate IsQuote(c: char) {
    c == '\'' || c == '"' || c == '`'
  }

  datatype Line = Line(texts: seq<string>, quotes: seq<char>)

  ghost predicate QuoteFree(s: string) {
    forall i :: 0 <= i < |s| ==> !IsQuote(s[i])
  }

  ghost predicate WellFormed(l: Line) {
    && |l.texts| == |l.quotes| + 1
    && (forall i :: 0 <= i < |l.quotes| ==> IsQuote(l.quotes[i]))
    && (forall i :: 0 <= i < |l.texts| ==> QuoteFree(l.texts[i]))
  }

  function Parse(s: string): (l: Line)
    ensures |l.texts| == |l.quotes| + 1
  {
    if s == "" then Line([""], [])
    else
      var rest := Parse(s[1..]);
      if IsQuote(s[0]) then Line([""] + rest.texts, [s[0]] + rest.quotes)
      else Line([[s[0]] + rest.texts[0]] + rest.texts[1..], rest.quotes)
  }

  function Unparse(l: Line): string
    requires |l.texts| == |l.quotes| + 1
    decreases |l.quotes|
  {
    if l.quotes == [] then l.texts[0]
    else l.texts[0] + [l.quotes[0]] + Unparse(Tail(l))
  }

  /** The line after its first quote. */
  function Tail(l: Line): Line
    requires |l.texts| == |l.quotes| + 1 && l.quotes != []
  {
    Line(l.texts[1..], l.quotes[1..])
  }

  lemma {:induction false} ParseWellFormed(s: string)
    ensures WellFormed(Parse(s))
  {
    if s != "" {
      ParseWellFormed(s[1..]);
      var rest := Parse(s[1..]);
      assert QuoteFree(rest.texts[0]);
    }
  }

  lemma {:induction false} UnparseParse(s: string)
    ensures Unparse(Parse(s)) == s
  {
    if s != "" {
      UnparseParse(s[1..]);
      var rest, l := Parse(s[1..]), Parse(s);
      assert [s[0]] + s[1..] == s;
      if IsQuote(s[0]) {
        assert Tail(l) == rest;
      } else if rest.quotes != [] {
        assert Tail(l) == Tail(rest);
        assert Unparse(l) == [s[0]] + rest.texts[0] + [rest.quotes[0]] + Unparse(Tail(rest));
      }
    }
  }

  lemma {:induction false} ParseText(t: string)
    requires QuoteFree(t)
    ensures Parse(t) == Line([t], [])
  {
    if t != "" {
      ParseText(t[1..]);
      assert [t[0]] + t[1..] == t;
    }
  }

  lemma {:induction false} ParseAppend(t: string, q: char, s: string)
    requires QuoteFree(t) && IsQuote(q)
    ensures Parse(t + [q] + s) == Line([t] + Parse(s).texts, [q] + Parse(s).quotes)
  {
    var all := t + [q] + s;
    if t == "" {
      assert all[1..] == s && all[0] == q;
    } else {
      ParseAppend(t[1..], q, s);
      assert all[1..] == t[1..] + [q] + s && all[0] == t[0];
      assert [t[0]] + t[1..] == t;
      var rest := Parse(all[1..]);
      assert rest.texts[1..] == Parse(s).texts;
    }
  }

  lemma {:induction false} ParseUnparse(l: Line)
    requires WellFormed(l)
    ensures Parse(Unparse(l)) == l
    decreases |l.quotes|
  {
    if l.quotes == [] {
      ParseText(l.texts[0]);
    } else {
      assert WellFormed(Tail(l));
      ParseUnparse(Tail(l));
      ParseAppend(l.texts[0], l.quotes[0], Unparse(Tail(l)));
      assert l.texts == [l.texts[0]] + l.texts[1..] && l.quotes == [l.quotes[0]] + l.quotes[1..];
    }
  }

  // ---------------------------------------------------------------- tokens

  /** `name`, alone or followed by a subpath without white space. */
  predicate IsTokenText(name: string, text: string) {
    StartsWith(text, name) &&
    var subpath := text[|name|..];
    subpath == "" || (subpath[0] == '/' && forall i :: 0 <= i < |subpath| ==> !IsSpace(subpath[i]))
  }

  predicate Token(name: string, l: Line, i: nat)
    requires |l.texts| == |l.quotes| + 1 && i < |l.texts|
  {
    1 <= i < |l.quotes| && l.quotes[i - 1] == l.quotes[i] && IsTokenText(name, l.texts[i])
  }

  /** The global replace matches a token unless it has just consumed the token's opening quote. */
  predicate Hit(name: string, l: Line, i: nat)
    requires |l.texts| == |l.quotes| + 1 && i < |l.texts|
  {
    Token(name, l, i) && !Hit(name, l, i - 1)
  }

  /** Trailing backslashes do not count: an escaped quote may follow the value. */
  function Normalized(value: string): (n: string)
    ensures StartsWith(value, n)
  {
    if value != "" && value[|value| - 1] == '\\' then Normalized(value[..|value| - 1]) else value
  }

  predicate SkippedToken(skips: Skips, value: string) {
    Normalized(value) in skips.values
  }

  predicate Active(skips: Skips, p: Pattern) {
    p.upstream !in skips.upstreams
  }

  /** The pattern rewrites text `i`. */
  predicate Rewrites(p: Pattern, skips: Skips, l: Line, i: nat)
    requires |l.texts| == |l.quotes| + 1 && i < |l.texts|
  {
    Hit(p.from, l, i) && !SkippedToken(skips, l.texts[i])
  }

  function Renamed(p: Pattern, text: string): string
    requires IsTokenText(p.from, text)
  {
    p.to + text[|p.from|..]
  }

  function RewriteTokens(p: Pattern, skips: Skips, l: Line): (m: Line)
    requires |l.texts| == |l.quotes| + 1
    ensures m.quotes == l.quotes && |m.texts| == |l.texts|
  {
    Line(seq(|l.texts|, i requires 0 <= i < |l.texts| =>
           if Rewrites(p, skips, l, i) then Renamed(p, l.texts[i]) else l.texts[i]), l.quotes)
  }

  // ---------------------------------------------------------------- YAML names

  const NAME_KEY := "name:"

  /** The length of `(?:-\s*)?`. */
  function DashLength(entry: string): (b: nat)
    ensures b <= |entry|
  {
    if entry != "" && entry[0] == '-' then 1 + Leading(entry[1..], IsSpace) else 0
  }

  /** The length of `name:[ \t]+`. */
  function KeyLength(key: string): (n: Option<nat>)
    ensures n.Some? ==> n.value <= |key|
  {
    if !StartsWith(key, NAME_KEY) then None
    else var d := Leading(key[5..], IsBlank); if d == 0 then None else Some(5 + d)
  }

  /** The length of `\s*(?:-\s*)?name:[ \t]+` at the start of a text. */
  function YamlPrefix(text: string): (n: Option<nat>)
    ensures n.Some? ==> n.value <= |text|
  {
    var a := Leading(text, IsSpace);
    var b := DashLength(text[a..]);
    var key := KeyLength(text[a..][b..]);
    if key.Some? then Some(a + b + key.value) else None
  }

  /** The four pieces of such a prefix. */
  ghost predicate YamlPieces(indent: string, dash: string, gap: string, value: string) {
    && (forall i :: 0 <= i < |indent| ==> IsSpace(indent[i]))
    && (dash == "" || (dash[0] == '-' && forall i :: 1 <= i < |dash| ==> IsSpace(dash[i])))
    && gap != "" && (forall i :: 0 <= i < |gap| ==> IsBlank(gap[i]))
    && (value == "" || !IsBlank(value[0]))
  }

  function YamlHead(indent: string, dash: string, gap: string): string {
    indent + dash + NAME_KEY + gap
  }

  lemma DashSplit(entry: string)
    ensures var dash := entry[..DashLength(entry)];
      dash == "" || (dash[0] == '-' && forall i :: 1 <= i < |dash| ==> IsSpace(dash[i]))
  {
    var dash := entry[..DashLength(entry)];
    forall i | 1 <= i < |dash| ensures IsSpace(dash[i]) {
      assert dash[i] == entry[1..][i - 1];
    }
  }

  lemma KeySplit(key: string) returns (gap: string, value: string)
    requires KeyLength(key).Some?
    ensures key == NAME_KEY + (gap + value) && KeyLength(key).value == 5 + |gap|
    ensures gap != "" && (forall i :: 0 <= i < |gap| ==> IsBlank(gap[i])) && (value == "" || !IsBlank(value[0]))
  {
    var rest := key[5..];
    var d := Leading(rest, IsBlank);
    gap, value := rest[..d], rest[d..];
    assert rest == gap + value && key == NAME_KEY + rest;
  }

  lemma HeadPieces(indent: string, dash: string, gap: string, value: string)
    ensures YamlHead(indent, dash, gap) + value == indent + (dash + (NAME_KEY + (gap + value)))
    ensures |YamlHead(indent, dash, gap)| == |indent| + |dash| + 5 + |gap|
  {
  }

  lemma EntryStart(dash: string, key: string)
    requires dash == "" || dash[0] == '-'
    requires StartsWith(key, NAME_KEY)
    ensures dash + key != "" && !IsSpace((dash + key)[0])
  {
    assert key[0] == key[..5][0] == 'n';
  }

  lemma YamlSplit(text: string) returns (indent: string, dash: string, gap: string, value: string)
    requires YamlPrefix(text).Some?
    ensures YamlPieces(indent, dash, gap, value)
    ensures text == YamlHead(indent, dash, gap) + value && YamlPrefix(text).value == |YamlHead(indent, dash, gap)|
  {
    hide DashLength, KeyLength, YamlHead, StartsWith, IsSpace, IsBlank, Leading;
    var a := Leading(text, IsSpace);
    var entry := text[a..];
    var b := DashLength(entry);
    DashSplit(entry);
    indent, dash := text[..a], entry[..b];
    gap, value := KeySplit(entry[b..]);
    assert text == indent + entry && entry == dash + entry[b..];
    HeadPieces(indent, dash, gap, value);
  }

  lemma DashBuild(dash: string, key: string)
    requires dash == "" || (dash[0] == '-' && forall i :: 1 <= i < |dash| ==> IsSpace(dash[i]))
    requires StartsWith(key, NAME_KEY)
    ensures DashLength(dash + key) == |dash|
  {
    assert key[0] == key[..5][0] == 'n';
    if dash != "" {
      assert (dash + key)[1..] == dash[1..] + key;
      LeadingExact(dash[1..], key, IsSpace);
    }
  }

  lemma KeyBuild(gap: string, value: string)
    requires gap != "" && (forall i :: 0 <= i < |gap| ==> IsBlank(gap[i])) && (value == "" || !IsBlank(value[0]))
    ensures StartsWith(NAME_KEY + (gap + value), NAME_KEY)
    ensures KeyLength(NAME_KEY + (gap + value)) == Some(5 + |gap|)
  {
    var key := NAME_KEY + (gap + value);
    assert key[..5] == NAME_KEY && key[5..] == gap + value;
    LeadingExact(gap, value, IsBlank);
  }

  lemma YamlBuild(indent: string, dash: string, gap: string, value: string)
    requires YamlPieces(indent, dash, gap, value)
    ensures YamlPrefix(YamlHead(indent, dash, gap) + value) == Some(|YamlHead(indent, dash, gap)|)
  {
    hide DashLength, KeyLength, YamlHead, StartsWith;
    var key := NAME_KEY + (gap + value);
    var entry := dash + key;
    var text := indent + entry;
    KeyBuild(gap, value);
    DashBuild(dash, key);
    EntryStart(dash, key);
    LeadingExact(indent, entry, IsSpace);
    assert text[|indent|..] == entry && entry[|dash|..] == key;
    HeadPieces(indent, dash, gap, value);
  }

  /** What may follow the name: blanks, and then the end of the line or a comment. */
  predicate YamlEnd(rest: string, alone: bool) {
    var e := Leading(rest, IsBlank);
    if e == |rest| then alone else rest[e] == '#'
  }

  /** `alone` says that no quote follows the text on its line. */
  predicate YamlHit(name: string, text: string, alone: bool) {
    var n := YamlPrefix(text);
    n.Some? && StartsWith(text[n.value..], name) && YamlEnd(text[n.value + |name|..], alone)
  }

  function YamlRenamed(p: Pattern, text: string): string
    requires YamlPrefix(text).Some? && StartsWith(text[YamlPrefix(text).value..], p.from)
  {
    var n := YamlPrefix(text).value;
    text[..n] + p.to + text[n + |p.from|..]
  }

  function RewriteYaml(p: Pattern, l: Line): (m: Line)
    requires |l.texts| == |l.quotes| + 1
    ensures m.quotes == l.quotes && |m.texts| == |l.texts|
  {
    if YamlHit(p.from, l.texts[0], l.quotes == [])
    then Line(l.texts[0 := YamlRenamed(p, l.texts[0])], l.quotes) else l
  }

  function RewriteOne(p: Pattern, skips: Skips, l: Line): (m: Line)
    requires |l.texts| == |l.quotes| + 1
    ensures m.quotes == l.quotes && |m.texts| == |l.texts|
  {
    if Active(skips, p) then RewriteYaml(p, RewriteTokens(p, skips, l)) else l
  }

  /** The patterns one after the other. */
  function RewriteAll(ps: seq<Pattern>, skips: Skips, l: Line): (m: Line)
    requires |l.texts| == |l.quotes| + 1
    ensures m.quotes == l.quotes && |m.texts| == |l.texts|
  {
    if ps == [] then l else RewriteAll(ps[1..], skips, RewriteOne(ps[0], skips, l))
  }
}
