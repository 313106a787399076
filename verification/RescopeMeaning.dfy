module RescopeMeaning {
  // What the two patterns of scripts/rescope-vendor.ts match, said by the pieces of the text they match.

  import opened RescopeLine
  import opened RescopeLaws
  import opened RescopeFile
  import opened Renames
  import opened Rescope
  import opened Text

  ghost predicate AllIn(s: string, inClass: char -> bool) {
    forall i :: 0 <= i < |s| ==> inClass(s[i])
  }

  ghost predicate NoSpaceIn(s: string) {
    forall i :: 0 <= i < |s| ==> !IsSpace(s[i])
  }

  /** A token is the name, or the name, a slash and a subpath without white space; renaming keeps what follows the name. */
  lemma TokenTextMeans(p: Pattern, text: string)
    ensures IsTokenText(p.from, text) <==> text == p.from || exists sub :: text == p.from + ("/" + sub) && NoSpaceIn(sub)
    ensures IsTokenText(p.from, text) ==> forall rest :: text == p.from + rest ==> Renamed(p, text) == p.to + rest
  {
    if IsTokenText(p.from, text) {
      var rest := text[|p.from|..];
      assert text == p.from + rest;
      if rest != "" {
        assert rest == "/" + rest[1..];
      }
      forall more | text == p.from + more ensures Renamed(p, text) == p.to + more {
        assert text[|p.from|..] == more;
      }
    }
    if sub :| text == p.from + ("/" + sub) && NoSpaceIn(sub) {
      assert text[|p.from|..] == "/" + sub && text[..|p.from|] == p.from;
    }
    if text == p.from {
      assert text[|p.from|..] == "";
    }
  }

  /** The text stands between two quotes of one kind and is the name or leads into the package. */
  ghost predicate Names(name: string, l: Line, i: nat)
    requires |l.texts| == |l.quotes| + 1 && i < |l.texts|
  {
    && 1 <= i < |l.quotes| && l.quotes[i - 1] == l.quotes[i]
    && (l.texts[i] == name || exists sub :: l.texts[i] == name + ("/" + sub) && NoSpaceIn(sub))
  }

  lemma NamesIsToken(p: Pattern, l: Line, i: nat)
    requires |l.texts| == |l.quotes| + 1 && i < |l.texts|
    ensures Names(p.from, l, i) <==> Token(p.from, l, i)
  {
    TokenTextMeans(p, l.texts[i]);
  }

  /** The `n` texts before text `i` name the package, and no more. */
  ghost predicate RunBefore(name: string, l: Line, i: nat, n: nat)
    requires |l.texts| == |l.quotes| + 1 && i < |l.texts|
  {
    n <= i && (forall k :: i - n <= k < i ==> Names(name, l, k)) && (n < i ==> !Names(name, l, i - n - 1))
  }

  lemma OneRun(name: string, l: Line, i: nat, m: nat, n: nat)
    requires |l.texts| == |l.quotes| + 1 && i < |l.texts|
    requires RunBefore(name, l, i, m) && RunBefore(name, l, i, n)
    ensures m == n
  {
    hide Names;
  }

  /** The pattern matches every other one of the texts in a row that share their quotes. */
  lemma {:induction false} HitMeans(p: Pattern, l: Line, i: nat) returns (n: nat)
    requires |l.texts| == |l.quotes| + 1 && i < |l.texts|
    ensures RunBefore(p.from, l, i, n)
    ensures Hit(p.from, l, i) <==> Names(p.from, l, i) && n % 2 == 0
  {
    NamesIsToken(p, l, i);
    hide IsTokenText, Names;
    if i > 0 {
      NamesIsToken(p, l, i - 1);
    }
    if i == 0 || !Names(p.from, l, i - 1) {
      n := 0;
    } else {
      var m := HitMeans(p, l, i - 1);
      n := m + 1;
    }
  }

  /** `tail` is white space up to the end of the line or to a comment. */
  ghost predicate NameTail(tail: string, alone: bool) {
    exists blanks, comment ::
      tail == blanks + comment && AllIn(blanks, IsBlank) && (if comment == "" then alone else comment[0] == '#')
  }

  /** An indented YAML `name` entry, possibly the first of a list item. */
  ghost predicate NameEntry(indent: string, dash: string, gap: string) {
    && AllIn(indent, IsSpace)
    && (dash == "" || exists spaces :: dash == "-" + spaces && AllIn(spaces, IsSpace))
    && gap != "" && AllIn(gap, IsBlank)
  }

  ghost predicate NameValue(text: string, indent: string, dash: string, gap: string, name: string, tail: string, alone: bool) {
    text == indent + dash + "name:" + gap + name + tail && NameEntry(indent, dash, gap) && NameTail(tail, alone)
  }

  lemma TailFits(blanks: string, comment: string, alone: bool)
    requires AllIn(blanks, IsBlank) && if comment == "" then alone else comment[0] == '#'
    ensures YamlEnd(blanks + comment, alone)
  {
    LeadingExact(blanks, comment, IsBlank);
    assert (blanks + comment)[|blanks|..] == comment;
  }

  lemma TailMeans(tail: string, alone: bool)
    ensures YamlEnd(tail, alone) <==> NameTail(tail, alone)
  {
    if YamlEnd(tail, alone) {
      var e := Leading(tail, IsBlank);
      assert tail == tail[..e] + tail[e..] && AllIn(tail[..e], IsBlank);
    }
    hide YamlEnd;
    if blanks, comment :| tail == blanks + comment && AllIn(blanks, IsBlank) && (if comment == "" then alone else comment[0] == '#') {
      TailFits(blanks, comment, alone);
    }
  }

  lemma PiecesMean(indent: string, dash: string, gap: string, name: string, rest: string)
    requires PlainName(name)
    ensures YamlPieces(indent, dash, gap, name + rest) <==> NameEntry(indent, dash, gap)
  {
    assert (name + rest)[0] == name[0] && !IsSpace(name[0]);
    if dash != "" && dash[0] == '-' {
      assert dash == "-" + dash[1..];
    }
  }

  lemma YamlFits(p: Pattern, indent: string, dash: string, gap: string, tail: string, text: string, alone: bool)
    requires PlainName(p.from) && NameValue(text, indent, dash, gap, p.from, tail, alone)
    ensures YamlHit(p.from, text, alone) && YamlRenamed(p, text) == indent + dash + "name:" + gap + p.to + tail
  {
    hide YamlPieces, YamlEnd, YamlPrefix, NameEntry, NameTail, YamlHit, YamlRenamed;
    PiecesMean(indent, dash, gap, p.from, tail);
    TailMeans(tail, alone);
    HeadThen(indent, dash, gap, p.from, tail);
    HeadThen(indent, dash, gap, p.to, tail);
    YamlClose(p.from, indent, dash, gap, tail, alone);
    RenamedPieces(p, YamlHead(indent, dash, gap), tail);
  }

  /** The YAML pattern matches exactly the texts of that form, and renaming replaces the name in them. */
  lemma YamlMeans(p: Pattern, text: string, alone: bool)
    requires PlainName(p.from)
    ensures YamlHit(p.from, text, alone) <==> exists indent, dash, gap, tail :: NameValue(text, indent, dash, gap, p.from, tail, alone)
    ensures forall indent, dash, gap, tail :: NameValue(text, indent, dash, gap, p.from, tail, alone) ==>
      YamlHit(p.from, text, alone) && YamlRenamed(p, text) == indent + dash + "name:" + gap + p.to + tail
  {
    hide YamlPieces, YamlEnd, YamlPrefix, NameEntry, NameTail, YamlHit, YamlRenamed;
    if YamlHit(p.from, text, alone) {
      var indent, dash, gap, rest := YamlOpen(p.from, text, alone);
      PiecesMean(indent, dash, gap, p.from, rest);
      TailMeans(rest, alone);
      HeadThen(indent, dash, gap, p.from, rest);
      assert NameValue(text, indent, dash, gap, p.from, rest, alone);
    }
    hide NameValue, PlainName;
    forall indent, dash, gap, tail | NameValue(text, indent, dash, gap, p.from, tail, alone)
      ensures YamlHit(p.from, text, alone) && YamlRenamed(p, text) == indent + dash + "name:" + gap + p.to + tail
    {
      YamlFits(p, indent, dash, gap, tail, text, alone);
    }
  }

  lemma HeadThen(indent: string, dash: string, gap: string, name: string, rest: string)
    ensures YamlHead(indent, dash, gap) + (name + rest) == indent + dash + "name:" + gap + name + rest
  {
  }

  ghost predicate Backslashes(s: string) {
    forall i :: 0 <= i < |s| ==> s[i] == '\\'
  }

  lemma {:induction false} NormalizedMeans(value: string) returns (slashes: string)
    ensures value == Normalized(value) + slashes && Backslashes(slashes)
    ensures Normalized(value) != "" ==> Normalized(value)[|Normalized(value)| - 1] != '\\'
  {
    slashes := "";
    if value != "" && value[|value| - 1] == '\\' {
      var before := NormalizedMeans(value[..|value| - 1]);
      slashes := before + "\\";
      assert value == value[..|value| - 1] + "\\";
    }
  }

  lemma {:induction false} NormalizedOf(value: string, slashes: string)
    requires Backslashes(slashes) && (value != "" ==> value[|value| - 1] != '\\')
    ensures Normalized(value + slashes) == value
  {
    if slashes == "" {
      assert value + slashes == value;
    } else {
      assert (value + slashes)[..|value + slashes| - 1] == value + slashes[..|slashes| - 1];
      NormalizedOf(value, slashes[..|slashes| - 1]);
    }
  }

  ghost predicate Protected(skips: Skips, text: string) {
    exists value, slashes ::
      value in skips.values && text == value + slashes && Backslashes(slashes) && (value != "" ==> value[|value| - 1] != '\\')
  }

  /** A token is protected exactly when a protected value stands there, with backslashes at its end or without. */
  lemma ProtectedMeans(skips: Skips, text: string)
    ensures SkippedToken(skips, text) <==> Protected(skips, text)
  {
    var slashes := NormalizedMeans(text);
    if value, more :|
      value in skips.values && text == value + more && Backslashes(more)
      && (value != "" ==> value[|value| - 1] != '\\')
    {
      NormalizedOf(value, more);
    }
  }

  // ---------------------------------------------------------------- a whole pass

  /** The package is not skipped in this file, and the text names it, in an even place of its row, and is not protected. */
  ghost predicate Affected(p: Pattern, skips: Skips, l: Line, i: nat)
    requires |l.texts| == |l.quotes| + 1 && i < |l.texts|
  {
    && p.upstream !in skips.upstreams && !Protected(skips, l.texts[i])
    && Names(p.from, l, i) && exists n: nat :: RunBefore(p.from, l, i, n) && n % 2 == 0
  }

  lemma AffectedChanges(p: Pattern, skips: Skips, l: Line, i: nat)
    requires |l.texts| == |l.quotes| + 1 && i < |l.texts|
    ensures Affected(p, skips, l, i) <==> Changes(p, skips, l, i)
  {
    hide Names, RunBefore, Hit, SkippedToken, Protected;
    ProtectedMeans(skips, l.texts[i]);
    var n := HitMeans(p, l, i);
    if m: nat :| RunBefore(p.from, l, i, m) && m % 2 == 0 {
      OneRun(p.from, l, i, m, n);
    }
  }

  /** Of each quoted text: it keeps what follows the name when a package affects it, and all of itself otherwise. */
  lemma PassMeans(ps: seq<Pattern>, skips: Skips, l: Line, i: nat)
    requires Separated(ps) && |l.texts| == |l.quotes| + 1 && 0 < i < |l.texts|
    ensures var out := RewriteAll(ps, skips, l).texts[i];
      && (forall p, rest :: p in ps && Affected(p, skips, l, i) && l.texts[i] == p.from + rest ==> out == p.to + rest)
      && ((forall p :: p in ps ==> !Affected(p, skips, l, i)) ==> out == l.texts[i])
  {
    hide Affected, Separated, RewriteAll;
    forall p ensures Affected(p, skips, l, i) <==> Changes(p, skips, l, i) {
      AffectedChanges(p, skips, l, i);
    }
    PassOnTokens(ps, skips, l, i);
    forall p | p in ps && Changes(p, skips, l, i)
      ensures forall rest :: l.texts[i] == p.from + rest ==> Renamed(p, l.texts[i]) == p.to + rest
    {
      TokenTextMeans(p, l.texts[i]);
    }
  }

  /** Of the first text: its YAML name is replaced when it has that of a package not skipped in this file. */
  lemma YamlPassMeans(ps: seq<Pattern>, skips: Skips, l: Line)
    requires Separated(ps) && |l.texts| == |l.quotes| + 1
    ensures var out, alone := RewriteAll(ps, skips, l).texts[0], l.quotes == [];
      && (forall p, indent, dash, gap, tail ::
            p in ps && p.upstream !in skips.upstreams && NameValue(l.texts[0], indent, dash, gap, p.from, tail, alone) ==>
              out == indent + dash + "name:" + gap + p.to + tail)
      && ((forall p, indent, dash, gap, tail ::
            p in ps && NameValue(l.texts[0], indent, dash, gap, p.from, tail, alone) ==> p.upstream in skips.upstreams)
          ==> out == l.texts[0])
  {
    PassOnYaml(ps, skips, l);
    PlainFrom(ps);
    hide Separated, RewriteAll, YamlHit, NameValue, PlainName, YamlRenamed;
    var text, alone := l.texts[0], l.quotes == [];
    forall p | p in ps
      ensures YamlHit(p.from, text, alone) <==>
        exists indent, dash, gap, tail :: NameValue(text, indent, dash, gap, p.from, tail, alone)
      ensures forall indent, dash, gap, tail :: NameValue(text, indent, dash, gap, p.from, tail, alone) ==>
        YamlRenamed(p, text) == indent + dash + "name:" + gap + p.to + tail
    {
      YamlMeans(p, text, alone);
    }
  }

  lemma PlainFrom(ps: seq<Pattern>)
    requires Separated(ps)
    ensures forall p :: p in ps ==> PlainName(p.from)
  {
    hide PlainName;
  }

  // ---------------------------------------------------------------- for every package

  lemma NameLine(name: string)
    requires PlainName(name)
    ensures Plain("name: " + name) && Parse("name: " + name) == Line(["name: " + name], [])
    ensures NameValue("name: " + name, "", "", " ", name, "", true)
  {
    var line := "name: " + name;
    NoTerminator(name);
    assert QuoteFree(line) && Plain(line);
    var l := Line([line], []);
    assert Unparse(l) == line;
    ParseUnparse(l);
    assert "" == "" + "" && AllIn("", IsBlank);
    assert line == "" + "" + "name:" + " " + name + "";
  }

  lemma NameLineHit(p: Pattern, line: string)
    requires line == "name: " + p.from && PlainName(p.from)
    ensures YamlHit(p.from, line, true) && YamlRenamed(p, line) == "name: " + p.to
  {
    hide YamlHit, YamlRenamed, NameValue, PlainName, Parse, Plain;
    NameLine(p.from);
    YamlFits(p, "", "", " ", "", line, true);
    assert "" + "" + "name:" + " " + p.to + "" == "name: " + p.to;
  }

  lemma OneTextRenamed(ps: seq<Pattern>, skips: Skips, p: Pattern, line: string)
    requires Separated(ps) && p in ps && Active(skips, p) && YamlHit(p.from, line, true)
    ensures RewriteAll(ps, skips, Line([line], [])) == Line([YamlRenamed(p, line)], [])
  {
    hide RewriteAll, YamlHit, YamlRenamed, Separated;
    var l := Line([line], []);
    PassOnYaml(ps, skips, l);
    assert YamlChanges(p, skips, l);
    var m := RewriteAll(ps, skips, l);
    assert m.texts == [m.texts[0]];
  }

  lemma NameLineRenamed(ps: seq<Pattern>, skips: Skips, p: Pattern)
    requires Separated(ps) && p in ps && Active(skips, p) && PlainName(p.from)
    ensures RewriteAll(ps, skips, Parse("name: " + p.from)) == Line(["name: " + p.to], [])
  {
    hide RewriteAll, YamlHit, YamlRenamed, Parse, Separated, Plain, PlainName, NameValue;
    NameLine(p.from);
    NameLineHit(p, "name: " + p.from);
    OneTextRenamed(ps, skips, p, "name: " + p.from);
  }

  /** A YAML name line is rewritten, in either direction. */
  lemma NameLineRewritten(skips: Skips, p: Pattern, reverse: bool)
    requires p in Patterns(reverse) && Active(skips, p)
    ensures RewriteLine(Patterns(reverse), skips, "name: " + p.from) == "name: " + p.to
  {
    PatternsSeparated(reverse);
    hide Patterns, RewriteLine, RewriteAll, Parse;
    var line := "name: " + p.from;
    NameLine(p.from);
    LineOnPiece(Patterns(reverse), skips, line);
    NameLineRenamed(Patterns(reverse), skips, p);
    assert Unparse(Line(["name: " + p.to], [])) == "name: " + p.to;
  }

  /** So is a quoted name that is not protected. */
  lemma QuotedNameRewritten(skips: Skips, p: Pattern, reverse: bool)
    requires p in Patterns(reverse) && Active(skips, p) && !SkippedToken(skips, p.from)
    ensures RewriteLine(Patterns(reverse), skips, "'" + p.from + "'") == "'" + p.to + "'"
  {
    var ps, line := Patterns(reverse), "'" + p.from + "'";
    PatternsSeparated(reverse);
    hide Patterns, RewriteLine, RewriteAll, Parse;
    QuotedParsed(p.from);
    QuotedParsed(p.to);
    var l := Parse(line);
    LineOnPiece(ps, skips, line);
    LonelyTokenRenamed(ps, skips, p, l);
    UnparseParse("'" + p.to + "'");
  }

  lemma LonelyTokenRenamed(ps: seq<Pattern>, skips: Skips, p: Pattern, l: Line)
    requires Separated(ps) && p in ps && Active(skips, p) && !SkippedToken(skips, p.from)
    requires l == Line(["", p.from, ""], ['\'', '\''])
    ensures RewriteAll(ps, skips, l) == Line(["", p.to, ""], ['\'', '\''])
  {
    hide RewriteAll, YamlHit, Separated, PlainName, Apart;
    var m := RewriteAll(ps, skips, l);
    NoYamlInNothing();
    OnlyChange(p, skips, l);
    PassOnYaml(ps, skips, l);
    PassOnTokens(ps, skips, l, 1);
    PassOnTokens(ps, skips, l, 2);
    assert m.texts == ["", p.to, ""];
  }

  lemma OnlyChange(p: Pattern, skips: Skips, l: Line)
    requires Active(skips, p) && !SkippedToken(skips, p.from) && l == Line(["", p.from, ""], ['\'', '\''])
    ensures Changes(p, skips, l, 1) && Renamed(p, p.from) == p.to
    ensures forall q: Pattern :: !Changes(q, skips, l, 2)
  {
    assert p.from[|p.from|..] == "" && IsTokenText(p.from, p.from);
    assert Token(p.from, l, 1) && !Token(p.from, l, 0) && !Hit(p.from, l, 0);
  }

  lemma NoYamlInNothing()
    ensures forall p: Pattern :: !YamlHit(p.from, "", false)
  {
  }
}
