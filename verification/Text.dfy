/** Characters and lines as the JavaScript sources see them. */
module Text {
  /** The line terminators of ECMA-262, at which `^` and `$` match under the `m` flag. */
  predicate IsTerminator(c: char) {
    c == '\n' || c == '\r' || c == '\U{2028}' || c == '\U{2029}'
  }

  /** The white space class `\s` of ECMA-262. */
  predicate IsSpace(c: char) {
    || IsTerminator(c) || c == ' ' || c == '\t' || c == '\U{000B}' || c == '\U{000C}' || c == '\U{00A0}'
    || c == '\U{1680}' || ('\U{2000}' <= c <= '\U{200A}') || c == '\U{202F}' || c == '\U{205F}' || c == '\U{3000}'
    || c == '\U{FEFF}'
  }

  predicate IsBlank(c: char) {
    c == ' ' || c == '\t'
  }

  /** `text.split('\n')`: always at least one line. */
  function Split(text: string): (lines: seq<string>)
    ensures lines != []
  {
    if text == "" then [""]
    else
      var rest := Split(text[1..]);
      if text[0] == '\n' then [""] + rest else [[text[0]] + rest[0]] + rest[1..]
  }

  /** `lines.join('\n')`. */
  function Join(lines: seq<string>): string {
    if lines == [] then "" else if |lines| == 1 then lines[0] else lines[0] + "\n" + Join(lines[1..])
  }

  ghost predicate OneLine(line: string) {
    '\n' !in line
  }

  ghost predicate AllOneLine(lines: seq<string>) {
    lines != [] && forall i :: 0 <= i < |lines| ==> OneLine(lines[i])
  }

  lemma JoinGrow(c: char, lines: seq<string>)
    requires lines != []
    ensures Join([[c] + lines[0]] + lines[1..]) == [c] + Join(lines)
  {
    var grown := [[c] + lines[0]] + lines[1..];
    assert grown[1..] == lines[1..];
    if |lines| > 1 {
      assert ([c] + lines[0]) + "\n" + Join(lines[1..]) == [c] + (lines[0] + "\n" + Join(lines[1..]));
    }
  }

  lemma JoinPush(lines: seq<string>)
    requires lines != []
    ensures Join([""] + lines) == "\n" + Join(lines)
  {
    assert ([""] + lines)[1..] == lines;
    assert "" + "\n" + Join(lines) == "\n" + Join(lines);
  }

  lemma {:induction false} JoinSplit(text: string)
    ensures Join(Split(text)) == text && AllOneLine(Split(text))
  {
    if text != "" {
      JoinSplit(text[1..]);
      var rest := Split(text[1..]);
      assert [text[0]] + text[1..] == text;
      if text[0] == '\n' {
        JoinPush(rest);
      } else {
        JoinGrow(text[0], rest);
      }
    }
  }

  lemma {:induction false} SplitOneLine(line: string)
    requires OneLine(line)
    ensures Split(line) == [line]
  {
    if line != "" {
      SplitOneLine(line[1..]);
      assert [line[0]] + line[1..] == line;
    }
  }

  lemma {:induction false} SplitAppend(line: string, text: string)
    requires OneLine(line)
    ensures Split(line + "\n" + text) == [line] + Split(text)
  {
    var all := line + "\n" + text;
    if line == "" {
      assert all[1..] == text;
    } else {
      SplitAppend(line[1..], text);
      assert all[1..] == line[1..] + "\n" + text;
      assert [line[0]] + line[1..] == line;
    }
  }

  lemma {:induction false} SplitJoin(lines: seq<string>)
    requires AllOneLine(lines)
    ensures Split(Join(lines)) == lines
  {
    assert OneLine(lines[0]);
    if |lines| == 1 {
      SplitOneLine(lines[0]);
    } else {
      SplitJoin(lines[1..]);
      SplitAppend(lines[0], Join(lines[1..]));
      assert [lines[0]] + lines[1..] == lines;
    }
  }

  lemma SplitFirst(c: char, text: string)
    ensures Split([c] + text) == if c == '\n' then [""] + Split(text) else [[c] + Split(text)[0]] + Split(text)[1..]
  {
    assert ([c] + text)[1..] == text;
  }

  lemma HeadOfTwo<T>(head: T, a: seq<T>, b: seq<T>)
    requires a != []
    ensures (a + b)[0] == a[0] && [head] + (a + b) == ([head] + a) + b && [head] + (a + b)[1..] == ([head] + a[1..]) + b
  {
  }

  lemma {:induction false} SplitTwo(a: string, b: string)
    ensures Split(a + "\n" + b) == Split(a) + Split(b)
  {
    if a == "" {
      SplitFirst('\n', b);
      assert "" + "\n" + b == ['\n'] + b;
    } else {
      var c, rest := a[0], a[1..];
      SplitTwo(rest, b);
      assert a + "\n" + b == [c] + (rest + "\n" + b) && a == [c] + rest;
      SplitFirst(c, rest + "\n" + b);
      SplitFirst(c, rest);
      hide Split;
      if c == '\n' {
        HeadOfTwo("", Split(rest), Split(b));
      } else {
        HeadOfTwo([c] + Split(rest)[0], Split(rest), Split(b));
      }
    }
  }

  /** The number of leading characters satisfying a class. */
  function Leading(s: string, inClass: char -> bool): (n: nat)
    ensures n <= |s| && (forall i :: 0 <= i < n ==> inClass(s[i])) && (n < |s| ==> !inClass(s[n]))
  {
    if s == "" || !inClass(s[0]) then 0 else 1 + Leading(s[1..], inClass)
  }

  lemma {:induction false} LeadingExact(run: string, rest: string, inClass: char -> bool)
    requires forall i :: 0 <= i < |run| ==> inClass(run[i])
    requires rest == "" || !inClass(rest[0])
    ensures Leading(run + rest, inClass) == |run|
  {
    if run == "" {
      assert run + rest == rest;
    } else {
      LeadingExact(run[1..], rest, inClass);
      assert (run + rest)[1..] == run[1..] + rest;
    }
  }

  predicate StartsWith(s: string, prefix: string) {
    |prefix| <= |s| && s[..|prefix|] == prefix
  }

  lemma PrefixAgrees(text: string, prefix: string, k: nat)
    requires StartsWith(text, prefix) && k < |prefix|
    ensures text[k] == prefix[k]
  {
    assert text[k] == text[..|prefix|][k];
  }

  predicate EndsWith(s: string, suffix: string) {
    |suffix| <= |s| && s[|s| - |suffix|..] == suffix
  }

  predicate OccursAt(s: string, word: string, at: nat) {
    at + |word| <= |s| && s[at..at + |word|] == word
  }
}
