/** Escaping of the six delimiter lines inside response bodies (scripts/translation-prompt.ts). */
module ResponseBody {
  import opened Text

  datatype Section = Translation | Review | Final

  function Name(s: Section): string {
    match s case Translation => "translation" case Review => "review" case Final => "final"
  }

  function Open(s: Section): string {
    "<" + Name(s) + ">"
  }

  function Close(s: Section): string {
    "</" + Name(s) + ">"
  }

  const DELIMITERS := [Open(Translation), Close(Translation), Open(Review), Close(Review), Open(Final), Close(Final)]

  predicate IsBackslash(c: char) {
    c == '\\'
  }

  function Unslashed(line: string): string {
    line[Leading(line, IsBackslash)..]
  }

  predicate IsDelimiter(line: string) {
    line in DELIMITERS
  }

  /** A line that is a delimiter after any number of backslashes gets one more. */
  function EscapeLine(line: string): string {
    if IsDelimiter(Unslashed(line)) then "\\" + line else line
  }

  function UnescapeLine(line: string): string {
    if line != "" && line[0] == '\\' && IsDelimiter(Unslashed(line[1..])) then line[1..] else line
  }

  function EscapeLines(lines: seq<string>): (r: seq<string>)
    ensures |r| == |lines| && forall i :: 0 <= i < |r| ==> r[i] == EscapeLine(lines[i])
  {
    seq(|lines|, i requires 0 <= i < |lines| => EscapeLine(lines[i]))
  }

  function UnescapeLines(lines: seq<string>): (r: seq<string>)
    ensures |r| == |lines| && forall i :: 0 <= i < |r| ==> r[i] == UnescapeLine(lines[i])
  {
    seq(|lines|, i requires 0 <= i < |lines| => UnescapeLine(lines[i]))
  }

  function Escape(value: string): string {
    Join(EscapeLines(Split(value)))
  }

  function Unescape(value: string): string {
    Join(UnescapeLines(Split(value)))
  }

  /** No line is a delimiter as it stands. */
  ghost predicate NoBare(lines: seq<string>) {
    forall i :: 0 <= i < |lines| ==> !IsDelimiter(lines[i])
  }

  lemma DelimiterForm(line: string)
    requires IsDelimiter(line)
    ensures line != "" && line[0] == '<' && line[|line| - 1] == '>' && |line| > 1
    ensures forall i :: 0 <= i < |line| ==> !IsSpace(line[i])
    ensures Unslashed(line) == line
  {
  }

  lemma UnslashedStep(line: string)
    ensures Unslashed("\\" + line) == Unslashed(line)
  {
    assert ("\\" + line)[1..] == line;
  }

  lemma EscapeLineLaws(line: string)
    ensures !IsDelimiter(EscapeLine(line))
    ensures UnescapeLine(EscapeLine(line)) == line
    ensures OneLine(line) ==> OneLine(EscapeLine(line))
  {
    hide IsDelimiter;
    UnslashedStep(line);
    if IsDelimiter(EscapeLine(line)) {
      DelimiterForm(EscapeLine(line));
    }
    if line != "" && line[0] == '\\' {
      UnslashedStep(line[1..]);
      assert "\\" + line[1..] == line;
    }
    assert ("\\" + line)[1..] == line;
  }

  lemma UnescapeLineLaws(line: string)
    ensures EscapeLine(UnescapeLine(line)) == line <==> !IsDelimiter(line)
    ensures OneLine(line) ==> OneLine(UnescapeLine(line))
  {
    hide IsDelimiter;
    EscapeLineLaws(UnescapeLine(line));
    if line != "" && line[0] == '\\' {
      UnslashedStep(line[1..]);
      assert "\\" + line[1..] == line;
    } else {
      assert Unslashed(line) == line;
    }
  }

  lemma EscapeSplits(value: string)
    ensures Split(Escape(value)) == EscapeLines(Split(value)) && NoBare(Split(Escape(value)))
  {
    hide IsDelimiter, EscapeLine, Split, Join;
    JoinSplit(value);
    forall i | 0 <= i < |Split(value)| ensures OneLine(EscapeLines(Split(value))[i]) && !IsDelimiter(EscapeLines(Split(value))[i]) {
      EscapeLineLaws(Split(value)[i]);
    }
    SplitJoin(EscapeLines(Split(value)));
  }

  /** Unescaping restores every value. */
  lemma UnescapeEscape(value: string)
    ensures Unescape(Escape(value)) == value
  {
    hide IsDelimiter, EscapeLine, UnescapeLine, Split, Join;
    EscapeSplits(value);
    var lines := Split(value);
    forall i | 0 <= i < |lines| ensures UnescapeLines(EscapeLines(lines))[i] == lines[i] {
      EscapeLineLaws(lines[i]);
    }
    assert UnescapeLines(EscapeLines(lines)) == lines;
    JoinSplit(value);
  }

  /** Escaping reaches exactly the values without a bare delimiter line, and there unescaping is its inverse. */
  lemma EscapeUnescape(value: string)
    ensures Escape(Unescape(value)) == value <==> NoBare(Split(value))
  {
    hide IsDelimiter, EscapeLine, UnescapeLine, Split, Join;
    JoinSplit(value);
    var lines := Split(value);
    forall i | 0 <= i < |lines| ensures OneLine(UnescapeLines(lines)[i]) {
      UnescapeLineLaws(lines[i]);
    }
    SplitJoin(UnescapeLines(lines));
    var back := EscapeLines(UnescapeLines(lines));
    forall i | 0 <= i < |lines| ensures back[i] == lines[i] <==> !IsDelimiter(lines[i]) {
      UnescapeLineLaws(lines[i]);
    }
    if NoBare(lines) {
      assert back == lines;
    }
    if Escape(Unescape(value)) == value {
      EscapeSplits(Unescape(value));
    }
  }
}
