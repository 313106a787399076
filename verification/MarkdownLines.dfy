/** The lines of a document and back, as scripts/translation-brief.ts counts them. */
module MarkdownLines {
  import opened Text

  /** `text.replaceAll('\r\n', '\n')`. */
  function DropReturns(text: string): string
    decreases |text|
  {
    if text == "" then ""
    else if StartsWith(text, "\r\n") then "\n" + DropReturns(text[2..])
    else [text[0]] + DropReturns(text[1..])
  }

  /** `linesOf`: the empty piece after a final line feed is not a line. */
  function LinesOf(text: string): seq<string> {
    var lines := Split(DropReturns(text));
    if lines[|lines| - 1] == "" then lines[..|lines| - 1] else lines
  }

  /** Lines with exactly one line feed at the end of the text. */
  function Print(lines: seq<string>): string {
    Join(lines) + "\n"
  }

  /** Every carriage return belongs to a line end. */
  predicate NoLoneReturn(text: string) {
    forall i :: 0 <= i < |text| && text[i] == '\r' ==> i + 1 < |text| && text[i + 1] == '\n'
  }

  ghost predicate Lines(lines: seq<string>) {
    forall i :: 0 <= i < |lines| ==> OneLine(lines[i])
  }

  /** Lines that a line feed behind them does not turn into something else. */
  ghost predicate Settled(lines: seq<string>) {
    forall i :: 0 <= i < |lines| ==> OneLine(lines[i]) && '\r' !in lines[i]
  }

  lemma {:induction false} NoReturnLeft(text: string)
    requires NoLoneReturn(text)
    ensures '\r' !in DropReturns(text)
    decreases |text|
  {
    if text != "" && text[0] == '\r' {
      assert text[..2] == "\r\n";
    }
    if text == "" {
    } else if StartsWith(text, "\r\n") {
      assert forall i :: 0 <= i < |text[2..]| ==> text[2..][i] == text[i + 2];
      NoReturnLeft(text[2..]);
    } else {
      assert forall i :: 0 <= i < |text[1..]| ==> text[1..][i] == text[i + 1];
      NoReturnLeft(text[1..]);
    }
  }

  lemma {:induction false} SplitKeepsOut(text: string, c: char)
    requires c !in text
    ensures forall i :: 0 <= i < |Split(text)| ==> c !in Split(text)[i]
  {
    if text != "" {
      SplitKeepsOut(text[1..], c);
    }
  }

  lemma LinesAreLines(text: string)
    ensures Lines(LinesOf(text))
    ensures NoLoneReturn(text) ==> Settled(LinesOf(text))
  {
    JoinSplit(DropReturns(text));
    if NoLoneReturn(text) {
      NoReturnLeft(text);
      SplitKeepsOut(DropReturns(text), '\r');
    }
  }

  lemma {:induction false} NothingToDrop(text: string)
    requires '\r' !in text
    ensures DropReturns(text) == text
  {
    if text != "" {
      NothingToDrop(text[1..]);
    }
  }

  lemma {:induction false} JoinKeepsOut(lines: seq<string>, c: char)
    requires c != '\n' && forall i :: 0 <= i < |lines| ==> c !in lines[i]
    ensures c !in Join(lines)
  {
    if |lines| > 1 {
      JoinKeepsOut(lines[1..], c);
    }
  }

  /** The pieces between line feeds; one return before a line feed does not belong to the line. */
  ghost function TrimmedPieces(pieces: seq<string>): seq<string> {
    seq(|pieces|, i requires 0 <= i < |pieces| =>
      var piece := pieces[i];
      if i + 1 < |pieces| && piece != "" && piece[|piece| - 1] == '\r' then piece[..|piece| - 1] else piece)
  }

  lemma TrimmedHead(piece: string, rest: seq<string>)
    requires rest != []
    ensures TrimmedPieces([piece] + rest)
      == [if piece != "" && piece[|piece| - 1] == '\r' then piece[..|piece| - 1] else piece] + TrimmedPieces(rest)
  {
  }

  lemma TrimmedGrow(c: char, pieces: seq<string>)
    requires pieces != [] && (c == '\r' && pieces[0] == "" ==> |pieces| == 1)
    ensures TrimmedPieces([[c] + pieces[0]] + pieces[1..]) == [[c] + TrimmedPieces(pieces)[0]] + TrimmedPieces(pieces)[1..]
  {
    var grown := [c] + pieces[0];
    if |pieces| == 1 {
      assert [grown] + pieces[1..] == [grown];
    } else {
      assert pieces == [pieces[0]] + pieces[1..];
      TrimmedHead(grown, pieces[1..]);
      TrimmedHead(pieces[0], pieces[1..]);
      assert grown[|grown| - 1] == if pieces[0] == "" then c else pieces[0][|pieces[0]| - 1];
      assert pieces[0] != "" ==> grown[..|grown| - 1] == [c] + pieces[0][..|pieces[0]| - 1];
    }
  }

  lemma ReturnThenFeed(text: string)
    ensures |text| >= 2 && text[0] == '\r' && text[1] == '\n' ==> StartsWith(text, "\r\n")
  {
    assert |text| >= 2 ==> text[..2] == [text[0], text[1]];
  }

  lemma {:induction false} DropIsTrim(text: string)
    ensures Split(DropReturns(text)) == TrimmedPieces(Split(text))
    decreases |text|
  {
    if text != "" {
      if StartsWith(text, "\r\n") {
        var rest := text[2..];
        DropIsTrim(rest);
        PrefixAgrees(text, "\r\n", 0);
        PrefixAgrees(text, "\r\n", 1);
        assert text == ['\r'] + (['\n'] + rest) && "\n" + DropReturns(rest) == ['\n'] + DropReturns(rest);
        SplitFirst('\n', rest);
        SplitFirst('\r', ['\n'] + rest);
        SplitFirst('\n', DropReturns(rest));
        TrimmedHead("\r", Split(rest));
      } else {
        var c, rest := text[0], text[1..];
        DropIsTrim(rest);
        assert text == [c] + rest;
        SplitFirst(c, rest);
        SplitFirst(c, DropReturns(rest));
        if c == '\n' {
          TrimmedHead("", Split(rest));
        } else {
          ReturnThenFeed(text);
          TrimmedGrow(c, Split(rest));
        }
      }
    }
  }

  /** What a line is: the text between two line feeds without the return before the second; a last empty piece is none. */
  lemma LinesMean(text: string)
    ensures var pieces := TrimmedPieces(Split(text));
      var n := |pieces|;
      LinesOf(text) == if pieces[n - 1] == "" then pieces[..n - 1] else pieces
  {
    DropIsTrim(text);
  }

  /** Printing lines and reading them back changes nothing. */
  lemma ReadPrint(lines: seq<string>)
    requires Settled(lines) && lines != []
    ensures LinesOf(Print(lines)) == lines
  {
    JoinKeepsOut(lines, '\r');
    NothingToDrop(Print(lines));
    SplitTwo(Join(lines), "");
    assert Join(lines) + "\n" + "" == Print(lines);
    SplitJoin(lines);
    assert Split("") == [""];
    assert (lines + [""])[..|lines|] == lines;
  }

  /** Two printed documents of at least one line are equal only line by line. */
  lemma PrintInjective(a: seq<string>, b: seq<string>)
    requires Lines(a) && Lines(b) && a != [] && b != []
    ensures Print(a) == Print(b) <==> a == b
  {
    if Print(a) == Print(b) {
      assert Print(a)[..|Print(a)| - 1] == Join(a) && Print(b)[..|Print(b)| - 1] == Join(b);
      SplitJoin(a);
      SplitJoin(b);
    }
  }
}
