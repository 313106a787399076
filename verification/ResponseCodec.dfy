/** Rendering and parsing of the three-section response (scripts/translation-prompt.ts). */
module ResponseCodec {
  import opened Common
  import opened Text
  import opened ResponseBody

  datatype Response = Response(translation: string, review: string, final: string)

  datatype ParseError = MissingSection(s: Section) | DuplicateSection(s: Section) | OutOfOrder | OutsideSections

  function Body(r: Response, s: Section): string {
    match s case Translation => r.translation case Review => r.review case Final => r.final
  }

  function RenderSection(s: Section, value: string): string {
    Open(s) + "\n" + Escape(value) + "\n" + Close(s)
  }

  function Render(r: Response): string {
    RenderSection(Translation, r.translation) + "\n\n" + RenderSection(Review, r.review) + "\n\n" + RenderSection(Final, r.final)
  }

  // ---------------------------------------------------------------- reading

  predicate NotTerminator(c: char) {
    !IsTerminator(c)
  }

  lemma SliceBehind(text: string, from: nat, o: nat, n: nat)
    requires from + o + n <= |text|
    ensures text[from..][o..o + n] == text[from + o..from + o + n]
  {
  }

  /** `text.search(/^LINE$/m)`: the first line, between any two terminators, equal to `line`. */
  function FindLine(text: string, line: string): (o: Option<nat>)
    ensures o.Some? ==> o.value + |line| <= |text| && text[o.value..o.value + |line|] == line
    decreases |text|
  {
    var k := Leading(text, NotTerminator);
    if text[..k] == line then Some(0)
    else if k == |text| then None
    else
      var rest := FindLine(text[k + 1..], line);
      if rest.None? then None
      else
        SliceBehind(text, k + 1, rest.value, |line|);
        Some(rest.value + k + 1)
  }

  function Count(lines: seq<string>, line: string): nat {
    if lines == [] then 0 else (if lines[0] == line then 1 else 0) + Count(lines[1..], line)
  }

  /** `s.slice(a, b)` for positions within the string: empty when `b` does not lie beyond `a`. */
  function Slice(s: string, a: nat, b: nat): string
    requires a <= |s| && b <= |s|
  {
    if a <= b then s[a..b] else ""
  }

  predicate AllNewlines(s: string) {
    forall i :: 0 <= i < |s| ==> s[i] == '\n'
  }

  /** What may stand before a section: nothing before the first one, line feeds before the others. */
  predicate Separates(separator: string, s: Section) {
    if s.Translation? then separator == "" else separator != "" && AllNewlines(separator)
  }

  /** What stands between two delimiters, without one line feed at either end. */
  function Content(body: string, afterOpen: nat, closeStart: nat): string
    requires afterOpen <= |body| && closeStart <= |body|
  {
    var contentStart := if afterOpen < |body| && body[afterOpen] == '\n' then afterOpen + 1 else afterOpen;
    var contentEnd := if closeStart > 0 && body[closeStart - 1] == '\n' then closeStart - 1 else closeStart;
    Slice(body, contentStart, contentEnd)
  }

  /** Where one section stands in the text: its delimiters and the content between them. */
  datatype Located = Located(openStart: nat, closeStart: nat, value: string, closeEnd: nat)

  /** One turn of the section loop. */
  function Locate(body: string, s: Section, previousCloseEnd: nat): (r: Result<Located, ParseError>)
    requires previousCloseEnd <= |body|
    ensures r.Ok? ==> r.value.closeEnd <= |body|
  {
    var openCount := Count(Split(body), Open(s));
    var closeCount := Count(Split(body), Close(s));
    if openCount == 0 || closeCount == 0 then Err(MissingSection(s))
    else if openCount > 1 || closeCount > 1 then Err(DuplicateSection(s))
    else match (FindLine(body, Open(s)), FindLine(body, Close(s)))
      case (Some(openStart), Some(closeStart)) =>
        if closeStart < openStart || !Separates(Slice(body, previousCloseEnd, openStart), s) then Err(OutOfOrder)
        else
          var content := Content(body, openStart + |Open(s)|, closeStart);
          Ok(Located(openStart, closeStart, Unescape(content), closeStart + |Close(s)|))
      case _ => Err(MissingSection(s))
  }

  const SECTIONS := [Translation, Review, Final]

  /** The loop after `i` sections: where the last one closed, and the contents so far. */
  function After(body: string, i: nat): (r: Result<(nat, seq<string>), ParseError>)
    requires i <= 3
    ensures r.Ok? ==> r.value.0 <= |body| && |r.value.1| == i
  {
    if i == 0 then Ok((0, []))
    else match After(body, i - 1)
      case Err(e) => Err(e)
      case Ok(state) =>
        match Locate(body, SECTIONS[i - 1], state.0)
        case Err(e) => Err(e)
        case Ok(located) => Ok((located.closeEnd, state.1 + [located.value]))
  }

  function ParseSections(body: string): Result<Response, ParseError> {
    match After(body, 3)
    case Err(e) => Err(e)
    case Ok(state) => if state.0 != |body| then Err(OutsideSections) else Ok(Response(state.1[0], state.1[1], state.1[2]))
  }

  /** `text.trim()`. */
  function Trim(text: string): (t: string)
    decreases |text|
  {
    if text != "" && IsSpace(text[0]) then Trim(text[1..])
    else if text != "" && IsSpace(text[|text| - 1]) then Trim(text[..|text| - 1])
    else text
  }

  const WRAPPER_END := "\n```"

  /** The content of a fenced wrapper around the whole text, if there is one. */
  function Wrapped(body: string): Option<string> {
    var start := if StartsWith(body, "```\n") then 4 else if StartsWith(body, "```xml\n") then 7 else 0;
    if start > 0 && EndsWith(body, WRAPPER_END) && start + 4 <= |body| then Some(body[start..|body| - 4]) else None
  }

  function Unwrap(text: string): string {
    var body := Trim(text);
    var inner := Wrapped(body);
    if inner.Some? then Trim(inner.value) else body
  }

  function Parse(text: string): Result<Response, ParseError> {
    ParseSections(Unwrap(text))
  }

  lemma {:induction false} ErrorStays(body: string, i: nat, n: nat)
    requires i <= n <= 3 && After(body, i).Err?
    ensures After(body, n).Err? && After(body, n).error == After(body, i).error
  {
    if i < n {
      ErrorStays(body, i, n - 1);
    }
  }

  /** `parseTranslationResponse`: the loop over the sections. */
  method ParseTranslationResponse(text: string) returns (r: Result<Response, ParseError>)
    ensures r == Parse(text)
  {
    hide Locate, Unwrap;
    var body := Unwrap(text);
    var previousCloseEnd: nat := 0;
    var values: seq<string> := [];
    for i := 0 to 3
      invariant After(body, i) == Ok((previousCloseEnd, values))
    {
      var located := Locate(body, SECTIONS[i], previousCloseEnd);
      if located.Err? {
        assert After(body, i + 1) == Err(located.error);
        ErrorStays(body, i + 1, 3);
        return Err(located.error);
      }
      values := values + [located.value.value];
      previousCloseEnd := located.value.closeEnd;
    }
    if previousCloseEnd != |body| {
      return Err(OutsideSections);
    }
    return Ok(Response(values[0], values[1], values[2]));
  }
}
