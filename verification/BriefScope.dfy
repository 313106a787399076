/** The choice of granularity of scripts/gen-translation-brief.ts, with the first-occurrence tracking it uses. */
module BriefScope {
  import opened BriefSpans
  import opened Common
  import opened FirstOccurrence
  import opened MarkdownLines
  import opened MechanicalLaws
  import opened MechanicalUpdate
  import opened Sorting
  import opened Text

  datatype Direction = EnglishToChinese | ChineseToEnglish

  datatype Bundle = Bundle(index: nat, title: string, firstOccurrence: bool,
                           confirmed: string, current: string, counterpart: string, counterpartStartLine: nat)

  datatype Granularity = Units | Sections

  datatype Scope =
    | Document
    | Mechanical(result: string)
    | Bundled(granularity: Granularity, bundles: seq<Bundle>, notes: seq<Row>)

  /** `changedSpanIndices`, from the `from`-th span on. */
  function ChangedIndices(before: seq<Part>, after: seq<Part>, from: nat): (r: seq<nat>)
    requires |before| == |after| && from <= |before|
    requires forall i :: 0 <= i < |before| ==> before[i].span.index == i
    ensures forall i :: i in r <==> from <= i < |before| && before[i].span.text != after[i].span.text
    ensures forall i, j :: 0 <= i < j < |r| ==> r[i] < r[j]
    decreases |before| - from
  {
    if from == |before| then []
    else
      var rest := ChangedIndices(before, after, from + 1);
      assert forall k :: 0 <= k < |rest| ==> rest[k] in rest;
      (if before[from].span.text != after[from].span.text then [before[from].span.index] else []) + rest
  }

  /** Adding to a JavaScript set keeps the order of first insertion. */
  function Add(s: seq<nat>, x: nat): (r: seq<nat>)
    requires Distinct(s)
    ensures Distinct(r) && forall y :: y in r <==> y in s || y == x
  {
    if x in s then s else s + [x]
  }

  function AddAll(s: seq<nat>, xs: seq<nat>): (r: seq<nat>)
    requires Distinct(s)
    ensures Distinct(r) && forall y :: y in r <==> y in s || y in xs
    decreases |xs|
  {
    if xs == [] then s else AddAll(Add(s, xs[0]), xs[1..])
  }

  function Smaller(): (nat, nat) -> int {
    (left: nat, right: nat) => left - right
  }

  predicate StrictlyAscending(s: seq<nat>) {
    forall i, j :: 0 <= i < j < |s| ==> s[i] < s[j]
  }

  lemma SortedSet(s: seq<nat>)
    requires Distinct(s)
    ensures StrictlyAscending(Sort(s, Smaller()))
    ensures |Sort(s, Smaller())| == |s| && forall x :: x in Sort(s, Smaller()) <==> x in s
  {
    hide Sort;
    assert Comparison(Smaller());
    SortedStrictly(s, Smaller());
    var sorted := Sort(s, Smaller());
    assert forall i, j :: 0 <= i < j < |sorted| ==> Smaller()(sorted[i], sorted[j]) < 0;
  }

  ghost predicate Indexed(parts: seq<Part>) {
    forall i :: 0 <= i < |parts| ==> parts[i].span.index == i
  }

  /** `firstOccurrenceContext`. */
  method FirstOccurrenceContext(tools: Tools, c: Context, rows: seq<Row>, changed: seq<nat>)
    returns (notes: seq<Row>, extra: seq<nat>)
    ensures exists ix :: MovesOf(ix, notes, tools, c, rows)
    ensures StrictlyAscending(extra)
    ensures forall index :: index in extra <==> Touched(tools, c, rows, index) && index !in changed
  {
    hide FirstSpan, TouchedBy, Moved, Touched, MovesOf;
    notes, extra := [], [];
    ghost var ix: seq<nat> := [];
    NothingMoved(tools, c);
    for k := 0 to |rows|
      invariant Distinct(extra) && MovesOf(ix, notes, tools, c, rows[..k])
      invariant forall index :: index in extra <==> Touched(tools, c, rows[..k], index) && index !in changed
    {
      var row := rows[k];
      assert rows[..k + 1] == rows[..k] + [row];
      MovedIs(tools, c, row);
      MovesPush(ix, notes, tools, c, rows, k);
      forall index: nat
        ensures Touched(tools, c, rows[..k + 1], index) <==> Touched(tools, c, rows[..k], index) || TouchedBy(tools, c, row, index)
      {
        TouchedPush(tools, c, rows[..k], row, index);
      }
      var oldIndex := FirstSpan(tools, c.confirmedSource, c.confirmed, row.english);
      var newIndex := FirstSpan(tools, c.currentSource, c.current, row.english);
      if row.first != "" && oldIndex != newIndex {
        if oldIndex.Some? && oldIndex.value !in changed {
          extra := Add(extra, oldIndex.value);
        }
        if newIndex.Some? && newIndex.value !in changed {
          extra := Add(extra, newIndex.value);
        }
        notes, ix := notes + [row], ix + [k];
      }
    }
    assert rows[..|rows|] == rows;
    SortedSet(extra);
    extra := Sort(extra, Smaller());
  }

  /** The bundle of one span: its text in the three documents, and why an unchanged span is in the briefing. */
  function BundleOf(index: nat, extra: seq<nat>, confirmed: seq<Part>, current: seq<Part>, counterpart: seq<Part>): Bundle
    requires index < |confirmed| && index < |current| && index < |counterpart|
  {
    Bundle(index, current[index].title, index in extra && confirmed[index].span.text == current[index].span.text,
           confirmed[index].span.text, current[index].span.text, counterpart[index].span.text,
           counterpart[index].span.startLine)
  }

  ghost predicate IsBundle(b: Bundle, extra: seq<nat>, confirmed: seq<Part>, current: seq<Part>, counterpart: seq<Part>) {
    && b.index < |confirmed| && b.index < |current| && b.index < |counterpart|
    && b == BundleOf(b.index, extra, confirmed, current, counterpart)
  }

  /** Bundles of exactly the given indices, each once, in document order. */
  ghost predicate BundlesOf(bundles: seq<Bundle>, indices: seq<nat>, extra: seq<nat>,
                            confirmed: seq<Part>, current: seq<Part>, counterpart: seq<Part>) {
    && (forall i, j :: 0 <= i < j < |bundles| ==> bundles[i].index < bundles[j].index)
    && (forall k :: 0 <= k < |bundles| ==> IsBundle(bundles[k], extra, confirmed, current, counterpart))
    && (forall i :: i in indices || i in extra <==> HasBundle(bundles, i))
  }

  ghost predicate HasBundle(bundles: seq<Bundle>, index: nat) {
    exists k :: 0 <= k < |bundles| && bundles[k].index == index
  }

  lemma AllBundled(sorted: seq<nat>, bundles: seq<Bundle>, indices: seq<nat>, extra: seq<nat>,
                   confirmed: seq<Part>, current: seq<Part>, counterpart: seq<Part>)
    requires StrictlyAscending(sorted) && |bundles| == |sorted|
    requires forall i :: i in sorted <==> i in indices || i in extra
    requires forall j :: 0 <= j < |sorted| ==> sorted[j] < |confirmed| && sorted[j] < |current| && sorted[j] < |counterpart|
    requires forall j :: 0 <= j < |sorted| ==> bundles[j] == BundleOf(sorted[j], extra, confirmed, current, counterpart)
    ensures BundlesOf(bundles, indices, extra, confirmed, current, counterpart)
    ensures forall i :: i in indices || i in extra ==> i < |confirmed| && i < |current| && i < |counterpart|
  {
    assert forall j :: 0 <= j < |bundles| ==> bundles[j].index == sorted[j];
    forall i ensures i in indices || i in extra <==> HasBundle(bundles, i) {
      assert i in indices || i in extra <==> i in sorted;
      if i in sorted {
        var j :| 0 <= j < |sorted| && sorted[j] == i;
        assert bundles[j].index == i;
      }
      if HasBundle(bundles, i) {
        var k :| 0 <= k < |bundles| && bundles[k].index == i;
        assert sorted[k] in sorted;
      }
    }
  }

  /** `bundlesFor`: fails only on an index that some span list does not have. */
  method BundlesFor(indices: seq<nat>, extra: seq<nat>, confirmed: seq<Part>, current: seq<Part>, counterpart: seq<Part>)
    returns (r: Result<seq<Bundle>, nat>)
    ensures r.Ok? <==> forall i :: i in indices || i in extra ==> i < |confirmed| && i < |current| && i < |counterpart|
    ensures r.Ok? ==> BundlesOf(r.value, indices, extra, confirmed, current, counterpart)
  {
    hide BundleOf, BundlesOf, Sort, AddAll;
    var all := AddAll([], indices + extra);
    SortedSet(all);
    var sorted := Sort(all, Smaller());
    var bundles: seq<Bundle> := [];
    for k := 0 to |sorted|
      invariant |bundles| == k
      invariant forall j :: 0 <= j < k ==> sorted[j] < |confirmed| && sorted[j] < |current| && sorted[j] < |counterpart|
      invariant forall j :: 0 <= j < k ==> bundles[j] == BundleOf(sorted[j], extra, confirmed, current, counterpart)
    {
      var index := sorted[k];
      assert index in sorted;
      if index >= |confirmed| || index >= |current| || index >= |counterpart| {
        return Err(index);
      }
      bundles := bundles + [BundleOf(index, extra, confirmed, current, counterpart)];
    }
    AllBundled(sorted, bundles, indices, extra, confirmed, current, counterpart);
    r := Ok(bundles);
  }

  function CodePositions(blocks: seq<Block>): seq<(nat, nat)> {
    if blocks == [] then []
    else
      (if EndsWith(blocks[0].kind, ":code") then [(blocks[0].startLine, blocks[0].endLine)] else [])
      + CodePositions(blocks[1..])
  }

  /** The units whose kind ends in `:code`, in document order. */
  function FencesOf(tools: Tools): Fences {
    (text: string) => CodePositions(Sort(tools.blocks(text), BlocksByLine()))
  }

  lemma {:induction false} CodeAt(blocks: seq<Block>, p: (nat, nat))
    ensures p in CodePositions(blocks) <==> exists b :: b in blocks && IsCode(b) && p == (b.startLine, b.endLine)
  {
    if blocks != [] {
      CodeAt(blocks[1..], p);
      assert blocks == [blocks[0]] + blocks[1..];
    }
  }

  ghost predicate IsCode(b: Block) {
    |b.kind| >= 5 && b.kind[|b.kind| - 5..] == ":code"
  }

  /** The code blocks of a document are the parser's outermost blocks of a kind that ends so. */
  lemma CodeFences(tools: Tools, text: string, p: (nat, nat))
    requires BlocksPlaced(tools.blocks(text))
    ensures p in FencesOf(tools)(text)
      <==> exists b :: b in tools.blocks(text) && IsCode(b) && p == (b.startLine, b.endLine)
  {
    var blocks := tools.blocks(text);
    assert Comparison(BlocksByLine());
    SortCorrect(blocks, BlocksByLine());
    SameMultiset(blocks, Sort(blocks, BlocksByLine()));
    CodeAt(Sort(blocks, BlocksByLine()), p);
  }

  /** What the parser promises of a document. */
  ghost predicate Parsed(tools: Tools, text: string) {
    var count := |LinesOf(text)|;
    && InOrder(FencesOf(tools)(text), count)
    && BlocksPlaced(tools.blocks(text)) && HeadingsPlaced(tools.headings(text), count)
  }

  function PartsOf(tools: Tools, granularity: Granularity, text: string): seq<Part>
    requires Parsed(tools, text)
  {
    match granularity
    case Units => MarkdownUnits(tools.blocks(text), LinesOf(text))
    case Sections => BriefSpans.Sections(tools.headings(text), LinesOf(text))
  }

  method ListParts(tools: Tools, granularity: Granularity, text: string) returns (parts: seq<Part>)
    requires Parsed(tools, text)
    ensures parts == PartsOf(tools, granularity, text) && Indexed(parts)
  {
    match granularity
    case Units => parts := MarkdownUnits(tools.blocks(text), LinesOf(text));
    case Sections => parts := SectionSpans(tools.headings(text), LinesOf(text));
  }

  ghost predicate IsChanged(confirmed: seq<Part>, current: seq<Part>, index: nat) {
    index < |confirmed| && index < |current| && confirmed[index].span.text != current[index].span.text
  }

  /** The three documents map one to one at this granularity, and something changed. */
  ghost predicate Usable(confirmed: seq<Part>, current: seq<Part>, counterpart: seq<Part>) {
    && 0 < |confirmed| == |current| == |counterpart|
    && (forall i :: 0 <= i < |confirmed| ==> confirmed[i].kind == current[i].kind == counterpart[i].kind)
    && exists i: nat :: IsChanged(confirmed, current, i)
  }

  function ChangedText(confirmed: seq<Part>, current: seq<Part>, changed: seq<nat>): string {
    Join(ChangedPieces(confirmed, current, changed))
  }

  function ChangedPieces(confirmed: seq<Part>, current: seq<Part>, changed: seq<nat>): seq<string> {
    seq(|changed|, k requires 0 <= k < |changed| =>
      (if changed[k] < |confirmed| then confirmed[changed[k]].span.text else "") + "\n"
      + (if changed[k] < |current| then current[changed[k]].span.text else ""))
  }

  /** Of each span its confirmed and its current text. */
  ghost function PairTexts(confirmed: seq<Part>, current: seq<Part>, indices: seq<nat>): seq<string>
    requires forall k :: 0 <= k < |indices| ==> indices[k] < |confirmed| && indices[k] < |current|
  {
    if indices == [] then []
    else [confirmed[indices[0]].span.text, current[indices[0]].span.text] + PairTexts(confirmed, current, indices[1..])
  }

  /** The changed spans in document order. */
  ghost predicate AreChanges(indices: seq<nat>, confirmed: seq<Part>, current: seq<Part>) {
    && StrictlyAscending(indices)
    && (forall k :: 0 <= k < |indices| ==> IsChanged(confirmed, current, indices[k]))
    && forall i :: IsChanged(confirmed, current, i) ==> i in indices
  }

  lemma JoinPair(a: string, b: string, rest: seq<string>, flat: seq<string>)
    requires Join(rest) == Join(flat) && (rest == [] <==> flat == [])
    ensures Join([a + "\n" + b] + rest) == Join([a, b] + flat)
  {
    assert ([a + "\n" + b] + rest)[1..] == rest && ([a, b] + flat)[1..] == [b] + flat && ([b] + flat)[1..] == flat;
    if rest != [] {
      assert a + "\n" + b + "\n" + Join(rest) == a + "\n" + (b + "\n" + Join(rest));
    }
  }

  lemma {:induction false} ChangedTextIs(confirmed: seq<Part>, current: seq<Part>, indices: seq<nat>)
    requires forall k :: 0 <= k < |indices| ==> indices[k] < |confirmed| && indices[k] < |current|
    ensures ChangedText(confirmed, current, indices) == Join(PairTexts(confirmed, current, indices))
  {
    if indices != [] {
      ChangedTextIs(confirmed, current, indices[1..]);
      var pieces := ChangedPieces(confirmed, current, indices);
      var a, b := confirmed[indices[0]].span.text, current[indices[0]].span.text;
      assert pieces == [a + "\n" + b] + ChangedPieces(confirmed, current, indices[1..]);
      JoinPair(a, b, ChangedPieces(confirmed, current, indices[1..]), PairTexts(confirmed, current, indices[1..]));
    }
  }

  /** The terminology rows of the changed text. */
  ghost predicate RowsOfChanges(rows: seq<Row>, tools: Tools, c: Context) {
    exists changes ::
      && AreChanges(changes, c.confirmed, c.current)
      && rows == tools.rows(Join(PairTexts(c.confirmed, c.current, changes)))
  }

  /**
   * The bundles are in strictly ascending order; they are the changed spans and, towards Chinese,
   * the spans a first occurrence moved into or out of, and only the latter carry that reason.
   */
  ghost predicate Briefing(tools: Tools, direction: Direction, c: Context, counterpart: seq<Part>, bundles: seq<Bundle>, notes: seq<Row>) {
    exists rows :: RowsOfChanges(rows, tools, c) && BriefingFor(tools, direction, c, rows, counterpart, bundles, notes)
  }

  ghost predicate BriefingFor(tools: Tools, direction: Direction, c: Context, rows: seq<Row>,
                              counterpart: seq<Part>, bundles: seq<Bundle>, notes: seq<Row>) {
    && (forall i, j :: 0 <= i < j < |bundles| ==> bundles[i].index < bundles[j].index)
    && (forall i :: HasBundle(bundles, i) <==>
          IsChanged(c.confirmed, c.current, i) || (direction == EnglishToChinese && Touched(tools, c, rows, i)))
    && (forall k :: 0 <= k < |bundles| ==> FromSpans(bundles[k], c, counterpart))
    && if direction == EnglishToChinese then exists ix :: MovesOf(ix, notes, tools, c, rows) else notes == []
  }

  ghost predicate FromSpans(b: Bundle, c: Context, counterpart: seq<Part>) {
    && b.index < |c.confirmed| && b.index < |c.current| && b.index < |counterpart|
    && b.confirmed == c.confirmed[b.index].span.text && b.current == c.current[b.index].span.text
    && b.counterpart == counterpart[b.index].span.text
    && b.counterpartStartLine == counterpart[b.index].span.startLine && b.title == c.current[b.index].title
    && (b.firstOccurrence <==> !IsChanged(c.confirmed, c.current, b.index))
  }

  lemma AreAllChanges(confirmed: seq<Part>, current: seq<Part>)
    requires |confirmed| == |current| && Indexed(confirmed)
    ensures AreChanges(ChangedIndices(confirmed, current, 0), confirmed, current)
  {
    var changed := ChangedIndices(confirmed, current, 0);
    assert forall k :: 0 <= k < |changed| ==> changed[k] in changed;
  }

  lemma TouchedStands(tools: Tools, c: Context, rows: seq<Row>, index: nat)
    requires Indexed(c.confirmed) && Indexed(c.current) && |c.confirmed| == |c.current|
    requires Touched(tools, c, rows, index)
    ensures index < |c.confirmed|
  {
    hide FeedsBefore, OnLine;
    var row :| row in rows && TouchedBy(tools, c, row, index);
  }

  /** One turn of the granularity loop. The throw of `bundlesFor` cannot be reached. */
  method BriefAt(tools: Tools, direction: Direction, c: Context, counterpart: seq<Part>)
    returns (bundles: seq<Bundle>, notes: seq<Row>)
    requires Indexed(c.confirmed) && Indexed(c.current) && Aligned(c.confirmed, c.current) && Aligned(c.confirmed, counterpart)
    ensures Briefing(tools, direction, c, counterpart, bundles, notes)
  {
    hide Touched, MovesOf, ChangedText, PairTexts;
    var changed := ChangedIndices(c.confirmed, c.current, 0);
    var rows := tools.rows(ChangedText(c.confirmed, c.current, changed));
    var extra: seq<nat> := [];
    notes := [];
    if direction == EnglishToChinese {
      notes, extra := FirstOccurrenceContext(tools, c, rows, changed);
    }
    forall i | i in extra ensures i < |c.confirmed| {
      TouchedStands(tools, c, rows, i);
    }
    AreAllChanges(c.confirmed, c.current);
    ChangedTextIs(c.confirmed, c.current, changed);
    assert RowsOfChanges(rows, tools, c);
    var r := BundlesFor(changed, extra, c.confirmed, c.current, counterpart);
    bundles := r.value;
    forall k | 0 <= k < |bundles| ensures FromSpans(bundles[k], c, counterpart) {
      assert IsBundle(bundles[k], extra, c.confirmed, c.current, counterpart) && HasBundle(bundles, bundles[k].index);
    }
    assert BriefingFor(tools, direction, c, rows, counterpart, bundles, notes);
  }

  /** The sources of one turn of the planner. */
  datatype Texts = Texts(last: string, current: string, counterpart: string)

  ghost predicate UsableAt(tools: Tools, g: Granularity, t: Texts)
    requires Parsed(tools, t.last) && Parsed(tools, t.current) && Parsed(tools, t.counterpart)
  {
    Usable(PartsOf(tools, g, t.last), PartsOf(tools, g, t.current), PartsOf(tools, g, t.counterpart))
  }

  ghost predicate BriefingAt(tools: Tools, direction: Direction, g: Granularity, t: Texts, bundles: seq<Bundle>, notes: seq<Row>)
    requires Parsed(tools, t.last) && Parsed(tools, t.current) && Parsed(tools, t.counterpart)
  {
    var confirmed, current := PartsOf(tools, g, t.last), PartsOf(tools, g, t.current);
    && |confirmed| == |current| && Indexed(confirmed)
    && Briefing(tools, direction, Context(t.last, t.current, confirmed, current), PartsOf(tools, g, t.counterpart), bundles, notes)
  }

  method TryAt(tools: Tools, direction: Direction, g: Granularity, t: Texts) returns (scope: Option<Scope>)
    requires Parsed(tools, t.last) && Parsed(tools, t.current) && Parsed(tools, t.counterpart)
    ensures scope.Some? <==> UsableAt(tools, g, t)
    ensures scope.Some? ==> scope.value.Bundled? && scope.value.granularity == g
    ensures scope.Some? ==> BriefingAt(tools, direction, g, t, scope.value.bundles, scope.value.notes)
  {
    hide PartsOf, Briefing;
    var confirmed := ListParts(tools, g, t.last);
    var current := ListParts(tools, g, t.current);
    var target := ListParts(tools, g, t.counterpart);
    if !Aligned(confirmed, current) || !Aligned(confirmed, target) {
      return None;
    }
    var changed := ChangedIndices(confirmed, current, 0);
    if |changed| == 0 {
      assert forall i: nat :: IsChanged(confirmed, current, i) ==> i in changed;
      return None;
    }
    assert changed[0] in changed;
    assert IsChanged(confirmed, current, changed[0]);
    var bundles, notes := BriefAt(tools, direction, Context(t.last, t.current, confirmed, current), target);
    scope := Some(Bundled(g, bundles, notes));
  }

  /** `planScope`: the narrowest granularity at which the three documents map one to one. */
  method PlanScope(tools: Tools, t: Texts, direction: Direction, bothDrifted: bool) returns (scope: Scope)
    requires Parsed(tools, t.last) && Parsed(tools, t.current) && Parsed(tools, t.counterpart)
    ensures bothDrifted ==> scope == Document
    ensures !bothDrifted ==>
      var mechanical := ComputeMechanicalUpdate(FencesOf(tools), t.last, t.current, t.counterpart);
      (scope.Mechanical? <==> mechanical.Some?) && (scope.Mechanical? ==> mechanical == Some(scope.result))
    ensures scope.Bundled? ==>
      UsableAt(tools, scope.granularity, t) && BriefingAt(tools, direction, scope.granularity, t, scope.bundles, scope.notes)
    ensures scope.Bundled? && scope.granularity == Sections ==> !UsableAt(tools, Units, t)
    ensures scope.Document? && !bothDrifted ==> !UsableAt(tools, Units, t) && !UsableAt(tools, Sections, t)
  {
    if bothDrifted {
      return Document;
    }
    hide UsableAt, BriefingAt, ComputeMechanicalUpdate, FencesOf;
    var mechanical := ComputeMechanicalUpdate(FencesOf(tools), t.last, t.current, t.counterpart);
    if mechanical.Some? {
      return Mechanical(mechanical.value);
    }
    var granularities := [Units, Sections];
    for k := 0 to 2
      invariant k >= 1 ==> !UsableAt(tools, Units, t)
      invariant k == 2 ==> !UsableAt(tools, Sections, t)
    {
      var attempt := TryAt(tools, direction, granularities[k], t);
      if attempt.Some? {
        return attempt.value;
      }
    }
    scope := Document;
  }
}
