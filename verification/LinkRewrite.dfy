/** Rewriting the links of a Markdown document in place, in scripts/project-doc-site.ts. */
module LinkRewrite {
  import opened Common
  import opened Destination
  import opened DestinationMeaning
  import opened Sorting
  import opened Splice

  /** A parsed node with its offsets; links, images and definitions have a kind and a target. */
  datatype Node = Node(kind: Option<Kind>, url: string, start: nat, end: nat, children: seq<Node>)

  /** A replacement of the characters from `start` to `end`. */
  datatype Edit = Edit(start: nat, end: nat, value: string)

  datatype Error = Unroutable(reason: string) | BadLink(failure: Failure)

  /** What a target is published as: unchanged, another target, or an error. */
  type Route = (Kind, string) -> Result<Option<string>, string>

  /** `rewrite`: at most one replacement, of the destination. */
  function EditsOf(source: string, route: Route, node: Node): Result<seq<Edit>, Error>
    requires node.start <= node.end <= |source|
  {
    if node.kind.None? then Ok([])
    else match route(node.kind.value, node.url)
      case Err(reason) => Err(Unroutable(reason))
      case Ok(None) => Ok([])
      case Ok(Some(value)) =>
        match DestinationOf(source[node.start..node.end], node.kind.value)
        case Err(failure) => Err(BadLink(failure))
        case Ok(range) => Ok([Edit(node.start + range.start, node.start + range.end, value)])
  }

  predicate Bounded(source: string, node: Node) {
    && node.start <= node.end <= |source|
    && forall i :: 0 <= i < |node.children| ==> Bounded(source, node.children[i])
  }

  /** The replacements in the order the nodes are visited: a node before its children. */
  function Collect(source: string, route: Route, node: Node): Result<seq<Edit>, Error>
    requires Bounded(source, node)
    decreases node
  {
    var own := EditsOf(source, route, node);
    if own.Err? then own
    else
      var below := CollectAll(source, route, node.children);
      if below.Err? then below else Ok(own.value + below.value)
  }

  function CollectAll(source: string, route: Route, nodes: seq<Node>): Result<seq<Edit>, Error>
    requires forall i :: 0 <= i < |nodes| ==> Bounded(source, nodes[i])
    decreases nodes
  {
    if nodes == [] then Ok([])
    else
      var first := Collect(source, route, nodes[0]);
      if first.Err? then first
      else
        var rest := CollectAll(source, route, nodes[1..]);
        if rest.Err? then rest else Ok(first.value + rest.value)
  }

  /** Where the children of a node may stand: inside its label, if it has one. */
  function InnerEnd(source: string, node: Node): nat
    requires node.start <= node.end <= |source|
  {
    if node.kind.None? || LabelEndOf(source[node.start..node.end]) == -1 then node.end
    else node.start + LabelEndOf(source[node.start..node.end])
  }

  /** Nested nodes stand inside the label of their parent, one after the other. */
  predicate Nested(source: string, node: Node)
    decreases node
  {
    node.start <= node.end <= |source| && NestedAll(source, node.children, node.start, InnerEnd(source, node))
  }

  predicate NestedAll(source: string, nodes: seq<Node>, from: nat, to: nat)
    decreases nodes
  {
    if nodes == [] then from <= to
    else from <= nodes[0].start && Nested(source, nodes[0]) && NestedAll(source, nodes[1..], nodes[0].end, to)
  }

  lemma {:induction false} NestedBounded(source: string, node: Node)
    requires Nested(source, node)
    ensures Bounded(source, node)
    decreases node
  {
    NestedAllBounded(source, node.children, node.start, InnerEnd(source, node));
  }

  lemma {:induction false} NestedAllBounded(source: string, nodes: seq<Node>, from: nat, to: nat)
    requires NestedAll(source, nodes, from, to)
    ensures forall i :: 0 <= i < |nodes| ==> Bounded(source, nodes[i])
    decreases nodes
  {
    if nodes != [] {
      NestedBounded(source, nodes[0]);
      NestedAllBounded(source, nodes[1..], nodes[0].end, to);
      assert forall i :: 0 < i < |nodes| ==> nodes[i] == nodes[1..][i - 1];
    }
  }

  /** The replacements in document order: those of the children, in the label, before the node's own. */
  ghost function InOrder(source: string, route: Route, node: Node): seq<Edit>
    requires Bounded(source, node) && Collect(source, route, node).Ok?
    decreases node
  {
    InOrderAll(source, route, node.children) + EditsOf(source, route, node).value
  }

  ghost function InOrderAll(source: string, route: Route, nodes: seq<Node>): seq<Edit>
    requires forall i :: 0 <= i < |nodes| ==> Bounded(source, nodes[i])
    requires CollectAll(source, route, nodes).Ok?
    decreases nodes
  {
    if nodes == [] then [] else InOrder(source, route, nodes[0]) + InOrderAll(source, route, nodes[1..])
  }

  lemma {:induction false} SameEdits(source: string, route: Route, node: Node)
    requires Bounded(source, node) && Collect(source, route, node).Ok?
    ensures multiset(Collect(source, route, node).value) == multiset(InOrder(source, route, node))
    decreases node
  {
    SameEditsAll(source, route, node.children);
  }

  lemma {:induction false} SameEditsAll(source: string, route: Route, nodes: seq<Node>)
    requires forall i :: 0 <= i < |nodes| ==> Bounded(source, nodes[i])
    requires CollectAll(source, route, nodes).Ok?
    ensures multiset(CollectAll(source, route, nodes).value) == multiset(InOrderAll(source, route, nodes))
    decreases nodes
  {
    if nodes != [] {
      SameEdits(source, route, nodes[0]);
      SameEditsAll(source, route, nodes[1..]);
    }
  }

  /** Replacements one after the other, with at least a character between them, in `source[from..to]`. */
  predicate Apart(edits: seq<Edit>, from: nat, to: nat) {
    if edits == [] then from <= to
    else from < edits[0].start <= edits[0].end && Apart(edits[1..], edits[0].end, to)
  }

  lemma {:induction false} ApartWider(edits: seq<Edit>, from: nat, to: nat, wider: nat)
    requires Apart(edits, from, to) && to <= wider
    ensures Apart(edits, from, wider)
  {
    if edits != [] {
      ApartWider(edits[1..], edits[0].end, to, wider);
    }
  }

  lemma {:induction false} ApartConcat(a: seq<Edit>, b: seq<Edit>, from: nat, mid: nat, next: nat, to: nat)
    requires Apart(a, from, mid) && mid <= next && Apart(b, next, to)
    ensures Apart(a + b, from, to)
  {
    if a == [] {
      assert a + b == b;
    } else {
      ApartConcat(a[1..], b, a[0].end, mid, next, to);
      assert (a + b)[1..] == a[1..] + b;
    }
  }

  /** Nested nodes have disjoint destinations. */
  lemma {:induction false} NestedApart(source: string, route: Route, node: Node)
    requires Nested(source, node) && Bounded(source, node) && Collect(source, route, node).Ok?
    ensures Apart(InOrder(source, route, node), node.start, node.end)
    decreases node
  {
    var inner := InnerEnd(source, node);
    NestedApartAll(source, route, node.children, node.start, inner);
    var below, own := InOrderAll(source, route, node.children), EditsOf(source, route, node).value;
    if own == [] {
      ApartWider(below, node.start, inner, node.end);
      assert below + own == below;
    } else {
      ApartConcat(below, own, node.start, inner, inner, node.end);
    }
  }

  lemma {:induction false} NestedApartAll(source: string, route: Route, nodes: seq<Node>, from: nat, to: nat)
    requires NestedAll(source, nodes, from, to)
    requires forall i :: 0 <= i < |nodes| ==> Bounded(source, nodes[i])
    requires CollectAll(source, route, nodes).Ok?
    ensures Apart(InOrderAll(source, route, nodes), from, to)
    decreases nodes
  {
    if nodes != [] {
      NestedApart(source, route, nodes[0]);
      NestedApartAll(source, route, nodes[1..], nodes[0].end, to);
      ApartConcat(InOrder(source, route, nodes[0]), InOrderAll(source, route, nodes[1..]),
        from, nodes[0].end, nodes[0].end, to);
    }
  }

  function LastFirst(): (Edit, Edit) -> int {
    (a: Edit, b: Edit) => b.start - a.start
  }

  function RangesIn(edits: seq<Edit>): seq<Range> {
    seq(|edits|, i requires 0 <= i < |edits| => Range(edits[i].start, edits[i].end))
  }

  function ValuesIn(edits: seq<Edit>): seq<string> {
    seq(|edits|, i requires 0 <= i < |edits| => edits[i].value)
  }

  lemma {:induction false} ApartFits(edits: seq<Edit>, from: nat, to: nat)
    requires Apart(edits, from, to)
    ensures Fits(RangesIn(edits), from, to)
    ensures forall i :: 0 <= i < |edits| ==> from < edits[i].start <= edits[i].end <= to
    ensures forall i, j :: 0 <= i < j < |edits| ==> edits[i].end < edits[j].start
  {
    if edits != [] {
      ApartFits(edits[1..], edits[0].end, to);
      assert RangesIn(edits)[1..] == RangesIn(edits[1..]);
      assert edits == [edits[0]] + edits[1..];
    }
  }

  /** All replacements at once: every other character stays, in order. */
  ghost function Substituted(source: string, edits: seq<Edit>): string
    requires Apart(edits, 0, |source|)
  {
    ApartFits(edits, 0, |source|);
    Interleave(Gaps(source, RangesIn(edits), 0), ValuesIn(edits))
  }

  function Reversed<T>(s: seq<T>): seq<T> {
    seq(|s|, i requires 0 <= i < |s| => s[|s| - 1 - i])
  }

  ghost predicate StartsAscend(edits: seq<Edit>) {
    forall i, j :: 0 <= i < j < |edits| ==> edits[i].start < edits[j].start
  }

  lemma {:induction false} SameOrder(a: seq<Edit>, b: seq<Edit>)
    requires StartsAscend(a) && StartsAscend(b) && forall x :: x in a <==> x in b
    ensures a == b
  {
    assert a != [] ==> a[0] in b;
    assert b != [] ==> b[0] in a;
    if a != [] && b != [] {
      var i :| 0 <= i < |b| && b[i] == a[0];
      var j :| 0 <= j < |a| && a[j] == b[0];
      assert a[0] == b[0];
      forall x ensures x in a[1..] <==> x in b[1..] {
        TailMember(a, x);
        TailMember(b, x);
      }
      SameOrder(a[1..], b[1..]);
      assert a == [a[0]] + a[1..] && b == [b[0]] + b[1..];
    }
  }

  lemma TailMember(a: seq<Edit>, x: Edit)
    requires StartsAscend(a) && a != []
    ensures x in a[1..] <==> x in a && x != a[0]
  {
    if x in a && x != a[0] {
      var i :| 0 <= i < |a| && a[i] == x;
      assert a[1..][i - 1] == x;
    }
    if x in a[1..] {
      var i :| 0 <= i < |a[1..]| && a[1..][i] == x;
      assert a[i + 1] == x;
    }
  }

  lemma ApartNoTies(collected: seq<Edit>, ordered: seq<Edit>, to: nat)
    requires Apart(ordered, 0, to) && multiset(collected) == multiset(ordered)
    ensures NoTies(collected, LastFirst()) && forall x :: x in collected <==> x in ordered
    ensures StartsAscend(ordered)
  {
    ApartFits(ordered, 0, to);
    assert Distinct(ordered);
    SameMultiset(ordered, collected);
    forall i, j | 0 <= i < j < |collected| ensures LastFirst()(collected[i], collected[j]) != 0 {
      assert collected[i] in ordered && collected[j] in ordered && collected[i] != collected[j];
      var a :| 0 <= a < |ordered| && ordered[a] == collected[i];
      var b :| 0 <= b < |ordered| && ordered[b] == collected[j];
    }
  }

  lemma ReversedAscends(sorted: seq<Edit>)
    requires forall i, j :: 0 <= i < j < |sorted| ==> LastFirst()(sorted[i], sorted[j]) < 0
    ensures StartsAscend(Reversed(sorted)) && Reversed(Reversed(sorted)) == sorted
  {
    var n := |sorted|;
    forall i, j | 0 <= i < j < n ensures Reversed(sorted)[i].start < Reversed(sorted)[j].start {
      assert LastFirst()(sorted[n - 1 - j], sorted[n - 1 - i]) < 0;
    }
  }

  /** Sorting the visited replacements by descending start puts them in reverse document order. */
  lemma SortIsReverse(collected: seq<Edit>, ordered: seq<Edit>, to: nat)
    requires Apart(ordered, 0, to) && multiset(collected) == multiset(ordered)
    ensures Sort(collected, LastFirst()) == Reversed(ordered)
  {
    assert Comparison(LastFirst());
    hide Sort, StartsAscend, NoTies, Apart, Comparison, Reversed;
    ApartNoTies(collected, ordered, to);
    SortedStrictly(collected, LastFirst());
    var sorted := Sort(collected, LastFirst());
    ReversedMembers(sorted);
    ReversedAscends(sorted);
    SameOrder(Reversed(sorted), ordered);
  }

  lemma ReversedMembers<T>(s: seq<T>)
    ensures forall x :: x in Reversed(s) <==> x in s
  {
    forall x ensures x in Reversed(s) <==> x in s {
      if x in s {
        var i :| 0 <= i < |s| && s[i] == x;
        assert Reversed(s)[|s| - 1 - i] == x;
      }
    }
  }

  /** The updates that the edits, from the last to the first, make to the texts of their ranges. */
  ghost function UpdatesFor(ordered: seq<Edit>): (updates: seq<Update<char>>)
    ensures |updates| == |ordered|
    ensures forall u :: u in updates ==> u.index < |ordered|
  {
    seq(|ordered|, i requires 0 <= i < |ordered| => Update(|ordered| - 1 - i, ordered[|ordered| - 1 - i].value))
  }

  /** The document after the last `k` edits. */
  ghost function After(source: string, ordered: seq<Edit>, k: nat): string
    requires Apart(ordered, 0, |source|) && k <= |ordered|
  {
    ApartFits(ordered, 0, |source|);
    Interleave(Gaps(source, RangesIn(ordered), 0), Updated(Taken(source, RangesIn(ordered)), UpdatesFor(ordered)[..k]))
  }

  lemma AfterNone(source: string, ordered: seq<Edit>)
    requires Apart(ordered, 0, |source|)
    ensures After(source, ordered, 0) == source
  {
    ApartFits(ordered, 0, |source|);
    Tiling(source, RangesIn(ordered), 0);
  }

  lemma AfterAll(source: string, ordered: seq<Edit>)
    requires Apart(ordered, 0, |source|)
    ensures After(source, ordered, |ordered|) == Substituted(source, ordered)
  {
    ApartFits(ordered, 0, |source|);
    var taken, updates, n := Taken(source, RangesIn(ordered)), UpdatesFor(ordered), |ordered|;
    assert updates[..n] == updates;
    forall i | 0 <= i < n ensures Updated(taken, updates)[i] == ValuesIn(ordered)[i] {
      var k := n - 1 - i;
      assert updates[k].index == i;
      UpdatedAt(taken, updates, k);
    }
    assert Updated(taken, updates) == ValuesIn(ordered);
  }

  lemma AfterOne(source: string, ordered: seq<Edit>, k: nat)
    requires Apart(ordered, 0, |source|) && k < |ordered|
    ensures var edit, before := ordered[|ordered| - 1 - k], After(source, ordered, k);
      && edit.start <= edit.end <= |before|
      && before[..edit.start] + edit.value + before[edit.end..] == After(source, ordered, k + 1)
  {
    ApartFits(ordered, 0, |source|);
    var ranges, updates, index := RangesIn(ordered), UpdatesFor(ordered), |ordered| - 1 - k;
    var taken := Taken(source, ranges);
    var before := Updated(taken, updates[..k]);
    forall j | 0 <= j <= index ensures before[j] == source[ranges[j].start..ranges[j].end] {
      UpdatedBelow(taken, updates[..k], j);
    }
    assert UntouchedTo(source, ranges, before, index);
    assert updates[..k + 1][..k] == updates[..k] && updates[..k + 1][k] == updates[k];
    assert Updated(taken, updates[..k + 1]) == before[index := ordered[index].value];
    hide Gaps, Interleave, Taken, Updated, UntouchedTo, Apart;
    SpliceOne(source, ranges, 0, before, index, ordered[index].value);
  }

  /** The replacement loop: cutting in one edit after the other, from the back, is the substitution of all. */
  method ApplyEdits(source: string, sorted: seq<Edit>, ghost ordered: seq<Edit>) returns (projected: string)
    requires Apart(ordered, 0, |source|) && sorted == Reversed(ordered)
    ensures projected == Substituted(source, ordered)
  {
    hide After, Substituted, Apart;
    AfterNone(source, ordered);
    projected := source;
    for k := 0 to |sorted|
      invariant projected == After(source, ordered, k)
    {
      AfterOne(source, ordered, k);
      var replacement := sorted[k];
      projected := projected[..replacement.start] + replacement.value + projected[replacement.end..];
    }
    AfterAll(source, ordered);
  }

  // ---------------------------------------------------------------- which characters are replaced

  /** The node is a link, an image or a definition, and its target is published under another one. */
  ghost predicate Routed(route: Route, node: Node) {
    node.kind.Some? && route(node.kind.value, node.url).Ok? && route(node.kind.value, node.url).value.Some?
  }

  /** The replacement puts the new target in the place of the node's destination. */
  ghost predicate Redirects(source: string, route: Route, node: Node, edit: Edit) {
    && Routed(route, node) && edit.value == route(node.kind.value, node.url).value.value
    && node.start <= node.end <= |source| && edit.start >= node.start && edit.end >= node.start
    && Stands(source[node.start..node.end], node.kind.value, Range(edit.start - node.start, edit.end - node.start))
  }

  /** One replacement for each routed node, in the order of the nodes. */
  ghost predicate Redirect(source: string, route: Route, nodes: seq<Node>, edits: seq<Edit>) {
    if nodes == [] then edits == []
    else if !Routed(route, nodes[0]) then Redirect(source, route, nodes[1..], edits)
    else edits != [] && Redirects(source, route, nodes[0], edits[0]) && Redirect(source, route, nodes[1..], edits[1..])
  }

  /** The nodes of a tree, children first. */
  ghost function ChildrenFirst(node: Node): seq<Node>
    decreases node
  {
    AllChildrenFirst(node.children) + [node]
  }

  ghost function AllChildrenFirst(nodes: seq<Node>): seq<Node>
    decreases nodes
  {
    if nodes == [] then [] else ChildrenFirst(nodes[0]) + AllChildrenFirst(nodes[1..])
  }

  /** ... and parents first. */
  ghost function ParentFirst(node: Node): seq<Node>
    decreases node
  {
    [node] + AllParentFirst(node.children)
  }

  ghost function AllParentFirst(nodes: seq<Node>): seq<Node>
    decreases nodes
  {
    if nodes == [] then [] else ParentFirst(nodes[0]) + AllParentFirst(nodes[1..])
  }

  ghost predicate Fails(source: string, route: Route, node: Node, e: Error) {
    && node.kind.Some?
    && match route(node.kind.value, node.url)
       case Err(reason) => e == Unroutable(reason)
       case Ok(None) => false
       case Ok(Some(_)) =>
         && node.start <= node.end <= |source| && e.BadLink?
         && DestinationOf(source[node.start..node.end], node.kind.value) == Err(e.failure)
  }

  /** The error is that of the first node that has one. */
  ghost predicate FirstFails(source: string, route: Route, nodes: seq<Node>, e: Error) {
    && nodes != []
    && (Fails(source, route, nodes[0], e)
        || ((forall other :: !Fails(source, route, nodes[0], other)) && FirstFails(source, route, nodes[1..], e)))
  }

  lemma {:induction false} RedirectConcat(source: string, route: Route, a: seq<Node>, b: seq<Node>, x: seq<Edit>, y: seq<Edit>)
    requires Redirect(source, route, a, x) && Redirect(source, route, b, y)
    ensures Redirect(source, route, a + b, x + y)
  {
    hide Redirects, Routed;
    if a == [] {
      assert a + b == b && x + y == y;
    } else {
      assert (a + b)[1..] == a[1..] + b;
      if Routed(route, a[0]) {
        RedirectConcat(source, route, a[1..], b, x[1..], y);
        assert (x + y)[1..] == x[1..] + y;
      } else {
        RedirectConcat(source, route, a[1..], b, x, y);
      }
    }
  }

  lemma OwnRedirect(source: string, route: Route, node: Node)
    requires node.start <= node.end <= |source| && EditsOf(source, route, node).Ok?
    ensures Redirect(source, route, [node], EditsOf(source, route, node).value)
  {
    hide DestinationOf, Stands;
    if Routed(route, node) {
      DestinationMeans(source[node.start..node.end], node.kind.value);
    }
    var edits := EditsOf(source, route, node).value;
    assert [node][1..] == [] && (edits != [] ==> edits[1..] == []);
  }

  lemma {:induction false} InOrderMeans(source: string, route: Route, node: Node)
    requires Bounded(source, node) && Collect(source, route, node).Ok?
    ensures Redirect(source, route, ChildrenFirst(node), InOrder(source, route, node))
    decreases node
  {
    hide Redirect, EditsOf;
    AllInOrderMeans(source, route, node.children);
    OwnRedirect(source, route, node);
    RedirectConcat(source, route, AllChildrenFirst(node.children), [node],
      InOrderAll(source, route, node.children), EditsOf(source, route, node).value);
  }

  lemma {:induction false} AllInOrderMeans(source: string, route: Route, nodes: seq<Node>)
    requires forall i :: 0 <= i < |nodes| ==> Bounded(source, nodes[i])
    requires CollectAll(source, route, nodes).Ok?
    ensures Redirect(source, route, AllChildrenFirst(nodes), InOrderAll(source, route, nodes))
    decreases nodes
  {
    if nodes != [] {
      InOrderMeans(source, route, nodes[0]);
      AllInOrderMeans(source, route, nodes[1..]);
      RedirectConcat(source, route, ChildrenFirst(nodes[0]), AllChildrenFirst(nodes[1..]),
        InOrder(source, route, nodes[0]), InOrderAll(source, route, nodes[1..]));
    }
  }

  lemma OwnFails(source: string, route: Route, node: Node)
    requires node.start <= node.end <= |source|
    ensures forall e :: EditsOf(source, route, node) == Err(e) <==> Fails(source, route, node, e)
  {
    hide DestinationOf;
  }

  ghost predicate NoneFails(source: string, route: Route, nodes: seq<Node>) {
    forall e :: !FirstFails(source, route, nodes, e)
  }

  lemma FirstOfMore(source: string, route: Route, node: Node, rest: seq<Node>)
    ensures forall e ::
      FirstFails(source, route, [node] + rest, e) <==>
        Fails(source, route, node, e) || ((forall other :: !Fails(source, route, node, other)) && FirstFails(source, route, rest, e))
    ensures NoneFails(source, route, [node] + rest)
      <==> (forall e :: !Fails(source, route, node, e)) && NoneFails(source, route, rest)
  {
    hide Fails;
    assert ([node] + rest)[1..] == rest;
    forall e
      ensures FirstFails(source, route, [node] + rest, e)
        <==> Fails(source, route, node, e) || ((forall other :: !Fails(source, route, node, other)) && FirstFails(source, route, rest, e))
    {
    }
  }

  lemma {:induction false} FailsConcat(source: string, route: Route, a: seq<Node>, b: seq<Node>, e: Error)
    ensures FirstFails(source, route, a + b, e)
      <==> FirstFails(source, route, a, e) || (NoneFails(source, route, a) && FirstFails(source, route, b, e))
  {
    if a == [] {
      assert a + b == b;
    } else {
      hide Fails, FirstFails, NoneFails;
      FailsConcat(source, route, a[1..], b, e);
      FirstOfMore(source, route, a[0], a[1..]);
      FirstOfMore(source, route, a[0], a[1..] + b);
      assert [a[0]] + a[1..] == a && [a[0]] + (a[1..] + b) == a + b;
    }
  }

  /** The visit fails with the error of the first node, parents first, that has one, and only then. */
  lemma {:induction false} CollectMeans(source: string, route: Route, node: Node, e: Error)
    requires Bounded(source, node)
    ensures Collect(source, route, node) == Err(e) <==> FirstFails(source, route, ParentFirst(node), e)
    decreases node
  {
    hide Fails, EditsOf;
    OwnFails(source, route, node);
    CollectAllMeans(source, route, node.children, e);
    assert ParentFirst(node)[1..] == AllParentFirst(node.children);
  }

  lemma {:induction false} CollectAllMeans(source: string, route: Route, nodes: seq<Node>, e: Error)
    requires forall i :: 0 <= i < |nodes| ==> Bounded(source, nodes[i])
    ensures CollectAll(source, route, nodes) == Err(e) <==> FirstFails(source, route, AllParentFirst(nodes), e)
    decreases nodes
  {
    if nodes != [] {
      hide FirstFails;
      var first := Collect(source, route, nodes[0]);
      forall other ensures first == Err(other) <==> FirstFails(source, route, ParentFirst(nodes[0]), other) {
        CollectMeans(source, route, nodes[0], other);
      }
      assert first.Err? ==> FirstFails(source, route, ParentFirst(nodes[0]), first.error);
      assert first.Ok? ==> NoneFails(source, route, ParentFirst(nodes[0]));
      CollectAllMeans(source, route, nodes[1..], e);
      FailsConcat(source, route, ParentFirst(nodes[0]), AllParentFirst(nodes[1..]), e);
    }
  }

  /** `visit`: pushes the replacement of a node, then those of its children. */
  method Visit(source: string, route: Route, node: Node, replacements: seq<Edit>) returns (r: Result<seq<Edit>, Error>)
    requires Bounded(source, node)
    ensures var all := Collect(source, route, node);
      r == if all.Err? then Err(all.error) else Ok(replacements + all.value)
    decreases node
  {
    var own := Rewrite(source, route, node);
    if own.Err? {
      return Err(own.error);
    }
    var pushed := replacements + own.value;
    var below := VisitAll(source, route, node.children, pushed);
    if below.Err? {
      return Err(below.error);
    }
    assert below.value == replacements + (own.value + CollectAll(source, route, node.children).value);
    r := Ok(below.value);
  }

  method VisitAll(source: string, route: Route, nodes: seq<Node>, replacements: seq<Edit>) returns (r: Result<seq<Edit>, Error>)
    requires forall i :: 0 <= i < |nodes| ==> Bounded(source, nodes[i])
    ensures var all := CollectAll(source, route, nodes);
      r == if all.Err? then Err(all.error) else Ok(replacements + all.value)
    decreases nodes
  {
    if nodes == [] {
      assert replacements + [] == replacements;
      return Ok(replacements);
    }
    var first := Visit(source, route, nodes[0], replacements);
    if first.Err? {
      return Err(first.error);
    }
    var rest := VisitAll(source, route, nodes[1..], first.value);
    if rest.Err? {
      return Err(rest.error);
    }
    assert rest.value == replacements + (Collect(source, route, nodes[0]).value + CollectAll(source, route, nodes[1..]).value);
    r := Ok(rest.value);
  }

  method Rewrite(source: string, route: Route, node: Node) returns (r: Result<seq<Edit>, Error>)
    requires node.start <= node.end <= |source|
    ensures r == EditsOf(source, route, node)
  {
    if node.kind.None? {
      return Ok([]);
    }
    var next := route(node.kind.value, node.url);
    if next.Err? {
      return Err(Unroutable(next.error));
    }
    if next.value.None? {
      return Ok([]);
    }
    var range := DestinationRange(source[node.start..node.end], node.kind.value);
    if range.Err? {
      return Err(BadLink(range.error));
    }
    r := Ok([Edit(node.start + range.value.start, node.start + range.value.end, next.value.value)]);
  }

  /** `rewriteMarkdown`: all destinations at once, every other character kept. */
  method RewriteMarkdown(source: string, tree: Node, route: Route) returns (r: Result<string, Error>)
    requires Nested(source, tree) && Bounded(source, tree)
    ensures r.Err? ==> FirstFails(source, route, ParentFirst(tree), r.error)
    ensures r.Ok? ==> NoneFails(source, route, ParentFirst(tree))
    ensures r.Ok? ==> exists edits ::
      && Redirect(source, route, ChildrenFirst(tree), edits) && Apart(edits, 0, |source|)
      && r.value == Substituted(source, edits)
  {
    hide Redirect, FirstFails, Apart, Substituted, Nested;
    forall e ensures Collect(source, route, tree) == Err(e) <==> FirstFails(source, route, ParentFirst(tree), e) {
      CollectMeans(source, route, tree, e);
    }
    var replacements := Visit(source, route, tree, []);
    if replacements.Err? {
      return Err(replacements.error);
    }
    assert [] + Collect(source, route, tree).value == Collect(source, route, tree).value;
    ghost var ordered := InOrder(source, route, tree);
    NestedApart(source, route, tree);
    WithinDocument(source, tree, ordered);
    SameEdits(source, route, tree);
    SortIsReverse(replacements.value, ordered, |source|);
    InOrderMeans(source, route, tree);
    var projected := ApplyEdits(source, Sort(replacements.value, LastFirst()), ordered);
    r := Ok(projected);
  }

  lemma WithinDocument(source: string, tree: Node, edits: seq<Edit>)
    requires Bounded(source, tree) && Apart(edits, tree.start, tree.end)
    ensures Apart(edits, 0, |source|)
  {
    ApartWider(edits, tree.start, tree.end, |source|);
  }
}
