/** Layered dependency order of workspace packages (scripts/package-graph.ts). */
module PackageOrder {
  import opened Common
  import opened Graph
  import opened Sorting

  const MAX_SAFE_INTEGER: int := 0x1F_FFFF_FFFF_FFFF

  datatype Package = Package(short: string, group: string, deps: seq<string>)

  predicate DistinctNames(s: seq<Package>) {
    forall i, j :: 0 <= i < j < |s| ==> s[i].short != s[j].short
  }

  /** `remaining` as built from the list: a repeated name keeps its first place and its last value. */
  function Entries(packages: seq<Package>): seq<Package> {
    if packages == [] then [] else Put(Entries(packages[..|packages| - 1]), packages[|packages| - 1])
  }

  function Put(entries: seq<Package>, p: Package): seq<Package> {
    if entries == [] then [p]
    else if entries[0].short == p.short then [p] + entries[1..]
    else [entries[0]] + Put(entries[1..], p)
  }

  lemma {:induction false} PutKeepsNames(entries: seq<Package>, p: Package)
    requires DistinctNames(entries)
    ensures DistinctNames(Put(entries, p)) && Put(entries, p) != []
    ensures forall q :: q in Put(entries, p) <==> q == p || (q in entries && q.short != p.short)
  {
    if entries == [] || entries[0].short == p.short {
    } else {
      PutKeepsNames(entries[1..], p);
      var rest := Put(entries[1..], p);
      forall i | 0 <= i < |rest| ensures rest[i].short != entries[0].short {
        assert rest[i] in rest;
      }
      assert Put(entries, p) == [entries[0]] + rest;
    }
  }

  lemma {:induction false} EntriesDistinct(packages: seq<Package>)
    ensures DistinctNames(Entries(packages))
    ensures DistinctNames(packages) ==> forall q :: q in Entries(packages) <==> q in packages
  {
    if packages != [] {
      EntriesDistinct(packages[..|packages| - 1]);
      PutKeepsNames(Entries(packages[..|packages| - 1]), packages[|packages| - 1]);
      assert packages == packages[..|packages| - 1] + [packages[|packages| - 1]];
    }
  }

  /** The last package of the list with its name. */
  ghost predicate LastOfName(packages: seq<Package>, p: Package) {
    exists i :: 0 <= i < |packages| && packages[i] == p && forall j :: i < j < |packages| ==> packages[j].short != p.short
  }

  ghost predicate FirstNamedAt(packages: seq<Package>, name: string, i: nat) {
    i < |packages| && packages[i].short == name && forall j :: 0 <= j < i ==> packages[j].short != name
  }

  /** The names stand in the order in which the list first has them. */
  ghost predicate InListOrder(packages: seq<Package>, entries: seq<Package>) {
    forall a, b, i: nat, j: nat ::
      0 <= a < b < |entries| && FirstNamedAt(packages, entries[a].short, i) && FirstNamedAt(packages, entries[b].short, j) ==> i < j
  }

  lemma {:induction false} PutPlace(entries: seq<Package>, p: Package)
    requires DistinctNames(entries)
    ensures |entries| <= |Put(entries, p)| <= |entries| + 1
    ensures forall k :: 0 <= k < |entries| ==> Put(entries, p)[k].short == entries[k].short
    ensures |Put(entries, p)| > |entries| ==> Put(entries, p)[|entries|] == p && forall q :: q in entries ==> q.short != p.short
  {
    if entries != [] && entries[0].short != p.short {
      PutPlace(entries[1..], p);
      assert forall q :: q in entries ==> q == entries[0] || q in entries[1..];
    }
  }

  /** A table from a list: of a repeated name the last package, at the place of the first. */
  lemma {:induction false} EntriesMean(packages: seq<Package>)
    ensures forall p :: p in Entries(packages) <==> LastOfName(packages, p)
    ensures InListOrder(packages, Entries(packages))
  {
    if packages != [] {
      var front, last := packages[..|packages| - 1], packages[|packages| - 1];
      EntriesMean(front);
      EntriesDistinct(front);
      assert front + [last] == packages;
      PutKeepsNames(Entries(front), last);
      forall p ensures p in Entries(packages) <==> LastOfName(packages, p) {
        LastMore(front, last, p);
      }
      PutPlace(Entries(front), last);
      OrderMore(front, last, Entries(front), Entries(packages));
    }
  }

  lemma LastMore(front: seq<Package>, last: Package, p: Package)
    ensures LastOfName(front + [last], p) <==> p == last || (LastOfName(front, p) && p.short != last.short)
  {
    var packages := front + [last];
    assert packages[|front|] == last;
    if LastOfName(front, p) && p.short != last.short {
      var i :| 0 <= i < |front| && front[i] == p && forall j :: i < j < |front| ==> front[j].short != p.short;
      assert packages[i] == p && forall j :: i < j < |packages| ==> packages[j].short != p.short;
    }
    if LastOfName(packages, p) && p != last {
      var i :| 0 <= i < |packages| && packages[i] == p && forall j :: i < j < |packages| ==> packages[j].short != p.short;
      assert i < |front| && front[i] == p;
      assert forall j :: i < j < |front| ==> front[j] == packages[j];
    }
  }

  lemma OrderMore(front: seq<Package>, last: Package, before: seq<Package>, after: seq<Package>)
    requires InListOrder(front, before) && (forall p :: p in before <==> LastOfName(front, p))
    requires |before| <= |after| <= |before| + 1 && forall k :: 0 <= k < |before| ==> after[k].short == before[k].short
    requires |after| > |before| ==> after[|before|] == last && forall q :: q in before ==> q.short != last.short
    ensures InListOrder(front + [last], after)
  {
    var packages := front + [last];
    forall a: nat, b: nat, i: nat, j: nat
      | a < b < |after| && FirstNamedAt(packages, after[a].short, i) && FirstNamedAt(packages, after[b].short, j)
      ensures i < j
    {
      OrderPair(front, last, before, after, a, b, i, j);
    }
  }

  lemma OrderPair(front: seq<Package>, last: Package, before: seq<Package>, after: seq<Package>, a: nat, b: nat, i: nat, j: nat)
    requires InListOrder(front, before) && (forall p :: p in before <==> LastOfName(front, p))
    requires |before| <= |after| <= |before| + 1 && forall k :: 0 <= k < |before| ==> after[k].short == before[k].short
    requires |after| > |before| ==> after[|before|] == last && forall q :: q in before ==> q.short != last.short
    requires a < b < |after|
    requires FirstNamedAt(front + [last], after[a].short, i) && FirstNamedAt(front + [last], after[b].short, j)
    ensures i < j
  {
    hide FirstNamedAt, LastOfName;
    FirstInFront(front, last, before, a, i);
    PlaceInMore(front, last, before[a].short, i);
    PlaceInMore(front, last, after[b].short, j);
    if b < |before| {
      FirstInFront(front, last, before, b, j);
    } else if j < |front| {
      NamedHasLast(front, last.short, j);
    }
  }

  lemma PlaceInMore(front: seq<Package>, last: Package, name: string, i: nat)
    requires FirstNamedAt(front + [last], name, i)
    ensures i <= |front| && (i < |front| ==> front[i].short == name) && (FirstNamedAt(front, name, i) ==> i < |front|)
  {
  }

  /** A name of the table stands in the list. */
  lemma FirstInFront(front: seq<Package>, last: Package, before: seq<Package>, k: nat, i: nat)
    requires k < |before| && FirstNamedAt(front + [last], before[k].short, i)
    requires forall p :: p in before <==> LastOfName(front, p)
    ensures FirstNamedAt(front, before[k].short, i)
  {
    var packages := front + [last];
    assert before[k] in before && LastOfName(front, before[k]);
    var m :| 0 <= m < |front| && front[m] == before[k];
    assert packages[m] == front[m];
    assert forall j :: 0 <= j < |front| ==> packages[j] == front[j];
  }

  lemma {:induction false} NamedHasLast(front: seq<Package>, name: string, i: nat)
    requires i < |front| && front[i].short == name
    ensures exists p :: LastOfName(front, p) && p.short == name
    decreases |front| - i
  {
    if k :| i < k < |front| && front[k].short == name {
      NamedHasLast(front, name, k);
    } else {
      assert LastOfName(front, front[i]);
    }
  }

  function DepsGraph(entries: seq<Package>): Graph<string> {
    if entries == [] then map[] else DepsGraph(entries[1..])[entries[0].short := entries[0].deps]
  }

  lemma {:induction false} GraphNames(entries: seq<Package>)
    requires DistinctNames(entries)
    ensures forall p :: p in entries ==> p.short in DepsGraph(entries) && DepsGraph(entries)[p.short] == p.deps
    ensures forall n :: n in DepsGraph(entries) ==> exists p :: p in entries && p.short == n
  {
    if entries != [] {
      GraphNames(entries[1..]);
      forall p | p in entries
        ensures p.short in DepsGraph(entries) && DepsGraph(entries)[p.short] == p.deps
      {
        var i :| 0 <= i < |entries| && entries[i] == p;
        if i > 0 {
          assert entries[0].short != p.short && p in entries[1..];
        }
      }
      forall n | n in DepsGraph(entries) ensures exists p :: p in entries && p.short == n {
        if n == entries[0].short {
          assert entries[0] in entries;
        } else {
          var p :| p in entries[1..] && p.short == n;
          assert p in entries;
        }
      }
    }
  }

  // ---------------------------------------------------------------- the comparison

  function GroupIndex(group: string, order: seq<string>): int {
    if order == [] then -1
    else if order[0] == group then 0
    else var i := GroupIndex(group, order[1..]); if i == -1 then -1 else i + 1
  }

  function GroupRank(group: string, order: seq<string>): int {
    var i := GroupIndex(group, order);
    if i == -1 then MAX_SAFE_INTEGER else i
  }

  /** `comparePackages`: listed groups in list order, then the others; ties by locale order of group, then name. */
  function ComparePackages(a: Package, b: Package, order: seq<string>, locale: (string, string) -> int): int {
    var rank := GroupRank(a.group, order) - GroupRank(b.group, order);
    if rank != 0 then rank
    else if locale(a.group, b.group) != 0 then locale(a.group, b.group)
    else locale(a.short, b.short)
  }

  function Comparing(order: seq<string>, locale: (string, string) -> int): (Package, Package) -> int {
    (a, b) => ComparePackages(a, b, order, locale)
  }

  /** The group stands in the list, for the first time at that position. */
  ghost predicate ListedAt(order: seq<string>, group: string, q: nat) {
    q < |order| && order[q] == group && forall k :: 0 <= k < q ==> order[k] != group
  }

  /** A listed group stands before later listed ones and before all others; names decide within a group, or where groups tie. */
  ghost predicate Precedes(a: Package, b: Package, order: seq<string>, locale: (string, string) -> int) {
    && (forall q :: ListedAt(order, b.group, q) ==> exists p :: p <= q && ListedAt(order, a.group, p))
    && (a.group == b.group || (a.group !in order && b.group !in order) ==>
          locale(a.group, b.group) <= 0 && (locale(a.group, b.group) == 0 ==> locale(a.short, b.short) <= 0))
  }

  lemma {:induction false} GroupIndexMeans(group: string, order: seq<string>)
    ensures GroupIndex(group, order) == -1 <==> group !in order
    ensures GroupIndex(group, order) == -1 || (GroupIndex(group, order) >= 0 && ListedAt(order, group, GroupIndex(group, order)))
  {
    if order != [] && order[0] != group {
      GroupIndexMeans(group, order[1..]);
      var i := GroupIndex(group, order[1..]);
      if i != -1 {
        assert order[i + 1] == order[1..][i];
        assert forall k :: 0 < k < i + 1 ==> order[k] == order[1..][k - 1];
      }
    }
  }

  lemma ListedOnce(order: seq<string>, group: string, p: nat, q: nat)
    requires ListedAt(order, group, p) && ListedAt(order, group, q)
    ensures p == q && group in order
  {
  }

  /** For every list that an array can hold. */
  lemma ComparingMeans(a: Package, b: Package, order: seq<string>, locale: (string, string) -> int)
    requires Comparison(locale) && |order| <= MAX_SAFE_INTEGER
    ensures ComparePackages(a, b, order, locale) <= 0 <==> Precedes(a, b, order, locale)
  {
    GroupIndexMeans(a.group, order);
    GroupIndexMeans(b.group, order);
    var i, j := GroupIndex(a.group, order), GroupIndex(b.group, order);
    assert locale(a.group, a.group) == 0;
    if j != -1 {
      forall q | ListedAt(order, b.group, q) ensures q == j {
        ListedOnce(order, b.group, q, j);
      }
    } else {
      forall q ensures !ListedAt(order, b.group, q) {}
    }
    if i != -1 {
      forall p | ListedAt(order, a.group, p) ensures p == i {
        ListedOnce(order, a.group, p, i);
      }
    } else {
      forall p ensures !ListedAt(order, a.group, p) {}
    }
    if i == j && i != -1 {
      assert a.group == order[i] == b.group;
    }
  }

  lemma ComparisonOfPackages(order: seq<string>, locale: (string, string) -> int)
    requires Comparison(locale)
    ensures Comparison(Comparing(order, locale))
  {
    var compare := Comparing(order, locale);
    forall a, b, c | compare(a, b) <= 0 && compare(b, c) <= 0 ensures compare(a, c) <= 0 {
    }
  }

  // ---------------------------------------------------------------- dependency depth

  /** Some dependency chain from `name` has exactly `n` edges. */
  ghost predicate HasChain(g: Graph<string>, name: string, n: nat) {
    exists p :: Path(g, p) && p[0] == name && |p| == n + 1
  }

  ghost predicate LongestChain(g: Graph<string>, name: string, n: nat) {
    HasChain(g, name, n) && forall p: seq<string> :: Path(g, p) && p[0] == name ==> |p| <= n + 1
  }

  lemma ChainFromDependency(g: Graph<string>, name: string, dep: string, n: nat)
    requires Edge(g, name, dep) && HasChain(g, dep, n)
    ensures HasChain(g, name, n + 1)
  {
    var p :| Path(g, p) && p[0] == dep && |p| == n + 1;
    var q := [name] + p;
    assert Path(g, q) && q[0] == name && |q| == n + 2;
  }

  lemma ChainsBounded(g: Graph<string>, name: string, n: nat)
    requires forall dep :: Edge(g, name, dep) ==> exists m: nat :: m < n && LongestChain(g, dep, m)
    ensures forall p: seq<string> :: Path(g, p) && p[0] == name ==> |p| <= n + 1
  {
    forall p: seq<string> | Path(g, p) && p[0] == name ensures |p| <= n + 1 {
      if |p| > 1 {
        assert Edge(g, name, p[1]);
        var m: nat :| m < n && LongestChain(g, p[1], m);
        assert Path(g, p[1..]) && p[1..][0] == p[1];
      }
    }
  }

  // ---------------------------------------------------------------- the layered order

  type Compare = (Package, Package) -> int

  function Placeable(packages: seq<Package>, placed: set<string>): (ready: seq<Package>)
    ensures forall p :: p in ready <==> p in packages && forall dep :: dep in p.deps ==> dep in placed
  {
    if packages == [] then []
    else (if forall dep :: dep in packages[0].deps ==> dep in placed then [packages[0]] else [])
         + Placeable(packages[1..], placed)
  }

  lemma {:induction false} PlaceableDistinct(packages: seq<Package>, placed: set<string>)
    requires DistinctNames(packages)
    ensures DistinctNames(Placeable(packages, placed))
  {
    if packages != [] {
      PlaceableDistinct(packages[1..], placed);
      forall q | q in Placeable(packages[1..], placed) ensures q.short != packages[0].short {
        var i :| 0 <= i < |packages[1..]| && packages[1..][i] == q;
      }
    }
  }

  function Without(packages: seq<Package>, name: string): (rest: seq<Package>)
    ensures forall p :: p in rest <==> p in packages && p.short != name
  {
    if packages == [] then []
    else (if packages[0].short != name then [packages[0]] else []) + Without(packages[1..], name)
  }

  lemma {:induction false} WithoutDistinct(packages: seq<Package>, name: string)
    requires DistinctNames(packages)
    ensures DistinctNames(Without(packages, name))
  {
    if packages != [] {
      WithoutDistinct(packages[1..], name);
      forall q | q in Without(packages[1..], name) ensures q.short != packages[0].short {
        var i :| 0 <= i < |packages[1..]| && packages[1..][i] == q;
      }
    }
  }

  function Names(s: seq<Package>): (names: set<string>) {
    set p | p in s :: p.short
  }

  ghost predicate DepsBefore(out: seq<Package>, i: nat)
    requires i < |out|
  {
    forall dep :: dep in out[i].deps ==> dep in Names(out[..i])
  }

  /** Layer by depth, and inside a layer by the comparison. */
  ghost predicate InOrder(g: Graph<string>, a: Package, b: Package, compare: Compare) {
    exists m: nat, n: nat :: LongestChain(g, a.short, m) && LongestChain(g, b.short, n) &&
      (m < n || (m == n && compare(a, b) <= 0))
  }

  /** By the longest dependency chain, then by the listed groups and names. */
  ghost predicate InPromisedOrder(g: Graph<string>, a: Package, b: Package, order: seq<string>, locale: (string, string) -> int) {
    exists m: nat, n: nat :: LongestChain(g, a.short, m) && LongestChain(g, b.short, n) &&
      (m < n || (m == n && Precedes(a, b, order, locale)))
  }

  lemma PromisedOrder(g: Graph<string>, a: Package, b: Package, order: seq<string>, locale: (string, string) -> int)
    requires Comparison(locale) && |order| <= MAX_SAFE_INTEGER && InOrder(g, a, b, Comparing(order, locale))
    ensures InPromisedOrder(g, a, b, order, locale)
  {
    hide LongestChain, Precedes, ComparePackages;
    ComparingMeans(a, b, order, locale);
  }

  lemma AllPromised(g: Graph<string>, out: seq<Package>, order: seq<string>, locale: (string, string) -> int)
    requires Comparison(locale) && forall i, j :: 0 <= i < j < |out| ==> InOrder(g, out[i], out[j], Comparing(order, locale))
    ensures |order| <= MAX_SAFE_INTEGER ==>
      forall i, j :: 0 <= i < j < |out| ==> InPromisedOrder(g, out[i], out[j], order, locale)
  {
    hide InOrder, InPromisedOrder, Comparison;
    if |order| <= MAX_SAFE_INTEGER {
      forall i, j | 0 <= i < j < |out| ensures InPromisedOrder(g, out[i], out[j], order, locale) {
        PromisedOrder(g, out[i], out[j], order, locale);
      }
    }
  }

  /** Each package once, and after its dependencies. */
  ghost predicate DependencySafe(out: seq<Package>) {
    DistinctNames(out) && forall i :: 0 <= i < |out| ==> DepsBefore(out, i)
  }

  /** After `k` rounds: only depths below `k` are placed, in the promised order. */
  ghost predicate Layered(g: Graph<string>, out: seq<Package>, k: nat, compare: Compare) {
    && (forall p :: p in out ==> exists n: nat :: n < k && LongestChain(g, p.short, n))
    && (forall i, j :: 0 <= i < j < |out| ==> InOrder(g, out[i], out[j], compare))
  }

  lemma LayeredOrder(g: Graph<string>, out: seq<Package>, k: nat, compare: Compare)
    requires Layered(g, out, k, compare)
    ensures forall i, j :: 0 <= i < j < |out| ==> InOrder(g, out[i], out[j], compare)
  {
  }

  lemma RoundLayered(g: Graph<string>, out: seq<Package>, ready: seq<Package>, k: nat, compare: Compare)
    requires Layered(g, out, k, compare) && SortedBy(ready, compare)
    requires forall p :: p in ready ==> LongestChain(g, p.short, k)
    ensures Layered(g, out + ready, k + 1, compare)
  {
    hide LongestChain;
    var all := out + ready;
    forall i, j | 0 <= i < j < |all| ensures InOrder(g, all[i], all[j], compare) {
      if j >= |out| {
        assert all[j] in ready;
        if i < |out| {
          assert all[i] in out;
          var n: nat :| n < k && LongestChain(g, all[i].short, n);
          assert LongestChain(g, all[j].short, k);
        } else {
          assert all[i] in ready && all[i] == ready[i - |out|] && all[j] == ready[j - |out|];
          assert LongestChain(g, all[i].short, k) && LongestChain(g, all[j].short, k);
        }
      }
    }
    forall p | p in all ensures exists n: nat :: n < k + 1 && LongestChain(g, p.short, n) {
      if p in out {
        var n: nat :| n < k && LongestChain(g, p.short, n);
      }
    }
  }

  lemma RoundSafe(out: seq<Package>, ready: seq<Package>)
    requires DependencySafe(out) && DistinctNames(ready)
    requires forall p :: p in ready ==> p.short !in Names(out)
    requires forall p, dep :: p in ready && dep in p.deps ==> dep in Names(out)
    ensures DependencySafe(out + ready)
  {
    var all := out + ready;
    forall i | 0 <= i < |all| ensures DepsBefore(all, i) {
      if i < |out| {
        assert DepsBefore(out, i) && all[..i] == out[..i];
      } else {
        assert all[i] in ready;
        forall p | p in out ensures p in all[..i] {
          var m :| 0 <= m < |out| && out[m] == p;
          assert all[..i][m] == p;
        }
        forall dep | dep in all[i].deps ensures dep in Names(all[..i]) {
          var p := all[i];
          assert p in ready && dep in p.deps && dep in Names(out);
          var q :| q in out && q.short == dep;
        }
      }
    }
    forall i, j | 0 <= i < j < |all| ensures all[i].short != all[j].short {
      if i < |out| && j >= |out| {
        assert all[i] in out && all[j] in ready;
      }
    }
  }

  /** Every remaining package still has a dependency chain of `k` edges. */
  ghost predicate Deep(g: Graph<string>, remaining: seq<Package>, k: nat) {
    Closed(g) ==> forall p :: p in remaining ==> HasChain(g, p.short, k)
  }

  /** The set-up shared by the loops: what is placed, what remains, and how far the rounds have come. */
  ghost predicate Progressed(
    entries: seq<Package>, remaining: seq<Package>, placed: set<string>, out: seq<Package>, k: nat, compare: Compare)
  {
    && DistinctNames(remaining) && placed == Names(out)
    && (forall p :: p in remaining <==> p in entries && p.short !in placed)
    && (forall p :: p in out ==> p in entries)
    && DependencySafe(out)
    && (Closed(DepsGraph(entries)) ==> Layered(DepsGraph(entries), out, k, compare))
  }

  /** A placeable package at round `k` has depth exactly `k`. */
  lemma ReadyDepth(
    entries: seq<Package>, remaining: seq<Package>, placed: set<string>, out: seq<Package>, k: nat,
    compare: Compare, p: Package)
    requires DistinctNames(entries) && Closed(DepsGraph(entries))
    requires Progressed(entries, remaining, placed, out, k, compare) && Deep(DepsGraph(entries), remaining, k)
    requires p in remaining && forall dep :: dep in p.deps ==> dep in placed
    ensures LongestChain(DepsGraph(entries), p.short, k)
  {
    var g := DepsGraph(entries);
    GraphNames(entries);
    forall dep | Edge(g, p.short, dep) ensures exists m: nat :: m < k && LongestChain(g, dep, m) {
      var q :| q in out && q.short == dep;
    }
    ChainsBounded(g, p.short, k);
  }

  lemma DeepStep(
    entries: seq<Package>, remaining: seq<Package>, placed: set<string>, rest: seq<Package>, k: nat)
    requires DistinctNames(entries) && Deep(DepsGraph(entries), remaining, k)
    requires forall p :: p in remaining <==> p in entries && p.short !in placed
    requires forall p :: p in rest ==> p in remaining && !(forall dep :: dep in p.deps ==> dep in placed)
    ensures Deep(DepsGraph(entries), rest, k + 1)
  {
    var g := DepsGraph(entries);
    GraphNames(entries);
    if Closed(g) {
      forall p | p in rest ensures HasChain(g, p.short, k + 1) {
        var dep :| dep in p.deps && dep !in placed;
        assert Edge(g, p.short, dep);
        var q :| q in entries && q.short == dep;
        assert q in remaining;
        ChainFromDependency(g, p.short, dep, k);
      }
    }
  }

  /** One round: what became ready is placed and everything else has moved one deeper. */
  lemma RoundDone(
    entries: seq<Package>, remaining: seq<Package>, placed: set<string>, out: seq<Package>,
    ready: seq<Package>, rest: seq<Package>, k: nat, compare: Compare)
    requires DistinctNames(entries) && SortedBy(ready, compare) && DistinctNames(ready) && DistinctNames(rest)
    requires Progressed(entries, remaining, placed, out, k, compare) && Deep(DepsGraph(entries), remaining, k)
    requires ready != [] && forall p :: p in ready <==> p in remaining && forall dep :: dep in p.deps ==> dep in placed
    requires forall p :: p in rest <==> p in remaining && p.short !in Names(ready)
    ensures Progressed(entries, rest, placed + Names(ready), out + ready, k + 1, compare)
    ensures Deep(DepsGraph(entries), rest, k + 1)
    ensures Names(rest) < Names(remaining)
  {
    hide LongestChain, HasChain, Layered, DependencySafe, DistinctNames, Closed, SortedBy;
    RoundSafe(out, ready);
    if Closed(DepsGraph(entries)) {
      forall p | p in ready ensures LongestChain(DepsGraph(entries), p.short, k) {
        ReadyDepth(entries, remaining, placed, out, k, compare, p);
      }
      RoundLayered(DepsGraph(entries), out, ready, k, compare);
    }
    assert ready[0] in ready && ready[0].short in Names(remaining) && ready[0].short !in Names(rest);
    DeepStep(entries, remaining, placed, rest, k);
    assert Names(out + ready) == Names(out) + Names(ready);
  }

  lemma NamesStep(ready: seq<Package>, j: nat)
    requires j < |ready|
    ensures Names(ready[..j + 1]) == Names(ready[..j]) + {ready[j].short}
  {
    assert ready[..j + 1] == ready[..j] + [ready[j]];
  }

  /** When nothing is placeable, a dependency is unknown or the remaining packages contain a cycle. */
  lemma StuckMeansBroken(entries: seq<Package>, remaining: seq<Package>, placed: set<string>)
    requires DistinctNames(entries) && remaining != []
    requires forall p :: p in remaining <==> p in entries && p.short !in placed
    requires forall p :: p in remaining ==> !(forall dep :: dep in p.deps ==> dep in placed)
    ensures !(Closed(DepsGraph(entries)) && Acyclic(DepsGraph(entries)))
  {
    var g := DepsGraph(entries);
    GraphNames(entries);
    if Closed(g) {
      var stuck := Names(remaining);
      assert remaining[0].short in stuck;
      forall n | n in stuck ensures StaysIn(g, stuck, n) {
        var p :| p in remaining && p.short == n;
        var dep :| dep in p.deps && dep !in placed;
        assert Edge(g, n, dep);
        var q :| q in entries && q.short == dep;
        assert q in remaining;
      }
      var cycle := NoSinkHasCycle(g, stuck);
    }
  }

  /** What the error names: packages whose placement waits for each other or for an unknown dependency. */
  ghost predicate StuckOn(g: Graph<string>, names: seq<string>) {
    names != [] && forall n :: n in names ==> n in g && Waits(g, names, n)
  }

  ghost predicate Waits(g: Graph<string>, names: seq<string>, n: string) {
    exists dep :: Edge(g, n, dep) && (dep in names || dep !in g)
  }

  function NamesOf(s: seq<Package>): (names: seq<string>)
    ensures |names| == |s| && forall i :: 0 <= i < |s| ==> names[i] == s[i].short
  {
    seq(|s|, i requires 0 <= i < |s| => s[i].short)
  }

  lemma StuckNames(entries: seq<Package>, remaining: seq<Package>, placed: set<string>)
    requires DistinctNames(entries) && remaining != []
    requires forall p :: p in remaining <==> p in entries && p.short !in placed
    requires forall p :: p in remaining ==> !(forall dep :: dep in p.deps ==> dep in placed)
    ensures StuckOn(DepsGraph(entries), NamesOf(remaining))
  {
    var g, names := DepsGraph(entries), NamesOf(remaining);
    GraphNames(entries);
    forall n | n in names ensures n in g && Waits(g, names, n) {
      var i :| 0 <= i < |names| && names[i] == n;
      var p := remaining[i];
      assert p in remaining;
      var dep :| dep in p.deps && dep !in placed;
      assert Edge(g, n, dep);
      if dep in g {
        var q :| q in entries && q.short == dep;
        var j :| 0 <= j < |remaining| && remaining[j] == q;
        assert names[j] == dep;
      }
    }
  }

  lemma OrderedMeansSound(entries: seq<Package>, out: seq<Package>)
    requires DistinctNames(entries) && DependencySafe(out)
    requires forall p :: p in out <==> p in entries
    ensures Closed(DepsGraph(entries)) && Acyclic(DepsGraph(entries))
  {
    var g := DepsGraph(entries);
    GraphNames(entries);
    var order := seq(|out|, i requires 0 <= i < |out| => out[i].short);
    forall i, b | 0 <= i < |order| && Edge(g, order[i], b) ensures b in order[..i] {
      assert out[i] in out && DepsBefore(out, i);
      var q :| q in out[..i] && q.short == b;
      var j :| 0 <= j < i && out[j] == q;
      assert order[..i][j] == b;
    }
    forall a | a in g ensures a in order {
      var p :| p in entries && p.short == a;
      var j :| 0 <= j < |out| && out[j] == p;
      assert order[j] == a;
    }
    OrderedIsAcyclic(g, order);
    forall a, b | Edge(g, a, b) ensures b in g {
      var j :| 0 <= j < |order| && order[j] == a;
      assert b in order[..j];
      var m :| 0 <= m < j && order[m] == b;
      assert out[m] in out;
    }
  }

  lemma ProgressedFacts(
    entries: seq<Package>, remaining: seq<Package>, placed: set<string>, out: seq<Package>, k: nat, compare: Compare)
    requires DistinctNames(entries) && Progressed(entries, remaining, placed, out, k, compare)
    ensures DistinctNames(remaining) && placed == Names(out) && DependencySafe(out)
    ensures forall p :: p in remaining <==> p in entries && p.short !in placed
    ensures remaining == [] ==> forall p :: p in out <==> p in entries
    ensures Closed(DepsGraph(entries)) ==> Layered(DepsGraph(entries), out, k, compare)
  {
    if remaining == [] {
      forall p | p in entries ensures p in out {
        assert p !in remaining;
        var q :| q in out && q.short == p.short;
      }
    }
  }

  lemma NothingPlaced(entries: seq<Package>, compare: Compare)
    requires DistinctNames(entries)
    ensures Progressed(entries, entries, {}, [], 0, compare) && Deep(DepsGraph(entries), entries, 0)
  {
    forall p | p in entries ensures HasChain(DepsGraph(entries), p.short, 0) {
      assert Path(DepsGraph(entries), [p.short]);
    }
  }

  lemma SortDistinct(ready: seq<Package>, compare: Compare)
    requires Comparison(compare) && DistinctNames(ready)
    ensures DistinctNames(Sort(ready, compare)) && SortedBy(Sort(ready, compare), compare)
    ensures |Sort(ready, compare)| == |ready| && forall p :: p in Sort(ready, compare) <==> p in ready
  {
    var sorted := Sort(ready, compare);
    SortCorrect(ready, compare);
    SameMultiset(ready, sorted);
    forall i, j | 0 <= i < j < |sorted| ensures sorted[i].short != sorted[j].short {
      assert sorted[i] in ready && sorted[j] in ready && sorted[i] != sorted[j];
    }
  }

  /**
   * `topoSort`. It succeeds exactly when every dependency is a known package and the graph has no
   * cycle; then it returns every package once, after its dependencies, by depth and then by
   * `comparePackages`. The error carries the names still remaining.
   */
  method TopoSort(packages: seq<Package>, order: seq<string>, locale: (string, string) -> int)
    returns (r: Result<seq<Package>, seq<string>>)
    requires Comparison(locale)
    ensures r.Ok? <==> Closed(DepsGraph(Entries(packages))) && Acyclic(DepsGraph(Entries(packages)))
    ensures r.Ok? ==> DependencySafe(r.value) && forall p :: p in r.value <==> p in Entries(packages)
    ensures r.Ok? ==> forall i, j :: 0 <= i < j < |r.value| ==>
      InOrder(DepsGraph(Entries(packages)), r.value[i], r.value[j], Comparing(order, locale))
    ensures r.Ok? && |order| <= MAX_SAFE_INTEGER ==> forall i, j :: 0 <= i < j < |r.value| ==>
      InPromisedOrder(DepsGraph(Entries(packages)), r.value[i], r.value[j], order, locale)
    ensures r.Ok? ==> forall p :: p in r.value <==> LastOfName(packages, p)
    ensures r.Err? ==> StuckOn(DepsGraph(Entries(packages)), r.error)
  {
    hide *;
    var compare := Comparing(order, locale);
    ComparisonOfPackages(order, locale);
    var entries := Entries(packages);
    ghost var g := DepsGraph(entries);
    EntriesDistinct(packages);
    var remaining := entries;
    var placed: set<string> := {};
    var out: seq<Package> := [];
    ghost var k: nat := 0;
    NothingPlaced(entries, compare);
    while |remaining| > 0
      invariant Progressed(entries, remaining, placed, out, k, compare) && Deep(g, remaining, k)
      decreases Names(remaining)
    {
      ProgressedFacts(entries, remaining, placed, out, k, compare);
      var ready := Sort(Placeable(remaining, placed), compare);
      PlaceableDistinct(remaining, placed);
      SortDistinct(Placeable(remaining, placed), compare);
      if |ready| == 0 {
        StuckMeansBroken(entries, remaining, placed);
        StuckNames(entries, remaining, placed);
        return Err(NamesOf(remaining));
      }
      ghost var placed0, remaining0, out0 := placed, remaining, out;
      for j := 0 to |ready|
        invariant DistinctNames(remaining)
        invariant out == out0 + ready[..j] && placed == placed0 + Names(ready[..j])
        invariant forall p :: p in remaining <==> p in remaining0 && p.short !in Names(ready[..j])
      {
        out := out + [ready[j]];
        placed := placed + {ready[j].short};
        WithoutDistinct(remaining, ready[j].short);
        remaining := Without(remaining, ready[j].short);
        NamesStep(ready, j);
      }
      assert ready[..|ready|] == ready;
      RoundDone(entries, remaining0, placed0, out0, ready, remaining, k, compare);
      k := k + 1;
    }
    ProgressedFacts(entries, remaining, placed, out, k, compare);
    OrderedMeansSound(entries, out);
    LayeredOrder(g, out, k, compare);
    AllPromised(g, out, order, locale);
    EntriesMean(packages);
    return Ok(out);
  }
}
