/** Directed graphs given by successor lists: one notion of walk and cycle for all the graph checks. */
module Graph {
  import opened Common

  /** A node without an entry has no successors of its own (an unknown name). */
  type Graph<!N> = map<N, seq<N>>

  ghost predicate Edge<N>(g: Graph<N>, a: N, b: N) {
    a in g && b in g[a]
  }

  /** A nonempty walk: consecutive entries are edges. */
  ghost predicate Path<N>(g: Graph<N>, p: seq<N>) {
    |p| >= 1 && forall i :: 0 <= i < |p| - 1 ==> Edge(g, p[i], p[i + 1])
  }

  ghost predicate PathBetween<N>(g: Graph<N>, p: seq<N>, a: N, b: N) {
    Path(g, p) && p[0] == a && p[|p| - 1] == b
  }

  /** A walk of at least one edge that ends where it starts. */
  ghost predicate Cycle<N>(g: Graph<N>, p: seq<N>) {
    |p| >= 2 && Path(g, p) && p[0] == p[|p| - 1]
  }

  ghost predicate Acyclic<N(!new)>(g: Graph<N>) {
    forall p: seq<N> :: !Cycle(g, p)
  }

  /** Every successor has an entry of its own. */
  ghost predicate Closed<N(!new)>(g: Graph<N>) {
    forall a, b :: Edge(g, a, b) ==> b in g
  }

  ghost predicate Reachable<N(!new)>(g: Graph<N>, a: N, b: N) {
    exists p :: PathBetween(g, p, a, b)
  }

  lemma ReachSelf<N(!new)>(g: Graph<N>, a: N)
    ensures Reachable(g, a, a)
  {
    assert PathBetween(g, [a], a, a);
  }

  lemma ReachStep<N(!new)>(g: Graph<N>, a: N, b: N, c: N)
    requires Reachable(g, a, b) && Edge(g, b, c)
    ensures Reachable(g, a, c)
  {
    var p :| PathBetween(g, p, a, b);
    assert PathBetween(g, p + [c], a, c);
  }

  lemma ReachCons<N(!new)>(g: Graph<N>, a: N, b: N, c: N)
    requires Edge(g, a, b) && Reachable(g, b, c)
    ensures Reachable(g, a, c)
  {
    var p :| PathBetween(g, p, b, c);
    assert PathBetween(g, [a] + p, a, c);
  }

  /** A cycle can be read from its second node. */
  lemma Rotate<N(!new)>(g: Graph<N>, p: seq<N>)
    requires Cycle(g, p)
    ensures Cycle(g, p[1..] + [p[1]])
  {
    var q := p[1..] + [p[1]];
    forall i | 0 <= i < |q| - 1 ensures Edge(g, q[i], q[i + 1]) {
      if i < |p| - 2 {
        assert q[i] == p[i + 1] && q[i + 1] == p[i + 2];
      } else {
        assert q[i] == p[|p| - 1] == p[0];
      }
    }
  }

  ghost predicate StaysIn<N(!new)>(g: Graph<N>, s: set<N>, a: N) {
    exists b :: b in s && Edge(g, a, b)
  }

  /** A set of nodes that each have a successor in the set contains a walk of any length. */
  lemma {:induction false} WalkInside<N(!new)>(g: Graph<N>, s: set<N>, n: nat) returns (p: seq<N>)
    requires s != {}
    requires forall a :: a in s ==> StaysIn(g, s, a)
    ensures |p| == n + 1 && Path(g, p)
    ensures forall x :: x in p ==> x in s
  {
    if n == 0 {
      var a :| a in s;
      p := [a];
    } else {
      var q := WalkInside(g, s, n - 1);
      assert q[|q| - 1] in q && StaysIn(g, s, q[|q| - 1]);
      var b :| b in s && Edge(g, q[|q| - 1], b);
      p := q + [b];
    }
  }

  /** ... and therefore contains a cycle. */
  lemma NoSinkHasCycle<N(!new)>(g: Graph<N>, s: set<N>) returns (c: seq<N>)
    requires s != {}
    requires forall a :: a in s ==> StaysIn(g, s, a)
    ensures Cycle(g, c)
    ensures forall x :: x in c ==> x in s
  {
    var p := WalkInside(g, s, |s|);
    if Distinct(p) {
      DistinctBound(p, s);
    }
    var i, j :| 0 <= i < j < |p| && p[i] == p[j];
    c := p[i..j + 1];
    forall k | 0 <= k < |c| - 1 ensures Edge(g, c[k], c[k + 1]) {
      assert c[k] == p[i + k] && c[k + 1] == p[i + k + 1];
    }
  }

  /** An order in which every successor comes first rules out cycles. */
  lemma {:induction false} OrderedIsAcyclic<N(!new)>(g: Graph<N>, order: seq<N>)
    requires forall a :: a in g ==> a in order
    requires Distinct(order)
    requires forall i, b :: 0 <= i < |order| && Edge(g, order[i], b) ==> b in order[..i]
    ensures Acyclic(g)
  {
    forall p: seq<N> ensures !Cycle(g, p) {
      if Cycle(g, p) {
        assert Edge(g, p[0], p[1]);
        var i :| 0 <= i < |order| && order[i] == p[0];
        OrderDescends(g, order, p, i, |p| - 1);
      }
    }
  }

  lemma {:induction false} OrderDescends<N(!new)>(g: Graph<N>, order: seq<N>, p: seq<N>, i: nat, k: nat)
    requires Distinct(order) && Path(g, p) && 0 < k < |p| && i < |order| && order[i] == p[0]
    requires forall i, b :: 0 <= i < |order| && Edge(g, order[i], b) ==> b in order[..i]
    ensures p[k] in order[..i] && p[k] != p[0]
  {
    if k == 1 {
      assert Edge(g, order[i], p[1]);
    } else {
      OrderDescends(g, order, p, i, k - 1);
      var j :| 0 <= j < i && order[j] == p[k - 1];
      assert Edge(g, order[j], p[k]);
    }
  }
}
