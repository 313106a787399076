/** Gates, their dependency graph, and its validation (scripts/run-gates.ts). */
module GateGraph {
  import opened Common
  import opened Graph

  /** The scheduling part of a gate; an absent `needs` list is the empty one. */
  datatype Gate = Gate(id: string, needs: seq<string>)

  datatype GraphError =
    | NoGates
    | DuplicateGate(id: string)
    | UnknownNeed(id: string, need: string)
    | CyclicNeeds(cycle: seq<string>)

  /** The `byId` lookup table: a later gate replaces an earlier one of the same id. */
  function NeedsGraph(gates: seq<Gate>): Graph<string> {
    if gates == [] then map[]
    else
      var last := gates[|gates| - 1];
      NeedsGraph(gates[..|gates| - 1])[last.id := last.needs]
  }

  predicate DistinctIds(gates: seq<Gate>) {
    forall i, j :: 0 <= i < j < |gates| ==> gates[i].id != gates[j].id
  }

  predicate KnownNeeds(gates: seq<Gate>) {
    forall i :: 0 <= i < |gates| ==> KnownNeedsOf(gates, gates[i])
  }

  predicate KnownNeedsOf(gates: seq<Gate>, gate: Gate) {
    forall need :: need in gate.needs ==> need in NeedsGraph(gates)
  }

  /** What the scheduler may rely on once validation has passed. */
  ghost predicate ValidGates(gates: seq<Gate>) {
    gates != [] && DistinctIds(gates) && KnownNeeds(gates) && Acyclic(NeedsGraph(gates))
  }

  /** The table's keys are the gates' ids, and the last gate of an id provides the needs. */
  lemma {:induction false} GraphIds(gates: seq<Gate>)
    ensures forall i :: 0 <= i < |gates| ==> gates[i].id in NeedsGraph(gates)
    ensures forall id :: id in NeedsGraph(gates) ==> exists i :: 0 <= i < |gates| && gates[i].id == id
    ensures DistinctIds(gates) ==> forall i :: 0 <= i < |gates| ==> NeedsGraph(gates)[gates[i].id] == gates[i].needs
  {
    if gates != [] {
      GraphIds(gates[..|gates| - 1]);
      forall id | id in NeedsGraph(gates) ensures exists i :: 0 <= i < |gates| && gates[i].id == id {
        if id == gates[|gates| - 1].id {
        } else {
          var i :| 0 <= i < |gates| - 1 && gates[..|gates| - 1][i].id == id;
          assert gates[i].id == id;
        }
      }
    }
  }

  /** The active nodes are the current walk from the root, each with its position. */
  ghost predicate OnStack(graph: Graph<string>, path: seq<string>, active: map<string, nat>) {
    && (forall i :: 0 <= i < |path| ==> path[i] in active && active[path[i]] == i)
    && (forall id :: id in active ==> id in graph && id in path)
    && (forall i :: 0 <= i < |path| - 1 ==> Edge(graph, path[i], path[i + 1]))
  }

  /** Completed nodes are closed under known successors and lie on no cycle. */
  ghost predicate Explored(graph: Graph<string>, complete: set<string>) {
    && (forall a, b :: a in complete && Edge(graph, a, b) && b in graph ==> b in complete)
    && (forall p: seq<string> :: Cycle(graph, p) ==> p[0] !in complete)
  }

  lemma PushStack(graph: Graph<string>, path: seq<string>, active: map<string, nat>, id: string)
    requires OnStack(graph, path, active) && id in graph && id !in active
    requires path != [] ==> Edge(graph, path[|path| - 1], id)
    ensures OnStack(graph, path + [id], active[id := |path|])
    ensures active[id := |path|] - {id} == active && (path + [id])[..|path|] == path
    ensures graph.Keys - active[id := |path|].Keys < graph.Keys - active.Keys
  {
    assert id in graph.Keys - active.Keys;
  }

  /** An active node with an edge from the top of the stack closes a cycle. */
  lemma ClosesCycle(graph: Graph<string>, path: seq<string>, active: map<string, nat>, id: string)
    requires OnStack(graph, path, active) && id in active
    requires path != [] ==> Edge(graph, path[|path| - 1], id)
    ensures active[id] < |path| && Cycle(graph, path[active[id]..] + [id])
  {
    var n := active[id];
    assert n < |path|;
    var cycle := path[n..] + [id];
    forall i | 0 <= i < |cycle| - 1 ensures Edge(graph, cycle[i], cycle[i + 1]) {
      assert cycle[i] == path[n + i];
    }
  }

  lemma CycleNodes(graph: Graph<string>, p: seq<string>)
    requires Cycle(graph, p)
    ensures p[0] in graph && p[1] in graph && Edge(graph, p[0], p[1])
  {
    assert Edge(graph, p[0], p[1]);
    if |p| > 2 {
      assert Edge(graph, p[1], p[2]);
    }
  }

  lemma CompletingIsSafe(graph: Graph<string>, complete: set<string>, id: string)
    requires Explored(graph, complete) && id in graph
    requires forall b :: b in graph[id] && b in graph ==> b in complete
    ensures Explored(graph, complete + {id})
  {
    forall p: seq<string> | Cycle(graph, p) ensures p[0] !in complete + {id} {
      CycleNodes(graph, p);
      Rotate(graph, p);
      assert (p[1..] + [p[1]])[0] == p[1];
    }
  }

  lemma ExploredAll(graph: Graph<string>, complete: set<string>)
    requires Explored(graph, complete) && graph.Keys <= complete
    ensures Acyclic(graph)
  {
    forall p: seq<string> ensures Cycle(graph, p) ==> p[0] in graph {
      if Cycle(graph, p) {
        CycleNodes(graph, p);
      }
    }
  }

  /** The closure `visit` over `complete`, `active` and `path`. */
  class CycleFinder {
    const graph: Graph<string>
    var complete: set<string>
    var active: map<string, nat>
    var path: seq<string>

    constructor (graph: Graph<string>)
      ensures this.graph == graph && Valid() && path == [] && complete == {}
    {
      this.graph := graph;
      complete, active, path := {}, map[], [];
    }

    ghost predicate Valid()
      reads this
    {
      OnStack(graph, path, active) && Explored(graph, complete) && active.Keys !! complete
    }

    method Visit(id: string) returns (cycle: Option<seq<string>>)
      requires Valid()
      requires path != [] ==> Edge(graph, path[|path| - 1], id)
      modifies this
      ensures cycle.Some? ==> Cycle(graph, cycle.value)
      ensures cycle.None? ==> Valid() && path == old(path) && active == old(active)
      ensures cycle.None? ==> old(complete) <= complete && (id in graph ==> id in complete)
      decreases graph.Keys - active.Keys
    {
      hide Cycle, Explored, OnStack;
      if id in complete {
        return None;
      }
      if id in active {
        ClosesCycle(graph, path, active, id);
        return Some(path[active[id]..] + [id]);
      }
      if id !in graph {
        return None;
      }
      PushStack(graph, path, active, id);
      ghost var active0, path0 := active, path;
      active := active[id := |path|];
      path := path + [id];
      var needs := graph[id];
      for k := 0 to |needs|
        invariant Valid() && path == path0 + [id] && active == active0[id := |path0|]
        invariant old(complete) <= complete
        invariant forall j :: 0 <= j < k && needs[j] in graph ==> needs[j] in complete
      {
        assert Edge(graph, id, needs[k]);
        cycle := Visit(needs[k]);
        if cycle.Some? {
          return;
        }
      }
      path := path[..|path| - 1];
      active := active - {id};
      CompletingIsSafe(graph, complete, id);
      complete := complete + {id};
      return None;
    }
  }

  /** `findDependencyCycle`: sound, and complete on every gate list, valid or not. */
  method FindDependencyCycle(gates: seq<Gate>) returns (cycle: Option<seq<string>>)
    ensures cycle.None? <==> Acyclic(NeedsGraph(gates))
    ensures cycle.Some? ==> Cycle(NeedsGraph(gates), cycle.value)
  {
    GraphIds(gates);
    var finder := new CycleFinder(NeedsGraph(gates));
    for i := 0 to |gates|
      invariant finder.Valid() && finder.path == []
      invariant forall j :: 0 <= j < i ==> gates[j].id in finder.complete
    {
      cycle := finder.Visit(gates[i].id);
      if cycle.Some? {
        return;
      }
    }
    ExploredAll(NeedsGraph(gates), finder.complete);
    return None;
  }

  /** `validateGateGraph`: the first failing test decides the error, and the error names its evidence. */
  method ValidateGateGraph(gates: seq<Gate>) returns (r: Result<(), GraphError>)
    ensures r.Ok? <==> ValidGates(gates)
    ensures r.Err? && r.error.NoGates? ==> gates == []
    ensures r.Err? && r.error.DuplicateGate? ==>
      exists i, j :: 0 <= i < j < |gates| && gates[i].id == gates[j].id == r.error.id && DistinctIds(gates[..j])
    ensures r.Err? && r.error.UnknownNeed? ==>
      DistinctIds(gates) && r.error.need !in NeedsGraph(gates) &&
      exists i :: 0 <= i < |gates| && gates[i].id == r.error.id && r.error.need in gates[i].needs && KnownNeeds'(gates, i)
    ensures r.Err? && r.error.CyclicNeeds? ==>
      DistinctIds(gates) && KnownNeeds(gates) && Cycle(NeedsGraph(gates), r.error.cycle)
  {
    GraphIds(gates);
    if |gates| == 0 {
      return Err(NoGates);
    }
    hide Cycle, Acyclic;
    var ids: set<string> := {};
    for j := 0 to |gates|
      invariant DistinctIds(gates[..j])
      invariant forall id :: id in ids <==> exists i :: 0 <= i < j && gates[i].id == id
    {
      if gates[j].id in ids {
        return Err(DuplicateGate(gates[j].id));
      }
      ids := ids + {gates[j].id};
    }
    assert gates[..|gates|] == gates;
    for i := 0 to |gates|
      invariant KnownNeeds'(gates, i)
    {
      for k := 0 to |gates[i].needs|
        invariant forall j :: 0 <= j < k ==> gates[i].needs[j] in NeedsGraph(gates)
      {
        if gates[i].needs[k] !in ids {
          assert gates[i].needs[k] in gates[i].needs && gates[i].needs[k] !in NeedsGraph(gates);
          assert !KnownNeedsOf(gates, gates[i]);
          return Err(UnknownNeed(gates[i].id, gates[i].needs[k]));
        }
      }
    }
    var cycle := FindDependencyCycle(gates);
    if cycle.Some? {
      return Err(CyclicNeeds(cycle.value));
    }
    return Ok(());
  }

  /** The gates before position `n` need only known gates. */
  ghost predicate KnownNeeds'(gates: seq<Gate>, n: nat)
    requires n <= |gates|
  {
    forall i :: 0 <= i < n ==> KnownNeedsOf(gates, gates[i])
  }
}
