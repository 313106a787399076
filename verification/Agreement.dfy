module Agreement {
  // The ordering of scripts/package-graph.ts and the cycle search of scripts/run-gates.ts, on the same graph.

  import opened Common
  import opened Graph
  import opened Sorting
  import Gates = GateGraph
  import Packages = PackageOrder

  function AsGates(entries: seq<Packages.Package>): (gates: seq<Gates.Gate>)
    ensures |gates| == |entries| && forall i :: 0 <= i < |gates| ==> gates[i] == Gates.Gate(entries[i].short, entries[i].deps)
  {
    seq(|entries|, i requires 0 <= i < |entries| => Gates.Gate(entries[i].short, entries[i].deps))
  }

  /** One table is filled from the front, the other from the back; with one entry per name they are equal. */
  lemma SameGraph(entries: seq<Packages.Package>)
    requires Packages.DistinctNames(entries)
    ensures Gates.NeedsGraph(AsGates(entries)) == Packages.DepsGraph(entries)
  {
    hide Gates.NeedsGraph, Packages.DepsGraph;
    var gates := AsGates(entries);
    var needs, deps := Gates.NeedsGraph(gates), Packages.DepsGraph(entries);
    Gates.GraphIds(gates);
    Packages.GraphNames(entries);
    forall n | n in needs ensures n in deps && needs[n] == deps[n] {
      var i :| 0 <= i < |gates| && gates[i].id == n;
      assert entries[i] in entries;
    }
    forall n | n in deps ensures n in needs {
      var p :| p in entries && p.short == n;
      var i :| 0 <= i < |entries| && entries[i] == p;
      assert gates[i].id == n;
    }
  }

  /** On packages whose dependencies are all known, the order exists exactly when the search finds no cycle. */
  method CrossCheck(packages: seq<Packages.Package>, order: seq<string>, locale: (string, string) -> int)
    returns (sorted: Result<seq<Packages.Package>, seq<string>>, cycle: Option<seq<string>>)
    requires Comparison(locale)
    ensures Closed(Packages.DepsGraph(Packages.Entries(packages))) ==> (sorted.Ok? <==> cycle.None?)
    ensures cycle.Some? ==> Cycle(Packages.DepsGraph(Packages.Entries(packages)), cycle.value) && sorted.Err?
  {
    var entries := Packages.Entries(packages);
    Packages.EntriesDistinct(packages);
    SameGraph(entries);
    sorted := Packages.TopoSort(packages, order, locale);
    cycle := Gates.FindDependencyCycle(AsGates(entries));
  }
}
