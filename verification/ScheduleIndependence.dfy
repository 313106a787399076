/** Settle order and concurrency bound do not change the results of scripts/run-gates.ts. */
module ScheduleIndependence {
  import opened Graph
  import opened GateGraph
  import opened Scheduler

  type Statuses = map<string, Status>

  predicate AllPassed(needs: seq<string>, m: Statuses) {
    forall need :: need in needs ==> need in m && m[need] == Passed
  }

  predicate SolvedAt(g: Gate, execute: Gate -> Report, m: Statuses) {
    g.id in m && m[g.id] == if AllPassed(g.needs, m) then execute(g).status else Skipped
  }

  /** Each gate takes its own outcome if all its needs passed and is skipped otherwise. */
  ghost predicate Solves(gates: seq<Gate>, execute: Gate -> Report, m: Statuses) {
    m.Keys == NeedsGraph(gates).Keys && forall g :: g in gates ==> SolvedAt(g, execute, m)
  }

  /** If two tables disagree, some disagreeing gate has only agreeing needs. */
  lemma LeastDisagreement<T>(gates: seq<Gate>, m: map<string, T>, n: map<string, T>) returns (g: Gate)
    requires ValidGates(gates) && m.Keys == n.Keys == NeedsGraph(gates).Keys && m != n
    ensures g in gates && g.id in m && m[g.id] != n[g.id]
    ensures forall need :: need in g.needs ==> need in m && m[need] == n[need]
  {
    var graph := NeedsGraph(gates);
    var differ := set id | id in m && m[id] != n[id];
    GraphIds(gates);
    assert differ != {} by {
      var id :| id in m && m[id] != n[id];
      assert id in differ;
    }
    if forall a :: a in differ ==> StaysIn(graph, differ, a) {
      var cycle := NoSinkHasCycle(graph, differ);
    }
    var id :| id in differ && !StaysIn(graph, differ, id);
    var i :| 0 <= i < |gates| && gates[i].id == id;
    g := gates[i];
    forall need | need in g.needs ensures need in m && m[need] == n[need] {
      assert KnownNeedsOf(gates, g);
      assert Edge(graph, id, need);
      assert need !in differ;
    }
  }

  lemma UniqueStatuses(gates: seq<Gate>, execute: Gate -> Report, m: Statuses, n: Statuses)
    requires ValidGates(gates) && Solves(gates, execute, m) && Solves(gates, execute, n)
    ensures m == n
  {
    if m != n {
      var g := LeastDisagreement(gates, m, n);
      SolvedAlike(g, execute, m, n);
    }
  }

  lemma SolvedAlike(g: Gate, execute: Gate -> Report, m: Statuses, n: Statuses)
    requires forall need :: need in g.needs ==> need in m && need in n && m[need] == n[need]
    requires SolvedAt(g, execute, m) && SolvedAt(g, execute, n)
    ensures m[g.id] == n[g.id]
  {
    assert AllPassed(g.needs, m) <==> AllPassed(g.needs, n);
  }

  function FinalStatuses(s: Sched): Statuses {
    map id | id in s.results :: StatusOf(s.results[id])
  }

  lemma TerminalSolves(c: Config, s: Sched)
    requires ValidGates(c.gates) && Inv(c, s) && Terminal(c, s)
    ensures Solves(c.gates, c.execute, FinalStatuses(s))
  {
    TerminalIsComplete(c, s);
    forall g | g in c.gates ensures SolvedAt(g, c.execute, FinalStatuses(s)) {
      TerminalSolvesAt(c, s, g);
    }
  }

  lemma TerminalSolvesAt(c: Config, s: Sched, g: Gate)
    requires Recorded(s) && Justified(c, s, g) && g.id in s.results
    ensures SolvedAt(g, c.execute, FinalStatuses(s))
  {
    var m := FinalStatuses(s);
    if s.results[g.id].Executed? {
      forall need | need in g.needs ensures need in m && m[need] == Passed {
        assert s.states[need] == Settled(StatusOf(s.results[need]));
      }
    } else {
      var d := s.results[g.id].failedDeps[0];
      assert d in g.needs && Unsuccessful(d, s.states);
      assert s.states[d] == Settled(StatusOf(s.results[d]));
    }
  }

  // ---------------------------------------------------------------- confluence

  /** The sweep as a function of the table it starts from. */
  function Sweep(gates: seq<Gate>, states: States, results: Results): (r: (States, Results))
    decreases PendingIds(states)
  {
    match FirstBlocked(gates, states)
    case None => (states, results)
    case Some(g) =>
      var rest := states[g.id := Settled(Skipped)];
      assert PendingIds(rest) == PendingIds(states) - {g.id};
      Sweep(gates, rest, results[g.id := SkippedFor(FailedDeps(g.needs, states))])
  }

  ghost function PendingIds(states: States): set<string> {
    set id | id in states && states[id] == Pending
  }

  /** Once nothing runs and nothing is ready, the table before the sweep is determined. */
  lemma QuietIsUnique(c: Config, d: Config, s: Sched, t: Sched)
    requires ValidGates(c.gates) && c.gates == d.gates && c.execute == d.execute
    requires Inv(c, s) && Quiet(c, s) && NoSkips(s)
    requires Inv(d, t) && Quiet(d, t) && NoSkips(t)
    ensures s.states == t.states && s.results == t.results
  {
    InvKeys(c, s);
    InvKeys(d, t);
    hide Inv, Quiet, NoSkips, ValidGates;
    if s.states != t.states {
      var g := LeastDisagreement(c.gates, s.states, t.states);
      assert DependenciesPassed(g, s.states) <==> DependenciesPassed(g, t.states);
      QuietState(c, s, g);
      QuietState(d, t, g);
    }
    QuietResults(c, d, s, t);
  }

  lemma InvKeys(c: Config, s: Sched)
    requires Inv(c, s)
    ensures s.states.Keys == NeedsGraph(c.gates).Keys
  {
  }

  lemma QuietResults(c: Config, d: Config, s: Sched, t: Sched)
    requires ValidGates(c.gates) && c.gates == d.gates && c.execute == d.execute
    requires Inv(c, s) && NoSkips(s) && Inv(d, t) && NoSkips(t) && s.states == t.states
    ensures s.results == t.results
  {
    hide Slots, StartedOnce, ObservedOnce, Justified;
    forall id | id in s.results ensures id in t.results && s.results[id] == t.results[id] {
      assert id in t.results;
      ResultOf(c, s, id);
      ResultOf(d, t, id);
    }
    assert s.results.Keys == t.results.Keys;
  }

  lemma ResultOf(c: Config, s: Sched, id: string)
    requires DistinctIds(c.gates) && Inv(c, s) && NoSkips(s) && id in s.results
    ensures exists g :: g in c.gates && g.id == id && s.results[id] == Executed(c.execute(g))
  {
    GraphIds(c.gates);
    var i :| 0 <= i < |c.gates| && c.gates[i].id == id;
    assert c.gates[i] in c.gates && Justified(c, s, c.gates[i]);
  }

  lemma QuietState(c: Config, s: Sched, g: Gate)
    requires Inv(c, s) && Quiet(c, s) && NoSkips(s) && g in c.gates
    ensures g.id in s.states
    ensures s.states[g.id] == if DependenciesPassed(g, s.states) then Settled(c.execute(g).status) else Pending
  {
    assert Slots(c, s) && Recorded(s) && Justified(c, s, g);
    assert !Ready(g, s.states);
    assert s.states[g.id] != Running;
    if g.id in s.results {
      assert s.states[g.id] == Settled(StatusOf(s.results[g.id]));
    }
  }

  /** A quiet state with skips was reached by a step of the sweep. */
  lemma LastStepSweeps(c: Config, run: seq<Sched>)
    requires IsRun(c, run) && |run| > 1 && Inv(c, run[|run| - 2]) && !NoSkips(run[|run| - 1])
    ensures IsRun(c, run[..|run| - 1]) && Quiet(c, run[|run| - 2])
    ensures Sweep(c.gates, run[|run| - 2].states, run[|run| - 2].results)
         == Sweep(c.gates, run[|run| - 1].states, run[|run| - 1].results)
  {
    hide Inv, Step, Quiet, Sweep, NoSkips, Init;
    var previous, last := run[|run| - 2], run[|run| - 1];
    assert Step(c, run[|run| - 2], run[|run| - 2 + 1]);
    OnlySweepsSkip(c, previous, last);
    SweepStep(c, previous, last);
  }

  ghost predicate AllInv(c: Config, run: seq<Sched>) {
    forall i :: 0 <= i < |run| ==> Inv(c, run[i])
  }

  lemma {:induction false} SweepTrace(c: Config, run: seq<Sched>) returns (j: nat)
    requires IsRun(c, run) && AllInv(c, run) && Quiet(c, run[|run| - 1])
    ensures j < |run| && Inv(c, run[j]) && Quiet(c, run[j]) && NoSkips(run[j])
    ensures Sweep(c.gates, run[j].states, run[j].results)
         == Sweep(c.gates, run[|run| - 1].states, run[|run| - 1].results)
  {
    InitHasNoSkips(c);
    hide Inv, Step, Quiet, Sweep, NoSkips, Init;
    if NoSkips(run[|run| - 1]) {
      j := |run| - 1;
    } else {
      LastStepSweeps(c, run);
      j := SweepTrace(c, run[..|run| - 1]);
    }
  }

  /** Every quiet state of a run is a partial sweep of a quiet state of that run without skips. */
  lemma SweepOrigin(c: Config, run: seq<Sched>) returns (j: nat)
    requires ValidGates(c.gates) && IsRun(c, run) && Quiet(c, run[|run| - 1])
    ensures j < |run| && Inv(c, run[j]) && Quiet(c, run[j]) && NoSkips(run[j])
    ensures Sweep(c.gates, run[j].states, run[j].results)
         == Sweep(c.gates, run[|run| - 1].states, run[|run| - 1].results)
  {
    hide Inv, Step, Quiet, Sweep, NoSkips, Init, IsRun;
    RunSafety(c, run);
    j := SweepTrace(c, run);
  }

  lemma InitHasNoSkips(c: Config)
    ensures NoSkips(Init(c.gates))
  {
  }

  lemma SweepStep(c: Config, s: Sched, t: Sched)
    requires SkipStep(c, s, t)
    ensures Quiet(c, s) && Sweep(c.gates, s.states, s.results) == Sweep(c.gates, t.states, t.results)
  {
  }

  lemma OnlySweepsSkip(c: Config, s: Sched, t: Sched)
    requires Inv(c, s) && Step(c, s, t) && !NoSkips(t)
    ensures SkipStep(c, s, t)
  {
    assert Quiet(c, s) || NoSkips(s);
  }

  lemma TerminalIsSwept(c: Config, s: Sched)
    requires Inv(c, s) && Terminal(c, s)
    ensures Quiet(c, s) && Sweep(c.gates, s.states, s.results) == (s.states, s.results)
  {
  }

  /** Two finished runs that differ in settle order and in concurrency bound record the same results. */
  lemma ScheduleIndependent(c: Config, d: Config, run: seq<Sched>, other: seq<Sched>)
    requires ValidGates(c.gates) && c.gates == d.gates && c.execute == d.execute
    requires IsRun(c, run) && Terminal(c, run[|run| - 1])
    requires IsRun(d, other) && Terminal(d, other[|other| - 1])
    ensures run[|run| - 1].results == other[|other| - 1].results
    ensures Solves(c.gates, c.execute, FinalStatuses(run[|run| - 1]))
  {
    RunSafety(c, run);
    RunSafety(d, other);
    TerminalIsSwept(c, run[|run| - 1]);
    TerminalIsSwept(d, other[|other| - 1]);
    var i := SweepOrigin(c, run);
    var j := SweepOrigin(d, other);
    QuietIsUnique(c, d, run[i], other[j]);
    TerminalSolves(c, run[|run| - 1]);
  }
}
