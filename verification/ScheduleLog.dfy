module ScheduleLog {
  // What the observer of scripts/run-gates.ts is told, read without the scheduler's tables: each entry is
  // explained by the entries before it.

  import opened GateGraph
  import opened Scheduler

  type Log = seq<(string, GateResult)>

  /** The log has an entry of that gate, with the status passed or with another one. */
  ghost predicate Has(log: Log, id: string, passed: bool) {
    exists e :: e in log && e.0 == id && (e.1.Executed? && e.1.report.status == Passed <==> passed)
  }

  /** `ids` are the needs at the positions `ix`: all those that the log has with another status than passed. */
  ghost predicate Picks(ix: seq<nat>, ids: seq<string>, needs: seq<string>, log: Log) {
    && |ix| == |ids|
    && (forall i :: 0 <= i < |ix| ==> ix[i] < |needs| && ids[i] == needs[ix[i]])
    && (forall i, j :: 0 <= i < j < |ix| ==> ix[i] < ix[j])
    && (forall k :: 0 <= k < |needs| ==> (k in ix <==> Has(log, needs[k], false)))
  }

  /** An executed gate ran after all its needs passed; a skipped one names, in order, all its needs that did not. */
  ghost predicate Accounted(g: Gate, execute: Gate -> Report, before: Log, result: GateResult) {
    match result
    case Executed(report) => report == execute(g) && forall need :: need in g.needs ==> Has(before, need, true)
    case SkippedFor(ids) => ids != [] && exists ix :: Picks(ix, ids, g.needs, before)
  }

  ghost predicate Explained(gates: seq<Gate>, execute: Gate -> Report, log: Log) {
    forall k :: 0 <= k < |log| ==> exists g :: g in gates && g.id == log[k].0 && Accounted(g, execute, log[..k], log[k].1)
  }

  /** The log has grown by skipped gates alone. */
  ghost predicate SkipsAdded(before: Log, after: Log) {
    before <= after && forall k :: |before| <= k < |after| ==> after[k].1.SkippedFor?
  }

  /** The log has of each settled gate its status, and of no other gate anything. */
  lemma TablesInLog(s: Sched, id: string)
    requires Recorded(s) && ObservedOnce(s)
    ensures Has(s.observed, id, true) <==> id in s.states && s.states[id] == Settled(Passed)
    ensures Has(s.observed, id, false) <==> Unsuccessful(id, s.states)
  {
    if id in s.results {
      assert (id, s.results[id]) in s.observed;
    }
  }

  lemma LastDep(needs: seq<string>, states: States)
    requires needs != []
    ensures var n := |needs| - 1;
      FailedDeps(needs, states) ==
        if Unsuccessful(needs[n], states) then FailedDeps(needs[..n], states) + [needs[n]] else FailedDeps(needs[..n], states)
  {
    hide Unsuccessful;
    var n := |needs| - 1;
    assert needs[..n] + [needs[n]] == needs && [needs[n]] + [] == [needs[n]];
    FailedDepsInOrder([needs[n]], [], states);
    hide FailedDeps;
    FailedDepsInOrder(needs[..n], [needs[n]], states);
    var front := FailedDeps(needs[..n], states);
    assert front + [] == front;
  }

  lemma {:induction false} FailedDepsPicked(needs: seq<string>, s: Sched) returns (ix: seq<nat>)
    requires Recorded(s) && ObservedOnce(s)
    ensures Picks(ix, FailedDeps(needs, s.states), needs, s.observed)
  {
    hide Recorded, ObservedOnce, Unsuccessful, Has;
    if needs == [] {
      ix := [];
    } else {
      hide FailedDeps, Picks;
      var n := |needs| - 1;
      var before := FailedDepsPicked(needs[..n], s);
      LastDep(needs, s.states);
      TablesInLog(s, needs[n]);
      ix := if Unsuccessful(needs[n], s.states) then before + [n] else before;
      PickedOneMore(before, ix, FailedDeps(needs[..n], s.states), FailedDeps(needs, s.states), needs, s.observed);
    }
  }

  lemma PickedOneMore(before: seq<nat>, ix: seq<nat>, front: seq<string>, ids: seq<string>, needs: seq<string>, log: Log)
    requires needs != [] && Picks(before, front, needs[..|needs| - 1], log)
    requires if Has(log, needs[|needs| - 1], false)
      then ix == before + [|needs| - 1] && ids == front + [needs[|needs| - 1]]
      else ix == before && ids == front
    ensures Picks(ix, ids, needs, log)
  {
    hide Has;
    var n := |needs| - 1;
    forall k | 0 <= k < |needs| ensures k in ix <==> Has(log, needs[k], false) {
      assert k < n ==> needs[..n][k] == needs[k];
      assert forall i :: 0 <= i < |before| ==> before[i] < n;
    }
  }

  lemma ExplainedMore(gates: seq<Gate>, execute: Gate -> Report, log: Log, g: Gate, result: GateResult)
    requires Explained(gates, execute, log) && g in gates && Accounted(g, execute, log, result)
    ensures Explained(gates, execute, log + [(g.id, result)])
  {
    hide Accounted;
    var more := log + [(g.id, result)];
    forall k | 0 <= k < |more|
      ensures exists h :: h in gates && h.id == more[k].0 && Accounted(h, execute, more[..k], more[k].1)
    {
      if k < |log| {
        assert more[k] == log[k] && more[..k] == log[..k];
      } else {
        assert more[..k] == log;
      }
    }
  }

  lemma SettleExplained(c: Config, s: Sched, k: nat)
    requires Inv(c, s) && k < |s.running| && Explained(c.gates, c.execute, s.observed)
    ensures Explained(c.gates, c.execute, Settle(c, s, k).observed)
  {
    var g := s.running[k];
    assert g in s.running && Justified(c, s, g);
    forall need | need in g.needs ensures Has(s.observed, need, true) {
      TablesInLog(s, need);
    }
    hide Has, Explained;
    ExplainedMore(c.gates, c.execute, s.observed, g, Executed(c.execute(g)));
  }

  lemma SkipExplained(c: Config, s: Sched, g: Gate)
    requires Inv(c, s) && g in c.gates && Blocked(g, s.states) && Explained(c.gates, c.execute, s.observed)
    ensures Explained(c.gates, c.execute, Skip(s, g).observed)
  {
    var ix := FailedDepsPicked(g.needs, s);
    FailedDepsMembers(g.needs, s.states);
    var ids := FailedDeps(g.needs, s.states);
    assert ids != [];
    hide Picks, Explained, Has;
    assert Accounted(g, c.execute, s.observed, SkippedFor(ids));
    ExplainedMore(c.gates, c.execute, s.observed, g, SkippedFor(ids));
  }

  /** Every run explains what it tells the observer. */
  lemma {:induction false} RunExplained(c: Config, run: seq<Sched>)
    requires DistinctIds(c.gates) && IsRun(c, run)
    ensures Explained(c.gates, c.execute, run[|run| - 1].observed)
  {
    if |run| > 1 {
      var front, s, t := run[..|run| - 1], run[|run| - 2], run[|run| - 1];
      assert IsRun(c, front) by {
        forall i | 0 <= i < |front| - 1 ensures Step(c, front[i], front[i + 1]) {
          assert Step(c, run[i], run[i + 1]);
        }
      }
      RunExplained(c, front);
      RunSafety(c, run);
      assert Step(c, run[|run| - 2], run[|run| - 2 + 1]) && Inv(c, s);
      StepExplained(c, s, t);
    }
  }

  lemma StepExplained(c: Config, s: Sched, t: Sched)
    requires Inv(c, s) && Step(c, s, t) && Explained(c.gates, c.execute, s.observed)
    ensures Explained(c.gates, c.execute, t.observed)
  {
    hide Inv, Explained, FirstReady, FirstBlocked;
    if StartStep(c, s, t) {
    } else if SettleStep(c, s, t) {
      var k :| 0 <= k < |s.running| && t == Settle(c, s, k);
      SettleExplained(c, s, k);
    } else {
      SkipExplained(c, s, FirstBlocked(c.gates, s.states).value);
    }
  }

  lemma ValidRunExplained(c: Config, run: seq<Sched>)
    requires ValidGates(c.gates) && IsRun(c, run)
    ensures Explained(c.gates, c.execute, run[|run| - 1].observed)
  {
    RunExplained(c, run);
  }
}
