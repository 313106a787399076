/** The loop of `runGates` (scripts/run-gates.ts), proved to walk the scheduler's transition system. */
module GateRunner {
  import opened Common
  import opened GateGraph
  import opened ScheduleLog
  import opened Scheduler

  const MAX_SAFE_INTEGER: int := 0x1F_FFFF_FFFF_FFFF

  datatype RunError = InvalidGraph(error: GraphError) | InvalidConcurrency(maxActive: int)

  ghost predicate Finished(c: Config, run: seq<Sched>, results: seq<GateResult>, observed: seq<(string, GateResult)>) {
    && IsRun(c, run) && Terminal(c, run[|run| - 1])
    && observed == run[|run| - 1].observed
    && |results| == |c.gates|
    && forall i :: 0 <= i < |results| ==>
         c.gates[i].id in run[|run| - 1].results && results[i] == run[|run| - 1].results[c.gates[i].id]
  }

  /**
   * The local variables of one call, and the three things its outer loop does with them. `run`
   * collects the states passed through; `observed` collects the observer calls.
   */
  class Runner {
    const gates: seq<Gate>
    const maxActive: nat
    const execute: Gate -> Report
    var states: States
    var results: Results
    var running: seq<Gate>
    var observed: seq<(string, GateResult)>
    ghost var started: seq<string>
    ghost var run: seq<Sched>

    constructor (gates: seq<Gate>, maxActive: nat, execute: Gate -> Report)
      requires ValidGates(gates)
      ensures this.gates == gates && this.maxActive == maxActive && this.execute == execute && Valid()
      ensures Now() == Init(gates) && run == [Init(gates)]
    {
      this.gates, this.maxActive, this.execute := gates, maxActive, execute;
      states, results, running, observed := Init(gates).states, map[], [], [];
      started, run := [], [Init(gates)];
      new;
      InitInv(Setup());
    }

    ghost function Setup(): Config {
      Config(gates, maxActive, execute)
    }

    ghost function Now(): Sched
      reads this
    {
      Sched(states, results, running, started, observed)
    }

    ghost predicate Valid()
      reads this
    {
      ValidGates(gates) && IsRun(Setup(), run) && run[|run| - 1] == Now() && Inv(Setup(), Now())
    }

    /** Start ready gates in list order until every slot is taken or nothing is ready. */
    method StartReady() returns (madeProgress: bool)
      requires Valid()
      modifies this
      ensures Valid() && (|running| >= maxActive || FirstReady(gates, states).None?)
      ensures if madeProgress then Work(Now()) < old(Work(Now())) else Now() == old(Now())
    {
      hide Inv, ValidGates, Work, IsRun;
      madeProgress := false;
      while |running| < maxActive
        invariant Valid()
        invariant if madeProgress then Work(Now()) < old(Work(Now())) else Now() == old(Now())
        decreases Work(Now())
      {
        var ready := FirstReady(gates, states);
        if ready.None? {
          break;
        }
        ghost var s := Now();
        states := states[ready.value.id := Running];
        running := running + [ready.value];
        started := started + [ready.value.id];
        assert Step(Setup(), s, Now());
        Advance(Setup(), run, s, Now());
        run := run + [Now()];
        madeProgress := true;
      }
    }

    /** Wait for whichever running gate settles first: an arbitrary one. */
    method AwaitOne()
      requires Valid() && running != [] && (|running| >= maxActive || FirstReady(gates, states).None?)
      modifies this
      ensures Valid() && Work(Now()) < old(Work(Now()))
    {
      hide Inv, ValidGates, Work, IsRun;
      var k :| 0 <= k < |running|;
      ghost var s := Now();
      var gate := running[k];
      var result := Executed(execute(gate));
      running := running[..k] + running[k + 1..];
      states := states[gate.id := Settled(StatusOf(result))];
      results := results[gate.id := result];
      observed := observed + [(gate.id, result)];
      assert Now() == Settle(Setup(), s, k);
      assert SettleStep(Setup(), s, Now());
      Advance(Setup(), run, s, Now());
      run := run + [Now()];
    }

    /** Skip every gate left pending; a pending gate without a failed or skipped need cannot remain. */
    method SweepSkipped()
      requires Valid() && Quiet(Setup(), Now())
      modifies this
      ensures Valid() && Terminal(Setup(), Now()) && Explained(gates, execute, observed)
      ensures SkipsAdded(old(observed), observed)
    {
      hide Inv, ValidGates, Work, IsRun;
      while FirstPending(gates, states).Some?
        invariant Valid() && Quiet(Setup(), Now()) && SkipsAdded(old(observed), observed)
        decreases Work(Now())
      {
        ghost var s := Now();
        NeverStalls(Setup(), s);
        var gate := FirstBlocked(gates, states).value;
        var result := SkippedFor(FailedDeps(gate.needs, states));
        states := states[gate.id := Settled(Skipped)];
        results := results[gate.id := result];
        observed := observed + [(gate.id, result)];
        assert Step(Setup(), s, Now());
        Advance(Setup(), run, s, Now());
        SkipStaysQuiet(Setup(), s, Now());
        run := run + [Now()];
      }
      ValidRunExplained(Setup(), run);
    }
  }

  /** `runGates`: either a validation error before anything starts, or the results of a finished run. */
  method RunGates(gates: seq<Gate>, maxActive: int, execute: Gate -> Report)
    returns (r: Result<seq<GateResult>, RunError>, observed: seq<(string, GateResult)>, ghost run: seq<Sched>)
    ensures r.Ok? <==> ValidGates(gates) && 1 <= maxActive <= MAX_SAFE_INTEGER
    ensures r.Err? ==> observed == [] && (r.error.InvalidGraph? <==> !ValidGates(gates))
    ensures r.Ok? ==> Finished(Config(gates, maxActive, execute), run, r.value, observed)
    ensures r.Ok? ==> Explained(gates, execute, observed)
    ensures r.Ok? ==> |r.value| == |observed| == |gates| && forall i :: 0 <= i < |gates| ==> (gates[i].id, r.value[i]) in observed
  {
    hide Inv, ValidGates, Work, IsRun;
    var validation := ValidateGateGraph(gates);
    if validation.Err? {
      return Err(InvalidGraph(validation.error)), [], [];
    }
    if maxActive < 1 || maxActive > MAX_SAFE_INTEGER {
      return Err(InvalidConcurrency(maxActive)), [], [];
    }
    var runner := new Runner(gates, maxActive, execute);
    while true
      invariant runner.Valid()
      decreases Work(runner.Now())
    {
      var madeProgress := runner.StartReady();
      if |runner.running| == 0 {
        runner.SweepSkipped();
        break;
      }
      if !madeProgress {
        runner.AwaitOne();
      }
    }
    TerminalIsComplete(runner.Setup(), runner.Now());
    var ordered: seq<GateResult> := [];
    for i := 0 to |gates|
      invariant |ordered| == i
      invariant forall j :: 0 <= j < i ==> gates[j].id in runner.results && ordered[j] == runner.results[gates[j].id]
    {
      assert gates[i] in gates;
      ordered := ordered + [runner.results[gates[i].id]];
    }
    return Ok(ordered), runner.observed, runner.run;
  }

  /** The first pending gate, if any: the sweep's loop condition. */
  function FirstPending(gates: seq<Gate>, states: States): (r: Option<Gate>)
    ensures r.Some? ==> r.value in gates && IsPending(r.value, states)
    ensures r.None? ==> forall g :: g in gates ==> !IsPending(g, states)
  {
    if gates == [] then None
    else if IsPending(gates[0], states) then Some(gates[0])
    else FirstPending(gates[1..], states)
  }

  lemma SkipStaysQuiet(c: Config, s: Sched, t: Sched)
    requires Inv(c, t) && SkipStep(c, s, t)
    ensures Quiet(c, t)
  {
    var g := FirstBlocked(c.gates, s.states).value;
    assert t.results[g.id].SkippedFor?;
    assert !NoSkips(t);
  }

  lemma Advance(c: Config, run: seq<Sched>, s: Sched, t: Sched)
    requires ValidGates(c.gates) && IsRun(c, run) && run[|run| - 1] == s && Inv(c, s) && Step(c, s, t)
    ensures IsRun(c, run + [t]) && Inv(c, t) && Work(t) < Work(s)
  {
    StepKeeps(c, s, t);
    StepWorks(c, s, t);
    var longer := run + [t];
    forall i | 0 <= i < |longer| - 1 ensures Step(c, longer[i], longer[i + 1]) {
      if i < |run| - 1 {
        assert longer[i] == run[i] && longer[i + 1] == run[i + 1];
      }
    }
  }
}
