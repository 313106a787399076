/** The bounded-concurrency gate runner of scripts/run-gates.ts as a transition system. */
module Scheduler {
  import opened Common
  import opened Graph
  import opened GateGraph

  // The runner starts ready gates, waits for an arbitrary running gate to settle, and finally sweeps the
  // gates that can no longer run. Outcomes are a function of the gate; settle order is free.

  datatype Status = Passed | Failed | Skipped

  datatype GateState = Pending | Running | Settled(status: Status)

  /** What the executor reports for one gate. */
  datatype Report = Report(status: Status, detail: string)

  /** A recorded result: an execution, or a sweep naming the needs that failed or were skipped. */
  datatype GateResult = Executed(report: Report) | SkippedFor(failedDeps: seq<string>)

  function StatusOf(r: GateResult): Status {
    if r.Executed? then r.report.status else Skipped
  }

  datatype Config = Config(gates: seq<Gate>, maxActive: nat, execute: Gate -> Report)

  type States = map<string, GateState>
  type Results = map<string, GateResult>

  /** The runner's variables, plus the logs of executor calls and observer calls. */
  datatype Sched = Sched(
    states: States, results: Results, running: seq<Gate>,
    started: seq<string>, observed: seq<(string, GateResult)>)

  predicate DependenciesPassed(gate: Gate, states: States) {
    forall need :: need in gate.needs ==> need in states && states[need] == Settled(Passed)
  }

  predicate IsPending(gate: Gate, states: States) {
    gate.id in states && states[gate.id] == Pending
  }

  predicate Ready(gate: Gate, states: States) {
    IsPending(gate, states) && DependenciesPassed(gate, states)
  }

  predicate Unsuccessful(id: string, states: States) {
    id in states && (states[id] == Settled(Failed) || states[id] == Settled(Skipped))
  }

  predicate Blocked(gate: Gate, states: States) {
    IsPending(gate, states) && exists need :: need in gate.needs && Unsuccessful(need, states)
  }

  /** The needs of a blocked gate that its skip message names, in declaration order. */
  function FailedDeps(needs: seq<string>, states: States): seq<string> {
    if needs == [] then []
    else (if Unsuccessful(needs[0], states) then [needs[0]] else []) + FailedDeps(needs[1..], states)
  }

  lemma {:induction false} FailedDepsMembers(needs: seq<string>, states: States)
    ensures forall id :: id in FailedDeps(needs, states) <==> id in needs && Unsuccessful(id, states)
  {
    if needs != [] {
      FailedDepsMembers(needs[1..], states);
    }
  }

  lemma Regroup(a: seq<string>, b: seq<string>, c: seq<string>)
    ensures a + (b + c) == (a + b) + c
  {
  }

  /** Order and repetitions are those of the declared needs. */
  lemma {:induction false} FailedDepsInOrder(a: seq<string>, b: seq<string>, states: States)
    ensures FailedDeps(a + b, states) == FailedDeps(a, states) + FailedDeps(b, states)
    ensures |a| == 1 ==> FailedDeps(a, states) == if Unsuccessful(a[0], states) then a else []
  {
    hide Unsuccessful;
    if a == [] {
      assert a + b == b;
    } else {
      assert (a + b)[0] == a[0] && (a + b)[1..] == a[1..] + b;
      var first := if Unsuccessful(a[0], states) then [a[0]] else [];
      assert FailedDeps(a, states) == first + FailedDeps(a[1..], states);
      assert FailedDeps(a + b, states) == first + FailedDeps(a[1..] + b, states);
      assert |a| == 1 ==> FailedDeps(a[1..], states) == [];
      hide FailedDeps;
      FailedDepsInOrder(a[1..], b, states);
      Regroup(first, FailedDeps(a[1..], states), FailedDeps(b, states));
    }
  }

  function FirstReady(gates: seq<Gate>, states: States): (r: Option<Gate>)
    ensures r.Some? ==> r.value in gates && Ready(r.value, states)
    ensures r.None? ==> forall g :: g in gates ==> !Ready(g, states)
  {
    if gates == [] then None
    else if Ready(gates[0], states) then Some(gates[0])
    else FirstReady(gates[1..], states)
  }

  lemma {:induction false} FirstReadyIsFirst(gates: seq<Gate>, states: States, i: nat)
    requires i < |gates| && Ready(gates[i], states) && forall j :: 0 <= j < i ==> !Ready(gates[j], states)
    ensures FirstReady(gates, states) == Some(gates[i])
  {
    if i > 0 {
      FirstReadyIsFirst(gates[1..], states, i - 1);
    }
  }

  function FirstBlocked(gates: seq<Gate>, states: States): (r: Option<Gate>)
    ensures r.Some? ==> r.value in gates && Blocked(r.value, states)
    ensures r.None? ==> forall g :: g in gates ==> !Blocked(g, states)
  {
    if gates == [] then None
    else if Blocked(gates[0], states) then Some(gates[0])
    else FirstBlocked(gates[1..], states)
  }

  lemma {:induction false} FirstBlockedIsFirst(gates: seq<Gate>, states: States, i: nat)
    requires i < |gates| && Blocked(gates[i], states) && forall j :: 0 <= j < i ==> !Blocked(gates[j], states)
    ensures FirstBlocked(gates, states) == Some(gates[i])
  {
    if i > 0 {
      FirstBlockedIsFirst(gates[1..], states, i - 1);
    }
  }

  // ---------------------------------------------------------------- transitions

  function Init(gates: seq<Gate>): Sched {
    Sched(map id | id in NeedsGraph(gates) :: Pending, map[], [], [], [])
  }

  /** Start the first ready gate in list order while a slot is free. */
  function Start(s: Sched, g: Gate): Sched {
    s.(states := s.states[g.id := Running], running := s.running + [g], started := s.started + [g.id])
  }

  function Settle(c: Config, s: Sched, k: nat): Sched
    requires k < |s.running|
  {
    var g := s.running[k];
    var result := Executed(c.execute(g));
    s.(states := s.states[g.id := Settled(StatusOf(result))],
       results := s.results[g.id := result],
       running := s.running[..k] + s.running[k + 1..],
       observed := s.observed + [(g.id, result)])
  }

  function Skip(s: Sched, g: Gate): Sched {
    var result := SkippedFor(FailedDeps(g.needs, s.states));
    s.(states := s.states[g.id := Settled(Skipped)],
       results := s.results[g.id := result],
       observed := s.observed + [(g.id, result)])
  }

  predicate StartStep(c: Config, s: Sched, t: Sched) {
    |s.running| < c.maxActive && var ready := FirstReady(c.gates, s.states); ready.Some? && t == Start(s, ready.value)
  }

  /** The runner waits only when every slot is taken or nothing is ready; any running gate may settle. */
  predicate SettleStep(c: Config, s: Sched, t: Sched) {
    && (|s.running| >= c.maxActive || FirstReady(c.gates, s.states).None?)
    && exists k :: 0 <= k < |s.running| && t == Settle(c, s, k)
  }

  predicate Quiet(c: Config, s: Sched) {
    s.running == [] && FirstReady(c.gates, s.states).None?
  }

  predicate SkipStep(c: Config, s: Sched, t: Sched) {
    Quiet(c, s) && var blocked := FirstBlocked(c.gates, s.states); blocked.Some? && t == Skip(s, blocked.value)
  }

  predicate Step(c: Config, s: Sched, t: Sched) {
    StartStep(c, s, t) || SettleStep(c, s, t) || SkipStep(c, s, t)
  }

  ghost predicate IsRun(c: Config, run: seq<Sched>) {
    && run != [] && run[0] == Init(c.gates)
    && forall i :: 0 <= i < |run| - 1 ==> Step(c, run[i], run[i + 1])
  }

  predicate Terminal(c: Config, s: Sched) {
    s.running == [] && forall g :: g in c.gates ==> !IsPending(g, s.states)
  }

  // ---------------------------------------------------------------- safety

  /** Every gate has a state and the running list is exactly the set of running gates. */
  ghost predicate Slots(c: Config, s: Sched) {
    && (forall g :: g in c.gates ==> g.id in s.states)
    && |s.running| <= c.maxActive
    && DistinctIds(s.running)
    && (forall g :: g in s.running ==> g in c.gates && g.id in s.states && s.states[g.id] == Running)
    && (forall id :: id in s.states && s.states[id] == Running ==> exists g :: g in s.running && g.id == id)
  }

  /** Results are recorded for exactly the settled gates, with the same status. */
  ghost predicate Recorded(s: Sched) {
    && (forall id :: id in s.results <==> id in s.states && s.states[id].Settled?)
    && (forall id :: id in s.results ==> s.states[id] == Settled(StatusOf(s.results[id])))
  }

  /** One executor call per gate that ran or runs. */
  ghost predicate StartedOnce(s: Sched) {
    && Distinct(s.started)
    && forall id :: id in s.started <==>
          id in s.states && (s.states[id] == Running || (id in s.results && s.results[id].Executed?))
  }

  /** One observer call per recorded result. */
  ghost predicate ObservedOnce(s: Sched) {
    && (forall i, j :: 0 <= i < j < |s.observed| ==> s.observed[i].0 != s.observed[j].0)
    && (forall e :: e in s.observed ==> e.0 in s.results && s.results[e.0] == e.1)
    && (forall id :: id in s.results ==> (id, s.results[id]) in s.observed)
  }

  /** A gate runs or has run only after all its needs passed; it is skipped only for a need that did not. */
  ghost predicate Justified(c: Config, s: Sched, g: Gate) {
    && (g.id in s.states && s.states[g.id] == Running ==> DependenciesPassed(g, s.states))
    && (g.id in s.results && s.results[g.id].Executed? ==>
          DependenciesPassed(g, s.states) && s.results[g.id].report == c.execute(g))
    && (g.id in s.results && s.results[g.id].SkippedFor? ==>
          s.results[g.id].failedDeps != [] &&
          forall d :: d in s.results[g.id].failedDeps ==> d in g.needs && Unsuccessful(d, s.states))
  }

  predicate NoSkips(s: Sched) {
    forall id :: id in s.results ==> s.results[id].Executed?
  }

  ghost predicate Inv(c: Config, s: Sched) {
    && s.states.Keys == NeedsGraph(c.gates).Keys
    && Slots(c, s) && Recorded(s) && StartedOnce(s) && ObservedOnce(s)
    && (forall g :: g in c.gates ==> Justified(c, s, g))
    && (!NoSkips(s) ==> Quiet(c, s))
  }

  lemma InitInv(c: Config)
    ensures Inv(c, Init(c.gates))
  {
    GraphIds(c.gates);
    var s := Init(c.gates);
    assert Slots(c, s) && Recorded(s) && NoSkips(s);
    hide *;
  }

  lemma SameGate(gates: seq<Gate>, g: Gate, h: Gate)
    requires DistinctIds(gates) && g in gates && h in gates && g.id == h.id
    ensures g == h
  {
  }

  lemma StartSlots(c: Config, s: Sched, g: Gate)
    requires Slots(c, s) && |s.running| < c.maxActive && g in c.gates && IsPending(g, s.states)
    ensures Slots(c, Start(s, g))
  {
    var t := Start(s, g);
    forall h | h in s.running ensures h.id != g.id {}
    assert DistinctIds(t.running) by {
      forall i | 0 <= i < |s.running| ensures s.running[i].id != g.id {
        assert s.running[i] in s.running;
      }
    }
    forall id | id in t.states && t.states[id] == Running ensures exists h :: h in t.running && h.id == id {
      if id == g.id {
        assert g in t.running;
      } else {
        var h :| h in s.running && h.id == id;
        assert h in t.running;
      }
    }
  }

  lemma StartJustified(c: Config, s: Sched, g: Gate, h: Gate)
    requires DistinctIds(c.gates) && g in c.gates && h in c.gates && Justified(c, s, h)
    requires Recorded(s) && Ready(g, s.states)
    ensures Justified(c, Start(s, g), h)
  {
    if h.id == g.id {
      SameGate(c.gates, g, h);
    }
  }

  lemma StartKeeps(c: Config, s: Sched, g: Gate)
    requires DistinctIds(c.gates) && Inv(c, s) && |s.running| < c.maxActive && g in c.gates && Ready(g, s.states)
    ensures Inv(c, Start(s, g))
  {
    StartSlots(c, s, g);
    forall h | h in c.gates ensures Justified(c, Start(s, g), h) {
      StartJustified(c, s, g, h);
    }
    StartLogs(s, g);
  }

  lemma StartLogs(s: Sched, g: Gate)
    requires Recorded(s) && StartedOnce(s) && ObservedOnce(s) && IsPending(g, s.states)
    ensures Recorded(Start(s, g)) && StartedOnce(Start(s, g)) && ObservedOnce(Start(s, g))
  {
    assert g.id !in s.started;
  }

  lemma SettleKeeps(c: Config, s: Sched, k: nat)
    requires DistinctIds(c.gates) && Inv(c, s) && k < |s.running|
    ensures Inv(c, Settle(c, s, k))
  {
    var t, g := Settle(c, s, k), s.running[k];
    assert g in s.running;
    SettleSlots(c, s, k);
    SettleLogs(c, s, k);
    forall h | h in c.gates ensures Justified(c, t, h) {
      SettleJustified(c, s, k, h);
    }
    hide Slots, Recorded, StartedOnce, ObservedOnce, Justified;
    assert t.states.Keys == s.states.Keys;
    assert NoSkips(s);
    assert NoSkips(t);
  }

  lemma SettleJustified(c: Config, s: Sched, k: nat, h: Gate)
    requires DistinctIds(c.gates) && k < |s.running| && s.running[k] in c.gates && h in c.gates
    requires Recorded(s) && Justified(c, s, s.running[k]) && Justified(c, s, h)
    requires s.running[k].id in s.states && s.states[s.running[k].id] == Running
    ensures Justified(c, Settle(c, s, k), h)
  {
    if h.id == s.running[k].id {
      SameGate(c.gates, s.running[k], h);
    }
  }

  lemma SettleLogs(c: Config, s: Sched, k: nat)
    requires k < |s.running| && Recorded(s) && StartedOnce(s) && ObservedOnce(s)
    requires s.running[k].id in s.states && s.states[s.running[k].id] == Running
    ensures Recorded(Settle(c, s, k)) && StartedOnce(Settle(c, s, k)) && ObservedOnce(Settle(c, s, k))
  {
    var g := s.running[k];
    ObserveOne(s, Settle(c, s, k), g.id, Executed(c.execute(g)));
  }

  lemma ObserveOne(s: Sched, t: Sched, id: string, result: GateResult)
    requires ObservedOnce(s) && id !in s.results
    requires t.results == s.results[id := result] && t.observed == s.observed + [(id, result)]
    ensures ObservedOnce(t)
  {
    forall i | 0 <= i < |s.observed| ensures s.observed[i].0 != id {
      assert s.observed[i] in s.observed;
    }
  }

  lemma SettleSlots(c: Config, s: Sched, k: nat)
    requires Slots(c, s) && k < |s.running|
    ensures Slots(c, Settle(c, s, k))
  {
    var t, gone := Settle(c, s, k), s.running[k];
    assert gone in s.running;
    DropOne(s.running, k);
    forall id | id in t.states && t.states[id] == Running ensures exists g :: g in t.running && g.id == id {
      var g :| g in s.running && g.id == id;
      assert g in t.running;
    }
  }

  lemma DropOne(gates: seq<Gate>, k: nat)
    requires DistinctIds(gates) && k < |gates|
    ensures DistinctIds(gates[..k] + gates[k + 1..])
    ensures forall g :: g in gates[..k] + gates[k + 1..] <==> g in gates && g.id != gates[k].id
  {
    var rest := gates[..k] + gates[k + 1..];
    assert forall j :: 0 <= j < |rest| ==> rest[j] == gates[if j < k then j else j + 1];
    forall g | g in gates && g.id != gates[k].id ensures g in rest {
      var j :| 0 <= j < |gates| && gates[j] == g;
      assert rest[if j < k then j else j - 1] == g;
    }
    hide DistinctIds;
    forall g | g in rest ensures g in gates && g.id != gates[k].id {
      var j :| 0 <= j < |rest| && rest[j] == g;
      OtherId(gates, k, if j < k then j else j + 1);
    }
  }

  lemma OtherId(gates: seq<Gate>, k: nat, j: nat)
    requires DistinctIds(gates) && k < |gates| && j < |gates| && j != k
    ensures gates[j].id != gates[k].id && gates[j] in gates
  {
  }

  lemma SkipJustified(c: Config, s: Sched, g: Gate, h: Gate)
    requires DistinctIds(c.gates) && g in c.gates && h in c.gates && Justified(c, s, h)
    requires Recorded(s) && Blocked(g, s.states)
    ensures Justified(c, Skip(s, g), h)
  {
    if h.id == g.id {
      SameGate(c.gates, g, h);
      var need :| need in g.needs && Unsuccessful(need, s.states);
      FailedDepsMembers(g.needs, s.states);
      assert need in FailedDeps(g.needs, s.states);
    }
  }

  lemma SkipLogs(s: Sched, g: Gate)
    requires Recorded(s) && StartedOnce(s) && ObservedOnce(s) && IsPending(g, s.states)
    ensures Recorded(Skip(s, g)) && StartedOnce(Skip(s, g)) && ObservedOnce(Skip(s, g))
  {
    ObserveOne(s, Skip(s, g), g.id, SkippedFor(FailedDeps(g.needs, s.states)));
  }

  lemma SkipKeeps(c: Config, s: Sched, g: Gate)
    requires DistinctIds(c.gates) && Inv(c, s) && Quiet(c, s) && g in c.gates && Blocked(g, s.states)
    ensures Inv(c, Skip(s, g))
  {
    SkipLogs(s, g);
    forall h | h in c.gates ensures Justified(c, Skip(s, g), h) {
      SkipJustified(c, s, g, h);
    }
    SkipSlots(c, s, g);
    SkipQuiet(c, s, g);
    hide Slots, Recorded, StartedOnce, ObservedOnce, Justified, Blocked, Ready, Quiet, FailedDeps;
    assert Skip(s, g).states.Keys == s.states.Keys;
  }

  /** A skipped gate makes no other gate ready. */
  lemma SkipQuiet(c: Config, s: Sched, g: Gate)
    requires Quiet(c, s)
    ensures Quiet(c, Skip(s, g))
  {
    hide FailedDeps;
    forall h | h in c.gates ensures !Ready(h, Skip(s, g).states) {
      assert !Ready(h, s.states);
    }
  }

  lemma SkipSlots(c: Config, s: Sched, g: Gate)
    requires Slots(c, s) && s.running == [] && g in c.gates && IsPending(g, s.states)
    ensures Slots(c, Skip(s, g))
  {
  }

  lemma StepKeeps(c: Config, s: Sched, t: Sched)
    requires DistinctIds(c.gates) && Inv(c, s) && Step(c, s, t)
    ensures Inv(c, t)
  {
    if StartStep(c, s, t) {
      StartKeeps(c, s, FirstReady(c.gates, s.states).value);
    } else if SettleStep(c, s, t) {
      var k :| 0 <= k < |s.running| && t == Settle(c, s, k);
      SettleKeeps(c, s, k);
    } else {
      SkipKeeps(c, s, FirstBlocked(c.gates, s.states).value);
    }
  }

  /** Every state of every run: bounded concurrency, needs before dependants, no gate started twice. */
  lemma {:induction false} RunSafety(c: Config, run: seq<Sched>)
    requires DistinctIds(c.gates) && IsRun(c, run)
    ensures forall i :: 0 <= i < |run| ==> Inv(c, run[i])
  {
    hide Inv, Step, Init, DistinctIds;
    if |run| == 1 {
      InitInv(c);
    } else {
      var prefix := run[..|run| - 1];
      RunSafety(c, prefix);
      assert Step(c, prefix[|prefix| - 1], run[|run| - 1]);
      StepKeeps(c, prefix[|prefix| - 1], run[|run| - 1]);
    }
  }

  // ---------------------------------------------------------------- progress

  ghost function InState(s: Sched, state: GateState): set<string> {
    set id | id in s.states && s.states[id] == state
  }

  /** Start costs one, settle one, skip two. */
  ghost function Work(s: Sched): nat {
    2 * |InState(s, Pending)| + |InState(s, Running)|
  }

  lemma StepWorks(c: Config, s: Sched, t: Sched)
    requires DistinctIds(c.gates) && Inv(c, s) && Step(c, s, t)
    ensures Work(t) < Work(s)
  {
    if StartStep(c, s, t) {
      var g := FirstReady(c.gates, s.states).value;
      StartWorks(s, g.id);
      assert Work(t) == Work(s.(states := s.states[g.id := Running]));
    } else if SettleStep(c, s, t) {
      var k :| 0 <= k < |s.running| && t == Settle(c, s, k);
      var g := s.running[k];
      assert g in s.running;
      SettleWorks(s, g.id, c.execute(g).status);
      assert Work(t) == Work(s.(states := s.states[g.id := Settled(c.execute(g).status)]));
    } else {
      var g := FirstBlocked(c.gates, s.states).value;
      SettleWorks(s, g.id, Skipped);
      assert Work(t) == Work(s.(states := s.states[g.id := Settled(Skipped)]));
    }
  }

  /** No run is longer than two steps per gate. */
  lemma {:induction false} RunsAreBounded(c: Config, run: seq<Sched>)
    requires DistinctIds(c.gates) && IsRun(c, run)
    ensures |run| - 1 + Work(run[|run| - 1]) <= 2 * |c.gates|
  {
    if |run| == 1 {
      assert InState(run[0], Running) == {};
      IdsBound(c.gates, InState(run[0], Pending));
    } else {
      var prefix := run[..|run| - 1];
      assert Step(c, prefix[|prefix| - 1], run[|run| - 1]);
      RunSafety(c, prefix);
      RunsAreBounded(c, prefix);
      StepWorks(c, prefix[|prefix| - 1], run[|run| - 1]);
    }
  }

  lemma StartWorks(s: Sched, id: string)
    requires id in s.states && s.states[id] == Pending
    ensures Work(s.(states := s.states[id := Running])) < Work(s)
  {
    var t := s.(states := s.states[id := Running]);
    assert InState(t, Pending) == InState(s, Pending) - {id};
    assert InState(t, Running) == InState(s, Running) + {id};
  }

  lemma SettleWorks(s: Sched, id: string, status: Status)
    requires id in s.states && !s.states[id].Settled?
    ensures Work(s.(states := s.states[id := Settled(status)])) < Work(s)
  {
    var t := s.(states := s.states[id := Settled(status)]);
    assert InState(t, Pending) == InState(s, Pending) - {id};
    assert InState(t, Running) == InState(s, Running) - {id};
    assert id in InState(s, s.states[id]);
  }

  lemma {:induction false} IdsBound(gates: seq<Gate>, ids: set<string>)
    requires forall id :: id in ids ==> id in NeedsGraph(gates)
    ensures |ids| <= |gates|
  {
    if gates != [] {
      IdsBound(gates[..|gates| - 1], ids - {gates[|gates| - 1].id});
    } else {
      assert ids == {};
    }
  }

  /** Once quiet, a pending gate that is not blocked needs another pending gate. */
  lemma WaitsForPending(c: Config, s: Sched, g: Gate)
    requires g in c.gates && KnownNeedsOf(c.gates, g) && s.states.Keys == NeedsGraph(c.gates).Keys
    requires g.id in NeedsGraph(c.gates) && NeedsGraph(c.gates)[g.id] == g.needs
    requires IsPending(g, s.states) && !Ready(g, s.states) && !Blocked(g, s.states)
    requires InState(s, Running) == {}
    ensures StaysIn(NeedsGraph(c.gates), InState(s, Pending), g.id)
  {
    var need :| need in g.needs && !(need in s.states && s.states[need] == Settled(Passed));
    StateCases(need, s.states);
    assert need !in InState(s, Running);
    assert need in InState(s, Pending) && Edge(NeedsGraph(c.gates), g.id, need);
  }

  lemma StateCases(id: string, states: States)
    requires id in states
    ensures states[id] == Pending || states[id] == Running || states[id] == Settled(Passed) || Unsuccessful(id, states)
  {
    match states[id]
    case Pending =>
    case Running =>
    case Settled(status) =>
      match status
      case Passed =>
      case Failed =>
      case Skipped =>
  }

  /** The "stalled" throw is unreachable: a quiet table with a pending gate has a blocked one. */
  lemma NeverStalls(c: Config, s: Sched)
    requires ValidGates(c.gates) && Inv(c, s) && Quiet(c, s)
    requires exists g :: g in c.gates && IsPending(g, s.states)
    ensures FirstBlocked(c.gates, s.states).Some?
  {
    GraphIds(c.gates);
    if FirstBlocked(c.gates, s.states).None? {
      var graph := NeedsGraph(c.gates);
      var waiting := InState(s, Pending);
      var p :| p in c.gates && IsPending(p, s.states);
      assert p.id in waiting;
      forall id | id in waiting ensures StaysIn(graph, waiting, id) {
        var i :| 0 <= i < |c.gates| && c.gates[i].id == id;
        WaitsForPending(c, s, c.gates[i]);
      }
      var cycle := NoSinkHasCycle(graph, waiting);
    }
  }

  /** Deadlock freedom: an unfinished run can always take another step. */
  lemma Progress(c: Config, s: Sched)
    requires ValidGates(c.gates) && Inv(c, s) && c.maxActive >= 1 && !Terminal(c, s)
    ensures exists t :: Step(c, s, t)
  {
    if |s.running| < c.maxActive && FirstReady(c.gates, s.states).Some? {
      assert Step(c, s, Start(s, FirstReady(c.gates, s.states).value));
    } else if s.running != [] {
      var t := Settle(c, s, 0);
      assert SettleStep(c, s, t);
      assert Step(c, s, t);
    } else {
      NeverStalls(c, s);
      assert Step(c, s, Skip(s, FirstBlocked(c.gates, s.states).value));
    }
  }

  /** A finished run has exactly one result and one observer call per gate. */
  lemma TerminalIsComplete(c: Config, s: Sched)
    requires ValidGates(c.gates) && Inv(c, s) && Terminal(c, s)
    ensures s.results.Keys == NeedsGraph(c.gates).Keys
    ensures |s.observed| == |c.gates|
    ensures forall g :: g in c.gates ==> g.id in s.results && (g.id, s.results[g.id]) in s.observed
  {
    forall g | g in c.gates ensures g.id in s.results && (g.id, s.results[g.id]) in s.observed {
      TerminalSettles(c, s, g);
    }
    assert s.results.Keys == NeedsGraph(c.gates).Keys by {
      GraphIds(c.gates);
      forall id | id in NeedsGraph(c.gates) ensures id in s.results {
        var i :| 0 <= i < |c.gates| && c.gates[i].id == id;
        assert c.gates[i] in c.gates;
      }
    }
    CountGates(c.gates);
    CountObserved(s);
  }

  lemma TerminalSettles(c: Config, s: Sched, g: Gate)
    requires Slots(c, s) && Recorded(s) && Terminal(c, s) && g in c.gates
    ensures g.id in s.results
  {
    assert !IsPending(g, s.states) && s.states[g.id] != Running;
  }

  lemma CountGates(gates: seq<Gate>)
    requires DistinctIds(gates)
    ensures |gates| == |NeedsGraph(gates).Keys|
  {
    GraphIds(gates);
    var ids := seq(|gates|, i requires 0 <= i < |gates| => gates[i].id);
    forall id ensures id in ids <==> id in NeedsGraph(gates).Keys {
      if id in NeedsGraph(gates) {
        var i :| 0 <= i < |gates| && gates[i].id == id;
        assert ids[i] == id;
      }
    }
    DistinctCount(ids, NeedsGraph(gates).Keys);
  }

  lemma CountObserved(s: Sched)
    requires ObservedOnce(s)
    ensures |s.observed| == |s.results.Keys|
  {
    var seen := seq(|s.observed|, i requires 0 <= i < |s.observed| => s.observed[i].0);
    forall id ensures id in seen <==> id in s.results.Keys {
      if id in s.results {
        var k :| 0 <= k < |s.observed| && s.observed[k] == (id, s.results[id]);
        assert seen[k] == id;
      }
      if id in seen {
        var k :| 0 <= k < |seen| && seen[k] == id;
        assert s.observed[k] in s.observed;
      }
    }
    DistinctCount(seen, s.results.Keys);
  }

  lemma {:induction false} DistinctCount(s: seq<string>, pool: set<string>)
    requires Distinct(s) && forall x :: x in s <==> x in pool
    ensures |s| == |pool|
  {
    if s == [] {
      assert pool == {};
    } else {
      var last := s[|s| - 1];
      forall x ensures x in s[..|s| - 1] <==> x in pool - {last} {
        if x in pool - {last} {
          var i :| 0 <= i < |s| && s[i] == x;
        }
      }
      DistinctCount(s[..|s| - 1], pool - {last});
    }
  }
}
