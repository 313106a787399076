/** The shared-counter worker pool of scripts/publint-all.ts, interleaved at every await. */
module WorkerPool {
  import opened Common

  datatype Worker = Idle | Busy(index: nat) | Stopped

  /** The shared counter and results of one call, where each worker stands, and the indices claimed so far. */
  datatype Pool<R> = Pool(next: nat, results: map<nat, R>, workers: seq<Worker>, claimed: seq<nat>)

  function Start<R>(concurrency: nat): Pool<R> {
    Pool(0, map[], seq(concurrency, _ => Idle), [])
  }

  /** A worker runs from one await to the next: it takes the counter, and stops past the last target. */
  function Claim<R>(s: Pool<R>, targets: nat, w: nat): Pool<R>
    requires w < |s.workers|
  {
    var index := s.next;
    if index < targets
    then Pool(index + 1, s.results, s.workers[w := Busy(index)], s.claimed + [index])
    else Pool(index + 1, s.results, s.workers[w := Stopped], s.claimed)
  }

  /** The awaited run settles and its result is stored. */
  function Finish<T, R>(s: Pool<R>, targets: seq<T>, lint: T -> R, w: nat): Pool<R>
    requires w < |s.workers| && s.workers[w].Busy? && s.workers[w].index < |targets|
  {
    var index := s.workers[w].index;
    s.(results := s.results[index := lint(targets[index])], workers := s.workers[w := Idle])
  }

  predicate Moves<T, R(==)>(s: Pool<R>, t: Pool<R>, targets: seq<T>, lint: T -> R, w: nat) {
    w < |s.workers| &&
    match s.workers[w]
    case Idle => t == Claim(s, |targets|, w)
    case Busy(index) => index < |targets| && t == Finish(s, targets, lint, w)
    case Stopped => false
  }

  /** Any worker may move next. */
  ghost predicate Step<T(!new), R>(s: Pool<R>, t: Pool<R>, targets: seq<T>, lint: T -> R) {
    exists w: nat :: Moves(s, t, targets, lint, w)
  }

  predicate Done<R>(s: Pool<R>) {
    forall w :: 0 <= w < |s.workers| ==> s.workers[w] == Stopped
  }

  /** Somebody works on the index. */
  predicate InFlight<R>(s: Pool<R>, index: nat) {
    Busy(index) in s.workers
  }

  /**
   * Indices are claimed in order and once; a claimed index is either in the hands of exactly one
   * worker or has its own target's result, never both; workers stop only when all are claimed.
   */
  ghost predicate Inv<T, R>(s: Pool<R>, targets: seq<T>, lint: T -> R) {
    && (forall i :: 0 <= i < |s.claimed| ==> s.claimed[i] == i)
    && |s.claimed| == (if s.next < |targets| then s.next else |targets|)
    && (forall v, w :: 0 <= v < w < |s.workers| && s.workers[v].Busy? ==> s.workers[v] != s.workers[w])
    && (forall w :: 0 <= w < |s.workers| && s.workers[w].Busy? ==> s.workers[w].index < |s.claimed| && s.workers[w].index !in s.results)
    && (forall i: nat :: i < |s.claimed| ==> InFlight(s, i) || i in s.results)
    && (forall i :: i in s.results ==> i < |s.claimed| && s.results[i] == lint(targets[i]))
    && (forall w :: 0 <= w < |s.workers| && s.workers[w] == Stopped ==> s.next > |targets|)
    && (s.next > |targets| ==> s.next - |targets| <= |StoppedWorkers(s)|)
  }

  ghost function StoppedWorkers<R>(s: Pool<R>): set<nat> {
    set w: nat | w < |s.workers| && s.workers[w] == Stopped
  }

  ghost function BusyWorkers<R>(s: Pool<R>): set<nat> {
    set w: nat | w < |s.workers| && s.workers[w].Busy?
  }

  lemma StartInv<T, R>(targets: seq<T>, lint: T -> R, concurrency: nat)
    ensures Inv(Start<R>(concurrency), targets, lint)
  {
  }

  lemma {:induction false} BelowBound(n: nat, s: set<nat>)
    requires forall w :: w in s ==> w < n
    ensures |s| <= n
  {
    if n == 0 {
      assert s == {};
    } else {
      BelowBound(n - 1, s - {n - 1});
    }
  }

  lemma ClaimKeeps<T, R>(s: Pool<R>, targets: seq<T>, lint: T -> R, w: nat)
    requires Inv(s, targets, lint) && w < |s.workers| && s.workers[w] == Idle
    ensures Inv(Claim(s, |targets|, w), targets, lint)
  {
    var t := Claim(s, |targets|, w);
    if s.next < |targets| {
      forall i: nat | i < |t.claimed| ensures InFlight(t, i) || i in t.results {
        if i == s.next {
          assert t.workers[w] == Busy(i);
        } else if InFlight(s, i) {
          var v :| 0 <= v < |s.workers| && s.workers[v] == Busy(i);
          assert t.workers[v] == Busy(i);
        }
      }
    } else {
      assert StoppedWorkers(t) == StoppedWorkers(s) + {w};
      forall i: nat | i < |t.claimed| ensures InFlight(t, i) || i in t.results {
        if InFlight(s, i) {
          var v :| 0 <= v < |s.workers| && s.workers[v] == Busy(i);
          assert t.workers[v] == Busy(i);
        }
      }
    }
  }

  lemma FinishKeeps<T, R>(s: Pool<R>, targets: seq<T>, lint: T -> R, w: nat)
    requires Inv(s, targets, lint) && w < |s.workers| && s.workers[w].Busy? && s.workers[w].index < |targets|
    ensures Inv(Finish(s, targets, lint, w), targets, lint)
  {
    var t := Finish(s, targets, lint, w);
    assert StoppedWorkers(t) == StoppedWorkers(s);
    forall i: nat | i < |t.claimed| ensures InFlight(t, i) || i in t.results {
      if InFlight(s, i) && i != s.workers[w].index {
        var v :| 0 <= v < |s.workers| && s.workers[v] == Busy(i);
        assert t.workers[v] == Busy(i);
      }
    }
  }

  /** Every interleaving keeps the invariant and gets closer to the end. */
  lemma StepKeeps<T(!new), R>(s: Pool<R>, t: Pool<R>, targets: seq<T>, lint: T -> R)
    requires Inv(s, targets, lint) && Step(s, t, targets, lint)
    ensures Inv(t, targets, lint) && |t.workers| == |s.workers|
    ensures Remaining(t, |targets|) < Remaining(s, |targets|)
  {
    var w: nat :| Moves(s, t, targets, lint, w);
    if s.workers[w] == Idle {
      ClaimKeeps(s, targets, lint, w);
      ClaimWorks(s, targets, lint, w);
    } else {
      FinishKeeps(s, targets, lint, w);
      assert BusyWorkers(t) == BusyWorkers(s) - {w};
    }
  }

  /** Two for each counter value still to be taken, one for each run in flight. */
  ghost function Remaining<R>(s: Pool<R>, targets: nat): int {
    2 * (targets + |s.workers| - s.next) + |BusyWorkers(s)|
  }

  lemma ClaimWorks<T, R>(s: Pool<R>, targets: seq<T>, lint: T -> R, w: nat)
    requires w < |s.workers| && s.workers[w] == Idle
    ensures Remaining(Claim(s, |targets|, w), |targets|) < Remaining(s, |targets|)
  {
    var t := Claim(s, |targets|, w);
    if s.next < |targets| {
      assert BusyWorkers(t) == BusyWorkers(s) + {w};
    } else {
      assert BusyWorkers(t) == BusyWorkers(s);
    }
  }

  /** The measure never goes below zero, so every interleaving ends. */
  lemma RemainingIsNatural<T, R>(s: Pool<R>, targets: seq<T>, lint: T -> R)
    requires Inv(s, targets, lint)
    ensures Remaining(s, |targets|) >= 0 && |BusyWorkers(s)| <= |s.workers|
  {
    BelowBound(|s.workers|, StoppedWorkers(s));
    BelowBound(|s.workers|, BusyWorkers(s));
  }

  lemma Progress<T(!new), R>(s: Pool<R>, targets: seq<T>, lint: T -> R)
    requires Inv(s, targets, lint) && !Done(s)
    ensures exists t :: Step(s, t, targets, lint)
  {
    var w :| 0 <= w < |s.workers| && s.workers[w] != Stopped;
    if s.workers[w] == Idle {
      assert Moves(s, Claim(s, |targets|, w), targets, lint, w);
      assert Step(s, Claim(s, |targets|, w), targets, lint);
    } else {
      assert Moves(s, Finish(s, targets, lint, w), targets, lint, w);
      assert Step(s, Finish(s, targets, lint, w), targets, lint);
    }
  }

  /** With at least one worker, or nothing to do, the end has exactly one result per target, its own. */
  lemma DoneIsComplete<T, R>(s: Pool<R>, targets: seq<T>, lint: T -> R)
    requires Inv(s, targets, lint) && Done(s) && (s.workers != [] || targets == [])
    ensures |s.claimed| == |targets|
    ensures forall i: nat :: i in s.results <==> i < |targets|
    ensures forall i: nat :: i < |targets| ==> s.results[i] == lint(targets[i])
  {
    if s.workers != [] {
      assert s.workers[0] == Stopped;
    }
    forall i: nat | i < |targets| ensures i in s.results {
      assert !InFlight(s, i);
    }
  }

  /** Without a worker the first target has no result: the "missing result" throw needs concurrency zero. */
  lemma NoWorkersNoResults<T, R>(targets: seq<T>, lint: T -> R)
    requires targets != []
    ensures Done(Start<R>(0)) && 0 !in Start<R>(0).results
  {
  }

  class Run<T(!new), R> {
    const targets: seq<T>
    const lint: T -> R
    var next: nat
    var results: map<nat, R>
    var workers: seq<Worker>
    ghost var claimed: seq<nat>

    constructor (targets: seq<T>, lint: T -> R, concurrency: nat)
      ensures this.targets == targets && this.lint == lint && Now() == Start(concurrency)
    {
      this.targets, this.lint := targets, lint;
      next, results, workers, claimed := 0, map[], seq(concurrency, _ => Idle), [];
    }

    ghost function Now(): Pool<R>
      reads this
    {
      Pool(next, results, workers, claimed)
    }

    /** One worker, up to its next await. */
    method Advance(w: nat)
      requires Inv(Now(), targets, lint) && w < |workers| && workers[w] != Stopped
      modifies this
      ensures Moves(old(Now()), Now(), targets, lint, w)
    {
      match workers[w]
      case Idle =>
        var index := next;
        next := next + 1;
        if index < |targets| {
          workers := workers[w := Busy(index)];
          claimed := claimed + [index];
        } else {
          workers := workers[w := Stopped];
        }
      case Busy(index) =>
        results := results[index := lint(targets[index])];
        workers := workers[w := Idle];
    }
  }

  /**
   * Under every interleaving of the workers, result `i` is the result of target `i`. The "missing result"
   * error, which names the first target without one, needs a target and no worker.
   */
  method RunAll<T(!new), R>(targets: seq<T>, lint: T -> R, concurrency: nat) returns (r: Result<seq<R>, T>)
    ensures r.Ok? <==> concurrency >= 1 || targets == []
    ensures r.Ok? ==> |r.value| == |targets| && forall i :: 0 <= i < |targets| ==> r.value[i] == lint(targets[i])
    ensures r.Err? ==> r.error == targets[0]
  {
    var run := new Run(targets, lint, concurrency);
    StartInv(targets, lint, concurrency);
    while exists w :: 0 <= w < |run.workers| && run.workers[w] != Stopped
      invariant Inv(run.Now(), targets, lint) && |run.workers| == concurrency
      invariant concurrency == 0 ==> run.results == map[]
      invariant run.targets == targets && run.lint == lint
      decreases Remaining(run.Now(), |targets|)
    {
      RemainingIsNatural(run.Now(), targets, lint);
      var w :| 0 <= w < |run.workers| && run.workers[w] != Stopped;
      ghost var before := run.Now();
      run.Advance(w);
      assert Step(before, run.Now(), targets, lint);
      StepKeeps(before, run.Now(), targets, lint);
      RemainingIsNatural(run.Now(), targets, lint);
    }
    if concurrency >= 1 || targets == [] {
      DoneIsComplete(run.Now(), targets, lint);
    }
    var results := [];
    for i := 0 to |targets|
      invariant concurrency >= 1 || i == 0
      invariant |results| == i && forall j :: 0 <= j < i ==> results[j] == lint(targets[j])
    {
      if i !in run.results {
        return Err(targets[i]);
      }
      results := results + [run.results[i]];
    }
    r := Ok(results);
  }
}
