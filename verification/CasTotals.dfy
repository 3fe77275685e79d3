/**
 How often all threads together can fail: every success makes the expected value of each other thread
 still at work stale, at most once, and the last increments of the race have fewer threads to disturb.
 */
module CasTotals {
  import opened Sums
  import opened RaceMachine
  import opened BarrierProtocol
  import opened Totals
  import opened Refinement
  import opened CasRetries

  /** The most failures that n threads of k increments each can count together. */
  function MostFailures(n: nat, k: nat): int {
    if k == 0 then 0 else n * (n - 1) * (2 * k - 1) / 2
  }

  // The next compare-exchange of worker i fails if nothing happens before.
  predicate Stale(cfg: Config, s: State, i: nat)
    requires Shape(cfg, s) && i < cfg.N()
  {
    s.workers[i].pc.Compare? && s.workers[i].reg != s.cells[cfg.counters[i]].v
  }

  /** The failures counted, and the one that is due. */
  function Debts(cfg: Config, s: State): (r: seq<int>)
    requires Shape(cfg, s)
    ensures |r| == cfg.N()
  {
    seq(cfg.N(), i requires 0 <= i < cfg.N() => s.workers[i].failures + (if Stale(cfg, s, i) then 1 else 0))
  }

  // The threads that have completed all their increments.
  function Through(cfg: Config, dones: seq<nat>): (r: seq<int>)
    ensures |r| == |dones|
  {
    seq(|dones|, i requires 0 <= i < |dones| => if dones[i] == cfg.iterations then 1 else 0)
  }

  /** What the increments so far allow in failures, twice over: n - 1 for each, less what the threads
      that are through have been spared. */
  function Allowance(n: int, done: int, through: int): int {
    2 * ((n - 1) * done) - through * (through - 1)
  }

  predicate Contested(cfg: Config, s: State) {
    && Barrier(cfg, s)
    && 2 * Sum(Debts(cfg, s)) <= Allowance(cfg.N(), Sum(Dones(s)), Sum(Through(cfg, Dones(s))))
  }

  lemma ContestedStart(cfg: Config, memory: seq<Cell>)
    requires Ready(cfg, memory) && cfg.iterations >= 1
    ensures Contested(cfg, Start(cfg, memory))
  {
    var s := Start(cfg, memory);
    BarrierStart(cfg, memory);
    SumBounds(Debts(cfg, s), 0, 0);
    SumBounds(Dones(s), 0, 0);
    SumBounds(Through(cfg, Dones(s)), 0, 0);
  }

  predicate Succeeds(cfg: Config, s: State, i: nat)
    requires Shape(cfg, s)
  {
    i < cfg.N() && s.workers[i].pc.Compare? && !Stale(cfg, s, i)
  }

  // Only a success changes anything: a failure that is due becomes one that is counted.
  lemma NoSuccess(cfg: Config, s: State, actor: nat)
    requires Barrier(cfg, s) && cfg.kind.CasLoop? && !Succeeds(cfg, s, actor)
    ensures Debts(cfg, Step(cfg, s, actor)) == Debts(cfg, s) && Dones(Step(cfg, s, actor)) == Dones(s)
  {
    var t := Step(cfg, s, actor);
    if actor < cfg.N() {
      assert WorkerOk(cfg, s.workers[actor]);
      assert t.cells == s.cells;
    } else if s.main.Resetting? {
      forall i | 0 <= i < cfg.N() ensures s.workers[i].pc.Unspawned? {
        assert Placed(cfg, s.main, i, s.workers[i]);
      }
    } else {
      assert t.cells == s.cells;
      forall i | 0 <= i < cfg.N() ensures t.workers[i].pc.Compare? == s.workers[i].pc.Compare? {
        assert Placed(cfg, s.main, i, s.workers[i]);
      }
    }
  }

  // A success costs each other thread that is not through one failure at most.
  lemma SuccessDebts(cfg: Config, s: State, i: nat)
    requires Barrier(cfg, s) && cfg.kind.CasLoop? && Succeeds(cfg, s, i)
    ensures Sum(Debts(cfg, Step(cfg, s, i))) <= Sum(Debts(cfg, s)) + cfg.N() - 1 - Sum(Through(cfg, Dones(s)))
  {
    var n, t, debts, through := cfg.N(), Step(cfg, s, i), Debts(cfg, s), Through(cfg, Dones(s));
    var spared := seq(n, a requires 0 <= a < n => 1 - through[a]);
    var most := seq(n, a requires 0 <= a < n => debts[a] + spared[a]);
    SumComplement(spared, through, 1);
    SumPointwise(debts, spared, most);
    SumUpdate(most, i, debts[i]);
    assert WorkerOk(cfg, s.workers[i]);
    forall a | 0 <= a < n ensures Debts(cfg, t)[a] <= most[i := debts[i]][a] {
      assert WorkerOk(cfg, s.workers[a]);
    }
    SumMonotone(Debts(cfg, t), most[i := debts[i]]);
  }

  lemma OneMoreDone(cfg: Config, dones: seq<nat>, i: nat)
    requires i < |dones| && dones[i] < cfg.iterations
    ensures var after := dones[i := dones[i] + 1];
      && Sum(after) == Sum(dones) + 1
      && Sum(Through(cfg, after)) == Sum(Through(cfg, dones)) + (if dones[i] + 1 == cfg.iterations then 1 else 0)
  {
    var after, flag := dones[i := dones[i] + 1], if dones[i] + 1 == cfg.iterations then 1 else 0;
    SumUpdate(dones, i, dones[i] + 1);
    assert Through(cfg, after) == Through(cfg, dones)[i := flag];
    SumUpdate(Through(cfg, dones), i, flag);
  }

  lemma SuccessDones(cfg: Config, s: State, i: nat)
    requires Barrier(cfg, s) && Succeeds(cfg, s, i)
    ensures var t := Step(cfg, s, i);
      && Sum(Dones(t)) == Sum(Dones(s)) + 1
      && Sum(Through(cfg, Dones(t))) == Sum(Through(cfg, Dones(s)))
           + (if s.workers[i].done + 1 == cfg.iterations then 1 else 0)
  {
    assert WorkerOk(cfg, s.workers[i]);
    assert Dones(Step(cfg, s, i)) == Dones(s)[i := s.workers[i].done + 1];
    OneMoreDone(cfg, Dones(s), i);
  }

  lemma AllowanceStep(n: int, done: int, through: int, last: bool)
    ensures Allowance(n, done + 1, through + (if last then 1 else 0))
         == Allowance(n, done, through) + 2 * (n - 1) - (if last then 2 * through else 0)
  {
    assert (n - 1) * (done + 1) == (n - 1) * done + (n - 1);
    assert (through + 1) * through == through * (through - 1) + 2 * through;
  }

  lemma ContestedStep(cfg: Config, s: State, actor: nat)
    requires Contested(cfg, s) && cfg.kind.CasLoop?
    ensures Contested(cfg, Step(cfg, s, actor))
  {
    BarrierStep(cfg, s, actor);
    if Succeeds(cfg, s, actor) {
      var through := Sum(Through(cfg, Dones(s)));
      SuccessDebts(cfg, s, actor);
      SuccessDones(cfg, s, actor);
      SumAtLeastZero(Through(cfg, Dones(s)));
      AllowanceStep(cfg.N(), Sum(Dones(s)), through, s.workers[actor].done + 1 == cfg.iterations);
    } else {
      NoSuccess(cfg, s, actor);
    }
  }

  lemma {:induction false} ContestedRun(cfg: Config, s: State, schedule: seq<nat>)
    requires Contested(cfg, s) && cfg.kind.CasLoop?
    ensures Contested(cfg, Run(cfg, s, schedule))
    decreases |schedule|
  {
    if schedule != [] {
      ContestedStep(cfg, s, schedule[0]);
      ContestedRun(cfg, Step(cfg, s, schedule[0]), schedule[1..]);
    }
  }

  // ---- The bounds ----

  // Who is not through has an increment left.
  lemma ThroughCounts(cfg: Config, dones: seq<nat>)
    requires forall i :: 0 <= i < |dones| ==> dones[i] <= cfg.iterations
    ensures 0 <= Sum(Through(cfg, dones)) <= |dones|
    ensures Sum(dones) <= (cfg.iterations - 1) * |dones| + Sum(Through(cfg, dones))
  {
    var short := seq(|dones|, _ => cfg.iterations - 1);
    var most := seq(|dones|, i requires 0 <= i < |dones| => short[i] + Through(cfg, dones)[i]);
    SumBounds(Through(cfg, dones), 0, 1);
    SumBounds(short, cfg.iterations - 1, cfg.iterations - 1);
    SumPointwise(short, Through(cfg, dones), most);
    SumMonotone(dones, most);
  }

  // The allowance is largest at the end.
  lemma AllowanceAtMost(n: nat, k: nat, done: int, through: nat)
    requires n >= 1 && k >= 1 && through <= n && done <= (k - 1) * n + through
    ensures Allowance(n, done, through) <= n * (n - 1) * (2 * k - 1)
  {
    var left := n - through;
    var most := k * n - left;
    assert (k - 1) * n + through == most;
    MulMonotone(done, most, n - 1);
    assert (n - 1) * done <= (n - 1) * most;
    LastAllowance(n, k, left);
    assert left * (left - 1) >= 0;
  }

  lemma LastAllowance(n: int, k: int, left: int)
    ensures Allowance(n, k * n - left, n - left) == n * (n - 1) * (2 * k - 1) - left * (left - 1)
  {
  }

  lemma DonesAtMost(cfg: Config, s: State)
    requires Barrier(cfg, s)
    ensures forall i :: 0 <= i < cfg.N() ==> Dones(s)[i] <= cfg.iterations
    ensures 0 <= Sum(Dones(s)) <= cfg.iterations * cfg.N()
  {
    forall i | 0 <= i < cfg.N() ensures Dones(s)[i] <= cfg.iterations {
      assert WorkerOk(cfg, s.workers[i]);
    }
    SumBounds(Dones(s), 0, cfg.iterations);
  }

  lemma ContestedBound(cfg: Config, s: State)
    requires Contested(cfg, s) && cfg.iterations >= 1
    ensures Sum(Failures(s, cfg.N())) <= MostFailures(cfg.N(), cfg.iterations)
  {
    SumMonotone(Failures(s, cfg.N()), Debts(cfg, s));
    DonesAtMost(cfg, s);
    ThroughCounts(cfg, Dones(s));
    AllowanceAtMost(cfg.N(), cfg.iterations, Sum(Dones(s)), Sum(Through(cfg, Dones(s))));
  }

  /** Every run, at all times: all threads together have failed at most n*(n-1)*(2k-1)/2 times. */
  lemma AllFailuresBounded(cfg: Config, memory: seq<Cell>, schedule: seq<nat>)
    requires Ready(cfg, memory)
    ensures var s := Run(cfg, Start(cfg, memory), schedule);
      0 <= Sum(Failures(s, cfg.N())) <= MostFailures(cfg.N(), cfg.iterations)
  {
    var s := Run(cfg, Start(cfg, memory), schedule);
    EveryRun(cfg, memory, schedule);
    NoFailuresElsewhere(cfg, s);
    if cfg.iterations == 0 {
      AttemptsBounded(cfg, s);
    } else if cfg.kind.CasLoop? {
      ContestedStart(cfg, memory);
      ContestedRun(cfg, Start(cfg, memory), schedule);
      ContestedBound(cfg, s);
    } else {
      MostFailuresNatural(cfg.N(), cfg.iterations);
    }
  }

  lemma MostFailuresNatural(n: nat, k: nat)
    ensures MostFailures(n, k) >= 0
  {
    if n >= 1 && k >= 1 {
      MulMonotone(0, n * (n - 1), 2 * k - 1);
    }
  }

  /** The cas_failures that race() returns: at most n*(n-1)*(2k-1)/2, the true sum whenever that fits
      a 64-bit word, and zero for every counter that has no retry loop. */
  lemma ReportedFailuresBounded(cfg: Config, memory: seq<Cell>, schedule: seq<nat>)
    requires Ready(cfg, memory)
    requires Run(cfg, Start(cfg, memory), schedule).main.Returned?
    ensures var s := Run(cfg, Start(cfg, memory), schedule);
      && s.casFailures <= MostFailures(cfg.N(), cfg.iterations)
      && (MostFailures(cfg.N(), cfg.iterations) < WORD ==> s.casFailures == Sum(Failures(s, cfg.N())))
      && (!cfg.kind.CasLoop? ==> s.casFailures == 0)
  {
    EveryRun(cfg, memory, schedule);
    AllFailuresBounded(cfg, memory, schedule);
    var s := Run(cfg, Start(cfg, memory), schedule);
    NoFailuresElsewhere(cfg, s);
    assert s.casFailures == Wrap(Sum(Failures(s, cfg.N())));
  }

  // Attempts are failures and completed increments.
  lemma AttemptsCounted(cfg: Config, memory: seq<Cell>, schedule: seq<nat>)
    requires Ready(cfg, memory) && cfg.kind.CasLoop?
    ensures var s := Run(cfg, Start(cfg, memory), schedule);
      Attempts(cfg, Start(cfg, memory), schedule) == Sum(Failures(s, cfg.N())) + Sum(Dones(s))
  {
    var s := Run(cfg, Start(cfg, memory), schedule);
    BarrierStart(cfg, memory);
    AttemptsAreSeen(cfg, Start(cfg, memory), schedule);
    SumBounds(AttemptsSeen(Start(cfg, memory)), 0, 0);
    SumPointwise(Failures(s, cfg.N()), Dones(s), AttemptsSeen(s));
  }

  /** Every schedule, fair or not, executes at most n*(n-1)*(2k-1)/2 + n*k compare-exchanges. */
  lemma CasAttemptsBounded(cfg: Config, memory: seq<Cell>, schedule: seq<nat>)
    requires Ready(cfg, memory) && cfg.kind.CasLoop?
    ensures Attempts(cfg, Start(cfg, memory), schedule)
         <= MostFailures(cfg.N(), cfg.iterations) + cfg.N() * cfg.iterations
  {
    var s := Run(cfg, Start(cfg, memory), schedule);
    AttemptsCounted(cfg, memory, schedule);
    AllFailuresBounded(cfg, memory, schedule);
    BarrierStart(cfg, memory);
    BarrierRun(cfg, Start(cfg, memory), schedule);
    DonesAtMost(cfg, s);
  }
}
