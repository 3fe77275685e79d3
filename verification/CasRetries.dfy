/**
 The CAS loop retries boundedly often: each failure of a thread is paid for by somebody else's
 success on the same counter.  No fairness is assumed, and nothing is assumed about wrap-around:
 a word that comes round to the expected value only makes the compare-exchange succeed.
 */
module CasRetries {
  import opened Sums
  import opened RaceMachine
  import opened BarrierProtocol
  import opened CriticalSections
  import opened AtomicSpec
  import opened Totals
  import opened Refinement

  /** Increments completed so far on counter c, by whichever thread. */
  function TicksOn(cfg: Config, s: State, c: nat): int
    requires Shape(cfg, s)
  {
    Tally(cfg.counters, Dones(s), c)
  }

  // On the counter of worker i.
  function Ticks(cfg: Config, s: State, i: nat): int
    requires Shape(cfg, s) && i < cfg.N()
  {
    TicksOn(cfg, s, cfg.counters[i])
  }

  // The worker last read its counter when t increments had been made on it.
  predicate Sighted(w: Worker, t: nat, ticks: int) {
    w.failures + w.done <= t <= ticks && w.reg == Wrap(t)
  }

  /** A worker's attempts so far are covered by the increments made on its counter. */
  ghost predicate WorkerPaced(cfg: Config, w: Worker, ticks: int) {
    && w.failures + w.done <= ticks
    && (cfg.kind.CasLoop? && w.pc.Compare? ==> exists t: nat :: Sighted(w, t, ticks))
  }

  ghost predicate Paced(cfg: Config, s: State) {
    && Barrier(cfg, s)
    && cfg.Deduplicated()
    && (cfg.kind.CasLoop? ==> Conserved(cfg, Abs(cfg, s)))
    && (forall i :: 0 <= i < cfg.N() ==> WorkerPaced(cfg, s.workers[i], Ticks(cfg, s, i)))
  }

  lemma PacedStart(cfg: Config, memory: seq<Cell>)
    requires Ready(cfg, memory)
    ensures Paced(cfg, Start(cfg, memory))
  {
    BarrierStart(cfg, memory);
    forall i | 0 <= i < cfg.N() ensures Ticks(cfg, Start(cfg, memory), i) == 0 {
      SumBounds(Shares(cfg.counters, Dones(Start(cfg, memory)), cfg.counters[i]), 0, 0);
    }
  }

  // The word of a CAS counter is its tick count once the race is on.
  lemma WordIsTicks(cfg: Config, s: State, i: nat)
    requires Barrier(cfg, s) && cfg.kind.CasLoop? && Conserved(cfg, Abs(cfg, s)) && s.go && i < cfg.N()
    requires cfg.counters[i] in cfg.distinct
    ensures s.cells[cfg.counters[i]].v == Wrap(Ticks(cfg, s, i))
  {
    WordIsPublished(cfg, s, cfg.counters[i]);
    forall a | 0 <= a < cfg.N() ensures !s.workers[a].pc.Unlocking? {
      assert WorkerOk(cfg, s.workers[a]);
    }
    PublishedIsDone(cfg, s, cfg.counters[i]);
  }

  // Ticks never fall, and rise by one exactly when a sharer completes an increment.
  lemma TicksStep(cfg: Config, s: State, i: nat, c: nat)
    requires Barrier(cfg, s) && i < cfg.N()
    ensures var t := WorkerStep(cfg, s, i);
      && s.workers[i].done <= t.workers[i].done <= s.workers[i].done + 1
      && Dones(t) == Dones(s)[i := t.workers[i].done]
      && TicksOn(cfg, t, c) == TicksOn(cfg, s, c)
           + (if cfg.counters[i] == c then t.workers[i].done - s.workers[i].done else 0)
  {
    var t := WorkerStep(cfg, s, i);
    assert Dones(t) == Dones(s)[i := t.workers[i].done];
    TallyUpdate(cfg.counters, Dones(s), i, t.workers[i].done, c);
  }

  // More ticks do no harm.
  lemma PacedLater(cfg: Config, w: Worker, ticks: int, later: int)
    requires WorkerPaced(cfg, w, ticks) && ticks <= later
    ensures WorkerPaced(cfg, w, later)
  {
    if cfg.kind.CasLoop? && w.pc.Compare? {
      var t: nat :| Sighted(w, t, ticks);
      assert Sighted(w, t, later);
    }
  }

  // The worker that moves: a failed compare-exchange has seen at least one new increment.
  lemma MoverPaced(cfg: Config, s: State, i: nat)
    requires Paced(cfg, s) && i < cfg.N()
    ensures WorkerPaced(cfg, WorkerStep(cfg, s, i).workers[i], Ticks(cfg, WorkerStep(cfg, s, i), i))
  {
    var w := s.workers[i];
    var ticks := Ticks(cfg, s, i);
    var after := WorkerStep(cfg, s, i).workers[i];
    assert WorkerPaced(cfg, w, ticks) && WorkerOk(cfg, w);
    TicksStep(cfg, s, i, cfg.counters[i]);
    if cfg.kind.CasLoop? && after.pc.Compare? {
      WordIsTicks(cfg, s, i);
      if w.pc.Compare? {
        var seen: nat :| Sighted(w, seen, ticks);
        assert seen < ticks;
      }
      assert Sighted(after, ticks, ticks);
    }
  }

  lemma PacedWorkerStep(cfg: Config, s: State, i: nat)
    requires Paced(cfg, s) && i < cfg.N()
    ensures var t := WorkerStep(cfg, s, i);
      forall a :: 0 <= a < cfg.N() ==> WorkerPaced(cfg, t.workers[a], Ticks(cfg, t, a))
  {
    var t := WorkerStep(cfg, s, i);
    forall a | 0 <= a < cfg.N() ensures WorkerPaced(cfg, t.workers[a], Ticks(cfg, t, a)) {
      if a == i {
        MoverPaced(cfg, s, i);
      } else {
        TicksStep(cfg, s, i, cfg.counters[a]);
        PacedLater(cfg, s.workers[a], Ticks(cfg, s, a), Ticks(cfg, t, a));
      }
    }
  }

  lemma PacedMainStep(cfg: Config, s: State)
    requires Paced(cfg, s)
    ensures var t := MainStep(cfg, s);
      forall a :: 0 <= a < cfg.N() ==> WorkerPaced(cfg, t.workers[a], Ticks(cfg, t, a))
  {
    var t := MainStep(cfg, s);
    assert Dones(t) == Dones(s);
    forall a | 0 <= a < cfg.N() ensures WorkerPaced(cfg, t.workers[a], Ticks(cfg, t, a)) {
      assert WorkerPaced(cfg, s.workers[a], Ticks(cfg, s, a));
      assert t.workers[a] == s.workers[a] || t.workers[a] == s.workers[a].(pc := CheckIn);
    }
  }

  lemma ConservedStep(cfg: Config, s: State, actor: nat)
    requires Barrier(cfg, s) && Exclusion(cfg, s) && cfg.kind.CasLoop? && StrictlyAscending(cfg.distinct)
    requires Conserved(cfg, Abs(cfg, s))
    ensures Conserved(cfg, Abs(cfg, Step(cfg, s, actor)))
  {
    RefinesStep(cfg, s, actor);
    ConservedNext(cfg, Abs(cfg, s), Abs(cfg, Step(cfg, s, actor)));
  }

  lemma PacedStep(cfg: Config, s: State, actor: nat)
    requires Paced(cfg, s) && Exclusion(cfg, s)
    ensures Paced(cfg, Step(cfg, s, actor))
  {
    BarrierStep(cfg, s, actor);
    if cfg.kind.CasLoop? {
      ConservedStep(cfg, s, actor);
    }
    if actor < cfg.N() {
      PacedWorkerStep(cfg, s, actor);
    } else if actor == cfg.N() {
      PacedMainStep(cfg, s);
    }
  }

  lemma {:induction false} PacedRun(cfg: Config, s: State, schedule: seq<nat>)
    requires Paced(cfg, s) && Exclusion(cfg, s)
    ensures Paced(cfg, Run(cfg, s, schedule)) && Exclusion(cfg, Run(cfg, s, schedule))
    decreases |schedule|
  {
    if schedule != [] {
      PacedStep(cfg, s, schedule[0]);
      ExclusionStep(cfg, s, schedule[0]);
      PacedRun(cfg, Step(cfg, s, schedule[0]), schedule[1..]);
    }
  }

  /** The invariants, on every run. */
  lemma EveryRun(cfg: Config, memory: seq<Cell>, schedule: seq<nat>)
    requires Ready(cfg, memory)
    ensures var s := Run(cfg, Start(cfg, memory), schedule);
      Paced(cfg, s) && Exclusion(cfg, s) && Accumulated(cfg, s)
  {
    PacedStart(cfg, memory);
    ExclusionStart(cfg, memory);
    PacedRun(cfg, Start(cfg, memory), schedule);
    AccumulatedRun(cfg, Start(cfg, memory), schedule);
  }

  // ---- The bounds ----

  /** How many threads point at counter c. */
  function Sharers(counters: seq<nat>, c: nat): int {
    Tally(counters, seq(|counters|, _ => 1), c)
  }

  lemma {:induction false} SharersCount(counters: seq<nat>, c: nat)
    ensures Sharers(counters, c) == |set i | 0 <= i < |counters| && counters[i] == c|
  {
    var sharers := set i | 0 <= i < |counters| && counters[i] == c;
    if counters == [] {
      assert sharers == {};
    } else {
      var last := |counters| - 1;
      var rest := counters[..last];
      SharersCount(rest, c);
      var shares := Shares(counters, seq(|counters|, _ => 1), c);
      assert shares == Shares(rest, seq(last, _ => 1), c) + [if counters[last] == c then 1 else 0];
      SumAppend(Shares(rest, seq(last, _ => 1), c), [if counters[last] == c then 1 else 0]);
      var others := set i | 0 <= i < |rest| && rest[i] == c;
      assert sharers == if counters[last] == c then others + {last} else others;
    }
  }

  lemma {:induction false} TallyConstant(counters: seq<nat>, k: nat, c: nat)
    ensures Tally(counters, seq(|counters|, _ => k), c) == k * Sharers(counters, c)
  {
    if counters != [] {
      TallyConstant(counters[1..], k, c);
      var rest := |counters[1..]|;
      assert Shares(counters, seq(|counters|, _ => k), c)[1..] == Shares(counters[1..], seq(rest, _ => k), c);
      assert Shares(counters, seq(|counters|, _ => 1), c)[1..] == Shares(counters[1..], seq(rest, _ => 1), c);
    }
  }

  lemma TallyAtMost(counters: seq<nat>, amounts: seq<nat>, k: nat, c: nat)
    requires |amounts| == |counters|
    requires forall a :: 0 <= a < |amounts| ==> amounts[a] <= k
    ensures 0 <= Tally(counters, amounts, c) <= Sharers(counters, c) * k
  {
    TallyConstant(counters, k, c);
    SumAtLeastZero(Shares(counters, amounts, c));
    SumMonotone(Shares(counters, amounts, c), Shares(counters, seq(|counters|, _ => k), c));
  }

  lemma TallyOthers(counters: seq<nat>, amounts: seq<nat>, i: nat, k: nat)
    requires |amounts| == |counters| && i < |counters|
    requires forall a :: 0 <= a < |amounts| ==> amounts[a] <= k
    ensures Tally(counters, amounts, counters[i]) <= amounts[i] + (Sharers(counters, counters[i]) - 1) * k
  {
    var c := counters[i];
    var full: seq<nat> := seq(|counters|, _ => k);
    var most := full[i := amounts[i]];
    SumMonotone(Shares(counters, amounts, c), Shares(counters, most, c));
    TallyUpdate(counters, full, i, amounts[i], c);
    TallyConstant(counters, k, c);
    assert k * Sharers(counters, c) - k == (Sharers(counters, c) - 1) * k;
  }

  lemma TicksBound(cfg: Config, s: State, i: nat)
    requires Barrier(cfg, s) && i < cfg.N()
    ensures Ticks(cfg, s, i) <= s.workers[i].done + (Sharers(cfg.counters, cfg.counters[i]) - 1) * cfg.iterations
  {
    forall a | 0 <= a < cfg.N() ensures Dones(s)[a] <= cfg.iterations {
      assert WorkerOk(cfg, s.workers[a]);
    }
    TallyOthers(cfg.counters, Dones(s), i, cfg.iterations);
  }

  lemma SharersRange(cfg: Config, i: nat)
    requires i < cfg.N()
    ensures 1 <= Sharers(cfg.counters, cfg.counters[i]) <= cfg.N()
  {
    TallyRange(cfg.counters, seq(cfg.N(), _ => 1), i, 1);
  }

  /** Failures and successes of each worker, added up. */
  function AttemptsSeen(s: State): (r: seq<int>)
    ensures |r| == |s.workers|
  {
    seq(|s.workers|, i requires 0 <= i < |s.workers| => s.workers[i].failures + s.workers[i].done)
  }

  lemma WorkerAttempts(cfg: Config, s: State, i: nat)
    requires Paced(cfg, s) && i < cfg.N()
    ensures s.workers[i].failures <= (cfg.N() - 1) * cfg.iterations
    ensures s.workers[i].failures + s.workers[i].done <= cfg.N() * cfg.iterations
  {
    TicksBound(cfg, s, i);
    SharersRange(cfg, i);
    MulMonotone(Sharers(cfg.counters, cfg.counters[i]) - 1, cfg.N() - 1, cfg.iterations);
    assert WorkerOk(cfg, s.workers[i]);
    Distribute(cfg.N(), cfg.iterations);
  }

  lemma Distribute(n: int, k: int)
    ensures n * k == (n - 1) * k + k
  {
  }

  lemma SumsBounded(s: State, attempts: nat, failures: nat)
    requires forall i :: 0 <= i < |s.workers| ==> s.workers[i].failures <= failures
    requires forall i :: 0 <= i < |s.workers| ==> s.workers[i].failures + s.workers[i].done <= attempts
    ensures 0 <= Sum(AttemptsSeen(s)) <= attempts * |s.workers|
    ensures Sum(Failures(s, |s.workers|)) <= failures * |s.workers|
  {
    SumBounds(AttemptsSeen(s), 0, attempts);
    SumBounds(Failures(s, |s.workers|), 0, failures);
  }

  lemma AttemptsBounded(cfg: Config, s: State)
    requires Paced(cfg, s)
    ensures 0 <= Sum(AttemptsSeen(s)) <= cfg.N() * cfg.N() * cfg.iterations
    ensures Sum(Failures(s, cfg.N())) <= cfg.N() * (cfg.N() - 1) * cfg.iterations
  {
    forall i | 0 <= i < cfg.N()
      ensures s.workers[i].failures <= (cfg.N() - 1) * cfg.iterations
      ensures s.workers[i].failures + s.workers[i].done <= cfg.N() * cfg.iterations
    {
      WorkerAttempts(cfg, s, i);
    }
    SumsBounded(s, cfg.N() * cfg.iterations, (cfg.N() - 1) * cfg.iterations);
    Regroup(cfg.N(), cfg.N(), cfg.iterations);
    Regroup(cfg.N(), cfg.N() - 1, cfg.iterations);
  }

  lemma Regroup(n: int, m: int, k: int)
    ensures m * k * n == n * m * k
  {
  }

  lemma MulMonotone(x: int, y: int, k: nat)
    requires x <= y
    ensures x * k <= y * k
  {
  }

  /** Every run of the CAS loop: at all times a thread's failures plus its successes are at most the
      number of increments made on its counter, so it fails at most once per increment that the other
      sharers make. */
  lemma CasFailuresBounded(cfg: Config, memory: seq<Cell>, schedule: seq<nat>, i: nat)
    requires Ready(cfg, memory) && cfg.kind.CasLoop? && i < cfg.N()
    ensures var s := Run(cfg, Start(cfg, memory), schedule);
      && s.workers[i].failures + s.workers[i].done <= Ticks(cfg, s, i)
      && s.workers[i].failures <= (Sharers(cfg.counters, cfg.counters[i]) - 1) * cfg.iterations
      && s.workers[i].failures <= (cfg.N() - 1) * cfg.iterations
  {
    PacedStart(cfg, memory);
    ExclusionStart(cfg, memory);
    PacedRun(cfg, Start(cfg, memory), schedule);
    TicksBound(cfg, Run(cfg, Start(cfg, memory), schedule), i);
    SharersRange(cfg, i);
    MulMonotone(Sharers(cfg.counters, cfg.counters[i]) - 1, cfg.N() - 1, cfg.iterations);
  }

  lemma NoFailuresElsewhere(cfg: Config, s: State)
    requires Barrier(cfg, s)
    ensures 0 <= Sum(Failures(s, cfg.N()))
    ensures !cfg.kind.CasLoop? ==> Sum(Failures(s, cfg.N())) == 0
  {
    var failures := Failures(s, cfg.N());
    SumAtLeastZero(failures);
    if !cfg.kind.CasLoop? {
      forall i | 0 <= i < cfg.N() ensures failures[i] == 0 {
        assert WorkerOk(cfg, s.workers[i]);
      }
      SumBounds(failures, 0, 0);
    }
  }

  // ---- Attempts along a schedule ----

  predicate IsAttempt(cfg: Config, s: State, actor: nat)
    requires Shape(cfg, s)
  {
    actor < cfg.N() && s.workers[actor].pc.Compare?
  }

  /** How many compare-exchange instructions a schedule executes. */
  function Attempts(cfg: Config, s: State, schedule: seq<nat>): nat
    requires Shape(cfg, s)
    decreases |schedule|
  {
    if schedule == [] then 0
    else (if IsAttempt(cfg, s, schedule[0]) then 1 else 0) + Attempts(cfg, Step(cfg, s, schedule[0]), schedule[1..])
  }

  lemma AttemptsStep(cfg: Config, s: State, actor: nat)
    requires Barrier(cfg, s) && cfg.kind.CasLoop?
    ensures Sum(AttemptsSeen(Step(cfg, s, actor)))
         == Sum(AttemptsSeen(s)) + (if IsAttempt(cfg, s, actor) then 1 else 0)
  {
    var t := Step(cfg, s, actor);
    if actor < cfg.N() {
      var seen := t.workers[actor].failures + t.workers[actor].done;
      assert WorkerOk(cfg, s.workers[actor]);
      assert AttemptsSeen(t) == AttemptsSeen(s)[actor := seen];
      SumUpdate(AttemptsSeen(s), actor, seen);
    } else {
      assert AttemptsSeen(t) == AttemptsSeen(s);
    }
  }

  lemma {:induction false} AttemptsAreSeen(cfg: Config, s: State, schedule: seq<nat>)
    requires Barrier(cfg, s) && cfg.kind.CasLoop?
    ensures Sum(AttemptsSeen(Run(cfg, s, schedule))) == Sum(AttemptsSeen(s)) + Attempts(cfg, s, schedule)
    decreases |schedule|
  {
    if schedule != [] {
      BarrierStep(cfg, s, schedule[0]);
      AttemptsStep(cfg, s, schedule[0]);
      AttemptsAreSeen(cfg, Step(cfg, s, schedule[0]), schedule[1..]);
    }
  }
}
