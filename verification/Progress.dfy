/**
 Progress of the whole race.  Waiting (polling `ready`, `go` or a lock, blocking on a mutex or in a
 join) costs nothing; every other step of any actor uses up part of a budget fixed in advance, and
 as long as `race` has not returned somebody has such a step.
 */
module Progress {
  import opened Sums
  import opened RaceMachine
  import opened BarrierProtocol
  import opened CriticalSections
  import opened CasRetries

  function WorkerRank(cfg: Config, w: Worker): int {
    5 * (cfg.iterations - w.done) +
    match w.pc
    case Unspawned => 4
    case CheckIn => 3
    case AwaitGo => 2
    case Top | Spin => 1
    case Entered | Compare | Finished => 0
    case Loaded => -1
    case Unlocking => -2
  }

  function WorkerRanks(cfg: Config, s: State): (r: seq<int>)
    ensures |r| == |s.workers|
  {
    seq(|s.workers|, i requires 0 <= i < |s.workers| => WorkerRank(cfg, s.workers[i]))
  }

  /** The steps main still has to make, not counting its waiting. */
  function MainRank(cfg: Config, main: MainPc): int {
    var n, d := cfg.N(), |cfg.distinct|;
    match main
    case Returned => 0
    case Summing(j) => d - j + 1
    case Folding(i) => n - i + 1 + d + 1
    case Joining(i) => n - i + 1 + n + 1 + d + 1
    case Releasing => 2 * (n + 1) + d + 2
    case AwaitReady => 2 * (n + 1) + d + 3
    case Spawning(i) => n - i + 1 + 2 * (n + 1) + d + 3
    case Resetting(j) => d - j + 1 + 3 * (n + 1) + d + 3
  }

  function Rank(cfg: Config, s: State): int {
    MainRank(cfg, s.main) + Sum(WorkerRanks(cfg, s))
    + (cfg.N() * cfg.N() * cfg.iterations - Sum(AttemptsSeen(s)))
  }

  /** The rank at the start: every productive step of every schedule is paid from this. */
  function StepBudget(cfg: Config): int {
    2 * |cfg.distinct| + 3 * cfg.N() + 7
    + (5 * cfg.iterations + 4) * cfg.N()
    + cfg.N() * cfg.N() * cfg.iterations
  }

  /** The actor can only wait: for main, for `go`, for a lock; or it has nothing left to do. */
  predicate Waiting(cfg: Config, s: State, actor: nat)
    requires Shape(cfg, s)
  {
    if actor < cfg.N() then
      var w := s.workers[actor];
      || w.pc.Unspawned? || w.pc.Finished? || w.pc.Spin?
      || (w.pc.AwaitGo? && !s.go)
      || (w.pc.Top? && w.done < cfg.iterations && cfg.kind.Locking() && s.cells[cfg.counters[actor]].locked)
    else if actor == cfg.N() then
      || s.main.Returned?
      || (s.main.AwaitReady? && s.ready < cfg.N())
      || (s.main.Joining? && s.main.i < cfg.N() && !s.workers[s.main.i].pc.Finished?)
    else true
  }

  lemma WorkerRankStep(cfg: Config, s: State, i: nat)
    requires Barrier(cfg, s) && i < cfg.N()
    ensures Rank(cfg, WorkerStep(cfg, s, i)) == Rank(cfg, s)
              + WorkerRank(cfg, WorkerStep(cfg, s, i).workers[i]) - WorkerRank(cfg, s.workers[i])
              - AttemptsSeen(WorkerStep(cfg, s, i))[i] + AttemptsSeen(s)[i]
  {
    var t := WorkerStep(cfg, s, i);
    assert WorkerRanks(cfg, t) == WorkerRanks(cfg, s)[i := WorkerRank(cfg, t.workers[i])];
    SumUpdate(WorkerRanks(cfg, s), i, WorkerRank(cfg, t.workers[i]));
    assert AttemptsSeen(t) == AttemptsSeen(s)[i := AttemptsSeen(t)[i]];
    SumUpdate(AttemptsSeen(s), i, AttemptsSeen(t)[i]);
  }

  lemma SpawnRankStep(cfg: Config, s: State)
    requires Barrier(cfg, s) && s.main.Spawning? && s.main.i < cfg.N()
    ensures Sum(WorkerRanks(cfg, MainStep(cfg, s))) == Sum(WorkerRanks(cfg, s)) - 1
  {
    var t, i := MainStep(cfg, s), s.main.i;
    assert Placed(cfg, s.main, i, s.workers[i]);
    assert WorkerRanks(cfg, t) == WorkerRanks(cfg, s)[i := WorkerRank(cfg, t.workers[i])];
    SumUpdate(WorkerRanks(cfg, s), i, WorkerRank(cfg, t.workers[i]));
  }

  lemma MainRankStep(cfg: Config, s: State)
    requires Barrier(cfg, s)
    ensures Waiting(cfg, s, cfg.N()) ==> MainStep(cfg, s) == s
    ensures !Waiting(cfg, s, cfg.N()) ==> Rank(cfg, MainStep(cfg, s)) < Rank(cfg, s)
  {
    var t := MainStep(cfg, s);
    assert AttemptsSeen(t) == AttemptsSeen(s);
    if s.main.Spawning? && s.main.i < cfg.N() {
      SpawnRankStep(cfg, s);
    } else {
      assert t.workers == s.workers;
    }
  }

  /** A waiting step leaves the rank alone and any other step lowers it. */
  lemma RankStep(cfg: Config, s: State, actor: nat)
    requires Barrier(cfg, s)
    ensures Waiting(cfg, s, actor) ==> Rank(cfg, Step(cfg, s, actor)) == Rank(cfg, s)
    ensures !Waiting(cfg, s, actor) ==> Rank(cfg, Step(cfg, s, actor)) < Rank(cfg, s)
  {
    if actor < cfg.N() {
      assert WorkerOk(cfg, s.workers[actor]);
      WorkerRankStep(cfg, s, actor);
    } else if actor == cfg.N() {
      MainRankStep(cfg, s);
    }
  }

  lemma RankNonNegative(cfg: Config, s: State)
    requires Paced(cfg, s)
    ensures Rank(cfg, s) >= 0
  {
    forall i | 0 <= i < cfg.N() ensures WorkerRanks(cfg, s)[i] >= 0 {
      assert WorkerOk(cfg, s.workers[i]);
    }
    SumAtLeastZero(WorkerRanks(cfg, s));
    AttemptsBounded(cfg, s);
  }

  // ---- Somebody can always move ----

  // A worker that main is waiting for before `go` exists whenever `ready` is short.
  lemma SomeoneCheckingIn(cfg: Config, s: State) returns (i: nat)
    requires Barrier(cfg, s) && s.main.AwaitReady? && s.ready < cfg.N()
    ensures i < cfg.N() && s.workers[i].pc.CheckIn?
  {
    var flags := CheckedIn(s.workers);
    if forall a :: 0 <= a < |flags| ==> flags[a] == 1 {
      SumBounds(flags, 1, 1);
    }
    i :| 0 <= i < |flags| && flags[i] != 1;
  }

  // The actor spins, but its lock has become free: it only has to notice.
  predicate CanRetry(cfg: Config, s: State, actor: nat)
    requires Shape(cfg, s)
  {
    actor < cfg.N() && s.workers[actor].pc.Spin? && !s.cells[cfg.counters[actor]].locked
  }

  lemma RetrySucceeds(cfg: Config, s: State, actor: nat)
    requires Barrier(cfg, s) && CanRetry(cfg, s, actor)
    ensures Waiting(cfg, s, actor) && !Waiting(cfg, Step(cfg, s, actor), actor)
  {
    assert WorkerOk(cfg, s.workers[actor]);
  }

  // If worker i has not finished, it or the holder of its lock can move.
  lemma SomeoneWorking(cfg: Config, s: State, i: nat) returns (actor: nat)
    requires Barrier(cfg, s) && Exclusion(cfg, s) && s.go && i < cfg.N() && !s.workers[i].pc.Finished?
    ensures actor < cfg.N()
    ensures !Waiting(cfg, s, actor) || CanRetry(cfg, s, actor)
  {
    assert WorkerOk(cfg, s.workers[i]);
    var c := cfg.counters[i];
    if cfg.kind.Locking() && s.cells[c].locked && (s.workers[i].pc.Top? || s.workers[i].pc.Spin?) {
      actor :| Holds(cfg, s, actor, c);
    } else {
      actor := i;
    }
  }

  lemma SomeoneReady(cfg: Config, s: State) returns (actor: nat)
    requires Barrier(cfg, s) && Exclusion(cfg, s) && !s.main.Returned?
    ensures actor <= cfg.N()
    ensures !Waiting(cfg, s, actor) || CanRetry(cfg, s, actor)
  {
    if !Waiting(cfg, s, cfg.N()) {
      actor := cfg.N();
    } else if s.main.AwaitReady? {
      actor := SomeoneCheckingIn(cfg, s);
    } else {
      actor := SomeoneWorking(cfg, s, s.main.i);
    }
  }

  // That actor lowers the rank with its next step, or with its next two.
  lemma SomeoneMoves(cfg: Config, s: State) returns (actor: nat, moves: seq<nat>)
    requires Paced(cfg, s) && Exclusion(cfg, s) && !s.main.Returned?
    ensures actor <= cfg.N() && (moves == [actor] || moves == [actor, actor])
    ensures Rank(cfg, Run(cfg, s, moves)) < Rank(cfg, s)
  {
    actor := SomeoneReady(cfg, s);
    var t := Step(cfg, s, actor);
    RankStep(cfg, s, actor);
    assert [actor][1..] == [] && Run(cfg, t, []) == t;
    moves := [actor];
    if Waiting(cfg, s, actor) {
      RetrySucceeds(cfg, s, actor);
      BarrierStep(cfg, s, actor);
      RankStep(cfg, t, actor);
      assert [actor, actor][1..] == [actor];
      assert Run(cfg, t, [actor]) == Step(cfg, t, actor);
      moves := [actor, actor];
    }
  }

  /** No deadlock: in every reachable state in which race() has not returned, some actor lowers the
      rank with its next step, or with its next two when the first only notices that a spinlock is
      free. */
  lemma NoDeadlock(cfg: Config, memory: seq<Cell>, schedule: seq<nat>)
    requires Ready(cfg, memory) && !Run(cfg, Start(cfg, memory), schedule).main.Returned?
    ensures var s := Run(cfg, Start(cfg, memory), schedule);
      exists actor: nat :: actor <= cfg.N() &&
        (Rank(cfg, Run(cfg, s, [actor])) < Rank(cfg, s) || Rank(cfg, Run(cfg, s, [actor, actor])) < Rank(cfg, s))
  {
    EveryRun(cfg, memory, schedule);
    var actor, moves := SomeoneMoves(cfg, Run(cfg, Start(cfg, memory), schedule));
  }

  /** From every reachable state some continuation makes race() return. */
  lemma {:induction false} CanFinish(cfg: Config, s: State) returns (schedule: seq<nat>)
    requires Paced(cfg, s) && Exclusion(cfg, s)
    ensures Run(cfg, s, schedule).main.Returned?
    decreases Rank(cfg, s)
  {
    if s.main.Returned? {
      schedule := [];
    } else {
      RankNonNegative(cfg, s);
      var _, moves := SomeoneMoves(cfg, s);
      PacedRun(cfg, s, moves);
      var rest := CanFinish(cfg, Run(cfg, s, moves));
      RunConcat(cfg, s, moves, rest);
      schedule := moves + rest;
    }
  }

  lemma RaceCanFinish(cfg: Config, memory: seq<Cell>, schedule: seq<nat>)
    requires Ready(cfg, memory)
    ensures exists more :: Run(cfg, Start(cfg, memory), schedule + more).main.Returned?
  {
    EveryRun(cfg, memory, schedule);
    var more := CanFinish(cfg, Run(cfg, Start(cfg, memory), schedule));
    RunConcat(cfg, Start(cfg, memory), schedule, more);
  }

  // ---- Nobody moves for ever ----

  /** The steps of a schedule that are not waiting. */
  function Productive(cfg: Config, s: State, schedule: seq<nat>): nat
    requires Shape(cfg, s)
    decreases |schedule|
  {
    if schedule == [] then 0
    else (if Waiting(cfg, s, schedule[0]) then 0 else 1) + Productive(cfg, Step(cfg, s, schedule[0]), schedule[1..])
  }

  lemma {:induction false} ProductivePaid(cfg: Config, s: State, schedule: seq<nat>)
    requires Paced(cfg, s) && Exclusion(cfg, s)
    ensures Productive(cfg, s, schedule) <= Rank(cfg, s)
    decreases |schedule|
  {
    if schedule == [] {
      RankNonNegative(cfg, s);
    } else {
      RankStep(cfg, s, schedule[0]);
      PacedStep(cfg, s, schedule[0]);
      ExclusionStep(cfg, s, schedule[0]);
      ProductivePaid(cfg, Step(cfg, s, schedule[0]), schedule[1..]);
    }
  }

  /** Every schedule makes at most StepBudget productive steps, however unfair it is. */
  lemma ProductiveStepsBounded(cfg: Config, memory: seq<Cell>, schedule: seq<nat>)
    requires Ready(cfg, memory)
    ensures Productive(cfg, Start(cfg, memory), schedule) <= StepBudget(cfg)
  {
    var s := Start(cfg, memory);
    PacedStart(cfg, memory);
    ExclusionStart(cfg, memory);
    ProductivePaid(cfg, s, schedule);
    SumBounds(WorkerRanks(cfg, s), 5 * cfg.iterations + 4, 5 * cfg.iterations + 4);
    SumBounds(AttemptsSeen(s), 0, 0);
  }
}
