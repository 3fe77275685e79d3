/**
 Termination under fairness.  A round is a piece of schedule in which every actor has two turns; any
 schedule in which nobody is left out for ever is a sequence of rounds.  Each round of an unfinished
 race contains a productive step, so there cannot be more rounds than the step budget.
 */
module FairTermination {
  import opened RaceMachine
  import opened BarrierProtocol
  import opened CriticalSections
  import opened Refinement
  import opened Progress

  function Turns(schedule: seq<nat>, actor: nat): nat {
    if schedule == [] then 0
    else (if schedule[0] == actor then 1 else 0) + Turns(schedule[1..], actor)
  }

  predicate FairRound(cfg: Config, round: seq<nat>) {
    forall actor: nat :: actor <= cfg.N() ==> Turns(round, actor) >= 2
  }

  function Flatten(rounds: seq<seq<nat>>): seq<nat> {
    if rounds == [] then [] else rounds[0] + Flatten(rounds[1..])
  }

  lemma {:induction false} TurnsConcat(first: seq<nat>, second: seq<nat>, actor: nat)
    ensures Turns(first + second, actor) == Turns(first, actor) + Turns(second, actor)
  {
    if first == [] {
      assert first + second == second;
    } else {
      assert (first + second)[1..] == first[1..] + second;
      TurnsConcat(first[1..], second, actor);
    }
  }

  function InOrder(n: nat): seq<nat> {
    seq(n, i requires 0 <= i < n => i)
  }

  lemma {:induction false} TurnsInOrder(n: nat, actor: nat)
    ensures Turns(InOrder(n), actor) == if actor < n then 1 else 0
  {
    if n > 0 {
      TurnsInOrder(n - 1, actor);
      assert InOrder(n) == InOrder(n - 1) + [n - 1];
      TurnsConcat(InOrder(n - 1), [n - 1], actor);
    }
  }

  // Everybody twice, in order, and that a number of times.
  function RoundRobin(cfg: Config, rounds: nat): seq<seq<nat>> {
    seq(rounds, _ => InOrder(cfg.N() + 1) + InOrder(cfg.N() + 1))
  }

  lemma RoundRobinIsFair(cfg: Config, rounds: nat)
    ensures forall r :: 0 <= r < rounds ==> FairRound(cfg, RoundRobin(cfg, rounds)[r])
  {
    var round := InOrder(cfg.N() + 1) + InOrder(cfg.N() + 1);
    forall actor: nat | actor <= cfg.N() ensures Turns(round, actor) >= 2 {
      TurnsConcat(InOrder(cfg.N() + 1), InOrder(cfg.N() + 1), actor);
      TurnsInOrder(cfg.N() + 1, actor);
    }
  }

  // A waiting step of somebody else keeps an actor that can move able to move.
  lemma WaitingDisturbsNobody(cfg: Config, s: State, waiter: nat, actor: nat)
    requires Barrier(cfg, s) && Waiting(cfg, s, waiter) && actor != waiter
    ensures var t := Step(cfg, s, waiter);
      && t.main == s.main
      && (!Waiting(cfg, s, actor) ==> !Waiting(cfg, t, actor))
      && (CanRetry(cfg, s, actor) ==> CanRetry(cfg, t, actor))
  {
    var t := Step(cfg, s, waiter);
    if waiter == cfg.N() {
      MainRankStep(cfg, s);
    } else if waiter < cfg.N() {
      assert WorkerOk(cfg, s.workers[waiter]);
      assert t.cells == s.cells && t.go == s.go && t.ready == s.ready;
      assert forall i :: 0 <= i < cfg.N() && i != waiter ==> t.workers[i] == s.workers[i];
    }
  }

  // An actor that can move will, unless somebody else does before it.
  lemma {:induction false} ReadyActs(cfg: Config, s: State, round: seq<nat>, actor: nat)
    requires Barrier(cfg, s) && !Waiting(cfg, s, actor) && Turns(round, actor) >= 1
    ensures Productive(cfg, s, round) >= 1
    decreases |round|
  {
    if Waiting(cfg, s, round[0]) {
      WaitingDisturbsNobody(cfg, s, round[0], actor);
      BarrierStep(cfg, s, round[0]);
      ReadyActs(cfg, Step(cfg, s, round[0]), round[1..], actor);
    }
  }

  lemma {:induction false} RetrierActs(cfg: Config, s: State, round: seq<nat>, actor: nat)
    requires Barrier(cfg, s) && CanRetry(cfg, s, actor) && Turns(round, actor) >= 2
    ensures Productive(cfg, s, round) >= 1
    decreases |round|
  {
    BarrierStep(cfg, s, round[0]);
    if round[0] == actor {
      RetrySucceeds(cfg, s, actor);
      ReadyActs(cfg, Step(cfg, s, actor), round[1..], actor);
    } else if Waiting(cfg, s, round[0]) {
      WaitingDisturbsNobody(cfg, s, round[0], actor);
      RetrierActs(cfg, Step(cfg, s, round[0]), round[1..], actor);
    }
  }

  /** Every fair round of an unfinished race makes progress. */
  lemma RoundProgresses(cfg: Config, s: State, round: seq<nat>)
    requires Barrier(cfg, s) && Exclusion(cfg, s) && !s.main.Returned? && FairRound(cfg, round)
    ensures Productive(cfg, s, round) >= 1
  {
    var actor := SomeoneReady(cfg, s);
    if Waiting(cfg, s, actor) {
      RetrierActs(cfg, s, round, actor);
    } else {
      ReadyActs(cfg, s, round, actor);
    }
  }

  lemma {:induction false} ReturnedStays(cfg: Config, s: State, schedule: seq<nat>)
    requires Shape(cfg, s) && s.main.Returned?
    ensures Run(cfg, s, schedule).main.Returned?
    decreases |schedule|
  {
    if schedule != [] {
      ReturnedStays(cfg, Step(cfg, s, schedule[0]), schedule[1..]);
    }
  }

  lemma {:induction false} ProductiveConcat(cfg: Config, s: State, first: seq<nat>, second: seq<nat>)
    requires Shape(cfg, s)
    ensures Productive(cfg, s, first + second)
         == Productive(cfg, s, first) + Productive(cfg, Run(cfg, s, first), second)
    decreases |first|
  {
    if first == [] {
      assert first + second == second;
    } else {
      assert (first + second)[1..] == first[1..] + second;
      ProductiveConcat(cfg, Step(cfg, s, first[0]), first[1..], second);
    }
  }

  lemma {:induction false} RoundsProgress(cfg: Config, s: State, rounds: seq<seq<nat>>)
    requires Barrier(cfg, s) && Exclusion(cfg, s)
    requires forall r :: 0 <= r < |rounds| ==> FairRound(cfg, rounds[r])
    ensures Run(cfg, s, Flatten(rounds)).main.Returned? || Productive(cfg, s, Flatten(rounds)) >= |rounds|
    decreases |rounds|
  {
    if s.main.Returned? {
      ReturnedStays(cfg, s, Flatten(rounds));
    } else if rounds != [] {
      var t := Run(cfg, s, rounds[0]);
      RoundProgresses(cfg, s, rounds[0]);
      ExclusionRun(cfg, s, rounds[0]);
      RoundsProgress(cfg, t, rounds[1..]);
      ProductiveConcat(cfg, s, rounds[0], Flatten(rounds[1..]));
      RunConcat(cfg, s, rounds[0], Flatten(rounds[1..]));
    }
  }

  /** Every fair schedule makes race() return, whatever the counter: more fair rounds than the step
      budget cannot be spent in it.  For an exact configuration it returns the right total. */
  lemma FairRaceReturns(cfg: Config, memory: seq<Cell>, rounds: seq<seq<nat>>)
    requires Ready(cfg, memory)
    requires |rounds| > StepBudget(cfg)
    requires forall r :: 0 <= r < |rounds| ==> FairRound(cfg, rounds[r])
    ensures var s := Run(cfg, Start(cfg, memory), Flatten(rounds));
      s.main.Returned? && (Exact(cfg) ==> s.observed == cfg.ExpectedTotal())
  {
    BarrierStart(cfg, memory);
    ExclusionStart(cfg, memory);
    RoundsProgress(cfg, Start(cfg, memory), rounds);
    ProductiveStepsBounded(cfg, memory, Flatten(rounds));
    if Exact(cfg) {
      RaceIsExact(cfg, memory, Flatten(rounds));
    }
  }

  /** In particular, race() returns when everybody is scheduled in turn, whatever the counter. */
  lemma RoundRobinReturns(cfg: Config, memory: seq<Cell>)
    requires Ready(cfg, memory)
    ensures exists rounds: nat ::
      Run(cfg, Start(cfg, memory), Flatten(RoundRobin(cfg, rounds))).main.Returned?
  {
    var rounds: nat := if StepBudget(cfg) < 0 then 0 else StepBudget(cfg) + 1;
    RoundRobinIsFair(cfg, rounds);
    FairRaceReturns(cfg, memory, RoundRobin(cfg, rounds));
  }
}
