/**
 What a lock does that an atomic increment does not: as long as its holder does not move, nobody else
 completes an increment of the counter.
 */
module Lockout {
  import opened RaceMachine
  import opened BarrierProtocol
  import opened CriticalSections
  import opened LossSchedules
  import opened LossOutcomes

  // Between s and t nothing has happened to the counter of worker i and to those who share it.
  predicate Blocked(cfg: Config, s: State, t: State, i: nat)
    requires Shape(cfg, s) && Shape(cfg, t) && |t.cells| == |s.cells| && i < cfg.N()
  {
    && t.workers[i] == s.workers[i]
    && t.cells[cfg.counters[i]] == s.cells[cfg.counters[i]]
    && forall a :: 0 <= a < cfg.N() && cfg.counters[a] == cfg.counters[i] ==> t.workers[a].done == s.workers[a].done
  }

  lemma BlockedStep(cfg: Config, s: State, i: nat, actor: nat)
    requires Barrier(cfg, s) && Exclusion(cfg, s) && cfg.kind.Locking()
    requires i < cfg.N() && InWindow(s.workers[i].pc) && actor != i
    ensures Blocked(cfg, s, Step(cfg, s, actor), i)
  {
    var c := cfg.counters[i];
    assert Holds(cfg, s, i, c);
    assert Placed(cfg, s.main, i, s.workers[i]);
    if actor < cfg.N() {
      assert WorkerOk(cfg, s.workers[actor]);
      if Holds(cfg, s, actor, c) && actor < i {
        assert false;
      }
      assert !Holds(cfg, s, actor, c);
    }
  }

  lemma {:induction false} HolderBlocks(cfg: Config, s: State, i: nat, schedule: seq<nat>)
    requires Barrier(cfg, s) && Exclusion(cfg, s) && cfg.kind.Locking()
    requires i < cfg.N() && InWindow(s.workers[i].pc) && i !in schedule
    ensures Blocked(cfg, s, Run(cfg, s, schedule), i)
    decreases |schedule|
  {
    if schedule != [] {
      BlockedStep(cfg, s, i, schedule[0]);
      BarrierStep(cfg, s, schedule[0]);
      ExclusionStep(cfg, s, schedule[0]);
      HolderBlocks(cfg, Step(cfg, s, schedule[0]), i, schedule[1..]);
    }
  }

  // Behind the gate, with nobody inside, every lock is free.
  lemma FirstComes(cfg: Config, s: State, i: nat)
    requires AtGate(cfg, s) && cfg.kind.Locking() && i < cfg.N() && cfg.iterations >= 1
    ensures InWindow(Step(cfg, s, i).workers[i].pc)
  {
    var c := cfg.counters[i];
    forall a: nat ensures !Holds(cfg, s, a, c) {
      assert a < cfg.N() ==> s.workers[a].pc.Top?;
    }
    assert !s.cells[c].locked;
  }

  /** Every thread can come to hold its lock, and from then on no schedule without it lets any sharer of
      the counter complete an increment or changes the word. */
  lemma LockOwnerBlocks(cfg: Config, memory: seq<Cell>, i: nat)
    requires Ready(cfg, memory) && cfg.kind.Locking() && i < cfg.N() && cfg.iterations >= 1
    ensures exists schedule ::
      var s := Run(cfg, Start(cfg, memory), schedule);
      && InWindow(s.workers[i].pc)
      && s.cells[cfg.counters[i]].locked
      && forall more :: i !in more ==> Blocked(cfg, s, Run(cfg, s, more), i)
  {
    var gate := GateOpens(cfg, memory);
    var before := Run(cfg, Start(cfg, memory), gate);
    FirstComes(cfg, before, i);
    RunOne(cfg, before, i);
    RunConcat(cfg, Start(cfg, memory), gate, [i]);
    var s := Run(cfg, Start(cfg, memory), gate + [i]);
    BarrierStart(cfg, memory);
    ExclusionStart(cfg, memory);
    ExclusionRun(cfg, Start(cfg, memory), gate + [i]);
    assert Holds(cfg, s, i, cfg.counters[i]);
    forall more | i !in more ensures Blocked(cfg, s, Run(cfg, s, more), i) {
      HolderBlocks(cfg, s, i, more);
    }
  }
}
