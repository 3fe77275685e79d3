/** Mutual exclusion: who can be between the load and the store of a counter's word. */
module CriticalSections {
  import opened RaceMachine
  import opened BarrierProtocol

  // Holding the lock, for the lock-based kinds; between load and store, for the split ones.
  predicate InWindow(pc: Pc) { pc.Entered? || pc.Loaded? || pc.Unlocking? }

  predicate Private(cfg: Config) {
    forall i, j :: 0 <= i < j < cfg.N() ==> cfg.counters[i] != cfg.counters[j]
  }

  // The configurations that `race` is meant to find exact.
  predicate Exact(cfg: Config) { !cfg.kind.Split() || Private(cfg) }

  predicate Holds(cfg: Config, s: State, i: nat, c: nat)
    requires |s.workers| == cfg.N()
  {
    i < cfg.N() && cfg.counters[i] == c && InWindow(s.workers[i].pc)
  }

  ghost predicate Exclusion(cfg: Config, s: State) {
    && Shape(cfg, s)
    && (cfg.kind.Locking() ==>
          && (forall i: nat, j: nat, c: nat :: i < j && Holds(cfg, s, i, c) ==> !Holds(cfg, s, j, c))
          && (forall i: nat, c: nat :: Holds(cfg, s, i, c) ==> s.cells[c].locked)
          && (forall c :: 0 <= c < |s.cells| && s.cells[c].locked ==> exists i: nat :: Holds(cfg, s, i, c)))
    && (Exact(cfg) ==>
          forall i :: 0 <= i < cfg.N() && s.workers[i].pc.Loaded? ==> s.workers[i].reg == s.cells[cfg.counters[i]].v)
  }

  lemma ExclusionStart(cfg: Config, memory: seq<Cell>)
    requires Ready(cfg, memory)
    ensures Exclusion(cfg, Start(cfg, memory))
  {
  }

  // The lock word stays equivalent to having a holder, and the holder stays unique.
  lemma LockStep(cfg: Config, s: State, i: nat)
    requires Barrier(cfg, s) && Exclusion(cfg, s) && i < cfg.N() && cfg.kind.Locking()
    ensures var t := WorkerStep(cfg, s, i);
      && (forall a: nat, b: nat, c: nat :: a < b && Holds(cfg, t, a, c) ==> !Holds(cfg, t, b, c))
      && (forall a: nat, c: nat :: Holds(cfg, t, a, c) ==> t.cells[c].locked)
      && (forall c :: 0 <= c < |t.cells| && t.cells[c].locked ==> exists a: nat :: Holds(cfg, t, a, c))
  {
    var t := WorkerStep(cfg, s, i);
    var mine := cfg.counters[i];
    assert WorkerOk(cfg, s.workers[i]);
    forall a: nat, c: nat ensures a != i ==> (Holds(cfg, t, a, c) <==> Holds(cfg, s, a, c)) {}
    assert Holds(cfg, s, i, mine) <==> InWindow(s.workers[i].pc);
    assert Holds(cfg, t, i, mine) <==> InWindow(t.workers[i].pc);
    forall c | 0 <= c < |t.cells| && t.cells[c].locked ensures exists a: nat :: Holds(cfg, t, a, c) {
      if c != mine || s.workers[i].pc != Top {
        assert s.cells[c].locked;
        var a: nat :| Holds(cfg, s, a, c);
        assert a == i || Holds(cfg, t, a, c);
      } else if s.cells[c].locked {
        var a: nat :| Holds(cfg, s, a, c);
        assert Holds(cfg, t, a, c);
      }
    }
  }

  lemma ExclusionWorkerStep(cfg: Config, s: State, i: nat)
    requires Barrier(cfg, s) && Exclusion(cfg, s) && i < cfg.N()
    ensures Exclusion(cfg, WorkerStep(cfg, s, i))
  {
    if cfg.kind.Locking() {
      LockStep(cfg, s, i);
    }
    var t := WorkerStep(cfg, s, i);
    var mine := cfg.counters[i];
    assert WorkerOk(cfg, s.workers[i]);
    if Exact(cfg) {
      forall a | 0 <= a < cfg.N() && t.workers[a].pc.Loaded?
        ensures t.workers[a].reg == t.cells[cfg.counters[a]].v
      {
        if a != i && cfg.counters[a] == mine && t.cells[mine].v != s.cells[mine].v {
          // only worker i itself can have been in the window of its counter
          assert Holds(cfg, s, a, mine);
          assert !Holds(cfg, s, i, mine) by {
            if a < i { assert !Holds(cfg, s, i, mine); }
          }
        }
      }
    }
  }

  lemma ExclusionMainStep(cfg: Config, s: State)
    requires Barrier(cfg, s) && Exclusion(cfg, s)
    ensures Exclusion(cfg, MainStep(cfg, s))
  {
    var t := MainStep(cfg, s);
    forall a: nat, c: nat ensures Holds(cfg, t, a, c) <==> Holds(cfg, s, a, c) {}
    forall c | 0 <= c < |t.cells| ensures t.cells[c].locked == s.cells[c].locked {}
  }

  lemma ExclusionStep(cfg: Config, s: State, actor: nat)
    requires Barrier(cfg, s) && Exclusion(cfg, s)
    ensures Exclusion(cfg, Step(cfg, s, actor))
  {
    if actor < cfg.N() {
      ExclusionWorkerStep(cfg, s, actor);
    } else if actor == cfg.N() {
      ExclusionMainStep(cfg, s);
    }
  }

  lemma {:induction false} ExclusionRun(cfg: Config, s: State, schedule: seq<nat>)
    requires Barrier(cfg, s) && Exclusion(cfg, s)
    ensures Barrier(cfg, Run(cfg, s, schedule)) && Exclusion(cfg, Run(cfg, s, schedule))
    decreases |schedule|
  {
    if schedule != [] {
      BarrierStep(cfg, s, schedule[0]);
      ExclusionStep(cfg, s, schedule[0]);
      ExclusionRun(cfg, Step(cfg, s, schedule[0]), schedule[1..]);
    }
  }

  /** Every run of the spinlock and of the mutex: two workers of one counter are never both between
      lock and unlock, so the accesses to v_ never meet, and the lock word tells whether anyone is. */
  lemma MutualExclusion(cfg: Config, memory: seq<Cell>, schedule: seq<nat>, i: nat, j: nat)
    requires Ready(cfg, memory) && cfg.kind.Locking()
    requires i < j < cfg.N() && cfg.counters[i] == cfg.counters[j]
    ensures var s := Run(cfg, Start(cfg, memory), schedule);
      && !(InWindow(s.workers[i].pc) && InWindow(s.workers[j].pc))
      && !((s.workers[i].pc.Entered? || s.workers[i].pc.Loaded?)
           && (s.workers[j].pc.Entered? || s.workers[j].pc.Loaded?))
      && (s.cells[cfg.counters[i]].locked <==> exists a: nat :: Holds(cfg, s, a, cfg.counters[i]))
  {
    BarrierStart(cfg, memory);
    ExclusionStart(cfg, memory);
    ExclusionRun(cfg, Start(cfg, memory), schedule);
    var s := Run(cfg, Start(cfg, memory), schedule);
    assert Holds(cfg, s, i, cfg.counters[i]) ==> !Holds(cfg, s, j, cfg.counters[i]);
  }

  // ---- After the race ----

  predicate Unlocked(cells: seq<Cell>) {
    forall c :: 0 <= c < |cells| ==> !cells[c].locked
  }

  // The other kinds never touch a lock word.
  lemma {:induction false} UnlockedRun(cfg: Config, s: State, schedule: seq<nat>)
    requires Barrier(cfg, s) && !cfg.kind.Locking() && Unlocked(s.cells)
    ensures Unlocked(Run(cfg, s, schedule).cells)
    decreases |schedule|
  {
    if schedule != [] {
      BarrierStep(cfg, s, schedule[0]);
      UnlockedStep(cfg, s, schedule[0]);
      UnlockedRun(cfg, Step(cfg, s, schedule[0]), schedule[1..]);
    }
  }

  lemma UnlockedStep(cfg: Config, s: State, actor: nat)
    requires Barrier(cfg, s) && !cfg.kind.Locking() && Unlocked(s.cells)
    ensures Unlocked(Step(cfg, s, actor).cells)
  {
    if actor < cfg.N() {
      assert WorkerOk(cfg, s.workers[actor]);
    }
  }

  /** Once main has joined its workers the counters can be raced again: no lock is left held. */
  lemma IdleAgain(cfg: Config, memory: seq<Cell>, schedule: seq<nat>)
    requires Ready(cfg, memory)
    ensures var s := Run(cfg, Start(cfg, memory), schedule);
      Joined(s.main) ==> Idle(s.cells)
  {
    BarrierStart(cfg, memory);
    ExclusionStart(cfg, memory);
    ExclusionRun(cfg, Start(cfg, memory), schedule);
    var s := Run(cfg, Start(cfg, memory), schedule);
    if !cfg.kind.Locking() {
      UnlockedRun(cfg, Start(cfg, memory), schedule);
    } else if Joined(s.main) {
      forall i: nat, c: nat ensures !Holds(cfg, s, i, c) {
        assert i < cfg.N() ==> Placed(cfg, s.main, i, s.workers[i]);
      }
    }
  }
}
