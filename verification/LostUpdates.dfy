/**
 The negative control: increments made of a separate load and store.  What every run keeps, and between
 which bounds the words end for any aliasing.
 */
module LostUpdates {
  import opened Sums
  import opened RaceMachine
  import opened BarrierProtocol
  import opened Refinement
  import opened CasRetries

  // ---- What every run keeps ----

  predicate WasReset(cfg: Config, s: State, c: nat)
    requires Shape(cfg, s)
  {
    s.main.Resetting? ==> exists x :: 0 <= x < s.main.j && x < |cfg.distinct| && cfg.distinct[x] == c
  }

  predicate UsedBy(cfg: Config, s: State, c: nat, i: nat)
    requires Shape(cfg, s)
  {
    i < cfg.N() && cfg.counters[i] == c
  }

  // A sharer holds no value above the tick count, and neither it nor the word is zero once it has stored.
  predicate SharerOk(w: Worker, ticks: int, v: nat) {
    && (w.pc.Loaded? ==> w.reg <= ticks)
    && (w.done >= 1 ==> v >= 1 && (w.pc.Loaded? ==> w.reg >= 1))
  }

  /** The word of counter c never exceeds the increments made on it, is at least 1 once any has been
      stored, and stays below 2 only while some sharer has completed at most one. */
  ghost predicate Sandwiched(cfg: Config, s: State, c: nat) {
    && Barrier(cfg, s)
    && c < |s.cells|
    && (WasReset(cfg, s, c) ==> s.cells[c].v <= TicksOn(cfg, s, c))
    && (forall i: nat :: UsedBy(cfg, s, c, i) ==> SharerOk(s.workers[i], TicksOn(cfg, s, c), s.cells[c].v))
    && (s.cells[c].v < 2 ==> exists i: nat :: UsedBy(cfg, s, c, i) && s.workers[i].done <= 1)
  }

  lemma SandwichedStart(cfg: Config, memory: seq<Cell>, c: nat)
    requires Ready(cfg, memory) && c in cfg.counters
    ensures Sandwiched(cfg, Start(cfg, memory), c)
  {
    BarrierStart(cfg, memory);
    var i :| 0 <= i < cfg.N() && cfg.counters[i] == c;
    assert UsedBy(cfg, Start(cfg, memory), c, i);
  }

  lemma TicksOnRange(cfg: Config, s: State, c: nat)
    requires Barrier(cfg, s)
    ensures 0 <= TicksOn(cfg, s, c) <= Sharers(cfg.counters, c) * cfg.iterations
  {
    forall i | 0 <= i < cfg.N() ensures Dones(s)[i] <= cfg.iterations {
      assert WorkerOk(cfg, s.workers[i]);
    }
    TallyAtMost(cfg.counters, Dones(s), cfg.iterations, c);
  }

  lemma SandwichedWorkerStep(cfg: Config, s: State, c: nat, i: nat)
    requires Sandwiched(cfg, s, c) && cfg.kind.Split() && i < cfg.N()
    requires Sharers(cfg.counters, c) * cfg.iterations < WORD
    ensures Sandwiched(cfg, WorkerStep(cfg, s, i), c)
  {
    var t := WorkerStep(cfg, s, i);
    assert WorkerOk(cfg, s.workers[i]);
    BarrierWorkerStep(cfg, s, i);
    TicksStep(cfg, s, i, c);
    TicksOnRange(cfg, t, c);
    forall a: nat | a < cfg.N() ensures UsedBy(cfg, t, c, a) == UsedBy(cfg, s, c, a) {}
    assert UsedBy(cfg, s, c, i) <==> cfg.counters[i] == c;
    if cfg.counters[i] == c && s.workers[i].pc.Loaded? {
      WrapSmall(s.workers[i].reg + 1);
      assert t.cells[c].v == s.workers[i].reg + 1;
    } else {
      assert t.cells[c].v == s.cells[c].v;
    }
    if t.cells[c].v < 2 {
      if cfg.counters[i] == c && s.workers[i].pc.Loaded? {
        assert UsedBy(cfg, t, c, i) && t.workers[i].done <= 1;
      } else {
        var a: nat :| UsedBy(cfg, s, c, a) && s.workers[a].done <= 1;
        assert UsedBy(cfg, t, c, a) && t.workers[a].done == s.workers[a].done;
      }
    }
  }

  // What main does to the workers is at most to spawn one.
  lemma MainSpawnsAtMost(cfg: Config, s: State)
    requires Barrier(cfg, s)
    ensures var t := MainStep(cfg, s);
      && Dones(t) == Dones(s)
      && forall i :: 0 <= i < cfg.N() ==>
           t.workers[i] == s.workers[i] || (!PastGate(s.workers[i].pc) && t.workers[i] == s.workers[i].(pc := CheckIn))
  {
    if s.main.Spawning? && s.main.i < cfg.N() {
      assert Placed(cfg, s.main, s.main.i, s.workers[s.main.i]);
    }
  }

  lemma SandwichedReset(cfg: Config, s: State, c: nat)
    requires Sandwiched(cfg, s, c) && c in cfg.counters
    requires s.main.Resetting? && s.main.j < |cfg.distinct|
    requires Barrier(cfg, MainStep(cfg, s))
    ensures Sandwiched(cfg, MainStep(cfg, s), c)
  {
    var t := MainStep(cfg, s);
    assert Dones(t) == Dones(s);
    TicksOnRange(cfg, s, c);
    var a :| 0 <= a < cfg.N() && cfg.counters[a] == c;
    assert UsedBy(cfg, t, c, a) && WorkerOk(cfg, t.workers[a]);
    if cfg.distinct[s.main.j] != c && WasReset(cfg, t, c) {
      var x :| 0 <= x < t.main.j && cfg.distinct[x] == c;
      assert x < s.main.j && WasReset(cfg, s, c);
    }
  }

  lemma SandwichedMainStep(cfg: Config, s: State, c: nat)
    requires Sandwiched(cfg, s, c) && c in cfg.counters && c in cfg.distinct
    ensures Sandwiched(cfg, MainStep(cfg, s), c)
  {
    var t := MainStep(cfg, s);
    BarrierMainStep(cfg, s);
    if s.main.Resetting? && s.main.j < |cfg.distinct| {
      SandwichedReset(cfg, s, c);
    } else {
      MainSpawnsAtMost(cfg, s);
      assert t.cells == s.cells;
      assert WasReset(cfg, s, c);
      forall i: nat | UsedBy(cfg, t, c, i) ensures SharerOk(t.workers[i], TicksOn(cfg, t, c), t.cells[c].v) {
        assert UsedBy(cfg, s, c, i);
      }
      if t.cells[c].v < 2 {
        var a: nat :| UsedBy(cfg, s, c, a) && s.workers[a].done <= 1;
        assert UsedBy(cfg, t, c, a) && t.workers[a].done <= 1;
      }
    }
  }

  lemma {:induction false} SandwichedRun(cfg: Config, s: State, c: nat, schedule: seq<nat>)
    requires Sandwiched(cfg, s, c) && cfg.kind.Split() && c in cfg.counters && c in cfg.distinct
    requires Sharers(cfg.counters, c) * cfg.iterations < WORD
    ensures Sandwiched(cfg, Run(cfg, s, schedule), c)
    decreases |schedule|
  {
    if schedule != [] {
      if schedule[0] < cfg.N() {
        SandwichedWorkerStep(cfg, s, c, schedule[0]);
      } else if schedule[0] == cfg.N() {
        SandwichedMainStep(cfg, s, c);
      }
      SandwichedRun(cfg, Step(cfg, s, schedule[0]), c, schedule[1..]);
    }
  }

  /** Load and store on any shared counter, for any aliasing and every schedule: in the end the word
      is at least 2 (at least the iteration count, if that is smaller) and at most what was asked. */
  lemma LoadStoreBounds(cfg: Config, memory: seq<Cell>, schedule: seq<nat>, c: nat)
    requires Ready(cfg, memory) && cfg.kind.Split() && c in cfg.counters
    requires Sharers(cfg.counters, c) * cfg.iterations < WORD
    requires Joined(Run(cfg, Start(cfg, memory), schedule).main)
    ensures var v := Run(cfg, Start(cfg, memory), schedule).cells[c].v;
      && v <= Sharers(cfg.counters, c) * cfg.iterations
      && (cfg.iterations >= 1 ==> v >= 1)
      && (cfg.iterations >= 2 ==> v >= 2)
  {
    SandwichedStart(cfg, memory, c);
    SandwichedRun(cfg, Start(cfg, memory), c, schedule);
    var s := Run(cfg, Start(cfg, memory), schedule);
    TicksOnRange(cfg, s, c);
    forall i: nat | UsedBy(cfg, s, c, i) ensures s.workers[i].done == cfg.iterations {
      assert WorkerOk(cfg, s.workers[i]);
    }
    var i :| 0 <= i < cfg.N() && cfg.counters[i] == c;
    assert UsedBy(cfg, s, c, i);
  }
}
