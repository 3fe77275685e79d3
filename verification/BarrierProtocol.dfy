/** The start barrier: what holds between main and the workers in every reachable state. */
module BarrierProtocol {
  import opened Sums
  import opened RaceMachine

  // Released by the barrier.
  predicate PastGate(pc: Pc) { !pc.Unspawned? && !pc.CheckIn? && !pc.AwaitGo? }

  function CheckedIn(workers: seq<Worker>): (flags: seq<int>)
    ensures |flags| == |workers|
  {
    seq(|workers|, i requires 0 <= i < |workers| => if workers[i].pc.Unspawned? || workers[i].pc.CheckIn? then 0 else 1)
  }

  function Spawned(cfg: Config, main: MainPc): nat {
    match main
    case Resetting(_) => 0
    case Spawning(i) => i
    case _ => cfg.N()
  }

  // main has set `go`.
  predicate Opened(main: MainPc) {
    main.Joining? || main.Folding? || main.Summing? || main.Returned?
  }

  // main has joined every worker.
  predicate Joined(main: MainPc) {
    main.Folding? || main.Summing? || main.Returned?
  }

  predicate MainOk(cfg: Config, main: MainPc) {
    match main
    case Resetting(j) => j <= |cfg.distinct|
    case Summing(j) => j <= |cfg.distinct|
    case Spawning(i) => i <= cfg.N()
    case Joining(i) => i <= cfg.N()
    case Folding(i) => i <= cfg.N()
    case _ => true
  }

  predicate WorkerOk(cfg: Config, w: Worker) {
    && w.done <= cfg.iterations
    && w.reg < WORD
    && (!PastGate(w.pc) ==> w.done == 0 && w.failures == 0)
    && (w.pc.Finished? ==> w.done == cfg.iterations)
    && (PastGate(w.pc) && !w.pc.Top? && !w.pc.Finished? ==> w.done < cfg.iterations)
    && (w.pc.Spin? ==> cfg.kind.Spinlock?)
    && (w.pc.Entered? || w.pc.Unlocking? ==> cfg.kind.Locking())
    && (w.pc.Loaded? ==> cfg.kind.Locking() || cfg.kind.Split())
    && (w.pc.Compare? || w.failures > 0 ==> cfg.kind.CasLoop?)
  }

  // Worker i stands where main's progress allows it to stand.
  predicate Placed(cfg: Config, main: MainPc, i: nat, w: Worker) {
    && WorkerOk(cfg, w)
    && (w.pc.Unspawned? <==> i >= Spawned(cfg, main))
    && (PastGate(w.pc) ==> Opened(main))
    && ((main.Joining? && i < main.i) || Joined(main) ==> w.pc.Finished?)
  }

  predicate Barrier(cfg: Config, s: State) {
    && Shape(cfg, s)
    && MainOk(cfg, s.main)
    && (forall c :: 0 <= c < |s.cells| ==> s.cells[c].v < WORD)
    && (forall i :: 0 <= i < cfg.N() ==> Placed(cfg, s.main, i, s.workers[i]))
    && s.go == Opened(s.main)
    && s.ready == Sum(CheckedIn(s.workers))
    && (s.main.Releasing? || s.go ==> s.ready == cfg.N())
  }

  // What memory looks like when race() is called: valid words, and no lock is held.
  predicate Idle(memory: seq<Cell>) {
    forall c :: 0 <= c < |memory| ==> memory[c].v < WORD && !memory[c].locked
  }

  predicate Ready(cfg: Config, memory: seq<Cell>) {
    cfg.Accepted() && cfg.InMemory(|memory|) && cfg.Deduplicated() && cfg.iterations < WORD && Idle(memory)
  }

  lemma BarrierStart(cfg: Config, memory: seq<Cell>)
    requires Ready(cfg, memory)
    ensures Barrier(cfg, Start(cfg, memory))
  {
    SumBounds(CheckedIn(Start(cfg, memory).workers), 0, 0);
  }

  lemma CheckInCount(s: State, i: nat, w: Worker)
    requires i < |s.workers|
    ensures Sum(CheckedIn(s.workers[i := w]))
         == Sum(CheckedIn(s.workers)) - CheckedIn(s.workers)[i] + CheckedIn([w])[0]
  {
    assert CheckedIn(s.workers[i := w]) == CheckedIn(s.workers)[i := CheckedIn([w])[0]];
    SumUpdate(CheckedIn(s.workers), i, CheckedIn([w])[0]);
  }

  lemma AllCheckedIn(cfg: Config, s: State, i: nat)
    requires Barrier(cfg, s) && i < cfg.N() && s.ready >= cfg.N()
    ensures s.ready == cfg.N()
    ensures !s.workers[i].pc.Unspawned? && !s.workers[i].pc.CheckIn?
  {
    var flags := CheckedIn(s.workers);
    SumBounds(flags, 0, 1);
    SumFull(flags, 1, i);
  }

  lemma BarrierWorkerStep(cfg: Config, s: State, i: nat)
    requires Barrier(cfg, s) && i < cfg.N()
    ensures Barrier(cfg, WorkerStep(cfg, s, i))
  {
    var (w, cell) := Local(cfg, s.workers[i], s.cells[cfg.counters[i]], s.go);
    CheckInCount(s, i, w);
    if s.ready >= cfg.N() {
      AllCheckedIn(cfg, s, i);
    }
  }

  lemma BarrierMainStep(cfg: Config, s: State)
    requires Barrier(cfg, s)
    ensures Barrier(cfg, MainStep(cfg, s))
  {
    var t := MainStep(cfg, s);
    if s.main.Spawning? && s.main.i < cfg.N() {
      CheckInCount(s, s.main.i, s.workers[s.main.i].(pc := CheckIn));
    } else {
      assert t.workers == s.workers;
    }
    if s.main.AwaitReady? && s.ready >= cfg.N() {
      AllCheckedIn(cfg, s, 0);
    }
    forall i | 0 <= i < cfg.N() ensures Placed(cfg, t.main, i, t.workers[i]) {
      assert Placed(cfg, s.main, i, s.workers[i]);
    }
  }

  lemma BarrierStep(cfg: Config, s: State, actor: nat)
    requires Barrier(cfg, s)
    ensures Barrier(cfg, Step(cfg, s, actor))
  {
    if actor < cfg.N() {
      BarrierWorkerStep(cfg, s, actor);
    } else if actor == cfg.N() {
      BarrierMainStep(cfg, s);
    }
  }

  lemma {:induction false} BarrierRun(cfg: Config, s: State, schedule: seq<nat>)
    requires Barrier(cfg, s)
    ensures Barrier(cfg, Run(cfg, s, schedule))
    decreases |schedule|
  {
    if schedule != [] {
      BarrierStep(cfg, s, schedule[0]);
      BarrierRun(cfg, Step(cfg, s, schedule[0]), schedule[1..]);
    }
  }

  /** Every run: `go` means that all workers have checked in; a worker only writes a counter after
      `go`, with every reset behind it; while main resets no worker exists, and while main sums no
      worker can change anything any more, so the unlocked value() and reset() race with nobody. */
  lemma StartBarrier(cfg: Config, memory: seq<Cell>, schedule: seq<nat>, i: nat)
    requires Ready(cfg, memory) && i < cfg.N()
    ensures var s := Run(cfg, Start(cfg, memory), schedule);
      && (s.go ==> s.ready == cfg.N() && !s.workers[i].pc.Unspawned? && !s.workers[i].pc.CheckIn?)
      && (s.workers[i].done > 0 ==> s.go)
      && (WorkerStep(cfg, s, i).cells != s.cells ==> s.go && !Joined(s.main))
      && (s.main.Resetting? ==> s.workers[i].pc.Unspawned? && WorkerStep(cfg, s, i) == s)
      && (Joined(s.main) ==> s.workers[i].done == cfg.iterations && WorkerStep(cfg, s, i) == s)
  {
    BarrierStart(cfg, memory);
    BarrierRun(cfg, Start(cfg, memory), schedule);
    var s := Run(cfg, Start(cfg, memory), schedule);
    if s.go {
      AllCheckedIn(cfg, s, i);
    }
    assert s.workers[i := s.workers[i]] == s.workers;
    assert s.cells[cfg.counters[i] := s.cells[cfg.counters[i]]] == s.cells;
  }
}
