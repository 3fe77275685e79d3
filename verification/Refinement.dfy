/** fetch_add, the CAS loop, the spinlock and the mutex all refine the atomic counter; so do the
    split increments as long as no counter is shared. */
module Refinement {
  import opened Sums
  import opened RaceMachine
  import opened BarrierProtocol
  import opened CriticalSections
  import opened AtomicSpec
  import opened Totals

  // An increment counts from the moment its value is published, even if the lock is still held.
  function Published(w: Worker): nat {
    if w.pc.Unlocking? then w.done + 1 else w.done
  }

  function PublishedAll(s: State): (r: seq<nat>)
    ensures |r| == |s.workers|
  {
    seq(|s.workers|, i requires 0 <= i < |s.workers| => Published(s.workers[i]))
  }

  function Words(s: State): (r: seq<nat>)
    ensures |r| == |s.cells|
  {
    seq(|s.cells|, c requires 0 <= c < |s.cells| => s.cells[c].v)
  }

  /** The atomic machine's view of a state of the race. */
  function Abs(cfg: Config, s: State): Spec {
    Spec(if s.main.Resetting? then s.main.j else |cfg.distinct|, Words(s), PublishedAll(s))
  }

  lemma RefinesWorkerStep(cfg: Config, s: State, i: nat)
    requires Barrier(cfg, s) && Exclusion(cfg, s) && Exact(cfg) && i < cfg.N()
    ensures SpecNext(cfg, Abs(cfg, s), Abs(cfg, WorkerStep(cfg, s, i)))
  {
    var t := WorkerStep(cfg, s, i);
    var c := cfg.counters[i];
    var (w, cell) := Local(cfg, s.workers[i], s.cells[c], s.go);
    assert WorkerOk(cfg, s.workers[i]);
    assert PublishedAll(t) == PublishedAll(s)[i := Published(w)];
    assert Words(t) == Words(s)[c := cell.v];
    if Published(w) == Published(s.workers[i]) {
      assert cell.v == s.cells[c].v;
      assert Abs(cfg, t) == Abs(cfg, s);
    } else {
      assert ByIncrement(cfg, Abs(cfg, s), Abs(cfg, t), i);
    }
  }

  lemma RefinesMainStep(cfg: Config, s: State)
    requires Barrier(cfg, s)
    ensures SpecNext(cfg, Abs(cfg, s), Abs(cfg, MainStep(cfg, s)))
  {
    var t := MainStep(cfg, s);
    assert PublishedAll(t) == PublishedAll(s);
    if s.main.Resetting? && s.main.j < |cfg.distinct| {
      assert Words(t) == Words(s)[cfg.distinct[s.main.j] := 0];
      assert ByReset(cfg, Abs(cfg, s), Abs(cfg, t));
    } else {
      assert Words(t) == Words(s);
    }
  }

  lemma RefinesStep(cfg: Config, s: State, actor: nat)
    requires Barrier(cfg, s) && Exclusion(cfg, s) && Exact(cfg)
    ensures SpecNext(cfg, Abs(cfg, s), Abs(cfg, Step(cfg, s, actor)))
  {
    if actor < cfg.N() {
      RefinesWorkerStep(cfg, s, actor);
    } else if actor == cfg.N() {
      RefinesMainStep(cfg, s);
    }
  }

  /** The atomic machine's view of every state that a schedule passes through. */
  ghost function AbsTrace(cfg: Config, s: State, schedule: seq<nat>): (trace: seq<Spec>)
    requires Shape(cfg, s)
    ensures |trace| == |schedule| + 1
    ensures trace[0] == Abs(cfg, s)
    ensures trace[|schedule|] == Abs(cfg, Run(cfg, s, schedule))
    decreases |schedule|
  {
    if schedule == [] then [Abs(cfg, s)]
    else [Abs(cfg, s)] + AbsTrace(cfg, Step(cfg, s, schedule[0]), schedule[1..])
  }

  lemma {:induction false} RefinesFrom(cfg: Config, s: State, schedule: seq<nat>)
    requires Barrier(cfg, s) && Exclusion(cfg, s) && Exact(cfg)
    ensures SpecTrace(cfg, AbsTrace(cfg, s, schedule))
    decreases |schedule|
  {
    if schedule != [] {
      BarrierStep(cfg, s, schedule[0]);
      ExclusionStep(cfg, s, schedule[0]);
      RefinesStep(cfg, s, schedule[0]);
      RefinesFrom(cfg, Step(cfg, s, schedule[0]), schedule[1..]);
      var rest := AbsTrace(cfg, Step(cfg, s, schedule[0]), schedule[1..]);
      var trace := AbsTrace(cfg, s, schedule);
      assert trace == [Abs(cfg, s)] + rest;
      forall i | 0 <= i < |trace| - 1 ensures SpecNext(cfg, trace[i], trace[i + 1]) {
        if i > 0 {
          assert SpecNext(cfg, rest[i - 1], rest[i]);
        }
      }
    }
  }

  /** Every run of an exact configuration is, step by step, a run of the atomic machine. */
  lemma RunsRefineAtomicCounter(cfg: Config, memory: seq<Cell>, schedule: seq<nat>)
    requires Ready(cfg, memory) && Exact(cfg)
    ensures SpecTrace(cfg, AbsTrace(cfg, Start(cfg, memory), schedule))
    ensures Conserved(cfg, Abs(cfg, Run(cfg, Start(cfg, memory), schedule)))
  {
    BarrierStart(cfg, memory);
    ExclusionStart(cfg, memory);
    RefinesFrom(cfg, Start(cfg, memory), schedule);
    ConservedTrace(cfg, AbsTrace(cfg, Start(cfg, memory), schedule), |schedule|);
  }

  // What the atomic machine counts on c is what the threads have completed, unless someone on c
  // has published an increment and not yet returned from it.
  lemma PublishedIsDone(cfg: Config, s: State, c: nat)
    requires |s.workers| == cfg.N()
    requires forall i :: 0 <= i < cfg.N() && cfg.counters[i] == c ==> !s.workers[i].pc.Unlocking?
    ensures Tally(cfg.counters, PublishedAll(s), c) == Tally(cfg.counters, Dones(s), c)
  {
    assert Shares(cfg.counters, PublishedAll(s), c) == Shares(cfg.counters, Dones(s), c);
  }

  // A counter that has been reset holds, mod 2^64, the increments published on it.
  lemma WordIsPublished(cfg: Config, s: State, c: nat)
    requires Shape(cfg, s) && Conserved(cfg, Abs(cfg, s)) && c in cfg.distinct && !s.main.Resetting?
    ensures c < |s.cells| && s.cells[c].v == Wrap(Tally(cfg.counters, PublishedAll(s), c))
  {
    var j :| 0 <= j < |cfg.distinct| && cfg.distinct[j] == c;
    assert Words(s)[c] == s.cells[c].v;
  }

  /** With the lock free, v_ is the number of critical sections completed on it (mod 2^64). */
  lemma FreeLockCounts(cfg: Config, memory: seq<Cell>, schedule: seq<nat>, i: nat)
    requires Ready(cfg, memory) && cfg.kind.Locking() && i < cfg.N()
    ensures var s := Run(cfg, Start(cfg, memory), schedule); var c := cfg.counters[i];
      !s.main.Resetting? && !s.cells[c].locked ==>
        s.cells[c].v == Wrap(Tally(cfg.counters, Dones(s), c))
  {
    RunsRefineAtomicCounter(cfg, memory, schedule);
    BarrierStart(cfg, memory);
    ExclusionStart(cfg, memory);
    ExclusionRun(cfg, Start(cfg, memory), schedule);
    var s := Run(cfg, Start(cfg, memory), schedule);
    var c := cfg.counters[i];
    if !s.main.Resetting? && !s.cells[c].locked {
      WordIsPublished(cfg, s, c);
      forall a: nat | a < cfg.N() && cfg.counters[a] == c ensures !s.workers[a].pc.Unlocking? {
        assert !Holds(cfg, s, a, c);
      }
      PublishedIsDone(cfg, s, c);
    }
  }

  function Dones(s: State): (r: seq<nat>)
    ensures |r| == |s.workers|
  {
    seq(|s.workers|, i requires 0 <= i < |s.workers| => s.workers[i].done)
  }

  /** When race() has joined its workers, every counter holds the iterations of those that shared it. */
  lemma CountersExact(cfg: Config, memory: seq<Cell>, schedule: seq<nat>, c: nat)
    requires Ready(cfg, memory) && Exact(cfg) && c in cfg.distinct
    ensures var s := Run(cfg, Start(cfg, memory), schedule);
      Joined(s.main) ==>
        s.cells[c].v == Wrap(Tally(cfg.counters, seq(cfg.N(), _ => cfg.iterations), c))
  {
    RunsRefineAtomicCounter(cfg, memory, schedule);
    BarrierStart(cfg, memory);
    BarrierRun(cfg, Start(cfg, memory), schedule);
    var s := Run(cfg, Start(cfg, memory), schedule);
    if Joined(s.main) {
      WordIsPublished(cfg, s, c);
      assert PublishedAll(s) == seq(cfg.N(), _ => cfg.iterations);
    }
  }

  // Everybody's iterations, grouped by counter, add up to threads x iterations.
  lemma TalliesTotal(cfg: Config)
    requires cfg.Deduplicated()
    ensures Sum(Tallies(cfg.distinct, cfg.counters, seq(cfg.N(), _ => cfg.iterations))) == cfg.N() * cfg.iterations
  {
    var all := seq(cfg.N(), _ => cfg.iterations);
    TalliesPartition(cfg.distinct, cfg.counters, all);
    SumBounds(all, cfg.iterations, cfg.iterations);
  }

  /** race() is exact for every aliasing: whichever counters the pointers share, the distinct ones
      add up to threads x iterations in 64-bit arithmetic, on every schedule that returns. */
  lemma RaceIsExact(cfg: Config, memory: seq<Cell>, schedule: seq<nat>)
    requires Ready(cfg, memory) && Exact(cfg)
    ensures var s := Run(cfg, Start(cfg, memory), schedule);
      s.main.Returned? ==> s.observed == cfg.ExpectedTotal()
  {
    var s := Run(cfg, Start(cfg, memory), schedule);
    BarrierStart(cfg, memory);
    AccumulatedRun(cfg, Start(cfg, memory), schedule);
    if s.main.Returned? {
      var words := Values(cfg, s, |cfg.distinct|);
      var tallies := Tallies(cfg.distinct, cfg.counters, seq(cfg.N(), _ => cfg.iterations));
      forall j | 0 <= j < |words| ensures words[j] == Wrap(tallies[j]) {
        CountersExact(cfg, memory, schedule, cfg.distinct[j]);
      }
      WrapSum(words, tallies);
      TalliesTotal(cfg);
    }
  }
}
