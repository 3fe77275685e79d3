/**
 The race as a program: counter objects with their atomic operations, and a race object whose fields
 main and the workers update, one access per turn.  Every turn is proved to be the transition system's
 step, so what holds of all its runs holds of this program under every scheduler.
 */
module RaceRun {
  import opened Sums
  import opened RaceMachine
  import opened BarrierProtocol
  import opened CriticalSections
  import opened Refinement
  import opened CasTotals
  import opened RepeatedRaces

  /** One counter object of any of the kinds; `locked` is the lock word of the lock-based ones. */
  class Counter {
    var v: nat
    var locked: bool

    ghost function View(): Cell
      reads this
    {
      Cell(v, locked)
    }

    constructor ()
      ensures View() == Cell(0, false)
    {
      v, locked := 0, false;
    }

    method Load() returns (x: nat)
      ensures x == v
    {
      x := v;
    }

    method Store(x: nat)
      modifies this`v
      ensures v == x
    {
      v := x;
    }

    method FetchAdd()
      modifies this`v
      ensures v == Wrap(old(v) + 1)
    {
      v := (v + 1) % WORD;
    }

    /** compare_exchange_weak(expected, expected + 1), which on x86 does not fail spuriously. */
    method CompareExchange(expected: nat) returns (exchanged: bool, seen: nat)
      modifies this`v
      ensures seen == old(v) && (exchanged <==> old(v) == expected)
      ensures v == if exchanged then Wrap(expected + 1) else old(v)
    {
      seen := v;
      exchanged := v == expected;
      if exchanged {
        v := (expected + 1) % WORD;
      }
    }

    method Exchange() returns (was: bool)
      modifies this`locked
      ensures was == old(locked) && locked
    {
      was, locked := locked, true;
    }

    method Release()
      modifies this`locked
      ensures !locked
    {
      locked := false;
    }
  }

  predicate DistinctObjects(memory: seq<Counter>) {
    forall a, b :: 0 <= a < b < |memory| ==> memory[a] != memory[b]
  }

  ghost function Cells(memory: seq<Counter>): (cells: seq<Cell>)
    reads memory
    ensures |cells| == |memory|
  {
    seq(|memory|, c requires 0 <= c < |memory| reads memory => memory[c].View())
  }

  class Race {
    const cfg: Config
    const memory: seq<Counter>
    var main: MainPc
    var ready: nat
    var go: bool
    var workers: seq<Worker>
    var casFailures: nat
    var observed: nat

    ghost function View(): State
      reads this, memory
    {
      State(main, ready, go, Cells(memory), workers, casFailures, observed)
    }

    ghost predicate Valid()
      reads this, memory
    {
      DistinctObjects(memory) && Shape(cfg, View())
    }

    constructor (cfg: Config, memory: seq<Counter>)
      requires DistinctObjects(memory) && cfg.Accepted() && cfg.InMemory(|memory|)
      ensures Valid() && this.cfg == cfg && this.memory == memory
      ensures View() == Start(cfg, Cells(memory))
    {
      this.cfg, this.memory := cfg, memory;
      main, ready, go := Resetting(0), 0, false;
      workers := seq(|cfg.counters|, _ => Worker(Unspawned, 0, 0, 0));
      casFailures, observed := 0, 0;
    }

    /** The next access of worker i: a statement of run_race_worker or of its counter's increment(). */
    method WorkerTurn(i: nat)
      requires Valid() && i < cfg.N()
      modifies this, memory
      ensures Valid() && View() == WorkerStep(cfg, old(View()), i)
    {
      ghost var s := View();
      var counter := memory[cfg.counters[i]];
      var w := workers[i];
      match w.pc {
        case Unspawned | Finished =>
        case CheckIn =>
          ready := ready + 1;
          w := w.(pc := AwaitGo);
        case AwaitGo =>
          if go { w := w.(pc := Top); }
        case Top =>
          if w.done >= cfg.iterations {
            w := w.(pc := Finished);
          } else {
            w := BeginIncrement(counter, w);
          }
        case Spin =>
          if !counter.locked { w := w.(pc := Top); }
        case Entered =>
          var x := counter.Load();
          w := w.(pc := Loaded, reg := x);
        case Loaded =>
          counter.Store((w.reg + 1) % WORD);
          w := if cfg.kind.Split() then w.(pc := Top, done := w.done + 1) else w.(pc := Unlocking);
        case Unlocking =>
          counter.Release();
          w := w.(pc := Top, done := w.done + 1);
        case Compare =>
          var exchanged, seen := counter.CompareExchange(w.reg);
          w := if exchanged then w.(pc := Top, done := w.done + 1)
               else w.(reg := seen, failures := w.failures + 1);
      }
      workers := workers[i := w];
      assert (w, counter.View()) == Local(cfg, s.workers[i], s.cells[cfg.counters[i]], s.go);
      assert View().cells == s.cells[cfg.counters[i] := counter.View()];
    }

    // The first access of an increment, by kind of counter.
    method BeginIncrement(counter: Counter, w: Worker) returns (after: Worker)
      requires w.pc.Top? && w.done < cfg.iterations
      modifies counter
      ensures forall g :: (after, counter.View()) == Local(cfg, w, old(counter.View()), g)
    {
      match cfg.kind {
        case Plain | LoadStore =>
          var x := counter.Load();
          after := w.(pc := Loaded, reg := x);
        case FetchAdd =>
          counter.FetchAdd();
          after := w.(done := w.done + 1);
        case CasLoop =>
          var x := counter.Load();
          after := w.(pc := Compare, reg := x);
        case Spinlock =>
          var was := counter.Exchange();
          after := if was then w.(pc := Spin) else w.(pc := Entered);
        case Mutex =>
          after := w;
          if !counter.locked {
            var _ := counter.Exchange();
            after := w.(pc := Entered);
          }
      }
    }

    /** The next access of main: a statement of race(). */
    method MainTurn()
      requires Valid()
      modifies this, memory
      ensures Valid() && View() == MainStep(cfg, old(View()))
    {
      ghost var s := View();
      match main {
        case Resetting(j) =>
          if j < |cfg.distinct| {
            var c := memory[cfg.distinct[j]];
            c.Store(0);
            main := Resetting(j + 1);
            assert View().cells == s.cells[cfg.distinct[j] := c.View()];
          } else {
            main := Spawning(0);
          }
        case Spawning(i) =>
          if i < |cfg.counters| {
            workers := workers[i := workers[i].(pc := CheckIn)];
            main := Spawning(i + 1);
          } else {
            main := AwaitReady;
          }
        case AwaitReady =>
          if ready >= |cfg.counters| { main := Releasing; }
        case Releasing =>
          go := true;
          main := Joining(0);
        case Joining(i) =>
          if i >= |cfg.counters| {
            main := Folding(0);
          } else if workers[i].pc.Finished? {
            main := Joining(i + 1);
          }
        case Folding(i) =>
          if i < |cfg.counters| {
            casFailures := (casFailures + workers[i].failures) % WORD;
            main := Folding(i + 1);
          } else {
            main := Summing(0);
          }
        case Summing(j) =>
          if j < |cfg.distinct| {
            var x := memory[cfg.distinct[j]].Load();
            observed := (observed + x) % WORD;
            main := Summing(j + 1);
          } else {
            main := Returned;
          }
        case Returned =>
      }
    }

    /** Any scheduler: the actors take turns as it says. */
    method Play(schedule: seq<nat>)
      requires Valid()
      modifies this, memory
      ensures Valid() && View() == Run(cfg, old(View()), schedule)
    {
      var t := 0;
      assert schedule[0..] == schedule;
      while t < |schedule|
        invariant 0 <= t <= |schedule|
        invariant Valid()
        invariant Run(cfg, View(), schedule[t..]) == Run(cfg, old(View()), schedule)
      {
        assert schedule[t..][1..] == schedule[t + 1..];
        if schedule[t] < |cfg.counters| {
          WorkerTurn(schedule[t]);
        } else if schedule[t] == |cfg.counters| {
          MainTurn();
        }
        t := t + 1;
      }
    }
  }

  /** race(): without a counter for every CPU it returns at once, with nothing observed and nothing
      changed; otherwise it reports what the run under the schedule leads to.  Hence, if the scheduler
      lets it return, its counts are right for every exact configuration, its CAS failures are bounded,
      and the counters can be raced again. */
  method RunRace(cfg: Config, sorted: seq<nat>, memory: seq<Counter>, schedule: seq<nat>) returns (r: RaceResult)
    requires Ascending(sorted) && multiset(sorted) == multiset(cfg.counters) && cfg.distinct == Unique(sorted)
    requires DistinctObjects(memory) && cfg.InMemory(|memory|) && Idle(Cells(memory)) && cfg.iterations < WORD
    modifies memory
    ensures r.expectedTotal == Wrap(cfg.cpus * cfg.iterations)
    ensures !cfg.Accepted() ==>
      r.returned && r.observedTotal == 0 && r.casFailures == 0 && Cells(memory) == old(Cells(memory))
    ensures cfg.Accepted() ==>
      var s := Run(cfg, Start(cfg, old(Cells(memory))), schedule);
      && r.returned == s.main.Returned?
      && r.observedTotal == s.observed
      && r.casFailures == s.casFailures
      && Cells(memory) == s.cells
    ensures cfg.Accepted() && r.returned && Exact(cfg) ==> r.CountsOk()
    ensures cfg.Accepted() && r.returned ==> r.casFailures <= MostFailures(cfg.cpus, cfg.iterations)
    ensures r.returned ==> Idle(Cells(memory))
  {
    r := RaceResult(true, (cfg.cpus * cfg.iterations) % WORD, 0, 0);
    if cfg.cpus == 0 || |cfg.counters| != cfg.cpus {
      return;
    }
    SortUniqueDeduplicates(cfg, sorted);
    assert cfg.(distinct := Unique(sorted)) == cfg;
    ghost var cells := Cells(memory);
    var race := new Race(cfg, memory);
    race.Play(schedule);
    r := r.(returned := race.main.Returned?, observedTotal := race.observed, casFailures := race.casFailures);
    if r.returned {
      ReportedFailuresBounded(cfg, cells, schedule);
      IdleAgain(cfg, cells, schedule);
      if Exact(cfg) {
        RaceIsExact(cfg, cells, schedule);
      }
    }
  }

  // ---- Repeated races ----

  /** Race n of the given ones. */
  method NextRace(cfg: Config, sorted: seq<nat>, memory: seq<Counter>, ghost cells: seq<Cell>,
                  schedules: seq<seq<nat>>, n: nat, ghost from: nat, m: RaceTally)
      returns (after: RaceTally)
    requires Ascending(sorted) && multiset(sorted) == multiset(cfg.counters) && cfg.distinct == Unique(sorted)
    requires DistinctObjects(memory) && cfg.InMemory(|memory|) && Idle(Cells(memory)) && cfg.iterations < WORD
    requires |cells| == |memory| && from <= n < |schedules| && m.finished
    requires m == Counting(cfg, cells, schedules, from, n) && Stands(cfg, cells, schedules, n, Cells(memory), true)
    modifies memory
    ensures after == Counting(cfg, cells, schedules, from, n + 1)
    ensures Stands(cfg, cells, schedules, n + 1, Cells(memory), after.finished)
    ensures after.finished ==> Idle(Cells(memory))
  {
    var r := RunRace(cfg, sorted, memory, schedules[n]);
    after := Counted(m, r);
    if cfg.Accepted() {
      RaceStarts(cfg, cells, schedules, n);
    }
  }

  /** Races back to back on the same counters, those with numbers in [from, to), up to the first that does
      not return; `cells` is what the counters held before race 0. */
  method RaceAll(cfg: Config, sorted: seq<nat>, memory: seq<Counter>, ghost cells: seq<Cell>,
                 schedules: seq<seq<nat>>, from: nat, to: nat)
      returns (m: RaceTally, ghost raced: nat)
    requires Ascending(sorted) && multiset(sorted) == multiset(cfg.counters) && cfg.distinct == Unique(sorted)
    requires DistinctObjects(memory) && cfg.InMemory(|memory|) && Idle(Cells(memory)) && cfg.iterations < WORD
    requires |cells| == |memory| && from <= to <= |schedules|
    requires Stands(cfg, cells, schedules, from, Cells(memory), true)
    modifies memory
    ensures from <= raced <= to && (m.finished ==> raced == to)
    ensures m == Counting(cfg, cells, schedules, from, raced)
    ensures Stands(cfg, cells, schedules, raced, Cells(memory), m.finished)
    ensures m.finished ==> Idle(Cells(memory))
  {
    var t := from;
    m := RaceTally(true, true, 0, 0);
    while t < to && m.finished
      invariant from <= t <= to
      invariant m == Counting(cfg, cells, schedules, from, t)
      invariant Stands(cfg, cells, schedules, t, Cells(memory), m.finished)
      invariant m.finished ==> Idle(Cells(memory))
    {
      m := NextRace(cfg, sorted, memory, cells, schedules, t, from, m);
      t := t + 1;
    }
    raced := t;
  }

  /** measure() and summarize(): the first `warmups` races are warm-ups, the others are timed.  The counts
      are ok exactly if those of all races are, warm-ups included; the failures are the sum over the timed
      races in 64-bit arithmetic, and the increments they are divided by are what those were asked for.
      For exact configurations the counts are ok on every schedule. */
  method Measure(cfg: Config, sorted: seq<nat>, memory: seq<Counter>, schedules: seq<seq<nat>>, warmups: nat)
      returns (m: RaceTally)
    requires Ascending(sorted) && multiset(sorted) == multiset(cfg.counters) && cfg.distinct == Unique(sorted)
    requires DistinctObjects(memory) && cfg.InMemory(|memory|) && Idle(Cells(memory)) && cfg.iterations < WORD
    requires warmups <= |schedules|
    modifies memory
    ensures !cfg.Accepted() ==>
      && m.finished && m.failures == 0
      && (m.countsOk <==> schedules == [] || Wrap(cfg.cpus * cfg.iterations) == 0)
    ensures cfg.Accepted() ==>
      var runs := Races(cfg, old(Cells(memory)), schedules, |schedules|);
      && (m.finished <==> forall t :: 0 <= t < |runs| ==> runs[t].main.Returned?)
      && (m.finished ==>
            && |runs| == |schedules|
            && (m.countsOk <==> forall t :: 0 <= t < |runs| ==> runs[t].observed == Wrap(cfg.cpus * cfg.iterations))
            && m.failures == Wrap(Sum(Reported(runs[warmups..]))))
    ensures m.finished ==> m.increments == Wrap((|schedules| - warmups) * (cfg.cpus * cfg.iterations))
    ensures m.finished ==> Idle(Cells(memory))
    ensures m.finished && cfg.Accepted() && Exact(cfg) ==> m.countsOk
    ensures m.finished && cfg.Accepted() ==>
      m.failures <= (|schedules| - warmups) * MostFailures(cfg.cpus, cfg.iterations)
  {
    ghost var cells := Cells(memory);
    var warmup, raced := RaceAll(cfg, sorted, memory, cells, schedules, 0, warmups);
    if !warmup.finished {
      Unfinished(cfg, cells, schedules, raced, Cells(memory));
      return RaceTally(false, false, 0, 0);
    }
    m, raced := RaceAll(cfg, sorted, memory, cells, schedules, warmups, |schedules|);
    if !m.finished {
      Unfinished(cfg, cells, schedules, raced, Cells(memory));
    } else if cfg.Accepted() {
      MeasuredCounts(cfg, cells, schedules, warmups);
      Measured(cfg, sorted, cells, schedules, warmups);
    } else {
      CountingNothing(cfg, cells, schedules, 0, warmups);
      CountingNothing(cfg, cells, schedules, warmups, |schedules|);
    }
    m := m.(countsOk := warmup.countsOk && m.countsOk);
  }
}
