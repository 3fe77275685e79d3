/** Exactly which totals the load-then-store control can report, and exactly when `race` is exact. */
module LossOutcomes {
  import opened Sums
  import opened RaceMachine
  import opened BarrierProtocol
  import opened CriticalSections
  import opened Totals
  import opened Refinement
  import opened CasRetries
  import opened LostUpdates
  import opened LossSchedules

  // Every thread on the same counter, as shared_by arranges.
  predicate AllOnOne(cfg: Config) {
    forall i :: 0 <= i < cfg.N() ==> cfg.counters[i] == cfg.counters[0]
  }

  /** The schedule makes race() return, with this observed total. */
  predicate Reports(cfg: Config, memory: seq<Cell>, schedule: seq<nat>, total: nat)
    requires Ready(cfg, memory)
  {
    var s := Run(cfg, Start(cfg, memory), schedule);
    s.main.Returned? && s.observed == total
  }

  /** The smallest total n threads of k load-then-store increments can leave behind. */
  function Lowest(n: nat, k: nat): nat {
    if n <= 1 || k <= 1 then (if n == 0 then 0 else k) else 2
  }

  lemma {:induction false} TallyAll(counters: seq<nat>, amounts: seq<nat>, c: nat)
    requires |counters| == |amounts| && forall i :: 0 <= i < |counters| ==> counters[i] == c
    ensures Tally(counters, amounts, c) == Sum(amounts)
  {
    if counters != [] {
      assert Shares(counters, amounts, c)[1..] == Shares(counters[1..], amounts[1..], c);
      TallyAll(counters[1..], amounts[1..], c);
    }
  }

  // ---- Reaching a chosen total ----

  // One thread holds its stale load while the others make w increments ...
  lemma StaleLoad(cfg: Config, s: State, w: nat) returns (schedule: seq<nat>)
    requires AtGate(cfg, s) && cfg.kind.Split() && AllOnOne(cfg) && cfg.N() >= 2 && cfg.iterations >= 1
    requires w <= (cfg.N() - 1) * cfg.iterations
    ensures var t := Run(cfg, s, schedule); var last := cfg.N() - 1;
      && Tracked(cfg, t, last, cfg.counters[0], 0)
      && t.workers[last].reg == 0 && t.workers[last].done == 0
      && Sum(Dones(t)) == w
  {
    var star, last := cfg.counters[0], cfg.N() - 1;
    GateIsTracked(cfg, s, star);
    LoadStep(cfg, s, star, 0, last);
    var t := Step(cfg, s, last);
    TallyAll(cfg.counters, Dones(s), star);
    SumBounds(Dones(s), 0, 0);
    RoomsOf(cfg, Dones(t));
    RoomsHeld(cfg, Dones(t), last);
    Distribute(cfg.N(), cfg.iterations);
    var spend := Spend(cfg, t, last, star, 0, w);
    schedule := [last] + spend;
    RunOne(cfg, s, last);
    RunConcat(cfg, s, [last], spend);
  }

  // Short of all their increments, some other thread has one left.
  lemma SomeoneLeft(cfg: Config, s: State, hold: nat, w: nat) returns (j: nat)
    requires |s.workers| == cfg.N() && hold < cfg.N() && Sum(Dones(s)) == w && s.workers[hold].done == 0
    requires w < (cfg.N() - 1) * cfg.iterations
    ensures j < cfg.N() && j != hold && s.workers[j].done < cfg.iterations
  {
    RoomsOf(cfg, Dones(s));
    RoomsHeld(cfg, Dones(s), hold);
    Distribute(cfg.N(), cfg.iterations);
    j := SomeRoom(Rooms(cfg, Dones(s), hold));
  }

  // ... and then overwrites them.
  lemma FirstWindow(cfg: Config, s: State, w: nat) returns (schedule: seq<nat>)
    requires AtGate(cfg, s) && cfg.kind.Split() && AllOnOne(cfg) && cfg.N() >= 2 && cfg.iterations >= 1
    requires w <= (cfg.N() - 1) * cfg.iterations
    ensures var t := Run(cfg, s, schedule); var last := cfg.N() - 1;
      && Tracked(cfg, t, -1, cfg.counters[0], w)
      && t.workers[last].done == 1
      && (w < (cfg.N() - 1) * cfg.iterations ==>
            exists j :: 0 <= j < last && t.workers[j].done < cfg.iterations)
  {
    var last := cfg.N() - 1;
    var stale := StaleLoad(cfg, s, w);
    var t := Run(cfg, s, stale);
    TallyAll(cfg.counters, Dones(t), cfg.counters[0]);
    StoreStep(cfg, t, 0, last, 0);
    schedule := stale + [last];
    RunOne(cfg, t, last);
    RunConcat(cfg, s, stale, [last]);
    if w < (cfg.N() - 1) * cfg.iterations {
      var j := SomeoneLeft(cfg, t, last, w);
      assert j < last && Step(cfg, t, last).workers[j].done < cfg.iterations;
    }
  }

  // The same with thread i held and thread j alone making the w increments.
  lemma SecondWindow(cfg: Config, s: State, lost: int, i: nat, j: nat, w: nat) returns (schedule: seq<nat>)
    requires i < cfg.N() && j < cfg.N() && i != j && |cfg.counters| == cfg.N()
    requires cfg.counters[i] == cfg.counters[j]
    requires Tracked(cfg, s, -1, cfg.counters[i], lost)
    requires s.workers[i].done < cfg.iterations && s.workers[j].done + w <= cfg.iterations
    ensures Tracked(cfg, Run(cfg, s, schedule), -1, cfg.counters[i], lost + w)
  {
    var star := cfg.counters[i];
    LoadStep(cfg, s, star, lost, i);
    var t1 := Step(cfg, s, i);
    var spend := SpendAlone(cfg, t1, i, star, lost, j, w);
    var t2 := Run(cfg, t1, spend);
    var before := Tally(cfg.counters, Dones(s), star);
    TallyUpdate(cfg.counters, Dones(s), j, s.workers[j].done + w, star);
    StoreStep(cfg, t2, lost, i, before - lost);
    schedule := [i] + (spend + [i]);
    RunOne(cfg, s, i);
    RunOne(cfg, t2, i);
    RunConcat(cfg, t1, spend, [i]);
    RunConcat(cfg, s, [i], spend + [i]);
  }

  // How many of the losses the first window takes; the second takes the rest.
  lemma FirstShare(n: nat, k: nat, lost: nat) returns (w: nat)
    requires n >= 2 && k >= 1 && lost <= n * k - Lowest(n, k)
    ensures w <= lost && w <= (n - 1) * k && lost - w <= k - 1
    ensures w < lost ==> w < (n - 1) * k
  {
    Distribute(n, k);
    var most := (n - 1) * k;
    MulMonotone(1, n - 1, k);
    w := if k == 1 || lost < most then lost else most - 1;
  }

  // Two windows lose any number of increments up to all but two of them.
  lemma LoseSome(cfg: Config, s: State, lost: nat) returns (schedule: seq<nat>)
    requires AtGate(cfg, s) && cfg.kind.Split() && AllOnOne(cfg) && cfg.N() >= 2 && cfg.iterations >= 1
    requires lost <= cfg.N() * cfg.iterations - Lowest(cfg.N(), cfg.iterations)
    ensures Tracked(cfg, Run(cfg, s, schedule), -1, cfg.counters[0], lost)
  {
    var w := FirstShare(cfg.N(), cfg.iterations, lost);
    schedule := FirstWindow(cfg, s, w);
    if w < lost {
      var second := RestOfLoss(cfg, Run(cfg, s, schedule), w, lost - w);
      RunConcat(cfg, s, schedule, second);
      schedule := schedule + second;
    }
  }

  lemma RestOfLoss(cfg: Config, t: State, w: nat, more: nat) returns (schedule: seq<nat>)
    requires cfg.N() >= 2 && AllOnOne(cfg) && more <= cfg.iterations - 1
    requires Tracked(cfg, t, -1, cfg.counters[0], w) && t.workers[cfg.N() - 1].done == 1
    requires exists j :: 0 <= j < cfg.N() - 1 && t.workers[j].done < cfg.iterations
    ensures Tracked(cfg, Run(cfg, t, schedule), -1, cfg.counters[0], w + more)
  {
    var j :| 0 <= j < cfg.N() - 1 && t.workers[j].done < cfg.iterations;
    schedule := SecondWindow(cfg, t, w, j, cfg.N() - 1, more);
  }

  lemma GateOpens(cfg: Config, memory: seq<Cell>) returns (gate: seq<nat>)
    requires Ready(cfg, memory)
    ensures AtGate(cfg, Run(cfg, Start(cfg, memory), gate))
  {
    ReachableStart(cfg, memory);
    gate := OpenGate(cfg, Start(cfg, memory));
  }

  lemma EndAfter(cfg: Config, memory: seq<Cell>, gate: seq<nat>, lose: seq<nat>, star: nat, lost: int)
      returns (schedule: seq<nat>)
    requires Ready(cfg, memory) && star in cfg.counters
    requires AtGate(cfg, Run(cfg, Start(cfg, memory), gate))
    requires Tracked(cfg, Run(cfg, Run(cfg, Start(cfg, memory), gate), lose), -1, star, lost)
    ensures Reports(cfg, memory, schedule, Wrap(cfg.N() * cfg.iterations - lost))
  {
    var s := Start(cfg, memory);
    var t := Run(cfg, s, gate);
    var u := Run(cfg, t, lose);
    ReachableRun(cfg, t, lose);
    var conclude := Conclude(cfg, u, star, lost);
    RunConcat(cfg, t, lose, conclude);
    RunConcat(cfg, s, gate, lose + conclude);
    schedule := gate + (lose + conclude);
  }

  // One thread, or nothing to do: nothing can be lost.
  lemma NoLoss(n: nat, k: nat)
    requires n == 1 || k == 0
    ensures n * k == Lowest(n, k)
  {
  }

  lemma LoseAny(cfg: Config, s: State, lost: nat) returns (schedule: seq<nat>)
    requires AtGate(cfg, s) && cfg.kind.Split() && AllOnOne(cfg)
    requires lost <= cfg.N() * cfg.iterations - Lowest(cfg.N(), cfg.iterations)
    ensures Tracked(cfg, Run(cfg, s, schedule), -1, cfg.counters[0], lost)
  {
    if cfg.N() >= 2 && cfg.iterations >= 1 {
      schedule := LoseSome(cfg, s, lost);
    } else {
      NoLoss(cfg.N(), cfg.iterations);
      GateIsTracked(cfg, s, cfg.counters[0]);
      schedule := [];
    }
  }

  lemma Reach(cfg: Config, memory: seq<Cell>, total: nat) returns (schedule: seq<nat>)
    requires Ready(cfg, memory) && cfg.kind.Split() && AllOnOne(cfg)
    requires Lowest(cfg.N(), cfg.iterations) <= total <= cfg.N() * cfg.iterations
    ensures Reports(cfg, memory, schedule, Wrap(total))
  {
    var gate := GateOpens(cfg, memory);
    var lost := cfg.N() * cfg.iterations - total;
    var lose := LoseAny(cfg, Run(cfg, Start(cfg, memory), gate), lost);
    schedule := EndAfter(cfg, memory, gate, lose, cfg.counters[0], lost);
  }

  // ---- The theorems ----

  lemma SharedCounterOnly(cfg: Config, memory: seq<Cell>)
    requires Ready(cfg, memory) && AllOnOne(cfg)
    ensures cfg.distinct == [cfg.counters[0]]
    ensures Sharers(cfg.counters, cfg.counters[0]) == cfg.N()
  {
    var c := cfg.counters[0];
    forall x ensures x in cfg.distinct <==> x in [c] {
      assert c in cfg.distinct;
      assert x in cfg.distinct ==> x in cfg.counters;
    }
    DeduplicatedIsUnique(cfg.distinct, [c]);
    TallyAll(cfg.counters, seq(cfg.N(), _ => 1), cfg.counters[0]);
    SumBounds(seq(cfg.N(), _ => 1), 1, 1);
  }

  // What race() reports on one shared counter is the word in it.
  lemma ReportsTheWord(cfg: Config, memory: seq<Cell>, schedule: seq<nat>, total: nat)
    requires Ready(cfg, memory) && AllOnOne(cfg) && Reports(cfg, memory, schedule, total)
    ensures total == Run(cfg, Start(cfg, memory), schedule).cells[cfg.counters[0]].v
  {
    SharedCounterOnly(cfg, memory);
    BarrierStart(cfg, memory);
    AccumulatedRun(cfg, Start(cfg, memory), schedule);
    var s := Run(cfg, Start(cfg, memory), schedule);
    var word := s.cells[cfg.counters[0]].v;
    assert Values(cfg, s, 1) == [word];
    assert [word][1..] == [] && Sum([word]) == word;
    WrapSmall(word);
  }

  /** No schedule reports less than Lowest or more than n*k, as long as n*k fits a word. */
  lemma ReportsInRange(cfg: Config, memory: seq<Cell>, schedule: seq<nat>, total: nat)
    requires Ready(cfg, memory) && cfg.kind.Split() && AllOnOne(cfg)
    requires cfg.N() * cfg.iterations < WORD && Reports(cfg, memory, schedule, total)
    ensures Lowest(cfg.N(), cfg.iterations) <= total <= cfg.N() * cfg.iterations
  {
    if cfg.N() == 1 {
      RaceIsExact(cfg, memory, schedule);
      WrapSmall(cfg.iterations);
    } else {
      SharedCounterOnly(cfg, memory);
      ReportsTheWord(cfg, memory, schedule, total);
      LoadStoreBounds(cfg, memory, schedule, cfg.counters[0]);
    }
  }

  /** The negative control, characterised: the totals that n threads racing k load-then-store
      increments on one counter can report are exactly the numbers from Lowest to n*k.  For two or
      more threads with two or more increments each that is everything from 2 up. */
  lemma LoadStoreOutcomes(cfg: Config, memory: seq<Cell>, total: nat)
    requires Ready(cfg, memory) && cfg.kind.Split() && AllOnOne(cfg)
    requires cfg.N() * cfg.iterations < WORD
    ensures (exists schedule: seq<nat> :: Reports(cfg, memory, schedule, total))
       <==> Lowest(cfg.N(), cfg.iterations) <= total <= cfg.N() * cfg.iterations
  {
    if schedule :| Reports(cfg, memory, schedule, total) {
      ReportsInRange(cfg, memory, schedule, total);
    }
    if Lowest(cfg.N(), cfg.iterations) <= total <= cfg.N() * cfg.iterations {
      var schedule := Reach(cfg, memory, total);
      WrapSmall(total);
    }
  }

  /** The lower bound of 2 is a matter of the word size: it holds on every run exactly if n*k is less
      than 2^64.  Beyond that a run can come round to zero. */
  lemma LowerBoundExactlyWithoutOverflow(cfg: Config, memory: seq<Cell>)
    requires Ready(cfg, memory) && cfg.kind.Split() && AllOnOne(cfg)
    requires cfg.N() >= 2 && cfg.iterations >= 2
    ensures (forall schedule: seq<nat>, total: nat :: Reports(cfg, memory, schedule, total) ==> 2 <= total)
       <==> cfg.N() * cfg.iterations < WORD
  {
    if cfg.N() * cfg.iterations < WORD {
      forall schedule: seq<nat>, total: nat | Reports(cfg, memory, schedule, total) ensures 2 <= total {
        ReportsInRange(cfg, memory, schedule, total);
      }
    } else {
      var schedule := Reach(cfg, memory, WORD);
      assert Reports(cfg, memory, schedule, 0);
    }
  }

  /** exp1 computes lost = expected - observed without a sign.  It never wraps exactly if n*k fits a
      word, or overflows it to the largest word there is. */
  lemma LostNeverWraps(cfg: Config, memory: seq<Cell>)
    requires Ready(cfg, memory) && cfg.kind.Split() && AllOnOne(cfg)
    requires cfg.N() >= 2 && cfg.iterations >= 2
    ensures (forall schedule: seq<nat>, total: nat ::
               Reports(cfg, memory, schedule, total) ==> total <= cfg.ExpectedTotal())
       <==> cfg.N() * cfg.iterations < WORD || cfg.ExpectedTotal() == WORD - 1
  {
    if cfg.N() * cfg.iterations < WORD {
      WrapSmall(cfg.N() * cfg.iterations);
      forall schedule: seq<nat>, total: nat | Reports(cfg, memory, schedule, total)
        ensures total <= cfg.ExpectedTotal()
      {
        ReportsInRange(cfg, memory, schedule, total);
      }
    } else if cfg.ExpectedTotal() == WORD - 1 {
      BarrierStart(cfg, memory);
      forall schedule: seq<nat>, total: nat | Reports(cfg, memory, schedule, total)
        ensures total <= cfg.ExpectedTotal()
      {
        AccumulatedRun(cfg, Start(cfg, memory), schedule);
      }
    } else {
      var schedule := Reach(cfg, memory, WORD - 1);
      WrapSmall(WORD - 1);
      assert Reports(cfg, memory, schedule, WORD - 1);
    }
  }

  // One lost update, on any two threads that share a counter.
  lemma LoseOne(cfg: Config, memory: seq<Cell>, i: nat, j: nat) returns (schedule: seq<nat>)
    requires Ready(cfg, memory) && cfg.kind.Split() && cfg.iterations > 0
    requires i < j < cfg.N() && cfg.counters[i] == cfg.counters[j]
    ensures Reports(cfg, memory, schedule, Wrap(cfg.N() * cfg.iterations - 1))
  {
    var gate := GateOpens(cfg, memory);
    var t := Run(cfg, Start(cfg, memory), gate);
    GateIsTracked(cfg, t, cfg.counters[i]);
    var lose := SecondWindow(cfg, t, 0, i, j, 1);
    schedule := EndAfter(cfg, memory, gate, lose, cfg.counters[i], 1);
  }

  lemma OneLessDiffers(x: int)
    ensures Wrap(x - 1) != Wrap(x)
  {
    WrapAdd(x - 1, 1);
  }

  /** The count check of `race` passes on every schedule exactly if increments are atomic or locked,
      or no two threads share a counter, or there is nothing to count: for every other configuration
      some schedule makes it fail. */
  lemma ExactOnEverySchedule(cfg: Config, memory: seq<Cell>)
    requires Ready(cfg, memory)
    ensures (forall schedule: seq<nat>, total: nat ::
               Reports(cfg, memory, schedule, total) ==> total == cfg.ExpectedTotal())
       <==> !cfg.kind.Split() || Private(cfg) || cfg.iterations == 0
  {
    if Exact(cfg) {
      forall schedule: seq<nat>, total: nat | Reports(cfg, memory, schedule, total)
        ensures total == cfg.ExpectedTotal()
      {
        RaceIsExact(cfg, memory, schedule);
      }
    } else if cfg.iterations > 0 {
      var i, j :| 0 <= i < j < cfg.N() && cfg.counters[i] == cfg.counters[j];
      var schedule := LoseOne(cfg, memory, i, j);
      OneLessDiffers(cfg.N() * cfg.iterations);
      assert Reports(cfg, memory, schedule, Wrap(cfg.N() * cfg.iterations - 1));
    } else {
      forall schedule: seq<nat>, total: nat | Reports(cfg, memory, schedule, total)
        ensures total == cfg.ExpectedTotal()
      {
        NothingToCount(cfg, memory, schedule);
      }
    }
  }

  lemma NothingToCount(cfg: Config, memory: seq<Cell>, schedule: seq<nat>)
    requires Ready(cfg, memory) && cfg.kind.Split() && cfg.iterations == 0
    ensures var s := Run(cfg, Start(cfg, memory), schedule); s.main.Returned? ==> s.observed == 0
  {
    BarrierStart(cfg, memory);
    AccumulatedRun(cfg, Start(cfg, memory), schedule);
    var s := Run(cfg, Start(cfg, memory), schedule);
    if s.main.Returned? {
      forall x | 0 <= x < |cfg.distinct| ensures Values(cfg, s, |cfg.distinct|)[x] == 0 {
        LoadStoreBounds(cfg, memory, schedule, cfg.distinct[x]);
      }
      SumBounds(Values(cfg, s, |cfg.distinct|), 0, 0);
    }
  }
}
