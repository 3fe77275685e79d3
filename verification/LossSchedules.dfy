/**
 Schedules, constructed: how to open the gate, how to run threads one increment at a time, how to
 hold one thread between its load and its store, and how to bring the race to its end.
 */
module LossSchedules {
  import opened Sums
  import opened RaceMachine
  import opened BarrierProtocol
  import opened CriticalSections
  import opened Totals
  import opened Refinement
  import opened CasRetries
  import opened Progress

  ghost predicate Reachable(cfg: Config, s: State) {
    Paced(cfg, s) && Exclusion(cfg, s) && Accumulated(cfg, s)
  }

  lemma ReachableStart(cfg: Config, memory: seq<Cell>)
    requires Ready(cfg, memory)
    ensures Reachable(cfg, Start(cfg, memory))
  {
    PacedStart(cfg, memory);
    ExclusionStart(cfg, memory);
  }

  lemma ReachableRun(cfg: Config, s: State, schedule: seq<nat>)
    requires Reachable(cfg, s)
    ensures Reachable(cfg, Run(cfg, s, schedule))
  {
    PacedRun(cfg, s, schedule);
    AccumulatedRun(cfg, s, schedule);
  }

  lemma RunOne(cfg: Config, s: State, actor: nat)
    requires Shape(cfg, s)
    ensures Run(cfg, s, [actor]) == Step(cfg, s, actor)
  {
    assert [actor][1..] == [];
    assert Run(cfg, Step(cfg, s, actor), []) == Step(cfg, s, actor);
  }

  // ---- Up to the gate ----

  // Nobody has incremented anything and every counter reset so far is zero.
  ghost predicate Fresh(cfg: Config, s: State) {
    && Reachable(cfg, s)
    && (s.go ==> s.main == Joining(0))
    && (forall i :: 0 <= i < cfg.N() ==>
          var w := s.workers[i]; w.done == 0 && w.failures == 0 && (!PastGate(w.pc) || w.pc.Top?))
    && (forall x :: 0 <= x < |cfg.distinct| && (s.main.Resetting? ==> x < s.main.j) ==>
          cfg.distinct[x] < |s.cells| && s.cells[cfg.distinct[x]].v == 0)
  }

  ghost predicate AtGate(cfg: Config, s: State) {
    Fresh(cfg, s) && s.go && forall i :: 0 <= i < cfg.N() ==> s.workers[i].pc.Top?
  }

  lemma FreshMainStep(cfg: Config, s: State)
    requires Fresh(cfg, s) && !s.go
    ensures Fresh(cfg, Step(cfg, s, cfg.N()))
  {
    ReachableStep(cfg, s, cfg.N());
  }

  lemma FreshWorkerStep(cfg: Config, s: State, i: nat)
    requires Fresh(cfg, s) && i < cfg.N() && !s.workers[i].pc.Top?
    ensures Fresh(cfg, Step(cfg, s, i))
  {
    ReachableStep(cfg, s, i);
  }

  lemma ReachableStep(cfg: Config, s: State, actor: nat)
    requires Reachable(cfg, s)
    ensures Reachable(cfg, Step(cfg, s, actor))
  {
    PacedStep(cfg, s, actor);
    ExclusionStep(cfg, s, actor);
    AccumulatedStep(cfg, s, actor);
  }

  lemma {:induction false} OpenGate(cfg: Config, s: State) returns (schedule: seq<nat>)
    requires Fresh(cfg, s)
    ensures AtGate(cfg, Run(cfg, s, schedule))
    decreases Rank(cfg, s)
  {
    if AtGate(cfg, s) {
      schedule := [];
    } else {
      var actor := OpeningMove(cfg, s);
      RankNonNegative(cfg, s);
      RankStep(cfg, s, actor);
      if actor == cfg.N() { FreshMainStep(cfg, s); } else { FreshWorkerStep(cfg, s, actor); }
      var rest := OpenGate(cfg, Step(cfg, s, actor));
      schedule := [actor] + rest;
      RunOne(cfg, s, actor);
      RunConcat(cfg, s, [actor], rest);
    }
  }

  lemma OpeningMove(cfg: Config, s: State) returns (actor: nat)
    requires Fresh(cfg, s) && !AtGate(cfg, s)
    ensures !Waiting(cfg, s, actor)
    ensures if actor == cfg.N() then !s.go else actor < cfg.N() && !s.workers[actor].pc.Top?
  {
    if s.go {
      actor :| 0 <= actor < cfg.N() && !s.workers[actor].pc.Top?;
      AllCheckedIn(cfg, s, actor);
    } else if s.main.AwaitReady? && s.ready < cfg.N() {
      actor := SomeoneCheckingIn(cfg, s);
    } else {
      actor := cfg.N();
    }
  }

  // ---- Behind the gate, with split increments ----

  /** Thread `hold` (if it is one) sits between its load and its store, all others are between
      increments, and of the increments made on counter `star` exactly `lost` have left no trace. */
  predicate Tracked(cfg: Config, s: State, hold: int, star: nat, lost: int) {
    && Shape(cfg, s)
    && cfg.kind.Split()
    && s.main == Joining(0)
    && s.go
    && (forall i :: 0 <= i < cfg.N() ==> s.workers[i].done <= cfg.iterations)
    && (forall i :: 0 <= i < cfg.N() ==> if i == hold then s.workers[i].pc.Loaded? else s.workers[i].pc.Top?)
    && (0 <= hold < cfg.N() ==> s.workers[hold].done < cfg.iterations)
    && (forall i :: 0 <= i < cfg.N() ==>
          s.cells[cfg.counters[i]].v == Expect(cfg, Dones(s), cfg.counters[i], star, lost))
  }

  function Expect(cfg: Config, dones: seq<nat>, c: nat, star: nat, lost: int): nat
    requires |dones| == cfg.N()
  {
    Wrap(Tally(cfg.counters, dones, c) - (if c == star then lost else 0))
  }

  lemma GateIsTracked(cfg: Config, s: State, star: nat)
    requires AtGate(cfg, s) && cfg.kind.Split()
    ensures Tracked(cfg, s, -1, star, 0)
    ensures Dones(s) == seq(cfg.N(), _ => 0)
  {
    assert Dones(s) == seq(cfg.N(), _ => 0);
    forall i | 0 <= i < cfg.N()
      ensures s.cells[cfg.counters[i]].v == Expect(cfg, Dones(s), cfg.counters[i], star, 0)
    {
      var x :| 0 <= x < |cfg.distinct| && cfg.distinct[x] == cfg.counters[i];
      SumBounds(Shares(cfg.counters, Dones(s), cfg.counters[i]), 0, 0);
    }
  }

  // A load: the register gets the current word.
  lemma LoadStep(cfg: Config, s: State, star: nat, lost: int, i: nat)
    requires Tracked(cfg, s, -1, star, lost) && i < cfg.N() && s.workers[i].done < cfg.iterations
    ensures var t := Step(cfg, s, i);
      && Tracked(cfg, t, i, star, lost)
      && Dones(t) == Dones(s)
      && t.workers[i].reg == s.cells[cfg.counters[i]].v
  {
    assert Dones(Step(cfg, s, i)) == Dones(s);
  }

  // A store from a register that holds what r increments make: the rest of the tally is lost.
  lemma StoreStep(cfg: Config, s: State, lost: int, i: nat, r: int)
    requires i < cfg.N() && Tracked(cfg, s, i, cfg.counters[i], lost) && s.workers[i].reg == Wrap(r)
    ensures var t := Step(cfg, s, i);
      && Dones(t) == Dones(s)[i := s.workers[i].done + 1]
      && Tracked(cfg, t, -1, cfg.counters[i], Tally(cfg.counters, Dones(s), cfg.counters[i]) - r)
  {
    var t := Step(cfg, s, i);
    var star := cfg.counters[i];
    assert Dones(t) == Dones(s)[i := s.workers[i].done + 1];
    WrapAdd(r, 1);
    forall a | 0 <= a < cfg.N()
      ensures t.cells[cfg.counters[a]].v
           == Expect(cfg, Dones(t), cfg.counters[a], star, Tally(cfg.counters, Dones(s), star) - r)
    {
      TallyUpdate(cfg.counters, Dones(s), i, s.workers[i].done + 1, cfg.counters[a]);
    }
  }

  // Load and store by the same thread with nothing in between lose nothing, whoever else is held.
  lemma IncrementSteps(cfg: Config, s: State, hold: int, star: nat, lost: int, j: nat)
    requires Tracked(cfg, s, hold, star, lost) && j < cfg.N() && j != hold && s.workers[j].done < cfg.iterations
    ensures var t := Run(cfg, s, [j, j]);
      && Tracked(cfg, t, hold, star, lost)
      && Dones(t) == Dones(s)[j := s.workers[j].done + 1]
      && (forall i :: 0 <= i < cfg.N() && i != j ==> t.workers[i] == s.workers[i])
  {
    var u := Step(cfg, s, j);
    var t := Step(cfg, u, j);
    assert [j, j] == [j] + [j];
    RunConcat(cfg, s, [j], [j]);
    RunOne(cfg, s, j);
    RunOne(cfg, u, j);
    assert Dones(t) == Dones(s)[j := s.workers[j].done + 1];
    forall a | 0 <= a < cfg.N()
      ensures t.cells[cfg.counters[a]].v == Expect(cfg, Dones(t), cfg.counters[a], star, lost)
    {
      var c := cfg.counters[a];
      TallyUpdate(cfg.counters, Dones(s), j, s.workers[j].done + 1, c);
      WrapAdd(Tally(cfg.counters, Dones(s), c) - (if c == star then lost else 0), 1);
    }
  }

  /** The increments that thread i may still make while thread hold is held. */
  function Rooms(cfg: Config, dones: seq<nat>, hold: int): (r: seq<int>)
    requires |dones| == cfg.N()
    ensures |r| == |dones|
  {
    seq(|dones|, i requires 0 <= i < |dones| => if i == hold then 0 else cfg.iterations - dones[i])
  }

  lemma RoomsOf(cfg: Config, dones: seq<nat>)
    requires |dones| == cfg.N()
    ensures Sum(Rooms(cfg, dones, -1)) == cfg.N() * cfg.iterations - Sum(dones)
  {
    SumComplement(Rooms(cfg, dones, -1), dones, cfg.iterations);
  }

  lemma RoomsHeld(cfg: Config, dones: seq<nat>, hold: nat)
    requires |dones| == cfg.N() && hold < |dones|
    ensures Sum(Rooms(cfg, dones, hold)) == Sum(Rooms(cfg, dones, -1)) - (cfg.iterations - dones[hold])
  {
    assert Rooms(cfg, dones, hold) == Rooms(cfg, dones, -1)[hold := 0];
    SumUpdate(Rooms(cfg, dones, -1), hold, 0);
  }

  // Where there is room in all, some thread has room.
  lemma SomeRoom(rooms: seq<int>) returns (j: nat)
    requires Sum(rooms) > 0
    ensures j < |rooms| && rooms[j] > 0
  {
    if forall i :: 0 <= i < |rooms| ==> rooms[i] <= 0 {
      SumMonotone(rooms, seq(|rooms|, _ => 0));
      SumBounds(seq(|rooms|, _ => 0), 0, 0);
    }
    j :| 0 <= j < |rooms| && rooms[j] > 0;
  }

  lemma SpendOne(cfg: Config, s: State, hold: int, star: nat, lost: int) returns (j: nat)
    requires Tracked(cfg, s, hold, star, lost)
    requires Sum(Rooms(cfg, Dones(s), hold)) > 0
    ensures var t := Run(cfg, s, [j, j]);
      && Tracked(cfg, t, hold, star, lost)
      && Sum(Dones(t)) == Sum(Dones(s)) + 1
      && Sum(Rooms(cfg, Dones(t), hold)) == Sum(Rooms(cfg, Dones(s), hold)) - 1
      && (0 <= hold < cfg.N() ==> t.workers[hold] == s.workers[hold])
  {
    var rooms := Rooms(cfg, Dones(s), hold);
    j := SomeRoom(rooms);
    IncrementSteps(cfg, s, hold, star, lost, j);
    var t := Run(cfg, s, [j, j]);
    assert Rooms(cfg, Dones(t), hold) == rooms[j := rooms[j] - 1];
    SumUpdate(rooms, j, rooms[j] - 1);
    SumUpdate(Dones(s), j, s.workers[j].done + 1);
  }

  /** Any number w of increments, as long as there is room for them, made without losing any. */
  lemma {:induction false} Spend(cfg: Config, s: State, hold: int, star: nat, lost: int, w: nat)
      returns (schedule: seq<nat>)
    requires Tracked(cfg, s, hold, star, lost)
    requires w <= Sum(Rooms(cfg, Dones(s), hold))
    ensures var t := Run(cfg, s, schedule);
      && Tracked(cfg, t, hold, star, lost)
      && Sum(Dones(t)) == Sum(Dones(s)) + w
      && (0 <= hold < cfg.N() ==> t.workers[hold] == s.workers[hold])
    decreases w
  {
    if w == 0 {
      schedule := [];
    } else {
      var j := SpendOne(cfg, s, hold, star, lost);
      var rest := Spend(cfg, Run(cfg, s, [j, j]), hold, star, lost, w - 1);
      RunConcat(cfg, s, [j, j], rest);
      schedule := [j, j] + rest;
    }
  }

  /** The same for one chosen thread j while thread hold is held. */
  lemma {:induction false} SpendAlone(cfg: Config, s: State, hold: nat, star: nat, lost: int, j: nat, w: nat)
      returns (schedule: seq<nat>)
    requires Tracked(cfg, s, hold, star, lost) && hold < cfg.N() && j < cfg.N() && j != hold
    requires s.workers[j].done + w <= cfg.iterations
    ensures var t := Run(cfg, s, schedule);
      && Tracked(cfg, t, hold, star, lost)
      && Dones(t) == Dones(s)[j := s.workers[j].done + w]
      && t.workers[hold] == s.workers[hold]
    decreases w
  {
    if w == 0 {
      schedule := [];
      assert Dones(s)[j := s.workers[j].done] == Dones(s);
    } else {
      IncrementSteps(cfg, s, hold, star, lost, j);
      var t := Run(cfg, s, [j, j]);
      assert Dones(t)[j] == s.workers[j].done + 1;
      var rest := SpendAlone(cfg, t, hold, star, lost, j, w - 1);
      RunConcat(cfg, s, [j, j], rest);
      schedule := [j, j] + rest;
    }
  }

  // ---- From the last increment to the return ----

  ghost predicate Settled(cfg: Config, s: State) {
    && Barrier(cfg, s)
    && s.go
    && (forall i :: 0 <= i < cfg.N() ==>
          s.workers[i].done == cfg.iterations && (s.workers[i].pc.Top? || s.workers[i].pc.Finished?))
  }

  lemma SettledStep(cfg: Config, s: State, actor: nat)
    requires Settled(cfg, s)
    ensures var t := Step(cfg, s, actor);
      Settled(cfg, t) && t.cells == s.cells && Failures(t, cfg.N()) == Failures(s, cfg.N())
  {
    BarrierStep(cfg, s, actor);
  }

  lemma {:induction false} SettledRun(cfg: Config, s: State, schedule: seq<nat>)
    requires Settled(cfg, s)
    ensures var t := Run(cfg, s, schedule);
      t.cells == s.cells && Failures(t, cfg.N()) == Failures(s, cfg.N())
    decreases |schedule|
  {
    if schedule != [] {
      SettledStep(cfg, s, schedule[0]);
      SettledRun(cfg, Step(cfg, s, schedule[0]), schedule[1..]);
    }
  }

  /** Everybody finishes: race() returns n*k less what has been lost, in 64-bit arithmetic. */
  lemma Conclude(cfg: Config, s: State, star: nat, lost: int) returns (schedule: seq<nat>)
    requires Reachable(cfg, s) && Tracked(cfg, s, -1, star, lost) && star in cfg.counters
    ensures var t := Run(cfg, s, schedule);
      t.main.Returned? && t.observed == Wrap(cfg.N() * cfg.iterations - lost)
  {
    RoomsOf(cfg, Dones(s));
    SumAtLeastZero(Rooms(cfg, Dones(s), -1));
    var spend := Spend(cfg, s, -1, star, lost, Sum(Rooms(cfg, Dones(s), -1)));
    var u := Run(cfg, s, spend);
    ReachableRun(cfg, s, spend);
    AllSpent(cfg, u);
    var finish := CanFinish(cfg, u);
    RunConcat(cfg, s, spend, finish);
    schedule := spend + finish;
    SettledRun(cfg, u, finish);
    ReachableRun(cfg, u, finish);
    SettledTotal(cfg, u, Run(cfg, u, finish), star, lost);
  }

  lemma AllSpent(cfg: Config, s: State)
    requires |s.workers| == cfg.N() && Sum(Dones(s)) == cfg.N() * cfg.iterations
    requires forall i :: 0 <= i < cfg.N() ==> s.workers[i].done <= cfg.iterations
    ensures forall i :: 0 <= i < cfg.N() ==> s.workers[i].done == cfg.iterations
  {
    forall i: nat | i < cfg.N() ensures s.workers[i].done == cfg.iterations {
      SumFull(Dones(s), cfg.iterations, i);
    }
  }

  /** The words that the distinct counters stand for when `lost` increments of `star` are missing. */
  function Net(cfg: Config, dones: seq<nat>, star: nat, lost: int): (r: seq<int>)
    requires |dones| == cfg.N()
    ensures |r| == |cfg.distinct|
  {
    var distinct := cfg.distinct;
    seq(|distinct|, x requires 0 <= x < |distinct| =>
      Tally(cfg.counters, dones, distinct[x]) - (if distinct[x] == star then lost else 0))
  }

  lemma NetTotal(cfg: Config, dones: seq<nat>, star: nat, lost: int)
    requires cfg.Deduplicated() && |dones| == cfg.N() && star in cfg.counters
    ensures Sum(Net(cfg, dones, star, lost)) == Sum(dones) - lost
  {
    var distinct := cfg.distinct;
    var loss := seq(|distinct|, x requires 0 <= x < |distinct| => if distinct[x] == star then -lost else 0);
    SumPointwise(Tallies(distinct, cfg.counters, dones), loss, Net(cfg, dones, star, lost));
    TalliesPartition(distinct, cfg.counters, dones);
    OneHit(distinct, loss, star, -lost);
  }

  lemma SettledTotal(cfg: Config, s: State, t: State, star: nat, lost: int)
    requires Tracked(cfg, s, -1, star, lost) && star in cfg.counters
    requires Sum(Dones(s)) == cfg.N() * cfg.iterations
    requires Accumulated(cfg, t) && t.main.Returned? && t.cells == s.cells && cfg.Deduplicated()
    ensures t.observed == Wrap(cfg.N() * cfg.iterations - lost)
  {
    var distinct := cfg.distinct;
    var net := Net(cfg, Dones(s), star, lost);
    forall x | 0 <= x < |distinct| ensures Values(cfg, t, |distinct|)[x] == Wrap(net[x]) {
      assert distinct[x] in cfg.counters;
      var i :| 0 <= i < cfg.N() && cfg.counters[i] == distinct[x];
      assert s.cells[cfg.counters[i]].v == Expect(cfg, Dones(s), distinct[x], star, lost);
    }
    WrapSum(Values(cfg, t, |distinct|), net);
    NetTotal(cfg, Dones(s), star, lost);
  }
}
