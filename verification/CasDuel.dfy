/** The bound on CAS failures is attained: a scheduler can make one thread lose every single time. */
module CasDuel {
  import opened Sums
  import opened RaceMachine
  import opened BarrierProtocol
  import opened Refinement
  import opened CasRetries
  import opened LossSchedules
  import opened LossOutcomes

  /** The victim has read the current value and is about to compare-exchange; all others, on the same
      counter, are between increments. */
  predicate Duel(cfg: Config, s: State, victim: nat) {
    && Shape(cfg, s)
    && cfg.kind.CasLoop?
    && AllOnOne(cfg)
    && victim < cfg.N()
    && s.workers[victim].pc.Compare?
    && s.workers[victim].reg == s.cells[cfg.counters[0]].v < WORD
    && (forall i :: 0 <= i < cfg.N() ==> s.workers[i].done <= cfg.iterations)
    && (forall i :: 0 <= i < cfg.N() && i != victim ==> s.workers[i].pc.Top?)
  }

  // Another thread increments between the victim's read and its compare-exchange.
  lemma DuelRound(cfg: Config, s: State, victim: nat, j: nat)
    requires Duel(cfg, s, victim) && j < cfg.N() && j != victim && s.workers[j].done < cfg.iterations
    ensures var t := Run(cfg, s, [j, j, victim]);
      && Duel(cfg, t, victim)
      && Dones(t) == Dones(s)[j := s.workers[j].done + 1]
      && t.workers[victim].failures == s.workers[victim].failures + 1
  {
    var t1 := Step(cfg, s, j);
    var t2 := Step(cfg, t1, j);
    var t3 := Step(cfg, t2, victim);
    assert cfg.counters[j] == cfg.counters[victim] == cfg.counters[0];
    OneLessDiffers(s.cells[cfg.counters[0]].v + 1);
    WrapSmall(s.cells[cfg.counters[0]].v);
    RunOne(cfg, s, j);
    RunOne(cfg, t1, j);
    RunOne(cfg, t2, victim);
    RunConcat(cfg, t1, [j], [victim]);
    RunConcat(cfg, s, [j], [j] + [victim]);
    assert [j] + ([j] + [victim]) == [j, j, victim];
    assert Dones(t3) == Dones(s)[j := s.workers[j].done + 1];
  }

  lemma {:induction false} DuelOn(cfg: Config, s: State, victim: nat, rounds: nat) returns (schedule: seq<nat>)
    requires Duel(cfg, s, victim)
    requires rounds <= Sum(Rooms(cfg, Dones(s), victim))
    ensures Run(cfg, s, schedule).workers[victim].failures == s.workers[victim].failures + rounds
    decreases rounds
  {
    if rounds == 0 {
      schedule := [];
    } else {
      var rooms := Rooms(cfg, Dones(s), victim);
      var j := SomeRoom(rooms);
      DuelRound(cfg, s, victim, j);
      var t := Run(cfg, s, [j, j, victim]);
      assert Rooms(cfg, Dones(t), victim) == rooms[j := rooms[j] - 1];
      SumUpdate(rooms, j, rooms[j] - 1);
      var rest := DuelOn(cfg, t, victim, rounds - 1);
      RunConcat(cfg, s, [j, j, victim], rest);
      schedule := [j, j, victim] + rest;
    }
  }

  lemma AllRooms(cfg: Config, s: State, victim: nat)
    requires |s.workers| == cfg.N() && victim < cfg.N()
    requires forall i :: 0 <= i < cfg.N() ==> s.workers[i].done == 0
    ensures Sum(Rooms(cfg, Dones(s), victim)) == (cfg.N() - 1) * cfg.iterations
  {
    RoomsOf(cfg, Dones(s));
    RoomsHeld(cfg, Dones(s), victim);
    SumBounds(Dones(s), 0, 0);
    Distribute(cfg.N(), cfg.iterations);
  }

  // The victim reads first.
  lemma DuelStart(cfg: Config, s: State, victim: nat)
    requires AtGate(cfg, s) && cfg.kind.CasLoop? && AllOnOne(cfg) && victim < cfg.N() && cfg.iterations >= 1
    ensures Duel(cfg, Step(cfg, s, victim), victim)
    ensures Step(cfg, s, victim).workers[victim].failures == 0
    ensures Dones(Step(cfg, s, victim)) == seq(cfg.N(), _ => 0)
  {
    assert cfg.counters[victim] == cfg.counters[0];
    assert Dones(Step(cfg, s, victim)) == seq(cfg.N(), _ => 0);
  }

  lemma DuelFromGate(cfg: Config, s: State, victim: nat) returns (schedule: seq<nat>)
    requires Shape(cfg, s) && Duel(cfg, Step(cfg, s, victim), victim)
    requires Dones(Step(cfg, s, victim)) == seq(cfg.N(), _ => 0)
    requires Step(cfg, s, victim).workers[victim].failures == 0
    ensures Run(cfg, s, schedule).workers[victim].failures == (cfg.N() - 1) * cfg.iterations
  {
    var t := Step(cfg, s, victim);
    forall i | 0 <= i < cfg.N() ensures t.workers[i].done == 0 {
      assert Dones(t)[i] == 0;
    }
    AllRooms(cfg, t, victim);
    var duel := DuelOn(cfg, t, victim, (cfg.N() - 1) * cfg.iterations);
    schedule := [victim] + duel;
    RunOne(cfg, s, victim);
    RunConcat(cfg, s, [victim], duel);
  }

  /** On one shared counter, any chosen thread can be made to fail exactly (n-1)*k times, the most that
      CasFailuresBounded allows. */
  lemma CasBoundAttained(cfg: Config, memory: seq<Cell>, victim: nat)
    requires Ready(cfg, memory) && cfg.kind.CasLoop? && AllOnOne(cfg)
    requires victim < cfg.N() && cfg.iterations >= 1
    ensures exists schedule ::
      Run(cfg, Start(cfg, memory), schedule).workers[victim].failures == (cfg.N() - 1) * cfg.iterations
  {
    var gate := GateOpens(cfg, memory);
    DuelStart(cfg, Run(cfg, Start(cfg, memory), gate), victim);
    var duel := DuelFromGate(cfg, Run(cfg, Start(cfg, memory), gate), victim);
    RunConcat(cfg, Start(cfg, memory), gate, duel);
    var schedule := gate + duel;
    assert Run(cfg, Start(cfg, memory), schedule).workers[victim].failures == (cfg.N() - 1) * cfg.iterations;
  }
}
