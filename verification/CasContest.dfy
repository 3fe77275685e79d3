/**
 The bound on all failures together is attained.  The scheduler keeps every thread that is not through
 about to compare-exchange with the current value; then one succeeds, and all the others fail.
 */
module CasContest {
  import opened Sums
  import opened RaceMachine
  import opened BarrierProtocol
  import opened Totals
  import opened Refinement
  import opened CasRetries
  import opened CasTotals
  import opened Progress
  import opened LossSchedules
  import opened LossOutcomes

  // ---- A turn for everybody ----

  function Everyone(n: nat): (r: seq<nat>)
    ensures |r| == n
  {
    seq(n, i requires 0 <= i < n => i)
  }

  function After(cfg: Config, s: State, i: nat): (Worker, Cell)
    requires Shape(cfg, s) && i < cfg.N()
  {
    Local(cfg, s.workers[i], s.cells[cfg.counters[i]], s.go)
  }

  // No next step of a worker changes anything but the worker.
  predicate Undisturbed(cfg: Config, s: State)
    requires Shape(cfg, s)
  {
    forall i :: 0 <= i < cfg.N() ==> After(cfg, s, i).1 == s.cells[cfg.counters[i]] && !s.workers[i].pc.CheckIn?
  }

  // The first m workers have taken a step.
  function Turned(cfg: Config, s: State, m: nat): State
    requires Shape(cfg, s)
  {
    var n := cfg.N();
    s.(workers := seq(n, i requires 0 <= i < n => if i < m then After(cfg, s, i).0 else s.workers[i]))
  }

  lemma {:induction false} TurnForAll(cfg: Config, s: State, m: nat)
    requires Shape(cfg, s) && Undisturbed(cfg, s) && m <= cfg.N()
    ensures Run(cfg, s, Everyone(m)) == Turned(cfg, s, m)
  {
    if m == 0 {
      assert Turned(cfg, s, 0).workers == s.workers;
    } else {
      var before := Turned(cfg, s, m - 1);
      TurnForAll(cfg, s, m - 1);
      assert Everyone(m) == Everyone(m - 1) + [m - 1];
      RunConcat(cfg, s, Everyone(m - 1), [m - 1]);
      RunOne(cfg, before, m - 1);
      LastTurn(cfg, s, m - 1);
    }
  }

  lemma LastTurn(cfg: Config, s: State, i: nat)
    requires Shape(cfg, s) && Undisturbed(cfg, s) && i < cfg.N()
    ensures Step(cfg, Turned(cfg, s, i), i) == Turned(cfg, s, i + 1)
  {
    var before := Turned(cfg, s, i);
    assert before.workers[i] == s.workers[i];
    assert s.cells[cfg.counters[i] := s.cells[cfg.counters[i]]] == s.cells;
    assert Turned(cfg, s, i + 1).workers == before.workers[i := After(cfg, s, i).0];
  }

  // ---- Volleys ----

  function Word(cfg: Config, s: State): nat
    requires Shape(cfg, s)
  {
    s.cells[cfg.counters[0]].v
  }

  /** Everybody who is not through has read the current value and is about to compare-exchange. */
  predicate Poised(cfg: Config, s: State) {
    && Shape(cfg, s)
    && cfg.kind.CasLoop?
    && AllOnOne(cfg)
    && s.go
    && Word(cfg, s) < WORD
    && forall i :: 0 <= i < cfg.N() ==>
         var w := s.workers[i];
         && w.done <= cfg.iterations
         && if w.done == cfg.iterations then w.pc.Top? || w.pc.Finished? else w.pc.Compare? && w.reg == Word(cfg, s)
  }

  lemma PoisedFromGate(cfg: Config, s: State)
    requires AtGate(cfg, s) && cfg.kind.CasLoop? && AllOnOne(cfg) && cfg.iterations >= 1
    ensures var t := Run(cfg, s, Everyone(cfg.N()));
      Poised(cfg, t) && Dones(t) == seq(cfg.N(), _ => 0) && Failures(t, cfg.N()) == seq(cfg.N(), _ => 0)
  {
    TurnForAll(cfg, s, cfg.N());
  }

  // Worker j has succeeded and everybody else has a stale value: the state before the others' turns.
  lemma SuccessLeavesStale(cfg: Config, s: State, j: nat)
    requires Poised(cfg, s) && j < cfg.N() && s.workers[j].done < cfg.iterations
    ensures var u := Step(cfg, s, j);
      && Undisturbed(cfg, u)
      && Word(cfg, u) != Word(cfg, s) && Word(cfg, u) < WORD
      && u.workers == s.workers[j := s.workers[j].(pc := Top, done := s.workers[j].done + 1)]
  {
    assert cfg.counters[j] == cfg.counters[0];
    OneLessDiffers(Word(cfg, s) + 1);
    WrapSmall(Word(cfg, s));
  }

  // Whether thread i fails when j succeeds.
  function Fails(cfg: Config, s: State, j: nat, i: nat): nat
    requires |s.workers| == cfg.N() && i < cfg.N()
  {
    if i != j && s.workers[i].done < cfg.iterations then 1 else 0
  }

  lemma TurnAfterSuccess(cfg: Config, s: State, j: nat, i: nat)
    requires Poised(cfg, s) && j < cfg.N() && s.workers[j].done < cfg.iterations && i < cfg.N()
    ensures var u := Step(cfg, s, j);
      var w, after := s.workers[i], After(cfg, u, i).0;
      && after.done == (if i == j then w.done + 1 else w.done)
      && after.failures == w.failures + Fails(cfg, s, j, i)
      && if after.done == cfg.iterations then after.pc.Finished? else after.pc.Compare? && after.reg == Word(cfg, u)
  {
    SuccessLeavesStale(cfg, s, j);
  }

  /** One success, and a failure for each other thread that is not through; then all are poised again. */
  lemma Volley(cfg: Config, s: State, j: nat)
    requires Poised(cfg, s) && j < cfg.N() && s.workers[j].done < cfg.iterations
    ensures var t := Run(cfg, s, [j] + Everyone(cfg.N()));
      && Poised(cfg, t)
      && Dones(t) == Dones(s)[j := s.workers[j].done + 1]
      && (forall i :: 0 <= i < cfg.N() ==> t.workers[i].failures == s.workers[i].failures + Fails(cfg, s, j, i))
  {
    var n, u := cfg.N(), Step(cfg, s, j);
    var t := Turned(cfg, u, n);
    RunOne(cfg, s, j);
    RunConcat(cfg, s, [j], Everyone(n));
    SuccessLeavesStale(cfg, s, j);
    TurnForAll(cfg, u, n);
    assert Word(cfg, t) == Word(cfg, u);
    forall i | 0 <= i < n ensures t.workers[i] == After(cfg, u, i).0 {
      TurnAfterSuccess(cfg, s, j, i);
    }
    forall i | 0 <= i < n {
      TurnAfterSuccess(cfg, s, j, i);
    }
    assert Dones(t) == Dones(s)[j := s.workers[j].done + 1];
  }

  // ---- As many failures as the increments allow ----

  /** All failures that the increments so far allow have happened.  For that nobody may get through
      before everybody has only one increment left. */
  predicate TightCount(cfg: Config, dones: seq<nat>, failures: int) {
    var through := Sum(Through(cfg, dones));
    && 2 * failures == Allowance(|dones|, Sum(dones), through)
    && (through == 0 || forall i :: 0 <= i < |dones| ==> dones[i] >= cfg.iterations - 1)
  }

  predicate Tight(cfg: Config, s: State)
    requires Shape(cfg, s)
  {
    TightCount(cfg, Dones(s), Sum(Failures(s, cfg.N())))
  }

  // Thread j may go next: nobody is through and it will not be, or nobody has more left than it.
  predicate MayGo(cfg: Config, dones: seq<nat>, j: nat) {
    && j < |dones|
    && dones[j] < cfg.iterations
    && if dones[j] + 1 < cfg.iterations then Sum(Through(cfg, dones)) == 0
       else forall i :: 0 <= i < |dones| ==> dones[i] >= dones[j]
  }

  lemma TightNext(cfg: Config, dones: seq<nat>, failures: int, j: nat)
    requires TightCount(cfg, dones, failures) && MayGo(cfg, dones, j)
    ensures TightCount(cfg, dones[j := dones[j] + 1], failures + |dones| - 1 - Sum(Through(cfg, dones)))
  {
    OneMoreDone(cfg, dones, j);
    AllowanceStep(|dones|, Sum(dones), Sum(Through(cfg, dones)), dones[j] + 1 == cfg.iterations);
  }

  lemma VolleyFailures(cfg: Config, s: State, j: nat)
    requires Poised(cfg, s) && j < cfg.N() && s.workers[j].done < cfg.iterations
    ensures var t := Run(cfg, s, [j] + Everyone(cfg.N()));
      Sum(Failures(t, cfg.N())) == Sum(Failures(s, cfg.N())) + cfg.N() - 1 - Sum(Through(cfg, Dones(s)))
  {
    var n, t, through := cfg.N(), Run(cfg, s, [j] + Everyone(cfg.N())), Through(cfg, Dones(s));
    Volley(cfg, s, j);
    var others := seq(n, i requires 0 <= i < n => 1 - through[i]);
    SumComplement(others, through, 1);
    SumUpdate(others, j, 0);
    SumPointwise(Failures(s, n), others[j := 0], Failures(t, n));
  }

  lemma VolleyTight(cfg: Config, s: State, j: nat)
    requires Poised(cfg, s) && Tight(cfg, s) && MayGo(cfg, Dones(s), j)
    ensures Tight(cfg, Run(cfg, s, [j] + Everyone(cfg.N())))
  {
    Volley(cfg, s, j);
    VolleyFailures(cfg, s, j);
    TightNext(cfg, Dones(s), Sum(Failures(s, cfg.N())), j);
  }

  // Whoever has the most left to do goes next.
  lemma NextVolley(cfg: Config, dones: seq<nat>, failures: int) returns (j: nat)
    requires TightCount(cfg, dones, failures) && exists i :: 0 <= i < |dones| && dones[i] < cfg.iterations
    ensures MayGo(cfg, dones, j)
  {
    if a :| 0 <= a < |dones| && dones[a] + 1 < cfg.iterations {
      j := a;
    } else {
      j :| 0 <= j < |dones| && dones[j] < cfg.iterations;
    }
  }

  lemma {:induction false} Contest(cfg: Config, s: State) returns (schedule: seq<nat>)
    requires Poised(cfg, s) && Tight(cfg, s)
    ensures var t := Run(cfg, s, schedule);
      Poised(cfg, t) && Tight(cfg, t) && forall i :: 0 <= i < cfg.N() ==> t.workers[i].done == cfg.iterations
    decreases cfg.iterations * cfg.N() - Sum(Dones(s))
  {
    if forall i :: 0 <= i < cfg.N() ==> s.workers[i].done == cfg.iterations {
      schedule := [];
    } else {
      var i :| 0 <= i < cfg.N() && s.workers[i].done != cfg.iterations;
      assert Dones(s)[i] < cfg.iterations;
      var j := NextVolley(cfg, Dones(s), Sum(Failures(s, cfg.N())));
      var volley := [j] + Everyone(cfg.N());
      Volley(cfg, s, j);
      VolleyTight(cfg, s, j);
      OneMoreDone(cfg, Dones(s), j);
      SumBounds(Dones(s), 0, cfg.iterations);
      var rest := Contest(cfg, Run(cfg, s, volley));
      RunConcat(cfg, s, volley, rest);
      schedule := volley + rest;
    }
  }

  lemma TightAtTheEnd(cfg: Config, s: State)
    requires Shape(cfg, s) && Tight(cfg, s) && cfg.iterations >= 1
    requires forall i :: 0 <= i < cfg.N() ==> s.workers[i].done == cfg.iterations
    ensures Sum(Failures(s, cfg.N())) == MostFailures(cfg.N(), cfg.iterations)
  {
    var n, k := cfg.N(), cfg.iterations;
    SumBounds(Dones(s), k, k);
    SumBounds(Through(cfg, Dones(s)), 1, 1);
    LastAllowance(n, k, 0);
  }

  lemma TightAtZero(cfg: Config, s: State)
    requires Shape(cfg, s) && cfg.iterations >= 1
    requires Dones(s) == seq(cfg.N(), _ => 0) && Failures(s, cfg.N()) == seq(cfg.N(), _ => 0)
    ensures Tight(cfg, s)
  {
    SumBounds(Dones(s), 0, 0);
    SumBounds(Failures(s, cfg.N()), 0, 0);
    SumBounds(Through(cfg, Dones(s)), 0, 0);
  }

  lemma PoisedIsSettled(cfg: Config, s: State)
    requires Poised(cfg, s) && Barrier(cfg, s)
    requires forall i :: 0 <= i < cfg.N() ==> s.workers[i].done == cfg.iterations
    ensures Settled(cfg, s)
  {
  }

  // From the gate to the last success.
  lemma ContestFromGate(cfg: Config, s: State) returns (schedule: seq<nat>)
    requires AtGate(cfg, s) && cfg.kind.CasLoop? && AllOnOne(cfg) && cfg.iterations >= 1
    ensures var t := Run(cfg, s, schedule);
      && Settled(cfg, t) && Reachable(cfg, t)
      && Sum(Failures(t, cfg.N())) == MostFailures(cfg.N(), cfg.iterations)
  {
    var everyone := Everyone(cfg.N());
    PoisedFromGate(cfg, s);
    TightAtZero(cfg, Run(cfg, s, everyone));
    var contest := Contest(cfg, Run(cfg, s, everyone));
    schedule := everyone + contest;
    RunConcat(cfg, s, everyone, contest);
    var t := Run(cfg, s, schedule);
    TightAtTheEnd(cfg, t);
    ReachableRun(cfg, s, schedule);
    PoisedIsSettled(cfg, t);
  }

  // With nothing to count nothing fails.
  lemma NothingToContest(cfg: Config, memory: seq<Cell>) returns (schedule: seq<nat>)
    requires Ready(cfg, memory) && cfg.iterations == 0
    ensures var t := Run(cfg, Start(cfg, memory), schedule);
      t.main.Returned? && Sum(Failures(t, cfg.N())) == MostFailures(cfg.N(), cfg.iterations)
  {
    ReachableStart(cfg, memory);
    schedule := CanFinish(cfg, Start(cfg, memory));
    AllFailuresBounded(cfg, memory, schedule);
  }

  lemma ContestToTheEnd(cfg: Config, memory: seq<Cell>) returns (schedule: seq<nat>)
    requires Ready(cfg, memory) && cfg.kind.CasLoop? && AllOnOne(cfg) && cfg.iterations >= 1
    ensures var t := Run(cfg, Start(cfg, memory), schedule);
      t.main.Returned? && Sum(Failures(t, cfg.N())) == MostFailures(cfg.N(), cfg.iterations)
  {
    var s := Start(cfg, memory);
    var gate := GateOpens(cfg, memory);
    var contest := ContestFromGate(cfg, Run(cfg, s, gate));
    var u := Run(cfg, Run(cfg, s, gate), contest);
    var finish := CanFinish(cfg, u);
    SettledRun(cfg, u, finish);
    RunConcat(cfg, s, gate, contest);
    RunConcat(cfg, s, gate + contest, finish);
    schedule := gate + contest + finish;
  }

  lemma ReturnedDones(cfg: Config, s: State)
    requires Barrier(cfg, s) && s.main.Returned?
    ensures Sum(Dones(s)) == cfg.N() * cfg.iterations
  {
    forall i | 0 <= i < cfg.N() ensures Dones(s)[i] == cfg.iterations {
      assert Placed(cfg, s.main, i, s.workers[i]);
    }
    SumBounds(Dones(s), cfg.iterations, cfg.iterations);
  }

  // When race() has returned, the reported failures and the attempts follow.
  lemma ReturnedCounts(cfg: Config, memory: seq<Cell>, schedule: seq<nat>)
    requires Ready(cfg, memory) && cfg.kind.CasLoop? && Run(cfg, Start(cfg, memory), schedule).main.Returned?
    ensures var s := Run(cfg, Start(cfg, memory), schedule);
      && s.casFailures == Wrap(Sum(Failures(s, cfg.N())))
      && Attempts(cfg, Start(cfg, memory), schedule) == Sum(Failures(s, cfg.N())) + cfg.N() * cfg.iterations
  {
    var s := Run(cfg, Start(cfg, memory), schedule);
    EveryRun(cfg, memory, schedule);
    AttemptsCounted(cfg, memory, schedule);
    ReturnedDones(cfg, s);
  }

  /** On one shared counter some schedule makes race() return with as many failures, and having executed
      as many compare-exchanges, as the bounds of ReportedFailuresBounded and CasAttemptsBounded allow. */
  lemma AllBoundsAttained(cfg: Config, memory: seq<Cell>)
    requires Ready(cfg, memory) && cfg.kind.CasLoop? && AllOnOne(cfg)
    ensures exists schedule ::
      var s := Run(cfg, Start(cfg, memory), schedule);
      var most := MostFailures(cfg.N(), cfg.iterations);
      && s.main.Returned?
      && Sum(Failures(s, cfg.N())) == most
      && s.casFailures == Wrap(most)
      && Attempts(cfg, Start(cfg, memory), schedule) == most + cfg.N() * cfg.iterations
  {
    var schedule;
    if cfg.iterations == 0 {
      schedule := NothingToContest(cfg, memory);
    } else {
      schedule := ContestToTheEnd(cfg, memory);
    }
    ReturnedCounts(cfg, memory, schedule);
  }
}
