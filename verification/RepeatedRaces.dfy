/** Races back to back on the same counters: each starts in the cells that the one before it has left. */
module RepeatedRaces {
  import opened Sums
  import opened RaceMachine
  import opened BarrierProtocol
  import opened CriticalSections
  import opened Refinement
  import opened CasTotals

  // The cells that the last of the runs has left.
  ghost function Left(cells: seq<Cell>, runs: seq<State>): seq<Cell> {
    if runs == [] then cells else runs[|runs| - 1].cells
  }

  // The last of the runs has returned.
  ghost predicate Ended(runs: seq<State>) {
    runs != [] ==> runs[|runs| - 1].main.Returned?
  }

  /** The states in which the first n races end, up to the first that does not return. */
  ghost function Races(cfg: Config, cells: seq<Cell>, schedules: seq<seq<nat>>, n: nat): (runs: seq<State>)
    requires cfg.Accepted() && cfg.InMemory(|cells|) && n <= |schedules|
    ensures |Left(cells, runs)| == |cells|
    decreases n, 0
  {
    if n == 0 then []
    else
      var before := Races(cfg, cells, schedules, n - 1);
      if Ended(before) then before + [RaceEnd(cfg, cells, schedules, n - 1)] else before
  }

  /** Race n, under its own schedule, in the cells that the n races before it leave. */
  ghost function RaceEnd(cfg: Config, cells: seq<Cell>, schedules: seq<seq<nat>>, n: nat): (s: State)
    requires cfg.Accepted() && cfg.InMemory(|cells|) && n < |schedules|
    ensures |s.cells| == |cells|
    decreases n, 1
  {
    Run(cfg, Start(cfg, Left(cells, Races(cfg, cells, schedules, n))), schedules[n])
  }

  lemma RaceStarts(cfg: Config, cells: seq<Cell>, schedules: seq<seq<nat>>, n: nat)
    requires cfg.Accepted() && cfg.InMemory(|cells|) && n < |schedules|
    ensures RaceEnd(cfg, cells, schedules, n)
         == Run(cfg, Start(cfg, Left(cells, Races(cfg, cells, schedules, n))), schedules[n])
  {
  }

  /** Race by race: all but the last have returned, and the last too if none is missing. */
  lemma {:induction false} RacesFollow(cfg: Config, cells: seq<Cell>, schedules: seq<seq<nat>>, n: nat, t: nat)
    requires cfg.Accepted() && cfg.InMemory(|cells|) && n <= |schedules|
    ensures var runs := Races(cfg, cells, schedules, n);
      && |runs| <= n
      && (Ended(runs) ==> |runs| == n)
      && (t < |runs| ==>
            && (t > 0 ==> runs[t - 1].main.Returned? && |runs[t - 1].cells| == |cells|)
            && runs[t] == Run(cfg, Start(cfg, if t == 0 then cells else runs[t - 1].cells), schedules[t]))
  {
    if n > 0 {
      RacesFollow(cfg, cells, schedules, n - 1, t);
      RaceStarts(cfg, cells, schedules, n - 1);
    }
  }

  lemma RacesReturned(cfg: Config, cells: seq<Cell>, schedules: seq<seq<nat>>, n: nat)
    requires cfg.Accepted() && cfg.InMemory(|cells|) && n <= |schedules|
    ensures var runs := Races(cfg, cells, schedules, n);
      Ended(runs) <==> forall t :: 0 <= t < |runs| ==> runs[t].main.Returned?
  {
    var runs := Races(cfg, cells, schedules, n);
    forall t | 0 <= t < |runs| - 1 ensures runs[t].main.Returned? {
      RacesFollow(cfg, cells, schedules, n, t + 1);
    }
  }

  lemma {:induction false} FirstRaces(cfg: Config, cells: seq<Cell>, schedules: seq<seq<nat>>, m: nat, n: nat)
    requires cfg.Accepted() && cfg.InMemory(|cells|) && m <= n <= |schedules|
    ensures Races(cfg, cells, schedules, m) <= Races(cfg, cells, schedules, n)
    decreases n
  {
    if m < n {
      FirstRaces(cfg, cells, schedules, m, n - 1);
    }
  }

  // Nothing follows a race that has not returned.
  lemma {:induction false} StoppedShort(cfg: Config, cells: seq<Cell>, schedules: seq<seq<nat>>, m: nat, n: nat)
    requires cfg.Accepted() && cfg.InMemory(|cells|) && m <= n <= |schedules|
    requires !Ended(Races(cfg, cells, schedules, m))
    ensures Races(cfg, cells, schedules, n) == Races(cfg, cells, schedules, m)
    decreases n
  {
    if m < n {
      StoppedShort(cfg, cells, schedules, m, n - 1);
    }
  }

  lemma RaceKeeps(cfg: Config, cells: seq<Cell>, schedule: seq<nat>)
    requires Ready(cfg, cells) && Run(cfg, Start(cfg, cells), schedule).main.Returned?
    ensures var s := Run(cfg, Start(cfg, cells), schedule);
      && Idle(s.cells)
      && s.casFailures <= MostFailures(cfg.N(), cfg.iterations)
      && (Exact(cfg) ==> s.observed == cfg.ExpectedTotal())
  {
    IdleAgain(cfg, cells, schedule);
    ReportedFailuresBounded(cfg, cells, schedule);
    if Exact(cfg) {
      RaceIsExact(cfg, cells, schedule);
    }
  }

  lemma RaceEndKeeps(cfg: Config, cells: seq<Cell>, schedules: seq<seq<nat>>, n: nat)
    requires Ready(cfg, cells) && n < |schedules| && Idle(Left(cells, Races(cfg, cells, schedules, n)))
    requires RaceEnd(cfg, cells, schedules, n).main.Returned?
    ensures var s := RaceEnd(cfg, cells, schedules, n);
      && Idle(s.cells)
      && s.casFailures <= MostFailures(cfg.N(), cfg.iterations)
      && (Exact(cfg) ==> s.observed == cfg.ExpectedTotal())
  {
    RaceStarts(cfg, cells, schedules, n);
    RaceKeeps(cfg, Left(cells, Races(cfg, cells, schedules, n)), schedules[n]);
  }

  /** What one race keeps, every one of them keeps. */
  lemma {:induction false} RacesKeep(cfg: Config, cells: seq<Cell>, schedules: seq<seq<nat>>, n: nat)
    requires Ready(cfg, cells) && n <= |schedules| && Ended(Races(cfg, cells, schedules, n))
    ensures var runs := Races(cfg, cells, schedules, n);
      && Idle(Left(cells, runs))
      && (forall t :: 0 <= t < |runs| ==> runs[t].casFailures <= MostFailures(cfg.N(), cfg.iterations))
      && (Exact(cfg) ==> forall t :: 0 <= t < |runs| ==> runs[t].observed == cfg.ExpectedTotal())
  {
    if n > 0 {
      RacesKeep(cfg, cells, schedules, n - 1);
      RaceEndKeeps(cfg, cells, schedules, n - 1);
    }
  }

  // ---- What is added up over the races ----

  // All counts from a given race on are right.
  ghost predicate AllObserved(runs: seq<State>, from: nat, total: nat) {
    forall t :: from <= t < |runs| ==> runs[t].observed == total
  }

  lemma ObservedTogether(before: seq<State>, runs: seq<State>, total: nat)
    requires before <= runs
    ensures AllObserved(runs, 0, total) <==> AllObserved(before, 0, total) && AllObserved(runs, |before|, total)
  {
    assert forall t :: 0 <= t < |before| ==> before[t] == runs[t];
  }

  ghost function Reported(runs: seq<State>): (r: seq<int>)
    ensures |r| == |runs|
    ensures forall t :: 0 <= t < |runs| ==> r[t] == runs[t].casFailures
  {
    seq(|runs|, t requires 0 <= t < |runs| => runs[t].casFailures)
  }

  lemma OneMoreRun(runs: seq<State>, from: nat, run: State, failures: nat)
    requires from <= |runs| && failures == Wrap(Sum(Reported(runs[from..])))
    ensures Wrap(failures + run.casFailures) == Wrap(Sum(Reported((runs + [run])[from..])))
  {
    var counted := Reported(runs[from..]);
    assert Reported((runs + [run])[from..]) == counted + [run.casFailures];
    SumAppend(counted, [run.casFailures]);
    WrapAdd(Sum(counted), run.casFailures);
  }

  lemma OneMoreRace(t: nat, x: int, sum: nat)
    requires sum == Wrap(t * x)
    ensures Wrap(sum + Wrap(x)) == Wrap((t + 1) * x)
  {
    assert (t + 1) * x == t * x + x;
    WrapAdd(t * x, Wrap(x));
    WrapAdd(x, t * x);
  }

  lemma ReportedAtMost(runs: seq<State>, from: nat, most: int)
    requires from <= |runs| && forall t :: 0 <= t < |runs| ==> runs[t].casFailures <= most
    ensures Wrap(Sum(Reported(runs[from..]))) <= (|runs| - from) * most
  {
    SumBounds(Reported(runs[from..]), 0, most);
    assert most * (|runs| - from) == (|runs| - from) * most;
  }

  // ---- Tallies ----

  /** What race() leaves in the fields of RaceResult that are not measurements. */
  datatype RaceResult = RaceResult(returned: bool, expectedTotal: nat, observedTotal: nat, casFailures: nat) {
    predicate CountsOk() { observedTotal == expectedTotal }
  }

  /** What a Measurement keeps of the races besides times. */
  datatype RaceTally = RaceTally(finished: bool, countsOk: bool, failures: nat, increments: nat)

  function Counted(m: RaceTally, r: RaceResult): RaceTally {
    RaceTally(r.returned, m.countsOk && r.CountsOk(), Wrap(m.failures + r.casFailures),
              Wrap(m.increments + r.expectedTotal))
  }

  /** What a race reports that ends in state s. */
  ghost function ReportOf(cfg: Config, s: State): RaceResult {
    RaceResult(s.main.Returned?, Wrap(cfg.cpus * cfg.iterations), s.observed, s.casFailures)
  }

  /** The tally of the runs from a given one on. */
  ghost function TallyOf(cfg: Config, runs: seq<State>, from: nat): RaceTally
    requires from <= |runs|
    decreases |runs|
  {
    if |runs| == from then RaceTally(true, true, 0, 0)
    else
      var last := |runs| - 1;
      Counted(TallyOf(cfg, runs[..last], from), ReportOf(cfg, runs[last]))
  }

  lemma {:induction false} TallyCountsOk(cfg: Config, runs: seq<State>, from: nat)
    requires from <= |runs|
    ensures TallyOf(cfg, runs, from).countsOk <==> AllObserved(runs, from, Wrap(cfg.cpus * cfg.iterations))
    decreases |runs|
  {
    if |runs| > from {
      var before := runs[..|runs| - 1];
      TallyCountsOk(cfg, before, from);
      assert forall t :: from <= t < |before| ==> before[t] == runs[t];
    }
  }

  lemma {:induction false} TallySums(cfg: Config, runs: seq<State>, from: nat)
    requires from <= |runs|
    ensures var m := TallyOf(cfg, runs, from);
      && m.failures == Wrap(Sum(Reported(runs[from..])))
      && m.increments == Wrap((|runs| - from) * (cfg.cpus * cfg.iterations))
    decreases |runs|
  {
    if |runs| == from {
      assert runs[from..] == [];
    } else {
      var last := |runs| - 1;
      var before := runs[..last];
      var m := TallyOf(cfg, before, from);
      TallySums(cfg, before, from);
      OneMoreRun(before, from, runs[last], m.failures);
      OneMoreRace(last - from, cfg.cpus * cfg.iterations, m.increments);
      assert runs == before + [runs[last]];
    }
  }

  /** What race n reports. */
  ghost function Report(cfg: Config, cells: seq<Cell>, schedules: seq<seq<nat>>, n: nat): RaceResult
    requires cfg.InMemory(|cells|) && n < |schedules|
  {
    if cfg.Accepted() then ReportOf(cfg, RaceEnd(cfg, cells, schedules, n))
    else RaceResult(true, Wrap(cfg.cpus * cfg.iterations), 0, 0)
  }

  /** The tally of the races with numbers in [from, n), up to the first that does not return. */
  ghost function Counting(cfg: Config, cells: seq<Cell>, schedules: seq<seq<nat>>, from: nat, n: nat): RaceTally
    requires cfg.InMemory(|cells|) && from <= n <= |schedules|
    decreases n
  {
    if n == from then RaceTally(true, true, 0, 0)
    else
      var m := Counting(cfg, cells, schedules, from, n - 1);
      if m.finished then Counted(m, Report(cfg, cells, schedules, n - 1)) else m
  }

  // The memory after the first n races, and whether they have all returned.
  ghost predicate Stands(cfg: Config, cells: seq<Cell>, schedules: seq<seq<nat>>, n: nat, now: seq<Cell>,
                         finished: bool)
    requires cfg.InMemory(|cells|) && n <= |schedules|
  {
    if cfg.Accepted() then
      var runs := Races(cfg, cells, schedules, n);
      now == Left(cells, runs) && (finished <==> Ended(runs))
    else finished && now == cells
  }

  // The counts of a first and a second part, put together.
  lemma TwoTallies(cfg: Config, before: seq<State>, runs: seq<State>)
    requires before <= runs
    ensures TallyOf(cfg, before, 0).countsOk && TallyOf(cfg, runs, |before|).countsOk <==>
      forall t :: 0 <= t < |runs| ==> runs[t].observed == Wrap(cfg.cpus * cfg.iterations)
  {
    TallyCountsOk(cfg, before, 0);
    TallyCountsOk(cfg, runs, |before|);
    ObservedTogether(before, runs, Wrap(cfg.cpus * cfg.iterations));
  }

  lemma {:induction false} CountingIsTally(cfg: Config, cells: seq<Cell>, schedules: seq<seq<nat>>, from: nat, n: nat)
    requires cfg.Accepted() && cfg.InMemory(|cells|) && from <= n <= |schedules|
    requires var before := Races(cfg, cells, schedules, from); Ended(before) && |before| == from
    ensures var runs := Races(cfg, cells, schedules, n);
      && from <= |runs|
      && Counting(cfg, cells, schedules, from, n) == TallyOf(cfg, runs, from)
      && (Counting(cfg, cells, schedules, from, n).finished <==> Ended(runs))
    decreases n
  {
    if n > from {
      CountingIsTally(cfg, cells, schedules, from, n - 1);
      var runs := Races(cfg, cells, schedules, n - 1);
      assert (runs + [RaceEnd(cfg, cells, schedules, n - 1)])[..|runs|] == runs;
    }
  }

  lemma {:induction false} CountingNothing(cfg: Config, cells: seq<Cell>, schedules: seq<seq<nat>>, from: nat, n: nat)
    requires !cfg.Accepted() && cfg.InMemory(|cells|) && from <= n <= |schedules|
    ensures Counting(cfg, cells, schedules, from, n)
         == RaceTally(true, from == n || Wrap(cfg.cpus * cfg.iterations) == 0, 0,
                      Wrap((n - from) * (cfg.cpus * cfg.iterations)))
    decreases n
  {
    if from < n {
      CountingNothing(cfg, cells, schedules, from, n - 1);
      OneMoreRace(n - 1 - from, cfg.cpus * cfg.iterations, Counting(cfg, cells, schedules, from, n - 1).increments);
    }
  }

  // Not all races have returned.
  lemma Unfinished(cfg: Config, cells: seq<Cell>, schedules: seq<seq<nat>>, raced: nat, now: seq<Cell>)
    requires cfg.InMemory(|cells|) && raced <= |schedules| && Stands(cfg, cells, schedules, raced, now, false)
    ensures cfg.Accepted()
    ensures var runs := Races(cfg, cells, schedules, |schedules|);
      !(forall t :: 0 <= t < |runs| ==> runs[t].main.Returned?)
  {
    StoppedShort(cfg, cells, schedules, raced, |schedules|);
    RacesReturned(cfg, cells, schedules, |schedules|);
  }

  lemma Finished(cfg: Config, cells: seq<Cell>, schedules: seq<seq<nat>>, m: nat)
    requires cfg.Accepted() && cfg.InMemory(|cells|) && m <= |schedules|
    requires Ended(Races(cfg, cells, schedules, m)) && Ended(Races(cfg, cells, schedules, |schedules|))
    ensures var before, runs := Races(cfg, cells, schedules, m), Races(cfg, cells, schedules, |schedules|);
      && before <= runs && |before| == m && |runs| == |schedules|
      && (forall t :: 0 <= t < |runs| ==> runs[t].main.Returned?)
  {
    FirstRaces(cfg, cells, schedules, m, |schedules|);
    RacesFollow(cfg, cells, schedules, m, 0);
    RacesFollow(cfg, cells, schedules, |schedules|, 0);
    RacesReturned(cfg, cells, schedules, |schedules|);
  }

  // What follows for every schedule.
  lemma FinishedKeep(cfg: Config, cells: seq<Cell>, schedules: seq<seq<nat>>, from: nat)
    requires Ready(cfg, cells) && Ended(Races(cfg, cells, schedules, |schedules|))
    requires from <= |Races(cfg, cells, schedules, |schedules|)| == |schedules|
    ensures var runs := Races(cfg, cells, schedules, |schedules|);
      && Wrap(Sum(Reported(runs[from..]))) <= (|schedules| - from) * MostFailures(cfg.cpus, cfg.iterations)
      && (Exact(cfg) ==> AllObserved(runs, 0, Wrap(cfg.cpus * cfg.iterations)))
  {
    RacesKeep(cfg, cells, schedules, |schedules|);
    ReportedAtMost(Races(cfg, cells, schedules, |schedules|), from, MostFailures(cfg.N(), cfg.iterations));
  }

  // All of this, for the two series of a measurement: the counts,
  lemma MeasuredCounts(cfg: Config, cells: seq<Cell>, schedules: seq<seq<nat>>, warmups: nat)
    requires cfg.Accepted() && cfg.InMemory(|cells|) && warmups <= |schedules|
    requires Ended(Races(cfg, cells, schedules, warmups)) && Ended(Races(cfg, cells, schedules, |schedules|))
    ensures var runs := Races(cfg, cells, schedules, |schedules|);
      var m := Counting(cfg, cells, schedules, warmups, |schedules|);
      && |runs| == |schedules|
      && (forall t :: 0 <= t < |runs| ==> runs[t].main.Returned?)
      && (Counting(cfg, cells, schedules, 0, warmups).countsOk && m.countsOk
          <==> forall t :: 0 <= t < |runs| ==> runs[t].observed == Wrap(cfg.cpus * cfg.iterations))
      && m.failures == Wrap(Sum(Reported(runs[warmups..])))
      && m.increments == Wrap((|schedules| - warmups) * (cfg.cpus * cfg.iterations))
  {
    Finished(cfg, cells, schedules, warmups);
    CountingIsTally(cfg, cells, schedules, 0, warmups);
    CountingIsTally(cfg, cells, schedules, warmups, |schedules|);
    TallySums(cfg, Races(cfg, cells, schedules, |schedules|), warmups);
    TwoTallies(cfg, Races(cfg, cells, schedules, warmups), Races(cfg, cells, schedules, |schedules|));
  }

  // and what they keep on every schedule.
  lemma Measured(cfg: Config, sorted: seq<nat>, cells: seq<Cell>, schedules: seq<seq<nat>>, warmups: nat)
    requires Ascending(sorted) && multiset(sorted) == multiset(cfg.counters) && cfg.distinct == Unique(sorted)
    requires cfg.Accepted() && cfg.InMemory(|cells|) && Idle(cells) && cfg.iterations < WORD
    requires warmups <= |schedules| == |Races(cfg, cells, schedules, |schedules|)|
    requires Ended(Races(cfg, cells, schedules, |schedules|))
    ensures var runs := Races(cfg, cells, schedules, |schedules|);
      && Wrap(Sum(Reported(runs[warmups..]))) <= (|schedules| - warmups) * MostFailures(cfg.cpus, cfg.iterations)
      && (Exact(cfg) ==> forall t :: 0 <= t < |runs| ==> runs[t].observed == Wrap(cfg.cpus * cfg.iterations))
  {
    SortUniqueDeduplicates(cfg, sorted);
    assert cfg.(distinct := Unique(sorted)) == cfg;
    FinishedKeep(cfg, cells, schedules, warmups);
  }
}
