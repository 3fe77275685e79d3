/** What main accumulates after the join: the CAS failures and the observed total. */
module Totals {
  import opened Sums
  import opened RaceMachine
  import opened BarrierProtocol

  /** The words of the first j distinct counters. */
  function Values(cfg: Config, s: State, j: nat): (r: seq<int>)
    requires Shape(cfg, s) && j <= |cfg.distinct|
    ensures |r| == j
  {
    seq(j, x requires 0 <= x < j => s.cells[cfg.distinct[x]].v)
  }

  /** The failed attempts of the first i workers. */
  function Failures(s: State, i: nat): (r: seq<int>)
    requires i <= |s.workers|
    ensures |r| == i
  {
    seq(i, x requires 0 <= x < i => s.workers[x].failures)
  }

  predicate Accumulated(cfg: Config, s: State) {
    && Shape(cfg, s)
    && MainOk(cfg, s.main)
    && (match s.main
        case Summing(j) =>
          s.observed == Wrap(Sum(Values(cfg, s, j))) && s.casFailures == Wrap(Sum(Failures(s, cfg.N())))
        case Returned =>
          && s.observed == Wrap(Sum(Values(cfg, s, |cfg.distinct|)))
          && s.casFailures == Wrap(Sum(Failures(s, cfg.N())))
        case Folding(i) => s.observed == 0 && s.casFailures == Wrap(Sum(Failures(s, i)))
        case _ => s.observed == 0 && s.casFailures == 0)
  }

  lemma WrapAccumulate(xs: seq<int>, x: int, acc: nat)
    requires acc == Wrap(Sum(xs))
    ensures Wrap(acc + x) == Wrap(Sum(xs + [x]))
  {
    SumAppend(xs, [x]);
    WrapAdd(Sum(xs), x);
  }

  lemma AccumulatedStep(cfg: Config, s: State, actor: nat)
    requires Barrier(cfg, s) && Accumulated(cfg, s)
    ensures Accumulated(cfg, Step(cfg, s, actor))
  {
    var t := Step(cfg, s, actor);
    BarrierStep(cfg, s, actor);
    if actor < cfg.N() {
      if Joined(s.main) {
        assert t.workers == s.workers && t.cells == s.cells;
      }
    } else if actor == cfg.N() {
      match s.main
      case Summing(j) =>
        if j < |cfg.distinct| {
          WrapAccumulate(Values(cfg, s, j), s.cells[cfg.distinct[j]].v, s.observed);
          assert Values(cfg, t, j + 1) == Values(cfg, s, j) + [s.cells[cfg.distinct[j]].v];
        } else {
          assert Values(cfg, t, j) == Values(cfg, s, j);
        }
      case Folding(i) =>
        if i < cfg.N() {
          WrapAccumulate(Failures(s, i), s.workers[i].failures, s.casFailures);
          assert Failures(t, i + 1) == Failures(s, i) + [s.workers[i].failures];
        } else {
          assert Failures(t, i) == Failures(s, i);
          assert Values(cfg, t, 0) == [];
        }
      case Joining(i) => assert Failures(t, 0) == [];
      case _ =>
    }
  }

  lemma {:induction false} AccumulatedRun(cfg: Config, s: State, schedule: seq<nat>)
    requires Barrier(cfg, s) && Accumulated(cfg, s)
    ensures Barrier(cfg, Run(cfg, s, schedule)) && Accumulated(cfg, Run(cfg, s, schedule))
    decreases |schedule|
  {
    if schedule != [] {
      BarrierStep(cfg, s, schedule[0]);
      AccumulatedStep(cfg, s, schedule[0]);
      AccumulatedRun(cfg, Step(cfg, s, schedule[0]), schedule[1..]);
    }
  }

  /** Adding up words is adding up what they are congruent to. */
  lemma {:induction false} WrapSum(words: seq<int>, xs: seq<int>)
    requires |words| == |xs|
    requires forall i :: 0 <= i < |xs| ==> words[i] == Wrap(xs[i])
    ensures Wrap(Sum(words)) == Wrap(Sum(xs))
  {
    if xs != [] {
      WrapSum(words[1..], xs[1..]);
      WrapAdd(xs[0], Sum(words[1..]));
      WrapAdd(Sum(words[1..]), xs[0]);
      WrapAdd(Sum(xs[1..]), xs[0]);
    }
  }
}
