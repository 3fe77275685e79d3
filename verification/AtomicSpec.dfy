/**
 What a correct shared counter is: a memory of words on which every increment is one indivisible
 step.  The machine knows nothing of barriers, loads, stores or locks.
 */
module AtomicSpec {
  import opened Sums
  import opened RaceMachine

  /** How many counters have been reset, the words, and each thread's increments so far. */
  datatype Spec = Spec(resets: nat, words: seq<nat>, done: seq<nat>)

  ghost predicate ByReset(cfg: Config, a: Spec, b: Spec) {
    && a.resets < |cfg.distinct|
    && cfg.distinct[a.resets] < |a.words|
    && (forall i :: 0 <= i < |a.done| ==> a.done[i] == 0)
    && b == Spec(a.resets + 1, a.words[cfg.distinct[a.resets] := 0], a.done)
  }

  ghost predicate ByIncrement(cfg: Config, a: Spec, b: Spec, i: nat) {
    && a.resets == |cfg.distinct|
    && i < |a.done| == cfg.N()
    && a.done[i] < cfg.iterations
    && cfg.counters[i] < |a.words|
    && b == a.(words := a.words[cfg.counters[i] := Wrap(a.words[cfg.counters[i]] + 1)],
               done := a.done[i := a.done[i] + 1])
  }

  // One step of the specification, or a stutter.
  ghost predicate SpecNext(cfg: Config, a: Spec, b: Spec) {
    a == b || ByReset(cfg, a, b) || exists i: nat :: ByIncrement(cfg, a, b, i)
  }

  ghost predicate SpecTrace(cfg: Config, trace: seq<Spec>) {
    forall i :: 0 <= i < |trace| - 1 ==> SpecNext(cfg, trace[i], trace[i + 1])
  }

  // Every counter that has been reset holds the number of increments made through pointers to it.
  ghost predicate Conserved(cfg: Config, a: Spec) {
    && a.resets <= |cfg.distinct|
    && |a.done| == cfg.N()
    && (forall j :: 0 <= j < |cfg.distinct| ==> cfg.distinct[j] < |a.words|)
    && (a.resets < |cfg.distinct| ==> forall i :: 0 <= i < cfg.N() ==> a.done[i] == 0)
    && (forall j :: 0 <= j < a.resets ==>
          a.words[cfg.distinct[j]] == Wrap(Tally(cfg.counters, a.done, cfg.distinct[j])))
  }

  lemma ConservedNext(cfg: Config, a: Spec, b: Spec)
    requires cfg.InMemory(|a.words|) && StrictlyAscending(cfg.distinct) && Conserved(cfg, a) && SpecNext(cfg, a, b)
    ensures Conserved(cfg, b) && |b.words| == |a.words|
  {
    var distinct := cfg.distinct;
    if ByReset(cfg, a, b) {
      SumBounds(Shares(cfg.counters, a.done, distinct[a.resets]), 0, 0);
    } else if a != b {
      var i: nat :| ByIncrement(cfg, a, b, i);
      forall j | 0 <= j < |distinct|
        ensures b.words[distinct[j]] == Wrap(Tally(cfg.counters, b.done, distinct[j]))
      {
        TallyUpdate(cfg.counters, a.done, i, a.done[i] + 1, distinct[j]);
        WrapAdd(Tally(cfg.counters, a.done, distinct[j]), 1);
      }
    }
  }

  lemma {:induction false} ConservedTrace(cfg: Config, trace: seq<Spec>, at: nat)
    requires at < |trace| && SpecTrace(cfg, trace)
    requires cfg.InMemory(|trace[0].words|) && StrictlyAscending(cfg.distinct) && Conserved(cfg, trace[0])
    ensures Conserved(cfg, trace[at]) && |trace[at].words| == |trace[0].words|
  {
    if at > 0 {
      ConservedTrace(cfg, trace, at - 1);
      ConservedNext(cfg, trace[at - 1], trace[at]);
    }
  }
}
