/**
 The same-core count alone.  Unlike the total and the cross-core count it can come out higher from
 the coarse samples than from the fine ones; whether it ever does on a machine depends on the core
 ids and the two intervals only.
 */
module SameCoreCounts {
  import opened Changes
  import opened Modular
  import opened Samples

  predicate InTable(ids: seq<int>, cpus: seq<int>) {
    forall i :: 0 <= i < |cpus| ==> 0 <= cpus[i] < |ids|
  }

  /** No two CPUs share a core. */
  predicate NoSiblings(ids: seq<int>) {
    forall a, b :: 0 <= a < b < |ids| ==> ids[a] != ids[b]
  }

  predicate OneCore(ids: seq<int>) {
    forall a, b :: 0 <= a < b < |ids| ==> ids[a] == ids[b]
  }

  /** n iterations leave the coarse tracker its look at iteration 0 and no other. */
  predicate SingleLook(n: nat, fine: nat, coarse: nat)
    requires fine >= 1 && coarse >= 1
  {
    forall i: nat :: 0 < i < n ==> !CoarseDue(fine, coarse)(i)
  }

  /** What somebody who configures the two detectors can check beforehand. */
  predicate SameCoreComparable(ids: seq<int>, n: nat, fine: nat, coarse: nat)
    requires fine >= 1 && coarse >= 1
  {
    NoSiblings(ids) || OneCore(ids) || fine % coarse == 0 || SingleLook(n, fine, coarse)
  }

  predicate SameCoreOrdered(ids: seq<int>, start: int, trace: seq<int>, n: nat, fine: nat, coarse: nat)
    requires n <= |trace| && fine >= 1 && coarse >= 1
  {
    SiblingHops(ids, CoarseSeen(start, trace, n, fine, coarse)) <= SiblingHops(ids, FineSeen(start, trace, n, fine))
  }

  /** In no execution of n iterations on the machine's CPUs does the coarse detector report more
      same-core migrations. */
  ghost predicate SameCoreAlwaysOrdered(ids: seq<int>, n: nat, fine: nat, coarse: nat)
    requires fine >= 1 && coarse >= 1
  {
    forall start: int, trace: seq<int> ::
      0 <= start < |ids| && InTable(ids, trace) && |trace| == n ==> SameCoreOrdered(ids, start, trace, n, fine, coarse)
  }

  // ---- Where the counts are ordered ----

  lemma {:induction false} ShownInTable(ids: seq<int>, start: int, trace: seq<int>, n: nat, due: nat -> bool)
    requires n <= |trace|
    requires 0 <= start < |ids| && InTable(ids, trace)
    ensures InTable(ids, Shown(start, trace, n, due))
  {
    if n > 0 {
      ShownInTable(ids, start, trace, n - 1, due);
    }
  }

  lemma {:induction false} NoSiblingsNoHops(ids: seq<int>, cpus: seq<int>)
    requires NoSiblings(ids) && InTable(ids, cpus)
    ensures SiblingHops(ids, cpus) == 0
  {
    if |cpus| > 1 {
      NoSiblingsNoHops(ids, cpus[..|cpus| - 1]);
    }
  }

  lemma {:induction false} OneCoreOnlyHops(ids: seq<int>, cpus: seq<int>)
    requires |cpus| >= 1 && OneCore(ids) && InTable(ids, cpus)
    ensures SiblingHops(ids, cpus) == Total(cpus)
  {
    var last := |cpus| - 1;
    if last > 0 {
      OneCoreOnlyHops(ids, cpus[..last]);
      OneMoreSample(ids, cpus[..last], cpus[last]);
      assert cpus == cpus[..last] + [cpus[last]];
    }
  }

  // If every fine sample is a coarse one, both trackers are shown the same.
  lemma EverySampleIsCoarse(start: int, trace: seq<int>, n: nat, fine: nat, coarse: nat)
    requires n <= |trace| && fine >= 1 && coarse >= 1 && fine % coarse == 0
    ensures CoarseSeen(start, trace, n, fine, coarse) == FineSeen(start, trace, n, fine)
  {
    forall i: nat | i < n ensures CoarseDue(fine, coarse)(i) == FineDue(fine)(i) {
      if i % fine == 0 {
        MultipleOfMultiple(i, fine, coarse);
      }
    }
    ShownAlike(start, trace, n, CoarseDue(fine, coarse), FineDue(fine));
  }

  lemma MultipleOfMultiple(i: nat, fine: nat, coarse: nat)
    requires fine >= 1 && coarse >= 1 && fine % coarse == 0 && i % fine == 0
    ensures i % coarse == 0
  {
    var q, r := i / fine, fine / coarse;
    Fundamental(i, fine);
    Fundamental(fine, coarse);
    assert i == (q * r) * coarse;
    ModUnique(i, coarse, q * r, 0);
  }

  lemma {:induction false} SingleLookIsOrdered(ids: seq<int>, start: int, trace: seq<int>, n: nat,
                                               fine: nat, coarse: nat)
    requires n <= |trace| && fine >= 1 && coarse >= 1 && SingleLook(n, fine, coarse)
    ensures SameCoreOrdered(ids, start, trace, n, fine, coarse)
  {
    if n > 1 {
      SingleLookIsOrdered(ids, start, trace, n - 1, fine, coarse);
      OneMoreSample(ids, FineSeen(start, trace, n - 1, fine), trace[n - 1]);
      assert !CoarseDue(fine, coarse)(n - 1);
    } else if n == 1 {
      assert FineDue(fine)(0) && CoarseDue(fine, coarse)(0);
    }
  }

  /** The sufficient half, execution by execution. */
  lemma ComparableIsOrdered(ids: seq<int>, start: int, trace: seq<int>, n: nat, fine: nat, coarse: nat)
    requires n <= |trace| && fine >= 1 && coarse >= 1
    requires 0 <= start < |ids| && InTable(ids, trace)
    requires SameCoreComparable(ids, n, fine, coarse)
    ensures SameCoreOrdered(ids, start, trace, n, fine, coarse)
  {
    var fineSeen, coarseSeen := FineSeen(start, trace, n, fine), CoarseSeen(start, trace, n, fine, coarse);
    ShownInTable(ids, start, trace, n, FineDue(fine));
    ShownInTable(ids, start, trace, n, CoarseDue(fine, coarse));
    if NoSiblings(ids) {
      NoSiblingsNoHops(ids, coarseSeen);
    } else if OneCore(ids) {
      OneCoreOnlyHops(ids, fineSeen);
      OneCoreOnlyHops(ids, coarseSeen);
      CoarseIsSampled(start, trace, n, fine, coarse);
      SamplingMisses(fineSeen, CoarseChecks(start, trace, n, fine, coarse));
    } else if fine % coarse == 0 {
      EverySampleIsCoarse(start, trace, n, fine, coarse);
    } else {
      SingleLookIsOrdered(ids, start, trace, n, fine, coarse);
    }
  }

  // ---- Where they are not ----

  /** A thread that starts on CPU a, is on c at the second fine sample and on b from the third on. */
  function Detour(a: int, b: int, c: int, fine: nat, n: nat): (r: seq<int>)
    ensures |r| == n
  {
    seq(n, i => if i < fine then a else if i < 2 * fine then c else b)
  }

  // A tracker that looks at both places sees the thread leave the core and come back.
  lemma {:induction false} SeesTheDetour(ids: seq<int>, a: int, b: int, c: int, fine: nat, size: nat, n: nat,
                                         due: nat -> bool)
    requires fine >= 1 && n <= size
    requires due(fine) && due(2 * fine)
    requires SameCore(ids, a, b) && !SameCore(ids, a, c)
    ensures var seen := Shown(a, Detour(a, b, c, fine, size), n, due);
      && SiblingHops(ids, seen) == 0
      && seen[|seen| - 1] == (if n <= fine then a else if n <= 2 * fine then c else b)
  {
    if n > 0 {
      var trace := Detour(a, b, c, fine, size);
      SeesTheDetour(ids, a, b, c, fine, size, n - 1, due);
      OneMoreSample(ids, Shown(a, trace, n - 1, due), trace[n - 1]);
    }
  }

  // A tracker that never looks while the thread is away sees one step aside, at its next look or before.
  lemma {:induction false} MissesTheDetour(ids: seq<int>, a: int, b: int, c: int, fine: nat, size: nat, n: nat,
                                           due: nat -> bool, look: nat)
    requires n <= size
    requires forall i: nat :: due(i) ==> i < fine || i >= 2 * fine
    requires due(look) && look >= 2 * fine
    requires a != b && SameCore(ids, a, b)
    ensures var seen := Shown(a, Detour(a, b, c, fine, size), n, due);
      var last := seen[|seen| - 1];
      && last == (if SiblingHops(ids, seen) == 0 then a else b)
      && SiblingHops(ids, seen) <= 1
      && (n > look ==> last == b)
      && (n <= 2 * fine ==> last == a)
  {
    if n > 0 {
      var trace := Detour(a, b, c, fine, size);
      MissesTheDetour(ids, a, b, c, fine, size, n - 1, due, look);
      OneMoreSample(ids, Shown(a, trace, n - 1, due), trace[n - 1]);
    }
  }

  lemma FineSamples(fine: nat)
    requires fine >= 1
    ensures FineDue(fine)(fine) && FineDue(fine)(2 * fine)
  {
    ModUnique(fine, fine, 1, 0);
    ModUnique(2 * fine, fine, 2, 0);
  }

  // Between the first fine sample and the third there is no coarse one.
  lemma CoarseSamples(fine: nat, coarse: nat, i: nat)
    requires fine >= 1 && coarse >= 1 && fine % coarse != 0 && CoarseDue(fine, coarse)(i)
    ensures i == 0 || i >= 2 * fine
  {
    if 0 < i < fine {
      ModUnique(i, fine, 0, i);
    } else if fine <= i < 2 * fine {
      ModUnique(i, fine, 1, i - fine);
    }
  }

  /** CPUs a and b share a core, c is on another: the detour through c is a same-core migration to the
      coarse detector, once it has looked again, and two cross-core ones to the fine one. */
  lemma DetourIsNotOrdered(ids: seq<int>, a: int, b: int, c: int, n: nat, fine: nat, coarse: nat, look: nat)
    requires fine >= 1 && coarse >= 1 && fine % coarse != 0 && 0 < look < n && CoarseDue(fine, coarse)(look)
    requires a != b && SameCore(ids, a, b) && !SameCore(ids, a, c)
    ensures var trace := Detour(a, b, c, fine, n);
      && SiblingHops(ids, FineSeen(a, trace, n, fine)) == 0
      && SiblingHops(ids, CoarseSeen(a, trace, n, fine, coarse)) == 1
  {
    FineSamples(fine);
    forall i: nat | CoarseDue(fine, coarse)(i) ensures i < fine || i >= 2 * fine {
      CoarseSamples(fine, coarse, i);
    }
    CoarseSamples(fine, coarse, look);
    SeesTheDetour(ids, a, b, c, fine, n, n, FineDue(fine));
    MissesTheDetour(ids, a, b, c, fine, n, n, CoarseDue(fine, coarse), look);
  }

  /** The coarse detector never reports more same-core migrations than the fine one if and only if no
      two CPUs share a core, or all do, or every fine sample is a coarse one, or it looks only once. */
  lemma SameCoreOrderedExactly(ids: seq<int>, n: nat, fine: nat, coarse: nat)
    requires fine >= 1 && coarse >= 1
    ensures SameCoreAlwaysOrdered(ids, n, fine, coarse) <==> SameCoreComparable(ids, n, fine, coarse)
  {
    if SameCoreComparable(ids, n, fine, coarse) {
      forall start: int, trace: seq<int> | 0 <= start < |ids| && InTable(ids, trace) && |trace| == n
        ensures SameCoreOrdered(ids, start, trace, n, fine, coarse)
      {
        ComparableIsOrdered(ids, start, trace, n, fine, coarse);
      }
    } else {
      var a, b :| 0 <= a < b < |ids| && ids[a] == ids[b];
      var c :| 0 <= c < |ids| && ids[c] != ids[a];
      var look: nat :| 0 < look < n && CoarseDue(fine, coarse)(look);
      DetourIsNotOrdered(ids, a, b, c, n, fine, coarse, look);
      var trace := Detour(a, b, c, fine, n);
      assert InTable(ids, trace) && !SameCoreOrdered(ids, a, trace, n, fine, coarse);
    }
  }

  /** With the intervals and the length of the experiment the core ids alone decide. */
  lemma SameCoreOfTheExperiment(ids: seq<int>)
    ensures SameCoreAlwaysOrdered(ids, ITERATIONS, FINE_INTERVAL, COARSE_INTERVAL) <==> NoSiblings(ids) || OneCore(ids)
  {
    SameCoreOrderedExactly(ids, ITERATIONS, FINE_INTERVAL, COARSE_INTERVAL);
    assert FINE_INTERVAL % COARSE_INTERVAL == 1_000;
    assert CoarseDue(FINE_INTERVAL, COARSE_INTERVAL)(COARSE_INTERVAL);
  }
}
