/**
 The samples the coarse and the fine migration detector see of one execution, and what a tally of a
 sequence of samples counts.  What sched_getcpu would answer at every loop iteration is an arbitrary
 trace, and so are the core ids of the machine.
 */
module Samples {
  import opened Changes

  /** core_of on a table of core ids: -1 for a CPU that is not in it. */
  function CoreOf(ids: seq<int>, cpu: int): int {
    if 0 <= cpu < |ids| then ids[cpu] else -1
  }

  predicate SameCore(ids: seq<int>, a: int, b: int) {
    CoreOf(ids, a) == CoreOf(ids, b)
  }

  /** Two CPUs of the table are on one core if their entries agree; a CPU outside it counts as on the core
      of every other one outside, and of those whose id could not be read. */
  lemma SameCoreMeans(ids: seq<int>, a: int, b: int)
    ensures 0 <= a < |ids| && 0 <= b < |ids| ==> (SameCore(ids, a, b) <==> ids[a] == ids[b])
    ensures !(0 <= a < |ids|) && 0 <= b < |ids| ==> (SameCore(ids, a, b) <==> ids[b] == -1)
    ensures 0 <= a < |ids| && !(0 <= b < |ids|) ==> (SameCore(ids, a, b) <==> ids[a] == -1)
    ensures !(0 <= a < |ids|) && !(0 <= b < |ids|) ==> SameCore(ids, a, b)
  {
  }

  // ---- What a tally of a sequence of CPUs is ----

  function Cores(ids: seq<int>, cpus: seq<int>): (r: seq<int>)
    ensures |r| == |cpus|
  {
    seq(|cpus|, i requires 0 <= i < |cpus| => CoreOf(ids, cpus[i]))
  }

  /** The places at which the CPU changes but its core does not. */
  function SiblingHops(ids: seq<int>, cpus: seq<int>): nat {
    if |cpus| <= 1 then 0
    else
      var last := |cpus| - 1;
      SiblingHops(ids, cpus[..last])
        + (if cpus[last - 1] != cpus[last] && SameCore(ids, cpus[last - 1], cpus[last]) then 1 else 0)
  }

  lemma {:induction false} HopsAndCrossings(ids: seq<int>, cpus: seq<int>)
    requires |cpus| >= 1
    ensures Total(cpus) == SiblingHops(ids, cpus) + Total(Cores(ids, cpus))
  {
    var last := |cpus| - 1;
    if last > 0 {
      HopsAndCrossings(ids, cpus[..last]);
      assert cpus == cpus[..last] + [cpus[last]];
      TotalAppend(cpus[..last], cpus[last]);
      assert Cores(ids, cpus) == Cores(ids, cpus[..last]) + [CoreOf(ids, cpus[last])];
      TotalAppend(Cores(ids, cpus[..last]), CoreOf(ids, cpus[last]));
    }
  }

  // The places at which a sequence changes.
  lemma {:induction false} PlacesChanged(s: seq<int>)
    requires |s| >= 1
    ensures Total(s) == |set i {:trigger s[i]} | 1 <= i < |s| && s[i - 1] != s[i]|
  {
    var last := |s| - 1;
    var places := set i {:trigger s[i]} | 1 <= i < |s| && s[i - 1] != s[i];
    if last > 0 {
      var r := s[..last];
      PlacesChanged(r);
      TotalAppend(r, s[last]);
      assert s == r + [s[last]];
      var before := set i {:trigger r[i]} | 1 <= i < |r| && r[i - 1] != r[i];
      assert places == if s[last - 1] != s[last] then before + {last} else before;
    }
  }

  predicate HopAt(ids: seq<int>, cpus: seq<int>, i: int) {
    1 <= i < |cpus| && cpus[i - 1] != cpus[i] && SameCore(ids, cpus[i - 1], cpus[i])
  }

  lemma {:induction false} HopsAt(ids: seq<int>, cpus: seq<int>)
    ensures SiblingHops(ids, cpus) == |set i | 0 <= i < |cpus| && HopAt(ids, cpus, i)|
  {
    var places := set i | 0 <= i < |cpus| && HopAt(ids, cpus, i);
    if |cpus| <= 1 {
      assert places == {};
    } else {
      var last := |cpus| - 1;
      var r := cpus[..last];
      HopsAt(ids, r);
      var before := set i | 0 <= i < |r| && HopAt(ids, r, i);
      forall i | 0 <= i < last ensures HopAt(ids, r, i) == HopAt(ids, cpus, i) {}
      assert places == if HopAt(ids, cpus, last) then before + {last} else before;
    }
  }

  lemma SiblingPlaces(ids: seq<int>, cpus: seq<int>)
    requires forall i :: 0 <= i < |cpus| ==> 0 <= cpus[i] < |ids|
    ensures SiblingHops(ids, cpus) == |set i {:trigger cpus[i]} |
      1 <= i < |cpus| && cpus[i - 1] != cpus[i] && ids[cpus[i - 1]] == ids[cpus[i]]|
  {
    HopsAt(ids, cpus);
    assert (set i | 0 <= i < |cpus| && HopAt(ids, cpus, i)) == (set i {:trigger cpus[i]} |
      1 <= i < |cpus| && cpus[i - 1] != cpus[i] && ids[cpus[i - 1]] == ids[cpus[i]]);
  }

  /** The three counts as numbers of places, on the CPUs of the table: where the CPU changes, where it
      changes and its entry in the table does not, and where the entry changes. */
  lemma CountedPlaces(ids: seq<int>, cpus: seq<int>)
    requires |cpus| >= 1 && forall i :: 0 <= i < |cpus| ==> 0 <= cpus[i] < |ids|
    ensures Total(cpus) == |set i {:trigger cpus[i]} | 1 <= i < |cpus| && cpus[i - 1] != cpus[i]|
    ensures SiblingHops(ids, cpus) == |set i {:trigger cpus[i]} |
      1 <= i < |cpus| && cpus[i - 1] != cpus[i] && ids[cpus[i - 1]] == ids[cpus[i]]|
    ensures Total(Cores(ids, cpus)) == |set i {:trigger cpus[i]} |
      1 <= i < |cpus| && ids[cpus[i - 1]] != ids[cpus[i]]|
  {
    PlacesChanged(cpus);
    SiblingPlaces(ids, cpus);
    var cores := Cores(ids, cpus);
    PlacesChanged(cores);
    assert (set i {:trigger cores[i]} | 1 <= i < |cores| && cores[i - 1] != cores[i])
        == (set i {:trigger cpus[i]} | 1 <= i < |cpus| && ids[cpus[i - 1]] != ids[cpus[i]]);
  }

  // One more sample: what each of the three counts gains.
  lemma OneMoreSample(ids: seq<int>, cpus: seq<int>, cpu: int)
    requires |cpus| >= 1
    ensures var last := cpus[|cpus| - 1];
      && Total(cpus + [cpu]) == Total(cpus) + (if last != cpu then 1 else 0)
      && SiblingHops(ids, cpus + [cpu])
         == SiblingHops(ids, cpus) + (if last != cpu && SameCore(ids, last, cpu) then 1 else 0)
      && Total(Cores(ids, cpus + [cpu])) == Total(Cores(ids, cpus)) + (if SameCore(ids, last, cpu) then 0 else 1)
  {
    TotalAppend(cpus, cpu);
    TotalAppend(Cores(ids, cpus), CoreOf(ids, cpu));
    assert Cores(ids, cpus + [cpu]) == Cores(ids, cpus) + [CoreOf(ids, cpu)];
    assert (cpus + [cpu])[..|cpus|] == cpus;
  }

  // ---- What the trackers are shown ----

  /** The CPUs a tracker has been shown after n iterations, its starting CPU included, if it looks at
      the iterations that are due. */
  function Shown(start: int, trace: seq<int>, n: nat, due: nat -> bool): (r: seq<int>)
    requires n <= |trace|
    ensures |r| >= 1
  {
    if n == 0 then [start]
    else
      var before := Shown(start, trace, n - 1, due);
      if due(n - 1) then before + [trace[n - 1]] else before
  }

  lemma {:induction false} ShownAlike(start: int, trace: seq<int>, n: nat, due: nat -> bool, due': nat -> bool)
    requires n <= |trace|
    requires forall i: nat :: i < n ==> due(i) == due'(i)
    ensures Shown(start, trace, n, due) == Shown(start, trace, n, due')
  {
    if n > 0 {
      ShownAlike(start, trace, n - 1, due, due');
    }
  }

  /** Sample by sample: the starting CPU, and then the trace at the iterations that are due, in order. */
  lemma {:induction false} ShownElements(start: int, trace: seq<int>, n: nat, due: nat -> bool)
      returns (looks: seq<nat>)
    requires n <= |trace|
    ensures forall j, k :: 0 <= j < k < |looks| ==> looks[j] < looks[k]
    ensures forall i: nat :: i in looks <==> i < n && due(i)
    ensures var seen := Shown(start, trace, n, due);
      && |seen| == |looks| + 1 && seen[0] == start
      && forall j :: 0 <= j < |looks| ==> looks[j] < n && seen[j + 1] == trace[looks[j]]
  {
    if n == 0 {
      looks := [];
    } else {
      looks := ShownElements(start, trace, n - 1, due);
      if due(n - 1) {
        looks := looks + [n - 1];
      }
    }
  }

  function FineDue(fine: nat): nat -> bool
    requires fine >= 1
  {
    i => i % fine == 0
  }

  /** The coarse tracker is only asked where the fine one has just been shown a sample. */
  function CoarseDue(fine: nat, coarse: nat): nat -> bool
    requires fine >= 1 && coarse >= 1
  {
    i => i % fine == 0 && i % coarse == 0
  }

  function FineSeen(start: int, trace: seq<int>, n: nat, fine: nat): (r: seq<int>)
    requires n <= |trace| && fine >= 1
  {
    Shown(start, trace, n, FineDue(fine))
  }

  function CoarseSeen(start: int, trace: seq<int>, n: nat, fine: nat, coarse: nat): (r: seq<int>)
    requires n <= |trace| && fine >= 1 && coarse >= 1
  {
    Shown(start, trace, n, CoarseDue(fine, coarse))
  }

  /** Where the samples of the coarse tracker stand among those of the fine one. */
  function CoarseChecks(start: int, trace: seq<int>, n: nat, fine: nat, coarse: nat): (r: seq<nat>)
    requires n <= |trace| && fine >= 1 && coarse >= 1
    ensures Checkpoints(FineSeen(start, trace, n, fine), r)
  {
    if n == 0 then [0]
    else
      var before := CoarseChecks(start, trace, n - 1, fine, coarse);
      if CoarseDue(fine, coarse)(n - 1) then before + [|FineSeen(start, trace, n - 1, fine)|] else before
  }

  /** The coarse tracker sees the fine tracker's samples at its checkpoints and nothing else. */
  lemma {:induction false} CoarseIsSampled(start: int, trace: seq<int>, n: nat, fine: nat, coarse: nat)
    requires n <= |trace| && fine >= 1 && coarse >= 1
    ensures CoarseSeen(start, trace, n, fine, coarse)
         == Sampled(FineSeen(start, trace, n, fine), CoarseChecks(start, trace, n, fine, coarse))
  {
    if n > 0 {
      CoarseIsSampled(start, trace, n - 1, fine, coarse);
      if FineDue(fine)(n - 1) {
        SampledExtend(FineSeen(start, trace, n - 1, fine), CoarseChecks(start, trace, n - 1, fine, coarse),
                      trace[n - 1]);
      }
    }
  }

  const COARSE_INTERVAL: nat := 1_000_000
  const FINE_INTERVAL: nat := 1_000
  const ITERATIONS: nat := 2_000_000_000

  /** With the intervals of the experiment every look of the coarse tracker falls on a fine sample, so
      the coarse samples are simply those of every millionth iteration. */
  lemma CoarseSamplesOfTheExperiment(start: int, trace: seq<int>, n: nat)
    requires n <= |trace|
    ensures CoarseSeen(start, trace, n, FINE_INTERVAL, COARSE_INTERVAL) == FineSeen(start, trace, n, COARSE_INTERVAL)
  {
    forall i: nat | i < n ensures CoarseDue(FINE_INTERVAL, COARSE_INTERVAL)(i) == FineDue(COARSE_INTERVAL)(i) {
      ThousandsInMillions(i);
    }
    ShownAlike(start, trace, n, CoarseDue(FINE_INTERVAL, COARSE_INTERVAL), FineDue(COARSE_INTERVAL));
  }

  lemma ThousandsInMillions(i: nat)
    ensures i % COARSE_INTERVAL == 0 ==> i % FINE_INTERVAL == 0
  {
    if i % COARSE_INTERVAL == 0 {
      assert i == 1_000 * (1_000 * (i / COARSE_INTERVAL));
    }
  }

  /** The two detectors on one sequence of samples: both totals and both cross-core counts are
      comparisons of a sequence with a sampling of it. */
  lemma DetectorsCompared(ids: seq<int>, cpus: seq<int>, checks: seq<nat>)
    requires Checkpoints(cpus, checks)
    ensures Checkpoints(Cores(ids, cpus), checks)
    ensures Total(Sampled(cpus, checks)) <= Total(cpus)
    ensures Total(Sampled(cpus, checks)) == Total(cpus) <==> Quiet(cpus, checks)
    ensures Total(Cores(ids, Sampled(cpus, checks))) <= Total(Cores(ids, cpus))
    ensures Total(Cores(ids, Sampled(cpus, checks))) == Total(Cores(ids, cpus)) <==> Quiet(Cores(ids, cpus), checks)
  {
    SamplingMisses(cpus, checks);
    SamplingMisses(Cores(ids, cpus), checks);
    ChecksInside(cpus, checks);
    assert Cores(ids, Sampled(cpus, checks)) == Sampled(Cores(ids, cpus), checks);
  }
}
