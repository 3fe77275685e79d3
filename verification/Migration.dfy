/** The two migration trackers as objects, and the loop that feeds them. */
module Migration {
  import opened Changes
  import opened Samples
  import opened SameCoreCounts

  /** Caches the core id of every logical CPU. */
  class CpuTopology {
    const coreIdByLogicalCpu: seq<int>

    constructor (logicalCpuCount: nat, readCoreId: int -> int)
      ensures |coreIdByLogicalCpu| == logicalCpuCount
      ensures forall cpu :: 0 <= cpu < logicalCpuCount ==> coreIdByLogicalCpu[cpu] == readCoreId(cpu)
    {
      var ids := seq(logicalCpuCount, _ => -1);
      var cpu := 0;
      while cpu < logicalCpuCount
        invariant 0 <= cpu <= logicalCpuCount == |ids|
        invariant forall c :: 0 <= c < cpu ==> ids[c] == readCoreId(c)
      {
        ids := ids[cpu := readCoreId(cpu)];
        cpu := cpu + 1;
      }
      coreIdByLogicalCpu := ids;
    }
  }

  /** A tracker.  `seen` is its starting CPU and every CPU it has been shown. */
  class Tally {
    var lastCpu: int
    var total: nat
    var sameCore: nat
    var crossCore: nat
    ghost var seen: seq<int>

    // The counters say: all changes, those within a core, those between cores.
    ghost predicate Counts(ids: seq<int>)
      reads this
    {
      && |seen| >= 1
      && lastCpu == seen[|seen| - 1]
      && total == Total(seen)
      && sameCore == SiblingHops(ids, seen)
      && crossCore == Total(Cores(ids, seen))
    }

    constructor (startCpu: int, ghost ids: seq<int>)
      ensures seen == [startCpu]
      ensures Counts(ids)
    {
      lastCpu, total, sameCore, crossCore := startCpu, 0, 0, 0;
      seen := [startCpu];
    }

    /** record */
    method Record(currentCpu: int, topo: CpuTopology)
      requires Counts(topo.coreIdByLogicalCpu)
      modifies this
      ensures seen == old(seen) + [currentCpu]
      ensures Counts(topo.coreIdByLogicalCpu)
      ensures var ids, cpus := topo.coreIdByLogicalCpu, seen;
        (forall i :: 0 <= i < |cpus| ==> 0 <= cpus[i] < |ids|) ==>
        && total == |set i {:trigger cpus[i]} | 1 <= i < |cpus| && cpus[i - 1] != cpus[i]|
        && sameCore == |set i {:trigger cpus[i]} |
             1 <= i < |cpus| && cpus[i - 1] != cpus[i] && ids[cpus[i - 1]] == ids[cpus[i]]|
        && crossCore == |set i {:trigger cpus[i]} | 1 <= i < |cpus| && ids[cpus[i - 1]] != ids[cpus[i]]|
    {
      OneMoreSample(topo.coreIdByLogicalCpu, seen, currentCpu);
      if currentCpu != lastCpu {
        total := total + 1;
        if SameCore(topo.coreIdByLogicalCpu, lastCpu, currentCpu) {
          sameCore := sameCore + 1;
        } else {
          crossCore := crossCore + 1;
        }
        lastCpu := currentCpu;
      }
      seen := seen + [currentCpu];
      Places(topo.coreIdByLogicalCpu);
    }

    // What the counters say, place by place.
    lemma Places(ids: seq<int>)
      requires Counts(ids)
      ensures var cpus := seen;
        (forall i :: 0 <= i < |cpus| ==> 0 <= cpus[i] < |ids|) ==>
        && total == |set i {:trigger cpus[i]} | 1 <= i < |cpus| && cpus[i - 1] != cpus[i]|
        && sameCore == |set i {:trigger cpus[i]} |
             1 <= i < |cpus| && cpus[i - 1] != cpus[i] && ids[cpus[i - 1]] == ids[cpus[i]]|
        && crossCore == |set i {:trigger cpus[i]} | 1 <= i < |cpus| && ids[cpus[i - 1]] != ids[cpus[i]]|
    {
      if forall i :: 0 <= i < |seen| ==> 0 <= seen[i] < |ids| {
        CountedPlaces(ids, seen);
      }
    }
  }

  // ---- The sampling loop ----

  /** The starting CPU, and then the trace at these iterations, in order. */
  predicate Looked(seen: seq<int>, startCpu: int, trace: seq<int>, looks: seq<nat>) {
    && (forall j, k :: 0 <= j < k < |looks| ==> looks[j] < looks[k])
    && |seen| == |looks| + 1
    && seen[0] == startCpu
    && forall j :: 0 <= j < |looks| ==> looks[j] < |trace| && seen[j + 1] == trace[looks[j]]
  }

  /** run_worker, without its clock: one loop feeds both trackers from the same samples. */
  method RunWorker(topo: CpuTopology, startCpu: int, trace: seq<int>, iterations: nat, fineInterval: nat,
                   coarseInterval: nat)
      returns (coarse: Tally, fine: Tally, ghost coarseLooks: seq<nat>, ghost fineLooks: seq<nat>)
    requires iterations <= |trace| && fineInterval >= 1 && coarseInterval >= 1
    ensures fresh(coarse) && fresh(fine)
    ensures coarse.Counts(topo.coreIdByLogicalCpu) && fine.Counts(topo.coreIdByLogicalCpu)
    ensures fine.seen == FineSeen(startCpu, trace, iterations, fineInterval)
    ensures coarse.seen == CoarseSeen(startCpu, trace, iterations, fineInterval, coarseInterval)
    ensures forall i: nat :: i in fineLooks <==> i < iterations && i % fineInterval == 0
    ensures forall i: nat :: i in coarseLooks <==> i < iterations && i % fineInterval == 0 && i % coarseInterval == 0
    ensures Looked(fine.seen, startCpu, trace, fineLooks)
    ensures Looked(coarse.seen, startCpu, trace, coarseLooks)
  {
    coarse := new Tally(startCpu, topo.coreIdByLogicalCpu);
    fine := new Tally(startCpu, topo.coreIdByLogicalCpu);
    var i := 0;
    while i < iterations
      invariant 0 <= i <= iterations
      invariant fresh(coarse) && fresh(fine) && coarse != fine
      invariant coarse.Counts(topo.coreIdByLogicalCpu) && fine.Counts(topo.coreIdByLogicalCpu)
      invariant fine.seen == FineSeen(startCpu, trace, i, fineInterval)
      invariant coarse.seen == CoarseSeen(startCpu, trace, i, fineInterval, coarseInterval)
    {
      SamplePoint(topo, coarse, fine, startCpu, trace, i, fineInterval, coarseInterval);
      i := i + 1;
    }
    fineLooks := ShownElements(startCpu, trace, iterations, FineDue(fineInterval));
    coarseLooks := ShownElements(startCpu, trace, iterations, CoarseDue(fineInterval, coarseInterval));
  }

  /** The loop body: the coarse tracker reuses the sample the fine one has just been shown. */
  method SamplePoint(topo: CpuTopology, coarse: Tally, fine: Tally, ghost startCpu: int, trace: seq<int>, i: nat,
                     fineInterval: nat, coarseInterval: nat)
    requires i < |trace| && fineInterval >= 1 && coarseInterval >= 1 && coarse != fine
    requires coarse.Counts(topo.coreIdByLogicalCpu) && fine.Counts(topo.coreIdByLogicalCpu)
    requires fine.seen == FineSeen(startCpu, trace, i, fineInterval)
    requires coarse.seen == CoarseSeen(startCpu, trace, i, fineInterval, coarseInterval)
    modifies coarse, fine
    ensures coarse.Counts(topo.coreIdByLogicalCpu) && fine.Counts(topo.coreIdByLogicalCpu)
    ensures fine.seen == FineSeen(startCpu, trace, i + 1, fineInterval)
    ensures coarse.seen == CoarseSeen(startCpu, trace, i + 1, fineInterval, coarseInterval)
  {
    if i % fineInterval == 0 {
      var currentCpu := trace[i];
      fine.Record(currentCpu, topo);
      if i % coarseInterval == 0 {
        coarse.Record(currentCpu, topo);
      }
    }
  }

  /** run_worker_thread: what the two trackers report in the end.  The fine one never reports fewer
      migrations, nor fewer cross-core ones; it reports equally many exactly if between any two
      consecutive coarse samples the CPU (for the cross-core count: the core) changed at most once as
      seen by the fine tracker, and not at all after the last.  On the CPUs of the table the same-core
      counts are ordered too where they can be compared at all. */
  method RunWorkerThread(topo: CpuTopology, startCpu: int, trace: seq<int>, iterations: nat, fineInterval: nat,
                         coarseInterval: nat)
      returns (coarse: Tally, fine: Tally, ghost coarseLooks: seq<nat>, ghost fineLooks: seq<nat>)
    requires iterations <= |trace| && fineInterval >= 1 && coarseInterval >= 1
    ensures coarse.Counts(topo.coreIdByLogicalCpu) && fine.Counts(topo.coreIdByLogicalCpu)
    ensures forall i: nat :: i in fineLooks <==> i < iterations && i % fineInterval == 0
    ensures forall i: nat :: i in coarseLooks <==> i < iterations && i % fineInterval == 0 && i % coarseInterval == 0
    ensures Looked(fine.seen, startCpu, trace, fineLooks)
    ensures Looked(coarse.seen, startCpu, trace, coarseLooks)
    ensures fine.total >= coarse.total && fine.crossCore >= coarse.crossCore
    ensures fine.total == fine.sameCore + fine.crossCore
    ensures coarse.total == coarse.sameCore + coarse.crossCore
    ensures var cpus := FineSeen(startCpu, trace, iterations, fineInterval);
      var checks := CoarseChecks(startCpu, trace, iterations, fineInterval, coarseInterval);
      var cores := Cores(topo.coreIdByLogicalCpu, cpus);
      && (fine.total == coarse.total <==> Quiet(cpus, checks))
      && Checkpoints(cores, checks)
      && (fine.crossCore == coarse.crossCore <==> Quiet(cores, checks))
      && (Quiet(cores, checks) ==> fine.sameCore >= coarse.sameCore)
    ensures var ids := topo.coreIdByLogicalCpu;
      && 0 <= startCpu < |ids| && InTable(ids, trace)
      && SameCoreComparable(ids, iterations, fineInterval, coarseInterval)
      ==> fine.sameCore >= coarse.sameCore
  {
    coarse, fine, coarseLooks, fineLooks :=
      RunWorker(topo, startCpu, trace, iterations, fineInterval, coarseInterval);
    ghost var ids := topo.coreIdByLogicalCpu;
    CoarseIsSampled(startCpu, trace, iterations, fineInterval, coarseInterval);
    DetectorsCompared(ids, fine.seen, CoarseChecks(startCpu, trace, iterations, fineInterval, coarseInterval));
    HopsAndCrossings(ids, fine.seen);
    HopsAndCrossings(ids, coarse.seen);
    if
      && 0 <= startCpu < |ids| && InTable(ids, trace)
      && SameCoreComparable(ids, iterations, fineInterval, coarseInterval)
    {
      ComparableIsOrdered(ids, startCpu, trace, iterations, fineInterval, coarseInterval);
    }
  }
}
