/** one_cpu_per_core: which CPUs a thread-count sweep runs on.  The core ids are an arbitrary input. */
module CpuSelection {

  // The lowest-numbered CPU of its core, on a core other than 0 (or an unreadable one).
  predicate Leads(coreOf: seq<int>, cpu: nat) {
    && cpu < |coreOf|
    && coreOf[cpu] > 0
    && forall c :: 0 <= c < cpu ==> coreOf[c] != coreOf[cpu]
  }

  /** The chosen CPUs ascend, and they are exactly the lowest-numbered ones of the cores above 0: one
      for each such core, no two of them siblings. */
  method OneCpuPerCore(coreOf: seq<int>) returns (cpus: seq<nat>)
    ensures forall a, b :: 0 <= a < b < |cpus| ==> cpus[a] < cpus[b]
    ensures forall a :: 0 <= a < |cpus| ==> cpus[a] < |coreOf|
    ensures forall cpu: nat :: cpu in cpus <==> Leads(coreOf, cpu)
    ensures forall a, b :: 0 <= a < b < |cpus| ==> coreOf[cpus[a]] != coreOf[cpus[b]]
    ensures forall c :: 0 <= c < |coreOf| && coreOf[c] > 0 ==>
      exists a :: 0 <= a < |cpus| && coreOf[cpus[a]] == coreOf[c]
  {
    var seenCores := [];
    cpus := [];
    var cpu := 0;
    while cpu < |coreOf|
      invariant 0 <= cpu <= |coreOf|
      invariant |seenCores| == |cpus|
      invariant forall a :: 0 <= a < |cpus| ==> cpus[a] < cpu && seenCores[a] == coreOf[cpus[a]]
      invariant forall a, b :: 0 <= a < b < |cpus| ==> cpus[a] < cpus[b]
      invariant forall x :: x in seenCores <==> x > 0 && exists c :: 0 <= c < cpu && coreOf[c] == x
      invariant forall c: nat :: c in cpus <==> c < cpu && Leads(coreOf, c)
    {
      var core := coreOf[cpu];
      if core > 0 && core !in seenCores {
        seenCores := seenCores + [core];
        cpus := cpus + [cpu];
      }
      cpu := cpu + 1;
    }
    forall a, b | 0 <= a < b < |cpus| ensures coreOf[cpus[a]] != coreOf[cpus[b]] {
      assert cpus[b] in cpus && Leads(coreOf, cpus[b]);
    }
    forall c | 0 <= c < |coreOf| && coreOf[c] > 0
      ensures exists a :: 0 <= a < |cpus| && coreOf[cpus[a]] == coreOf[c]
    {
      assert coreOf[c] in seenCores;
    }
  }
}
