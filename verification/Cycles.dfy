/** Next-pointer chains over [0, n): walking them, touring them, and being one single cycle. */
module Cycles {
  import opened Modular

  predicate InRange(next: seq<nat>) {
    forall i :: 0 <= i < |next| ==> next[i] < |next|
  }

  /** Where a walk stands after the given number of steps. */
  function Walk(next: seq<nat>, start: nat, steps: nat): (p: nat)
    requires InRange(next) && start < |next|
    ensures p < |next|
  {
    if steps == 0 then start else next[Walk(next, start, steps - 1)]
  }

  lemma {:induction false} WalkAdd(next: seq<nat>, start: nat, a: nat, b: nat)
    requires InRange(next) && start < |next|
    ensures Walk(next, start, a + b) == Walk(next, Walk(next, start, a), b)
  {
    if b > 0 {
      WalkAdd(next, start, a, b - 1);
    }
  }

  /** The numbers below |c|, each once. */
  predicate Permutation(c: seq<nat>) {
    && InRange(c)
    && forall i, j :: 0 <= i < j < |c| ==> c[i] != c[j]
  }

  function Orbit(next: seq<nat>): (c: seq<nat>)
    requires InRange(next)
    ensures |c| == |next|
  {
    seq(|next|, t requires 0 <= t < |next| => Walk(next, 0, t))
  }

  /** Following the links from 0 visits every index exactly once and then is back at 0. */
  predicate SingleCycle(next: seq<nat>) {
    && |next| >= 1
    && InRange(next)
    && Permutation(Orbit(next))
    && Walk(next, 0, |next|) == 0
  }

  /** c lists the indices in the order in which the links visit them. */
  predicate Tour(next: seq<nat>, c: seq<nat>) {
    && |c| == |next|
    && Permutation(c)
    && InRange(next)
    && forall i :: 0 <= i < |c| ==> next[c[i]] == c[Succ(i, |c|)]
  }

  // ---- Permutations reach everything ----

  lemma {:induction false} UpTo(n: nat) returns (all: set<nat>)
    ensures |all| == n && forall x: nat :: x in all <==> x < n
  {
    if n == 0 {
      all := {};
    } else {
      var below := UpTo(n - 1);
      all := below + {n - 1};
    }
  }

  function Elements(c: seq<nat>): set<nat> {
    set x | x in c
  }

  lemma {:induction false} DistinctCount(c: seq<nat>)
    requires forall i, j :: 0 <= i < j < |c| ==> c[i] != c[j]
    ensures |Elements(c)| == |c|
  {
    if c != [] {
      var rest, last := c[..|c| - 1], c[|c| - 1];
      DistinctCount(rest);
      assert c == rest + [last];
      assert Elements(c) == Elements(rest) + {last};
    }
  }

  lemma SubsetOfSameSize<T>(a: set<T>, b: set<T>)
    requires a <= b && |a| == |b|
    ensures a == b
  {
    assert |b - a| == |b| - |a|;
  }

  lemma PermutationCovers(c: seq<nat>, j: nat)
    requires Permutation(c) && j < |c|
    ensures exists i :: 0 <= i < |c| && c[i] == j
  {
    var all := UpTo(|c|);
    DistinctCount(c);
    SubsetOfSameSize(Elements(c), all);
    assert j in Elements(c);
  }

  // ---- Tours and single cycles are the same thing ----

  // Walking t steps from position a of a tour, before going round.
  lemma {:induction false} TourWalkShort(next: seq<nat>, c: seq<nat>, a: nat, t: nat)
    requires Tour(next, c) && a < |c| && t <= |c|
    ensures Walk(next, c[a], t) == if a + t < |c| then c[a + t] else c[a + t - |c|]
  {
    if t > 0 {
      TourWalkShort(next, c, a, t - 1);
    }
  }

  lemma TourIsSingleCycle(next: seq<nat>, c: seq<nat>)
    requires Tour(next, c) && |c| >= 1
    ensures SingleCycle(next)
  {
    PermutationCovers(c, 0);
    var a :| 0 <= a < |c| && c[a] == 0;
    forall t | 0 <= t <= |c| ensures Walk(next, 0, t) == if a + t < |c| then c[a + t] else c[a + t - |c|] {
      TourWalkShort(next, c, a, t);
    }
    assert forall t :: 0 <= t < |c| ==> Orbit(next)[t] == Walk(next, 0, t);
  }

  lemma OrbitIsTour(next: seq<nat>)
    requires SingleCycle(next)
    ensures Tour(next, Orbit(next))
  {
    var c := Orbit(next);
    forall i | 0 <= i < |c| ensures next[c[i]] == c[Succ(i, |c|)] {
      assert Walk(next, 0, i + 1) == next[Walk(next, 0, i)];
    }
  }

  // Where a tour lists j.
  lemma TourPosition(next: seq<nat>, c: seq<nat>, j: nat) returns (a: nat)
    requires Tour(next, c) && j < |c|
    ensures a < |c| && c[a] == j && next[j] == c[Succ(a, |c|)]
  {
    PermutationCovers(c, j);
    a :| 0 <= a < |c| && c[a] == j;
  }

  lemma TourInjective(next: seq<nat>, c: seq<nat>, x: nat, y: nat)
    requires Tour(next, c) && x < |c| && y < |c| && x != y
    ensures next[x] != next[y]
  {
    var a := TourPosition(next, c, x);
    var b := TourPosition(next, c, y);
    assert Succ(a, |c|) != Succ(b, |c|);
  }

  /** One cycle means: every index is visited, no index but a lone one points at itself, and no two
      indices point at the same one. */
  lemma SingleCycleVisitsAll(next: seq<nat>, j: nat)
    requires SingleCycle(next) && j < |next|
    ensures exists t :: 0 <= t < |next| && Walk(next, 0, t) == j
    ensures |next| >= 2 ==> next[j] != j
    ensures Permutation(next)
  {
    var c := Orbit(next);
    OrbitIsTour(next);
    var t := TourPosition(next, c, j);
    assert Walk(next, 0, t) == j;
    forall x, y | 0 <= x < y < |next| ensures next[x] != next[y] {
      TourInjective(next, c, x, y);
    }
  }

  /** Coming back to 0 for the first time after exactly n steps is enough to be one cycle: by the
      pigeonhole principle the n visits before cannot have missed anything. */
  lemma FirstReturnIsSingleCycle(next: seq<nat>)
    requires |next| >= 1 && InRange(next)
    requires Walk(next, 0, |next|) == 0
    requires forall t :: 1 <= t < |next| ==> Walk(next, 0, t) != 0
    ensures SingleCycle(next)
  {
    var n := |next|;
    forall s, t | 0 <= s < t < n ensures Orbit(next)[s] != Orbit(next)[t] {
      if Walk(next, 0, s) == Walk(next, 0, t) {
        WalkAdd(next, 0, s, n - t);
        WalkAdd(next, 0, t, n - t);
        assert false;
      }
    }
  }

  lemma SingleCycleReturnsLate(next: seq<nat>, t: nat)
    requires SingleCycle(next) && 1 <= t < |next|
    ensures Walk(next, 0, t) != 0
  {
    assert Orbit(next)[0] == 0 && Orbit(next)[t] == Walk(next, 0, t);
  }

  // ---- Long walks ----

  /** Walking t steps from position a of a tour. */
  lemma {:induction false} TourWalk(next: seq<nat>, c: seq<nat>, a: nat, t: nat)
    requires Tour(next, c) && a < |c|
    ensures Walk(next, c[a], t) == c[(a + t) % |c|]
  {
    if t == 0 {
      ModUnique(a, |c|, 0, a);
    } else {
      TourWalk(next, c, a, t - 1);
      ModSucc(a + t - 1, |c|);
    }
  }

  /** On one cycle only the number of steps modulo n matters. */
  lemma CycleWalk(next: seq<nat>, rounds: nat, t: nat)
    requires SingleCycle(next)
    ensures Walk(next, 0, rounds * |next| + t) == Walk(next, 0, t % |next|)
  {
    var c, n := Orbit(next), |next|;
    OrbitIsTour(next);
    TourWalk(next, c, 0, rounds * n + t);
    TourWalk(next, c, 0, t % n);
    ModRounds(rounds, n, t);
  }
}
