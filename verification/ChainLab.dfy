/**
 The pointer-chasing apparatus: the two chain builders, the cycle checker and the chase.  A chain is
 an array whose element i is the `next` field of node i.
 */
module ChainLab {
  import opened Sums
  import opened Cycles
  import opened Modular
  import opened Sattolo

  const NODE_SIZE: nat := 64

  /** SequentialChainBuilder::build: node i links to its right neighbour, the last one to node 0. */
  method BuildSequential(n: nat) returns (nodes: array<nat>)
    ensures fresh(nodes) && nodes.Length == n
    ensures forall i :: 0 <= i < n ==> nodes[i] == (i + 1) % n
    ensures n >= 1 ==> SingleCycle(nodes[..])
    ensures forall t: nat :: n >= 1 ==> Walk(nodes[..], 0, t) == t % n
  {
    nodes := new nat[n];
    var i := 0;
    while i < n
      invariant 0 <= i <= n
      invariant forall k :: 0 <= k < i ==> nodes[k] == (k + 1) % n
    {
      nodes[i] := (i + 1) % n;
      i := i + 1;
    }
    if n >= 1 {
      SequentialTour(nodes[..]);
    }
  }

  lemma SequentialTour(next: seq<nat>)
    requires |next| >= 1 && forall i :: 0 <= i < |next| ==> next[i] == (i + 1) % |next|
    ensures SingleCycle(next)
    ensures forall t: nat :: Walk(next, 0, t) == t % |next|
  {
    var n := |next|;
    var c := seq(n, i => i);
    forall i | 0 <= i < n ensures next[i] == Succ(i, n) {
      ModUnique(i, n, 0, i);
      ModSucc(i, n);
    }
    assert Tour(next, c);
    TourIsSingleCycle(next, c);
    forall t: nat ensures Walk(next, 0, t) == t % n {
      TourWalk(next, c, 0, t);
      Fundamental(t, n);
    }
  }

  // With only the indices below i left to process, the array becomes `goal` when composed with what
  // the remaining draws would make of the identity.
  ghost predicate Pending(goal: seq<nat>, order: seq<nat>, rest: seq<nat>) {
    && |rest| <= |order| == |goal|
    && (forall x :: |rest| <= x < |order| ==> goal[x] == order[x])
    && (forall x :: 0 <= x < |rest| ==> rest[x] < |rest| && goal[x] == order[rest[x]])
  }

  function Swapped(s: seq<nat>, i: nat, j: nat): seq<nat>
    requires i < |s| && j < |s|
  {
    s[i := s[j]][j := s[i]]
  }

  // Swapping entries i and j of the array makes up for not splicing i in front of j.
  lemma SwapForSplice(goal: seq<nat>, order: seq<nat>, smaller: seq<nat>, j: nat)
    requires j < |smaller| < |order| && InRange(smaller)
    requires Pending(goal, order, Splice(smaller, j))
    ensures Pending(goal, Swapped(order, |smaller|, j), smaller)
  {
    var i := |smaller|;
    assert Splice(smaller, j)[i] == j;
    forall x | 0 <= x < i ensures goal[x] == Swapped(order, i, j)[smaller[x]] {
      assert Splice(smaller, j)[x] == if smaller[x] == j then i else smaller[x];
    }
  }

  lemma OrderUnfold(draws: seq<nat>, i: nat)
    requires InRangeDraws(draws) && 1 <= i <= |draws|
    ensures Order(draws[..i]) == Splice(Order(draws[..i - 1]), draws[i - 1])
    ensures InRange(Order(draws[..i - 1])) && |Order(draws[..i - 1])| == i
  {
    assert draws[..i][..i - 1] == draws[..i - 1];
    OrderIsSingleCycle(draws[..i - 1]);
  }

  /** The swaps of the shuffle, from the last index down: `stages` are the arrays before, between and
      after them.  The draw made at index i comes from the distribution over [0, i - 1] and is
      draws[i - 1]. */
  ghost predicate Swaps(stages: seq<seq<nat>>, draws: seq<nat>)
    requires InRangeDraws(draws)
  {
    && |stages| == |draws| + 1
    && (forall t :: 0 <= t < |stages| ==> |stages[t]| == |draws| + 1)
    && (forall x :: 0 <= x <= |draws| ==> stages[0][x] == x)
    && (forall t :: 0 <= t < |draws| ==>
          var i := |draws| - t;
          stages[t + 1] == stages[t][i := stages[t][draws[i - 1]]][draws[i - 1] := stages[t][i]])
  }

  // One swap, at index i.
  lemma OneSwap(goal: seq<nat>, order: seq<nat>, draws: seq<nat>, i: nat, swapped: seq<nat>)
    requires InRangeDraws(draws) && 1 <= i <= |draws| && |order| == |draws| + 1
    requires swapped == order[i := order[draws[i - 1]]][draws[i - 1] := order[i]]
    requires Pending(goal, order, Order(draws[..i]))
    ensures Pending(goal, swapped, Order(draws[..i - 1]))
  {
    OrderUnfold(draws, i);
    SwapForSplice(goal, order, Order(draws[..i - 1]), draws[i - 1]);
    assert swapped == Swapped(order, i, draws[i - 1]);
  }

  // When the swaps down to index i + 1 are done, the rest of the draws makes up the difference.
  lemma {:induction false} SwapsPending(stages: seq<seq<nat>>, draws: seq<nat>, i: nat)
    requires InRangeDraws(draws) && Swaps(stages, draws) && i <= |draws|
    ensures Pending(Order(draws), stages[|draws| - i], Order(draws[..i]))
    decreases |draws| - i
  {
    if i == |draws| {
      OrderIsSingleCycle(draws);
      assert draws[..|draws|] == draws;
    } else {
      SwapsPending(stages, draws, i + 1);
      var t := |draws| - (i + 1);
      assert |draws| - t == i + 1;
      OneSwap(Order(draws), stages[t], draws, i + 1, stages[t + 1]);
    }
  }

  /** The swaps end in Sattolo's order of the draws. */
  lemma SwapsEndInOrder(stages: seq<seq<nat>>, draws: seq<nat>)
    requires InRangeDraws(draws) && Swaps(stages, draws)
    ensures stages[|draws|] == Order(draws)
  {
    SwapsPending(stages, draws, 0);
    assert draws[..0] == [] && Order(draws[..0]) == [0];
  }

  /** Hence whatever the draws, the shuffle ends in one single cycle, the last entry is the first draw made,
      and different draws end in different orders. */
  lemma ShuffleLaws(stages: seq<seq<nat>>, draws: seq<nat>, stages': seq<seq<nat>>, draws': seq<nat>)
    requires InRangeDraws(draws) && Swaps(stages, draws)
    requires InRangeDraws(draws') && Swaps(stages', draws') && |draws'| == |draws|
    ensures SingleCycle(stages[|draws|])
    ensures |draws| >= 1 ==> stages[|draws|][|draws|] == draws[|draws| - 1]
    ensures stages[|draws|] == stages'[|draws|] <==> draws == draws'
  {
    SwapsEndInOrder(stages, draws);
    SwapsEndInOrder(stages', draws');
    OrderIsSingleCycle(draws);
    if stages[|draws|] == stages'[|draws|] {
      OrderInjective(draws, draws');
    }
  }

  /** The shuffling half of RandomChainBuilder::build, in place. */
  method Shuffle(n: nat, draws: seq<nat>) returns (order: array<nat>, ghost stages: seq<seq<nat>>)
    requires |draws| == (if n == 0 then 0 else n - 1) && InRangeDraws(draws)
    ensures fresh(order) && order.Length == n
    ensures n >= 1 ==> |stages| == n && order[..] == stages[n - 1]
    ensures forall t :: 0 <= t < n ==> |stages[t]| == n
    ensures forall x :: 0 <= x < n ==> stages[0][x] == x
    ensures forall t :: 0 <= t < n - 1 ==>
      var i := n - 1 - t;
      stages[t + 1] == stages[t][i := stages[t][draws[i - 1]]][draws[i - 1] := stages[t][i]]
    ensures n >= 1 ==> SingleCycle(order[..]) && order[..] == Order(draws)
    ensures n >= 2 ==> order[n - 1] == draws[n - 2] && forall x :: 0 <= x < n ==> order[x] != x
  {
    order := new nat[n];
    var k := 0;
    while k < n
      invariant 0 <= k <= n
      invariant forall x :: 0 <= x < k ==> order[x] == x
    {
      order[k] := k;
      k := k + 1;
    }
    stages := [order[..]];
    if n == 0 {
      return;
    }
    var i := n;
    while i > 1
      invariant 1 <= i <= n
      invariant |stages| == n - i + 1 && order[..] == stages[n - i]
      invariant forall t :: 0 <= t <= n - i ==> |stages[t]| == n
      invariant forall x :: 0 <= x < n ==> stages[0][x] == x
      invariant forall t :: 0 <= t < n - i ==>
        var i := n - 1 - t;
        stages[t + 1] == stages[t][i := stages[t][draws[i - 1]]][draws[i - 1] := stages[t][i]]
    {
      i := i - 1;
      var j := draws[i - 1];
      order[i], order[j] := order[j], order[i];
      ghost var before := stages[n - i - 1];
      assert order[..] == before[i := before[j]][j := before[i]];
      stages := stages + [order[..]];
    }
    assert Swaps(stages, draws);
    ShuffleLaws(stages, draws, stages, draws);
    SwapsEndInOrder(stages, draws);
    OrderIsSingleCycle(draws);
  }

  /** The linking half of RandomChainBuilder::build: consecutive entries of `order` are linked. */
  method LinkInOrder(order: array<nat>) returns (nodes: array<nat>)
    requires Permutation(order[..])
    ensures fresh(nodes) && nodes.Length == order.Length
    ensures forall i :: 0 <= i < order.Length ==> nodes[order[i]] == order[(i + 1) % order.Length]
    ensures Tour(nodes[..], order[..])
  {
    var n := order.Length;
    nodes := new nat[n];
    var i := 0;
    while i < n
      invariant 0 <= i <= n
      invariant forall k :: 0 <= k < n ==> order[..][k] < n
      invariant forall k :: 0 <= k < i ==> nodes[order[k]] == order[(k + 1) % n]
    {
      assert order[..][i] == order[i];
      assert forall k :: 0 <= k < i ==> order[..][k] != order[..][i];
      nodes[order[i]] := order[(i + 1) % n];
      i := i + 1;
    }
    LinkedTour(order[..], nodes[..]);
  }

  // Links between consecutive entries of a permutation are a tour, and all of them are in range.
  lemma LinkedTour(order: seq<nat>, next: seq<nat>)
    requires Permutation(order) && |next| == |order|
    requires forall i :: 0 <= i < |order| ==> next[order[i]] == order[(i + 1) % |order|]
    ensures Tour(next, order)
  {
    var n := |order|;
    forall i | 0 <= i < n ensures next[order[i]] == order[Succ(i, n)] {
      ModUnique(i, n, 0, i);
      ModSucc(i, n);
    }
    forall x | 0 <= x < n ensures next[x] < n {
      PermutationCovers(order, x);
      var i :| 0 <= i < n && order[i] == x;
      assert next[order[i]] == order[Succ(i, n)];
    }
  }

  /** RandomChainBuilder::build: the nodes are linked in the order in which the swaps end. */
  method BuildRandom(n: nat, draws: seq<nat>)
      returns (nodes: array<nat>, ghost order: seq<nat>, ghost stages: seq<seq<nat>>)
    requires |draws| == (if n == 0 then 0 else n - 1) && InRangeDraws(draws)
    ensures fresh(nodes) && nodes.Length == |order| == n
    ensures n >= 1 ==> |stages| == n && order == stages[n - 1]
    ensures forall t :: 0 <= t < n ==> |stages[t]| == n
    ensures forall x :: 0 <= x < n ==> stages[0][x] == x
    ensures forall t :: 0 <= t < n - 1 ==>
      var i := n - 1 - t;
      stages[t + 1] == stages[t][i := stages[t][draws[i - 1]]][draws[i - 1] := stages[t][i]]
    ensures forall i :: 0 <= i < n ==> order[i] < n
    ensures forall i :: 0 <= i < n ==> nodes[order[i]] == order[(i + 1) % n]
    ensures Tour(nodes[..], order)
    ensures n >= 1 ==> SingleCycle(nodes[..]) && order == Order(draws)
  {
    if n > 0 {
      OrderIsSingleCycle(draws);
    }
    var shuffled;
    shuffled, stages := Shuffle(n, draws);
    order := shuffled[..];
    nodes := LinkInOrder(shuffled);
    if n > 0 {
      TourIsSingleCycle(nodes[..], order);
    }
  }

  /** Whatever permutation `order` holds, Sattolo's or not, linking its consecutive entries gives one
      cycle through all n nodes: the walk from the a-th entry meets the entries in order. */
  lemma AnyPermutationLinksToOneCycle(order: seq<nat>, next: seq<nat>, a: nat, t: nat)
    requires Permutation(order) && |next| == |order| && a < |order|
    requires forall i :: 0 <= i < |order| ==> next[order[i]] == order[(i + 1) % |order|]
    ensures SingleCycle(next) && Permutation(next)
    ensures Walk(next, order[a], t) == order[(a + t) % |order|]
  {
    LinkedTour(order, next);
    TourIsSingleCycle(next, order);
    SingleCycleVisitsAll(next, 0);
    TourWalk(next, order, a, t);
  }

  /** is_single_cycle: true exactly for one cycle, after at most n + 1 links. */
  method IsSingleCycle(nodes: array<nat>) returns (single: bool, visited: nat)
    requires nodes.Length >= 1 && InRange(nodes[..])
    ensures single <==> SingleCycle(nodes[..])
    ensures 1 <= visited <= nodes.Length + 1
  {
    var n := nodes.Length;
    ghost var next := nodes[..];
    var p := nodes[0];
    visited := 1;
    assert Walk(next, 0, 0) == 0;
    while p != 0 && visited <= n
      invariant 1 <= visited <= n + 1
      invariant p < n && p == Walk(next, 0, visited)
      invariant forall t: nat :: 1 <= t < visited ==> Walk(next, 0, t) != 0
      decreases n + 1 - visited
    {
      p := nodes[p];
      visited := visited + 1;
    }
    single := visited == n;
    if single {
      FirstReturnIsSingleCycle(next);
    } else if SingleCycle(next) {
      if visited < n {
        SingleCycleReturnsLate(next, visited);
      }
      assert false;
    }
  }

  /** PointerChaser::chase, without its clock readings: the final index. */
  method Chase(nodes: array<nat>, warmupSteps: nat, measureSteps: nat) returns (p: nat)
    requires InRange(nodes[..])
    requires warmupSteps + measureSteps > 0 ==> nodes.Length >= 1
    ensures nodes.Length == 0 ==> p == 0
    ensures nodes.Length >= 1 ==> p == Walk(nodes[..], 0, warmupSteps + measureSteps)
    ensures SingleCycle(nodes[..]) && warmupSteps == WarmupStepsFor(nodes.Length)
              && nodes.Length * NODE_SIZE < WORD ==>
            p == Walk(nodes[..], 0, measureSteps % nodes.Length)
  {
    p := 0;
    var s := 0;
    while s < warmupSteps
      invariant 0 <= s <= warmupSteps
      invariant nodes.Length == 0 ==> p == 0
      invariant nodes.Length >= 1 ==> p == Walk(nodes[..], 0, s)
    {
      p := nodes[p];
      s := s + 1;
    }
    s := 0;
    while s < measureSteps
      invariant 0 <= s <= measureSteps
      invariant nodes.Length == 0 ==> p == 0
      invariant nodes.Length >= 1 ==> p < nodes.Length && p == Walk(nodes[..], 0, warmupSteps + s)
    {
      p := nodes[p];
      s := s + 1;
    }
    if SingleCycle(nodes[..]) && nodes.Length * NODE_SIZE < WORD {
      CycleWalk(nodes[..], 4, measureSteps);
    }
  }

  /** warmup_steps_for: four rounds, in 64-bit arithmetic. */
  function WarmupStepsFor(n: nat): nat {
    Wrap(4 * n)
  }

  // On a single cycle a walk from 0 is at a node at the steps that leave one remainder.
  lemma StepsAt(next: seq<nat>, at: nat, s: nat)
    requires SingleCycle(next) && at < |next|
    ensures Walk(next, 0, s) == Walk(next, 0, at) <==> s % |next| == at
  {
    var c := Orbit(next);
    OrbitIsTour(next);
    TourWalk(next, c, 0, s);
    assert c[0] == 0 && c[at] == Walk(next, 0, at);
    Fundamental(s, |next|);
  }

  lemma FourWithRemainder(s: nat, n: nat, at: nat)
    requires at < n
    ensures s < 4 * n && s % n == at <==> s in {at, at + n, at + 2 * n, at + 3 * n}
  {
    ModUnique(at, n, 0, at);
    ModUnique(at + n, n, 1, at);
    ModUnique(at + 2 * n, n, 2, at);
    ModUnique(at + 3 * n, n, 3, at);
    if s < n {
      ModUnique(s, n, 0, s);
    } else if s < 2 * n {
      ModUnique(s, n, 1, s - n);
    } else if s < 3 * n {
      ModUnique(s, n, 2, s - 2 * n);
    } else if s < 4 * n {
      ModUnique(s, n, 3, s - 3 * n);
    }
  }

  lemma FourSteps(next: seq<nat>, at: nat, s: nat)
    requires SingleCycle(next) && at < |next|
    ensures var n := |next|;
      s < 4 * n && Walk(next, 0, s) == Walk(next, 0, at) <==> s in {at, at + n, at + 2 * n, at + 3 * n}
  {
    StepsAt(next, at, s);
    FourWithRemainder(s, |next|, at);
  }

  lemma FourDistinct(at: nat, n: nat)
    requires n >= 1
    ensures |{at, at + n, at + 2 * n, at + 3 * n}| == 4
  {
  }

  /** The steps of a walk from 0 that leave node x. */
  function StepsFrom(next: seq<nat>, x: nat, steps: nat): set<nat>
    requires InRange(next) && |next| >= 1
  {
    set s: nat | s < steps && Walk(next, 0, s) == x
  }

  lemma StepsFromAre(next: seq<nat>, at: nat)
    requires SingleCycle(next) && at < |next|
    ensures var n := |next|;
      StepsFrom(next, Walk(next, 0, at), 4 * n) == {at, at + n, at + 2 * n, at + 3 * n}
  {
    forall s: nat { FourSteps(next, at, s); }
  }

  /** The warm-up goes through every node of a single cycle exactly four times. */
  lemma WarmupVisitsAllFourTimes(next: seq<nat>, x: nat)
    requires SingleCycle(next) && |next| * NODE_SIZE < WORD && x < |next|
    ensures |StepsFrom(next, x, WarmupStepsFor(|next|))| == 4
  {
    WrapSmall(4 * |next|);
    PermutationCovers(Orbit(next), x);
    var at :| 0 <= at < |next| && Orbit(next)[at] == x;
    StepsFromAre(next, at);
    FourDistinct(at, |next|);
  }

  /** The final index of a chase over any single cycle: the warm-up is undone, and only the measured
      steps modulo n remain. */
  lemma WarmupReturns(next: seq<nat>, measureSteps: nat)
    requires SingleCycle(next) && |next| * NODE_SIZE < WORD
    ensures Walk(next, 0, WarmupStepsFor(|next|)) == 0
    ensures Walk(next, 0, WarmupStepsFor(|next|) + measureSteps) == Walk(next, 0, measureSteps % |next|)
  {
    WrapSmall(4 * |next|);
    CycleWalk(next, 4, 0);
    ModUnique(0, |next|, 0, 0);
    CycleWalk(next, 4, measureSteps);
  }

  /** ... which for a random chain is the entry of `order` that many places after the entry 0. */
  lemma FinalIndexOfRandomChain(next: seq<nat>, order: seq<nat>, zeroAt: nat, measureSteps: nat)
    requires Tour(next, order) && |order| >= 1 && |next| * NODE_SIZE < WORD
    requires zeroAt < |order| && order[zeroAt] == 0
    ensures Walk(next, 0, WarmupStepsFor(|next|) + measureSteps) == order[(zeroAt + measureSteps) % |order|]
  {
    var n := |order|;
    WrapSmall(4 * n);
    TourWalk(next, order, zeroAt, 4 * n + measureSteps);
    ModRounds(4, n, zeroAt + measureSteps);
  }
}
