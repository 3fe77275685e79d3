/**
 Sattolo's algorithm as a function of its draws.  The draw made when the loop stands at index i is
 draws[i - 1], any number below i.
 */
module Sattolo {
  import opened Cycles
  import opened Modular

  predicate InRangeDraws(draws: seq<nat>) {
    forall t :: 0 <= t < |draws| ==> draws[t] <= t
  }

  /** Splices the new index |s| into the cycle s, in front of j. */
  function Splice(s: seq<nat>, j: nat): (r: seq<nat>)
    ensures |r| == |s| + 1
  {
    seq(|s|, x requires 0 <= x < |s| => if s[x] == j then |s| else s[x]) + [j]
  }

  /** The order in which the shuffle of |draws| + 1 indices ends. */
  function Order(draws: seq<nat>): (s: seq<nat>)
    ensures |s| == |draws| + 1
  {
    if draws == [] then [0]
    else Splice(Order(draws[..|draws| - 1]), draws[|draws| - 1])
  }

  // c with the new index |c| put in at position b.
  function Inserted(c: seq<nat>, b: nat): (r: seq<nat>)
    requires b <= |c|
    ensures |r| == |c| + 1
    ensures forall i :: 0 <= i <= |c| ==> r[i] == if i < b then c[i] else if i == b then |c| else c[i - 1]
  {
    c[..b] + [|c|] + c[b..]
  }

  // c without its position b.
  function Removed(c: seq<nat>, b: nat): (r: seq<nat>)
    requires b < |c|
    ensures |r| == |c| - 1
    ensures forall i :: 0 <= i < |c| - 1 ==> r[i] == if i < b then c[i] else c[i + 1]
  {
    c[..b] + c[b + 1..]
  }

  lemma SpliceLink(s: seq<nat>, c: seq<nat>, b: nat, i: nat)
    requires Tour(s, c) && b < |c| && i <= |c|
    ensures Inserted(c, b)[i] <= |c|
    ensures Splice(s, c[b])[Inserted(c, b)[i]] == Inserted(c, b)[Succ(i, |c| + 1)]
  {
    if i != b {
      var at := if i < b then i else i - 1;
      assert s[c[at]] == c[Succ(at, |c|)];
      if Succ(at, |c|) != b {
        assert c[Succ(at, |c|)] != c[b];
      }
    }
  }

  // Splicing m into a tour just before j gives a tour of the spliced links.
  lemma SpliceTour(s: seq<nat>, c: seq<nat>, b: nat)
    requires Tour(s, c) && b < |c|
    ensures Tour(Splice(s, c[b]), Inserted(c, b))
  {
    var s', c' := Splice(s, c[b]), Inserted(c, b);
    forall i | 0 <= i < |c'| ensures c'[i] < |c'| && s'[c'[i]] == c'[Succ(i, |c'|)] {
      SpliceLink(s, c, b, i);
    }
    assert Permutation(c');
  }

  /** Read as a map, every outcome is one single cycle; without a fixed point for n >= 2. */
  lemma {:induction false} OrderIsSingleCycle(draws: seq<nat>)
    requires InRangeDraws(draws)
    ensures SingleCycle(Order(draws))
    ensures Permutation(Order(draws))
    ensures |draws| >= 1 ==> forall x :: 0 <= x < |Order(draws)| ==> Order(draws)[x] != x
  {
    var s := Order(draws);
    if draws == [] {
      assert Tour(s, [0]);
      TourIsSingleCycle(s, [0]);
    } else {
      var before := draws[..|draws| - 1];
      OrderIsSingleCycle(before);
      var c := Orbit(Order(before));
      OrbitIsTour(Order(before));
      PermutationCovers(c, draws[|draws| - 1]);
      var b :| 0 <= b < |c| && c[b] == draws[|draws| - 1];
      SpliceTour(Order(before), c, b);
      TourIsSingleCycle(s, Inserted(c, b));
    }
    forall x | 0 <= x < |s| ensures |s| >= 2 ==> s[x] != x {
      SingleCycleVisitsAll(s, x);
    }
    SingleCycleVisitsAll(s, 0);
  }

  /** Different draws end in different orders. */
  lemma {:induction false} OrderInjective(d: seq<nat>, e: seq<nat>)
    requires |d| == |e| && InRangeDraws(d) && InRangeDraws(e)
    requires Order(d) == Order(e)
    ensures d == e
  {
    if d != [] {
      var m := |d|;
      var d', e' := d[..m - 1], e[..m - 1];
      assert d[m - 1] == Order(d)[m] == Order(e)[m] == e[m - 1];
      OrderIsSingleCycle(d');
      OrderIsSingleCycle(e');
      forall x | 0 <= x < m ensures Order(d')[x] == Order(e')[x] {
        assert Order(d)[x] == if Order(d')[x] == d[m - 1] then m else Order(d')[x];
        assert Order(e)[x] == if Order(e')[x] == e[m - 1] then m else Order(e')[x];
      }
      assert Order(d') == Order(e');
      OrderInjective(d', e');
      assert d == d' + [d[m - 1]] && e == e' + [e[m - 1]];
    }
  }

  // Cutting the last index out of a cycle.
  function Cut(next: seq<nat>): (r: seq<nat>)
    requires |next| >= 2
    ensures |r| == |next| - 1
  {
    var m := |next| - 1;
    seq(m, x requires 0 <= x < m => if next[x] == m then next[m] else next[x])
  }

  // The one link that skips the index that is cut out.
  lemma CutLink(next: seq<nat>, c: seq<nat>, b: nat, i: nat)
    requires |next| >= 2 && Tour(next, c) && b < |c| && c[b] == |next| - 1 && i < |c| - 1
    ensures Removed(c, b)[i] < |next| - 1
    ensures Cut(next)[Removed(c, b)[i]] == Removed(c, b)[Succ(i, |c| - 1)]
  {
    var at := if i < b then i else i + 1;
    assert c[at] != c[b];
    assert next[c[at]] == c[Succ(at, |c|)] && next[c[b]] == c[Succ(b, |c|)];
    if Succ(at, |c|) != b {
      assert c[Succ(at, |c|)] != c[b];
    }
  }

  lemma CutTour(next: seq<nat>, c: seq<nat>, b: nat)
    requires |next| >= 2 && Tour(next, c) && b < |c| && c[b] == |next| - 1
    ensures Tour(Cut(next), Removed(c, b))
  {
    var s, c' := Cut(next), Removed(c, b);
    forall i | 0 <= i < |c'| ensures c'[i] < |c'| && s[c'[i]] == c'[Succ(i, |c'|)] {
      CutLink(next, c, b, i);
    }
    assert Permutation(c');
    forall x | 0 <= x < |s| ensures s[x] < |s| {
      PermutationCovers(c', x);
    }
  }

  lemma SpliceCut(next: seq<nat>)
    requires SingleCycle(next) && |next| >= 2
    ensures next[|next| - 1] < |next| - 1
    ensures Splice(Cut(next), next[|next| - 1]) == next
  {
    var m := |next| - 1;
    SingleCycleVisitsAll(next, m);
    var s := Cut(next);
    forall x | 0 <= x < m ensures Splice(s, next[m])[x] == next[x] {
      assert next[x] != next[m];
    }
  }

  /** Every single cycle is the outcome of some draws. */
  lemma {:induction false} OrderSurjective(next: seq<nat>) returns (draws: seq<nat>)
    requires SingleCycle(next)
    ensures |draws| == |next| - 1 && InRangeDraws(draws)
    ensures Order(draws) == next
    decreases |next|
  {
    if |next| == 1 {
      draws := [];
    } else {
      var m := |next| - 1;
      var c := Orbit(next);
      OrbitIsTour(next);
      PermutationCovers(c, m);
      var b :| 0 <= b < |c| && c[b] == m;
      CutTour(next, c, b);
      TourIsSingleCycle(Cut(next), Removed(c, b));
      var before := OrderSurjective(Cut(next));
      SpliceCut(next);
      draws := before + [next[m]];
      assert draws[..m - 1] == before;
    }
  }
}
