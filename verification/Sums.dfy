/** Machine words and finite sums: the arithmetic every counting argument below rests on. */
module Sums {

  // One more than the largest std::uint64_t.
  const WORD: nat := 0x1_0000_0000_0000_0000

  /** Reduction to the 64-bit word that a std::uint64_t holds. */
  function Wrap(x: int): (r: nat)
    ensures r < WORD
  {
    x % WORD
  }

  lemma WrapSmall(x: nat)
    requires x < WORD
    ensures Wrap(x) == x
  {
  }

  lemma WrapAdd(x: int, y: int)
    ensures Wrap(Wrap(x) + y) == Wrap(x + y)
  {
    var q := x / WORD;
    assert x == q * WORD + Wrap(x);
    WrapShift(Wrap(x) + y, q);
  }

  lemma WrapShift(x: int, q: int)
    ensures Wrap(x + q * WORD) == Wrap(x)
  {
    var r := Wrap(x);
    var p := x / WORD;
    assert x + q * WORD == (p + q) * WORD + r;
  }

  function Sum(xs: seq<int>): int {
    if xs == [] then 0 else xs[0] + Sum(xs[1..])
  }

  lemma {:induction false} SumUpdate(xs: seq<int>, i: nat, y: int)
    requires i < |xs|
    ensures Sum(xs[i := y]) == Sum(xs) - xs[i] + y
  {
    if i == 0 {
      assert xs[i := y][1..] == xs[1..];
    } else {
      assert xs[i := y][1..] == xs[1..][i - 1 := y];
      SumUpdate(xs[1..], i - 1, y);
    }
  }

  lemma {:induction false} SumAppend(xs: seq<int>, ys: seq<int>)
    ensures Sum(xs + ys) == Sum(xs) + Sum(ys)
  {
    if xs == [] {
      assert xs + ys == ys;
    } else {
      assert (xs + ys)[1..] == xs[1..] + ys;
      SumAppend(xs[1..], ys);
    }
  }

  /** A sum of terms that all lie in [lo, hi]. */
  lemma {:induction false} SumBounds(xs: seq<int>, lo: int, hi: int)
    requires forall i :: 0 <= i < |xs| ==> lo <= xs[i] <= hi
    ensures lo * |xs| <= Sum(xs) <= hi * |xs|
  {
    if xs != [] {
      SumBounds(xs[1..], lo, hi);
      assert lo * |xs| == lo * |xs[1..]| + lo;
      assert hi * |xs| == hi * |xs[1..]| + hi;
    }
  }

  lemma {:induction false} SumAtLeastZero(xs: seq<int>)
    requires forall i :: 0 <= i < |xs| ==> 0 <= xs[i]
    ensures 0 <= Sum(xs)
  {
    if xs != [] {
      SumAtLeastZero(xs[1..]);
    }
  }

  /** A sum that reaches its upper bound has every term at that bound. */
  lemma SumFull(xs: seq<int>, hi: nat, k: nat)
    requires forall i :: 0 <= i < |xs| ==> 0 <= xs[i] <= hi
    requires k < |xs| && Sum(xs) == hi * |xs|
    ensures xs[k] == hi
  {
    SumUpdate(xs, k, hi);
    SumBounds(xs[k := hi], 0, hi);
  }

  lemma {:induction false} SumPointwise(xs: seq<int>, ys: seq<int>, zs: seq<int>)
    requires |xs| == |ys| == |zs|
    requires forall i :: 0 <= i < |xs| ==> zs[i] == xs[i] + ys[i]
    ensures Sum(zs) == Sum(xs) + Sum(ys)
  {
    if xs != [] {
      SumPointwise(xs[1..], ys[1..], zs[1..]);
    }
  }

  lemma {:induction false} SumComplement(xs: seq<int>, ys: seq<int>, k: int)
    requires |xs| == |ys| && forall i :: 0 <= i < |xs| ==> xs[i] == k - ys[i]
    ensures Sum(xs) == |xs| * k - Sum(ys)
  {
    if xs != [] {
      SumComplement(xs[1..], ys[1..], k);
      assert |xs| * k == |xs[1..]| * k + k;
    }
  }

  lemma {:induction false} SumMonotone(xs: seq<int>, ys: seq<int>)
    requires |xs| == |ys|
    requires forall i :: 0 <= i < |xs| ==> xs[i] <= ys[i]
    ensures Sum(xs) <= Sum(ys)
  {
    if xs != [] {
      SumMonotone(xs[1..], ys[1..]);
    }
  }

  // ---- Amounts contributed through pointers ----

  /** What each thread contributes to counter c: its amount if its pointer is c, else nothing. */
  function Shares(counters: seq<nat>, amounts: seq<nat>, c: nat): (r: seq<int>)
    requires |counters| == |amounts|
    ensures |r| == |counters|
  {
    seq(|counters|, i requires 0 <= i < |counters| => if counters[i] == c then amounts[i] else 0)
  }

  /** The total that all threads pointing at counter c contribute to it. */
  function Tally(counters: seq<nat>, amounts: seq<nat>, c: nat): int
    requires |counters| == |amounts|
  {
    Sum(Shares(counters, amounts, c))
  }

  lemma TallyUpdate(counters: seq<nat>, amounts: seq<nat>, i: nat, x: nat, c: nat)
    requires |counters| == |amounts| && i < |amounts|
    ensures Tally(counters, amounts[i := x], c)
         == Tally(counters, amounts, c) + (if counters[i] == c then x - amounts[i] else 0)
  {
    var before := Shares(counters, amounts, c);
    var share := if counters[i] == c then x else 0;
    assert Shares(counters, amounts[i := x], c) == before[i := share];
    SumUpdate(before, i, share);
  }

  /** A thread's own amount is part of its counter's tally, and the tally is at most everything. */
  lemma TallyRange(counters: seq<nat>, amounts: seq<nat>, i: nat, hi: nat)
    requires |counters| == |amounts| && i < |amounts|
    requires forall j :: 0 <= j < |amounts| ==> amounts[j] <= hi
    ensures amounts[i] <= Tally(counters, amounts, counters[i]) <= amounts[i] + (|amounts| - 1) * hi
  {
    var shares := Shares(counters, amounts, counters[i]);
    SumUpdate(shares, i, 0);
    var others := shares[i := 0];
    SumUpdate(others, i, hi);
    SumBounds(others, 0, hi);
    SumBounds(others[i := hi], 0, hi);
    assert hi * |amounts| == (|amounts| - 1) * hi + hi;
  }

  predicate StrictlyAscending(s: seq<nat>) {
    forall i, j :: 0 <= i < j < |s| ==> s[i] < s[j]
  }

  function Tallies(distinct: seq<nat>, counters: seq<nat>, amounts: seq<nat>): (r: seq<int>)
    requires |counters| == |amounts|
    ensures |r| == |distinct|
  {
    seq(|distinct|, j requires 0 <= j < |distinct| => Tally(counters, amounts, distinct[j]))
  }

  /** Summing the tallies of the distinct counters counts every thread exactly once,
      whatever the aliasing: the threads are partitioned by the counter they point at. */
  lemma {:induction false} TalliesPartition(distinct: seq<nat>, counters: seq<nat>, amounts: seq<nat>)
    requires |counters| == |amounts|
    requires StrictlyAscending(distinct)
    requires forall i :: 0 <= i < |counters| ==> counters[i] in distinct
    ensures Sum(Tallies(distinct, counters, amounts)) == Sum(amounts)
  {
    if counters == [] {
      var zero := Tallies(distinct, counters, amounts);
      assert forall j :: 0 <= j < |zero| ==> zero[j] == 0;
      SumBounds(zero, 0, 0);
    } else {
      var rest := Tallies(distinct, counters[1..], amounts[1..]);
      var hit := seq(|distinct|, j requires 0 <= j < |distinct| =>
        if distinct[j] == counters[0] then amounts[0] as int else 0);
      forall j | 0 <= j < |distinct|
        ensures Tallies(distinct, counters, amounts)[j] == hit[j] + rest[j]
      {
        assert Shares(counters, amounts, distinct[j])[1..] == Shares(counters[1..], amounts[1..], distinct[j]);
      }
      SumPointwise(hit, rest, Tallies(distinct, counters, amounts));
      OneHit(distinct, hit, counters[0], amounts[0]);
      assert forall i :: 0 <= i < |counters[1..]| ==> counters[1..][i] == counters[i + 1];
      TalliesPartition(distinct, counters[1..], amounts[1..]);
    }
  }

  lemma OneHit(distinct: seq<nat>, hit: seq<int>, c: nat, amount: int)
    requires StrictlyAscending(distinct) && c in distinct && |hit| == |distinct|
    requires forall j :: 0 <= j < |hit| ==> hit[j] == if distinct[j] == c then amount else 0
    ensures Sum(hit) == amount
  {
    var at :| 0 <= at < |distinct| && distinct[at] == c;
    SumUpdate(hit, at, 0);
    SumBounds(hit[at := 0], 0, 0);
  }
}
