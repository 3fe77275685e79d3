/**
 Nearest-rank percentiles.  The rank is computed in doubles: p / 100 is rounded, and so is its product
 with n.  What the rounding can do to a percentile is proved against the exact rank.
 */
module Percentile {
  import opened Doubles
  import opened Modular

  predicate Sorted(s: seq<real>) {
    forall i, j :: 0 <= i < j < |s| ==> s[i] <= s[j]
  }

  function Ceil(x: real): int {
    -((-x).Floor)
  }

  function Clamp(n: nat, rank: int): (r: nat)
    requires n >= 1
    ensures 1 <= r <= n
  {
    if rank < 1 then 1 else if rank > n then n else rank
  }

  /** p / 100.0 * n as the program evaluates it. */
  function Product(n: nat, p: real): real {
    Times(Over(p, 100.0), Fl(n as real))
  }

  /** The 1-based rank, clamped to [1, n]. */
  function Rank(n: nat, p: real): (rank: nat)
    requires n >= 1
    ensures 1 <= rank <= n
  {
    Clamp(n, Ceil(Product(n, p)))
  }

  /** percentile */
  function Percentile(sorted: seq<real>, p: real): real
    requires |sorted| >= 1
  {
    sorted[Rank(|sorted|, p) - 1]
  }

  // ---- The nearest rank without rounding ----

  function Exact(n: nat, p: real): real {
    Mul(p / 100.0, n as real)
  }

  function NearestRank(n: nat, p: real): (rank: nat)
    requires n >= 1
    ensures 1 <= rank <= n
  {
    Clamp(n, Ceil(Exact(n, p)))
  }

  function NearestPercentile(sorted: seq<real>, p: real): real
    requires |sorted| >= 1
  {
    sorted[NearestRank(|sorted|, p) - 1]
  }

  // ---- Counting samples ----

  function Below(s: seq<real>, x: real): nat {
    if s == [] then 0 else Below(s[..|s| - 1], x) + (if s[|s| - 1] < x then 1 else 0)
  }

  function UpTo(s: seq<real>, x: real): nat {
    if s == [] then 0 else UpTo(s[..|s| - 1], x) + (if s[|s| - 1] <= x then 1 else 0)
  }

  // In sorted samples, how the sample at an index compares with x decides how many do.
  lemma {:induction false} CountsAtIndex(s: seq<real>, x: real, k: nat)
    requires Sorted(s) && k < |s|
    ensures UpTo(s, x) <= |s| && (s[k] <= x <==> UpTo(s, x) >= k + 1)
    ensures Below(s, x) <= |s| && (s[k] < x <==> Below(s, x) >= k + 1)
    decreases |s|
  {
    var last := |s| - 1;
    if last > 0 {
      CountsAtIndex(s[..last], x, if k < last then k else last - 1);
    }
  }

  /** At least p percent of the samples are x or less. */
  predicate EnoughUpTo(sorted: seq<real>, p: real, x: real) {
    UpTo(sorted, x) as real >= Exact(|sorted|, p)
  }

  /** Fewer than p percent of the samples are less than x. */
  predicate TooFewBelow(sorted: seq<real>, p: real, x: real) {
    (Below(sorted, x) as real) < Exact(|sorted|, p)
  }

  lemma CeilBounds(x: real)
    ensures x <= Ceil(x) as real < x + 1.0
  {
  }

  // For 0 < p <= 100 the clamps do nothing to the exact rank.
  lemma NearestRankBounds(n: nat, p: real)
    requires n >= 1 && 0.0 < p <= 100.0
    ensures NearestRank(n, p) == Ceil(Exact(n, p))
    ensures 0.0 < Exact(n, p) <= NearestRank(n, p) as real < Exact(n, p) + 1.0
  {
    CeilBounds(Exact(n, p));
    MulWithin(p / 100.0, n as real);
  }

  /** What the nearest-rank percentile is, without ranks: the least number with at least p percent of
      the samples at or below it, and the greatest with fewer than p percent below it. */
  lemma NearestRankCharacterised(sorted: seq<real>, p: real, x: real)
    requires |sorted| >= 1 && Sorted(sorted) && 0.0 < p <= 100.0
    ensures EnoughUpTo(sorted, p, x) <==> NearestPercentile(sorted, p) <= x
    ensures TooFewBelow(sorted, p, x) <==> x <= NearestPercentile(sorted, p)
  {
    var rank := NearestRank(|sorted|, p);
    NearestRankBounds(|sorted|, p);
    CountsAtIndex(sorted, x, rank - 1);
    assert EnoughUpTo(sorted, p, x) <==> UpTo(sorted, x) >= rank;
    assert TooFewBelow(sorted, p, x) <==> Below(sorted, x) < rank;
  }

  // ---- How far the computed rank can be from it ----

  lemma CeilMonotone(x: real, y: real)
    requires x <= y
    ensures Ceil(x) <= Ceil(y)
  {
    CeilBounds(x);
    CeilBounds(y);
    assert (Ceil(x) as real) < (Ceil(y) + 1) as real;
  }

  lemma CeilNear(x: real, y: real)
    requires x - 1.0 <= y <= x + 1.0
    ensures Ceil(x) - 1 <= Ceil(y) <= Ceil(x) + 1
  {
    CeilMonotone(x - 1.0, y);
    CeilMonotone(y, x + 1.0);
  }

  // Two to the -52 for each sample: half of it for either rounding.
  lemma ProductError(n: nat, p: real)
    requires 1 <= n < 2 * UNITS && 0.0 < p <= 100.0
    ensures Exact(n, p) - 2.0 * Slack(n as real) <= Product(n, p) <= Exact(n, p) + 2.0 * Slack(n as real)
  {
    IntegersAreDoubles(n);
    QuotientError(p);
    TwoRoundings(p / 100.0, Over(p, 100.0), n as real);
  }

  lemma QuotientError(p: real)
    requires 0.0 < p <= 100.0
    ensures p / 100.0 - Slack(1.0) <= Over(p, 100.0) <= p / 100.0 + Slack(1.0)
    ensures 0.0 < Over(p, 100.0) <= 1.0
  {
    RoundingError(p / 100.0);
    RoundingMonotone(p / 100.0, 1.0);
    IntegersAreDoubles(1);
  }

  lemma ProductRange(n: nat, p: real)
    requires 1 <= n < 2 * UNITS && 0.0 < p <= 100.0
    ensures 0.0 < Product(n, p) <= n as real
  {
    IntegersAreDoubles(n);
    QuotientError(p);
    MulWithin(Over(p, 100.0), n as real);
    TimesBelow(Over(p, 100.0), n as real, n as real);
  }

  // Nor do the clamps do anything to the computed rank.
  lemma RankBounds(n: nat, p: real)
    requires 1 <= n < 2 * UNITS && 0.0 < p <= 100.0
    ensures Rank(n, p) == Ceil(Product(n, p))
  {
    ProductRange(n, p);
    CeilBounds(Product(n, p));
    assert Product(n, p) + 1.0 <= (n + 1) as real;
  }

  /** For at most 2^52 samples the computed rank is off by one at most, and right exactly if the rounded
      and the exact product have the same ceiling.  The percentile always has one half of the
      nearest-rank property, and the other half exactly if the rank is right or the neighbouring sample
      at the right rank is equal. */
  lemma PercentileNearlyNearest(sorted: seq<real>, p: real)
    requires 1 <= |sorted| <= UNITS && Sorted(sorted) && 0.0 < p <= 100.0
    ensures var n, x := |sorted|, Percentile(sorted, p);
      var rank, nearest := Rank(n, p), NearestRank(n, p);
      && x in sorted
      && (rank == nearest || rank == nearest + 1 || rank == nearest - 1)
      && (rank == nearest <==> Ceil(Product(n, p)) == Ceil(Exact(n, p)))
      && (rank == nearest ==> EnoughUpTo(sorted, p, x) && TooFewBelow(sorted, p, x))
      && (rank == nearest + 1 ==>
           EnoughUpTo(sorted, p, x) && (TooFewBelow(sorted, p, x) <==> x == sorted[rank - 2]))
      && (rank == nearest - 1 ==>
           TooFewBelow(sorted, p, x) && (EnoughUpTo(sorted, p, x) <==> x == sorted[rank]))
  {
    var n := |sorted|;
    ProductError(n, p);
    CeilNear(Exact(n, p), Product(n, p));
    NearestRankBounds(n, p);
    RankBounds(n, p);
    NearestRankCharacterised(sorted, p, Percentile(sorted, p));
  }

  /** A higher percentile is never a smaller number; and the clamps keep it between the extremes. */
  lemma PercentileMonotone(sorted: seq<real>, p: real, q: real)
    requires |sorted| >= 1 && Sorted(sorted) && p <= q
    ensures sorted[0] <= Percentile(sorted, p) <= Percentile(sorted, q) <= sorted[|sorted| - 1]
  {
    var n := |sorted| as real;
    RoundingMonotone(0.0, n);
    RoundingMonotone(p / 100.0, q / 100.0);
    TimesMonotone(Over(p, 100.0), Over(q, 100.0), Fl(n));
    CeilMonotone(Product(|sorted|, p), Product(|sorted|, q));
  }

  /** What a percentile can show of a tail: it exceeds x exactly if at least n - rank + 1 samples do. */
  lemma TailVisible(sorted: seq<real>, p: real, x: real)
    requires |sorted| >= 1 && Sorted(sorted)
    ensures var n := |sorted|; var outliers := n - UpTo(sorted, x);
      Percentile(sorted, p) > x <==> outliers >= n - Rank(n, p) + 1
  {
    CountsAtIndex(sorted, x, Rank(|sorted|, p) - 1);
  }

  // ---- The four percentiles of a report ----

  /** The literal 99.9 of the program is the double nearest to it. */
  function P999(): real {
    Fl(99.9)
  }

  datatype PercentileReport = PercentileReport(
    n: nat, min: real, p50: real, p95: real, p99: real, p999: real, max: real)

  /** summarize, once the samples are sorted. */
  function Summarize(sorted: seq<real>): PercentileReport
    requires |sorted| >= 1
  {
    PercentileReport(|sorted|, sorted[0], Percentile(sorted, 50.0), Percentile(sorted, 95.0),
                     Percentile(sorted, 99.0), Percentile(sorted, P999()), sorted[|sorted| - 1])
  }

  /** The report its columns' names promise. */
  function NearestReport(sorted: seq<real>): PercentileReport
    requires |sorted| >= 1
  {
    PercentileReport(|sorted|, sorted[0], NearestPercentile(sorted, 50.0), NearestPercentile(sorted, 95.0),
                     NearestPercentile(sorted, 99.0), NearestPercentile(sorted, 99.9), sorted[|sorted| - 1])
  }

  lemma HalfToOne(x: real)
    requires 0.5 <= x < 1.0
    ensures Fl(x) == RoundHalfEven(InUnits(2.0 * x)) as real / 9007199254740992.0
  {
    Halving(x);
    assert Fl(x) == RoundPositive(2.0 * x) / 2.0;
  }

  // The quotients p / 100.0, as multiples of two to the -53.
  lemma Quotients()
    ensures Over(50.0, 100.0) == 0.5
    ensures Over(95.0, 100.0) == 8556839292003942.0 / 9007199254740992.0
    ensures Over(99.0, 100.0) == 8917127262193582.0 / 9007199254740992.0
  {
    HalfToOne(50.0 / 100.0);
    HalfToOne(95.0 / 100.0);
    HalfToOne(99.0 / 100.0);
  }

  lemma QuotientOfP999()
    ensures P999() == 7029837543348634.0 / 70368744177664.0
    ensures Over(P999(), 100.0) == 8998192055486252.0 / 9007199254740992.0
  {
    assert RoundPositive(99.9 / 64.0) == 7029837543348634.0 / 4503599627370496.0;
    assert RoundPositive(99.9 / 16.0) == 4.0 * RoundPositive(99.9 / 64.0) by {
      assert RoundPositive(99.9 / 32.0) == 2.0 * RoundPositive(99.9 / 64.0);
    }
    assert RoundPositive(99.9 / 4.0) == 4.0 * RoundPositive(99.9 / 16.0) by {
      assert RoundPositive(99.9 / 8.0) == 2.0 * RoundPositive(99.9 / 16.0);
    }
    assert RoundPositive(99.9) == 4.0 * RoundPositive(99.9 / 4.0) by {
      assert RoundPositive(99.9 / 2.0) == 2.0 * RoundPositive(99.9 / 4.0);
    }
    HalfToOne(P999() / 100.0);
  }

  // p percent is 1 - 1 / b.
  predicate Complement(p: real, b: nat) {
    (p == 50.0 && b == 2) || (p == 95.0 && b == 20) || (p == 99.0 && b == 100) || (p == 99.9 && b == 1000)
  }

  lemma CeilIs(x: real, m: int)
    requires (m - 1) as real < x <= m as real
    ensures Ceil(x) == m
  {
  }

  predicate ApartFromIntegers(x: real) {
    Ceil(x) as real - 0.999 <= x <= Ceil(x) as real - 0.001
  }

  // The exact product is a whole number or well apart from any.
  lemma ExactOf(n: nat, p: real, b: nat)
    requires Complement(p, b)
    ensures Ceil(Exact(n, p)) == n - n / b
    ensures if n % b == 0 then Exact(n, p) == (n - n / b) as real else ApartFromIntegers(Exact(n, p))
  {
    var k, r := n / b, n % b;
    if b == 2 {
      assert Exact(n, p) == (n - k) as real - r as real / 2.0;
    } else if b == 20 {
      assert Exact(n, p) == (n - k) as real - r as real / 20.0;
    } else if b == 100 {
      assert Exact(n, p) == (n - k) as real - r as real / 100.0;
    } else {
      assert Exact(n, p) == (n - k) as real - r as real / 1000.0;
    }
    CeilIs(Exact(n, p), n - k);
  }

  const MANY: nat := 0x100_0000_0000

  // Where the exact product is apart from the integers, rounding does not reach one.
  lemma ApartKeepsCeil(n: nat, exact: real, y: real)
    requires n <= MANY && ApartFromIntegers(exact)
    requires exact - 2.0 * Slack(n as real) <= y <= exact + 2.0 * Slack(n as real)
    ensures Ceil(y) == Ceil(exact)
  {
    CeilIs(y, Ceil(exact));
  }

  // A quotient rounded down or not at all cannot lift the product above a whole number.
  lemma WholeFromBelow(n: nat, p: real, whole: nat)
    requires 1 <= n <= MANY && 0.0 < p <= 100.0 && Over(p, 100.0) <= p / 100.0
    requires Exact(n, p) == whole as real && whole <= n
    ensures Ceil(Product(n, p)) == whole
  {
    IntegersAreDoubles(n);
    IntegersAreDoubles(whole);
    ProductError(n, p);
    QuotientError(p);
    MulWithin(Over(p, 100.0), n as real);
    MulMonotone(Over(p, 100.0), p / 100.0, n as real);
    TimesBelow(Over(p, 100.0), n as real, whole as real);
    CeilIs(Product(n, p), whole);
  }

  lemma RankFromBelow(n: nat, p: real, b: nat)
    requires 1 <= n <= MANY && Complement(p, b) && Over(p, 100.0) <= p / 100.0
    ensures Rank(n, p) == NearestRank(n, p)
  {
    ExactOf(n, p, b);
    if n % b == 0 {
      WholeFromBelow(n, p, n - n / b);
    } else {
      ProductError(n, p);
      ApartKeepsCeil(n, Exact(n, p), Product(n, p));
    }
  }

  /** p50, p95 and p99 are nearest-rank percentiles. */
  lemma LowerColumnsAreNearest(n: nat)
    requires 1 <= n <= MANY
    ensures Rank(n, 50.0) == NearestRank(n, 50.0)
    ensures Rank(n, 95.0) == NearestRank(n, 95.0)
    ensures Rank(n, 99.0) == NearestRank(n, 99.0)
  {
    Quotients();
    RankFromBelow(n, 50.0, 2);
    RankFromBelow(n, 95.0, 20);
    RankFromBelow(n, 99.0, 100);
  }

  // ---- p99.9 ----

  lemma TwiceModulo31(r: nat)
    requires r % 31 != 0
    ensures (2 * r) % 31 != 0
  {
    var rest := r % 31;
    assert 2 * r == 31 * (2 * (r / 31)) + 2 * rest;
    if 2 * rest < 31 {
      ModUnique(2 * r, 31, 2 * (r / 31), 2 * rest);
    } else {
      ModUnique(2 * r, 31, 2 * (r / 31) + 1, 2 * rest - 31);
    }
  }

  lemma {:induction false} PowersModulo31(k: nat)
    requires k >= 1
    ensures PowerBelow(k) % 31 != 0
  {
    if k > 1 {
      PowersModulo31(k / 2);
      TwiceModulo31(PowerBelow(k / 2));
    }
  }

  /** The count of samples is k thousands, and no power of two lies from 992 k to 999 k.  Then the
      product is rounded up from just above 999 k. */
  predicate RoundsUp(n: nat) {
    n >= 1 && n % 1000 == 0 && PowerBelow(999 * (n / 1000)) < 992 * (n / 1000)
  }

  lemma ProductOfThousands(k: nat)
    requires 1 <= k && 1000 * k <= MANY
    ensures Product(1000 * k, P999()) == Fl((999 * k) as real + Slack((992 * k) as real))
  {
    IntegersAreDoubles(1000 * k);
    QuotientOfP999();
  }

  // The nearest double to a number above an integer by d / 2^53.
  lemma JustAbove(m: nat, d: nat, x: real)
    requires 1 <= m < UNITS && d < UNITS && x == m as real + Slack(d as real)
    requires PowerBelow(m) != d
    ensures Ceil(Fl(x)) == m + (if PowerBelow(m) < d then 1 else 0)
  {
    IntegersAreDoubles(m);
    UlpAbove(m as real, m);
    if d < PowerBelow(m) {
      RoundsBack(m as real, x);
      CeilIs(Fl(x), m);
    } else {
      RoundsOn(m as real, x);
      IntegersAreDoubles(m + 1);
      RoundingMonotone(x, (m + 1) as real);
      CeilIs(Fl(x), m + 1);
    }
  }

  lemma NoTie(m: nat, k: nat)
    requires m >= 1
    ensures PowerBelow(m) != 992 * k
  {
    PowersModulo31(m);
    ModUnique(992 * k, 31, 32 * k, 0);
  }

  lemma RankOfThousands(k: nat)
    requires 1 <= k && 1000 * k <= MANY
    ensures Ceil(Product(1000 * k, P999())) == 999 * k + (if PowerBelow(999 * k) < 992 * k then 1 else 0)
  {
    ProductOfThousands(k);
    NoTie(999 * k, k);
    JustAbove(999 * k, 992 * k, (999 * k) as real + Slack((992 * k) as real));
  }

  lemma RankOffThousands(n: nat)
    requires 1 <= n <= MANY && n % 1000 != 0
    ensures Ceil(Product(n, P999())) == Ceil(Exact(n, 99.9))
  {
    ExactOf(n, 99.9, 1000);
    IntegersAreDoubles(n);
    QuotientOfP999();
    TwoRoundings(0.999, Over(P999(), 100.0), n as real);
    ApartKeepsCeil(n, Exact(n, 99.9), Product(n, P999()));
  }

  lemma CeilOfP999(n: nat)
    requires 1 <= n <= MANY
    ensures Ceil(Product(n, P999())) == n - n / 1000 + (if RoundsUp(n) then 1 else 0)
  {
    if n % 1000 == 0 {
      var k := n / 1000;
      assert n == 1000 * k;
      RankOfThousands(k);
    } else {
      RankOffThousands(n);
      ExactOf(n, 99.9, 1000);
    }
  }

  /** The computed rank of p99.9 is the nearest rank of 99.9 percent, or one more, and just when. */
  lemma RankOfP999(n: nat)
    requires 1 <= n <= MANY
    ensures Rank(n, P999()) == NearestRank(n, 99.9) + (if RoundsUp(n) then 1 else 0)
  {
    ExactOf(n, 99.9, 1000);
    CeilOfP999(n);
  }

  lemma NearestRanksAre(n: nat)
    requires n >= 1
    ensures NearestRank(n, 50.0) == n - n / 2 && NearestRank(n, 95.0) == n - n / 20
    ensures NearestRank(n, 99.0) == n - n / 100 && NearestRank(n, 99.9) == n - n / 1000
  {
    ExactOf(n, 50.0, 2);
    ExactOf(n, 95.0, 20);
    ExactOf(n, 99.0, 100);
    ExactOf(n, 99.9, 1000);
  }

  lemma RanksAre(n: nat)
    requires 1 <= n <= MANY
    ensures Rank(n, 50.0) == n - n / 2 && Rank(n, 95.0) == n - n / 20 && Rank(n, 99.0) == n - n / 100
    ensures Rank(n, P999()) == n - n / 1000 + (if RoundsUp(n) then 1 else 0)
  {
    LowerColumnsAreNearest(n);
    RankOfP999(n);
    NearestRanksAre(n);
  }

  /** Which samples the columns of a report are. */
  lemma ReportColumns(sorted: seq<real>)
    requires 1 <= |sorted| <= MANY
    ensures var n, r := |sorted|, Summarize(sorted);
      && r.n == n && r.min == sorted[0] && r.max == sorted[n - 1]
      && r.p50 == sorted[n - n / 2 - 1]
      && r.p95 == sorted[n - n / 20 - 1]
      && r.p99 == sorted[n - n / 100 - 1]
      && 0 <= n - n / 1000 - (if RoundsUp(n) then 0 else 1) < n
      && r.p999 == sorted[n - n / 1000 - (if RoundsUp(n) then 0 else 1)]
  {
    RanksAre(|sorted|);
  }

  /** ... where rounding up means that no power of two lies between the two multiples of n / 1000. */
  lemma RoundsUpMeans(n: nat)
    requires n >= 1
    ensures RoundsUp(n) <==>
      n % 1000 == 0 && forall e: nat :: !(992 * (n / 1000) <= Pow2(e) <= 999 * (n / 1000))
  {
    var k := n / 1000;
    if n % 1000 == 0 {
      var e := PowerBelowIsPow2(999 * k);
      if PowerBelow(999 * k) < 992 * k {
        forall f: nat ensures !(992 * k <= Pow2(f) <= 999 * k) {
          Pow2Apart(e, f);
        }
      }
    }
  }

  lemma RoundedUpReport(n: nat) returns (sorted: seq<real>)
    requires 1 <= n <= MANY && RoundsUp(n)
    ensures |sorted| == n && Sorted(sorted) && Summarize(sorted).p999 != NearestReport(sorted).p999
  {
    RankOfP999(n);
    sorted := seq(n, i => i as real);
  }

  lemma NearestReportOf(sorted: seq<real>)
    requires 1 <= |sorted| <= MANY && !RoundsUp(|sorted|)
    ensures Summarize(sorted) == NearestReport(sorted)
  {
    LowerColumnsAreNearest(|sorted|);
    RankOfP999(|sorted|);
  }

  /** A report of n samples is the nearest-rank report, whatever the samples, exactly if the rank of
      p99.9 is not rounded up. */
  lemma ReportIsNearestExactly(n: nat)
    requires 1 <= n <= MANY
    ensures (forall sorted: seq<real> :: |sorted| == n && Sorted(sorted) ==> Summarize(sorted) == NearestReport(sorted))
       <==> !RoundsUp(n)
  {
    if RoundsUp(n) {
      var sorted := RoundedUpReport(n);
      assert Summarize(sorted) != NearestReport(sorted);
    } else {
      forall sorted: seq<real> | |sorted| == n && Sorted(sorted) ensures Summarize(sorted) == NearestReport(sorted) {
        NearestReportOf(sorted);
      }
    }
  }

  lemma PowerBelowReadmeRank()
    ensures PowerBelow(19_980) == 16_384
  {
    assert PowerBelow(19) == 16;
    assert PowerBelow(78) == 4 * PowerBelow(19);
    assert PowerBelow(312) == 4 * PowerBelow(78);
    assert PowerBelow(1_248) == 4 * PowerBelow(312);
    assert PowerBelow(4_995) == 4 * PowerBelow(1_248);
  }

  lemma RankOfTwentyThousand()
    ensures Rank(20_000, P999()) == 19_981 && NearestRank(20_000, 99.9) == 19_980
  {
    PowerBelowReadmeRank();
    RankOfP999(20_000);
  }

  /** The README's case.  With 20000 samples p99.9 is the 20th largest: 16 slow ones stay hidden from it,
      whatever they are, as would 19; 20 do not. */
  lemma SixteenOutliersStayHidden(sorted: seq<real>, x: real)
    requires |sorted| == 20_000 && Sorted(sorted)
    ensures Rank(20_000, P999()) == 19_981 && NearestRank(20_000, 99.9) == 19_980
    ensures 20_000 - UpTo(sorted, x) <= 19 <==> Percentile(sorted, P999()) <= x
  {
    RankOfTwentyThousand();
    TailVisible(sorted, P999(), x);
  }

  /** The columns of a report ascend. */
  lemma ReportAscends(sorted: seq<real>)
    requires |sorted| >= 1 && Sorted(sorted)
    ensures var r := Summarize(sorted); r.min <= r.p50 <= r.p95 <= r.p99 <= r.p999 <= r.max
  {
    QuotientOfP999();
    PercentileMonotone(sorted, 50.0, 95.0);
    PercentileMonotone(sorted, 95.0, 99.0);
    PercentileMonotone(sorted, 99.0, P999());
  }
}
