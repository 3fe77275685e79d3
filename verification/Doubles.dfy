/**
 IEEE 754 binary64 arithmetic: every operation returns its exact result rounded to 53 significant bits,
 ties to even.  Doubles are real numbers here, and the exponent range is unbounded: there is no
 overflow, underflow, infinity or NaN.
 */
module Doubles {

  // Two to the 52.
  const UNITS: nat := 4503599627370496

  function InUnits(x: real): real {
    x * 4503599627370496.0
  }

  // The most a rounding can move x.
  function Slack(x: real): real {
    x / 9007199254740992.0
  }

  // ---- Rounding ----

  function RoundHalfEven(y: real): int {
    var down := y.Floor;
    var rest := y - down as real;
    if rest < 0.5 || (rest == 0.5 && down % 2 == 0) then down else down + 1
  }

  lemma RoundMonotone(y: real, z: real)
    requires y <= z
    ensures RoundHalfEven(y) <= RoundHalfEven(z)
  {
    assert y.Floor <= z.Floor;
  }

  lemma RoundNear(y: real, m: int)
    ensures m as real <= y < m as real + 0.5 ==> RoundHalfEven(y) == m
    ensures y > m as real + 0.5 ==> RoundHalfEven(y) >= m + 1
  {
    if m as real <= y < m as real + 0.5 {
      assert y.Floor == m;
    } else if y > m as real + 0.5 {
      assert y.Floor >= m;
    }
  }

  function Distance(x: real, y: real): real {
    if x <= y then y - x else x - y
  }

  /** No integer is nearer to y than the one it is rounded to, and of two equally near ones it is the even
      one. */
  lemma RoundsToNearestEven(y: real, m: int)
    ensures var r := RoundHalfEven(y);
      && Distance(r as real, y) <= Distance(m as real, y)
      && (m != r && Distance(m as real, y) == Distance(r as real, y) ==> r % 2 == 0)
  {
    var r := RoundHalfEven(y);
    if m <= y.Floor {
      assert m as real <= y.Floor as real;
    } else {
      assert m as real >= (y.Floor + 1) as real;
    }
    if m != r && Distance(m as real, y) == Distance(r as real, y) {
      assert m as real + r as real == 2.0 * y;
      assert y.Floor as real <= y < (y.Floor + 1) as real;
    }
  }

  lemma Halving(x: real)
    requires 0.0 < x < 1.0
    ensures 0 <= (1.0 / (2.0 * x)).Floor < (1.0 / x).Floor
  {
    var u := 1.0 / x;
    assert u * x == 1.0 && u > 1.0;
    assert u / 2.0 * (2.0 * x) == 1.0;
    assert 1.0 / (2.0 * x) == u / 2.0;
  }

  /** The double nearest to a positive number.  Scaling by two changes the exponent only. */
  function RoundPositive(x: real): (r: real)
    requires x > 0.0
    decreases if x >= 1.0 then x.Floor else 1 + (1.0 / x).Floor
  {
    if x >= 2.0 then 2.0 * RoundPositive(x / 2.0)
    else if x >= 1.0 then RoundHalfEven(InUnits(x)) as real / 4503599627370496.0
    else
      Halving(x);
      RoundPositive(2.0 * x) / 2.0
  }

  /** The double nearest to x: what any operation with the exact result x returns. */
  function Fl(x: real): real {
    if x > 0.0 then RoundPositive(x) else if x < 0.0 then -RoundPositive(-x) else 0.0
  }

  /** Rounding, scale by scale: between 1 and 2 to multiples of 2^-52, and the same elsewhere up to powers
      of two and the sign. */
  lemma RoundingScales(x: real)
    ensures 1.0 <= x < 2.0 ==> Fl(x) == RoundHalfEven(x * 4503599627370496.0) as real / 4503599627370496.0
    ensures Fl(2.0 * x) == 2.0 * Fl(x)
    ensures Fl(-x) == -Fl(x)
  {
    if x > 0.0 {
      RoundPositiveDoubles(x);
    } else if x < 0.0 {
      RoundPositiveDoubles(-x);
      assert -(2.0 * x) == 2.0 * -x;
    }
  }

  lemma RoundPositiveDoubles(x: real)
    requires x > 0.0
    ensures RoundPositive(2.0 * x) == 2.0 * RoundPositive(x)
  {
    if x >= 1.0 {
      assert 2.0 * x / 2.0 == x;
    }
  }

  /** A product before it is rounded. */
  function Mul(x: real, y: real): real {
    x * y
  }

  function Times(x: real, y: real): real {
    Fl(Mul(x, y))
  }

  function Over(x: real, y: real): real
    requires y != 0.0
  {
    Fl(x / y)
  }

  /** Rounding moves a number by at most a relative 2^-53. */
  lemma {:induction false} RoundingError(x: real)
    requires x > 0.0
    ensures x - Slack(x) <= RoundPositive(x) <= x + Slack(x)
    decreases if x >= 1.0 then x.Floor else 1 + (1.0 / x).Floor
  {
    if x >= 2.0 {
      RoundingError(x / 2.0);
    } else if x < 1.0 {
      Halving(x);
      RoundingError(2.0 * x);
    }
  }

  // Rounding does not carry a number past 1 or 2.
  lemma {:induction false} RoundingStaysAside(x: real)
    requires x > 0.0
    ensures x < 1.0 ==> RoundPositive(x) <= 1.0
    ensures 1.0 <= x < 2.0 ==> 1.0 <= RoundPositive(x) <= 2.0
    ensures x >= 2.0 ==> RoundPositive(x) >= 2.0
    decreases if x >= 1.0 then x.Floor else 1 + (1.0 / x).Floor
  {
    if x >= 2.0 {
      RoundingStaysAside(x / 2.0);
    } else if x < 1.0 {
      Halving(x);
      RoundingStaysAside(2.0 * x);
    }
  }

  lemma {:induction false} RoundPositiveMonotone(x: real, y: real)
    requires 0.0 < x <= y
    ensures RoundPositive(x) <= RoundPositive(y)
    decreases if x >= 1.0 then x.Floor else 1 + (1.0 / x).Floor
  {
    RoundingStaysAside(x);
    RoundingStaysAside(y);
    if x >= 2.0 {
      RoundPositiveMonotone(x / 2.0, y / 2.0);
    } else if 1.0 <= x && y < 2.0 {
      RoundMonotone(InUnits(x), InUnits(y));
    } else if y < 1.0 {
      Halving(x);
      RoundPositiveMonotone(2.0 * x, 2.0 * y);
    }
  }

  /** Rounding keeps the order. */
  lemma RoundingMonotone(x: real, y: real)
    requires x <= y
    ensures Fl(x) <= Fl(y)
  {
    if x > 0.0 {
      RoundPositiveMonotone(x, y);
    } else if y < 0.0 {
      RoundPositiveMonotone(-y, -x);
    } else {
      if x < 0.0 {
        RoundingError(-x);
      }
      if y > 0.0 {
        RoundingError(y);
      }
    }
  }

  // ---- Neighbours ----

  /** The distance from the power of two at or below x to the double after it: what separates the
      doubles around x. */
  function Ulp(x: real): (u: real)
    requires x >= 1.0
    ensures u > 0.0
    decreases x.Floor
  {
    if x >= 2.0 then 2.0 * Ulp(x / 2.0) else 1.0 / 4503599627370496.0
  }

  // The doubles between 1 and 2 are 2^-52 apart.
  lemma UnitNeighbours(y: real, x: real)
    requires 1.0 <= y < 2.0 && RoundPositive(y) == y
    ensures InUnits(y) <= 9007199254740991.0
    ensures y <= x && InUnits(x) < InUnits(y) + 0.5 ==> x < 2.0 && RoundPositive(x) == y
    ensures x < 2.0 && InUnits(x) > InUnits(y) + 0.5 ==> RoundPositive(x) >= (InUnits(y) + 1.0) / 4503599627370496.0
  {
    var m := RoundHalfEven(InUnits(y));
    assert InUnits(y) == m as real;
    assert m < 9007199254740992;
    RoundNear(InUnits(x), m);
  }

  /** Less than halfway to the next double, rounding returns to y. */
  lemma {:induction false} RoundsBack(y: real, x: real)
    requires y >= 1.0 && RoundPositive(y) == y
    requires y <= x < y + Ulp(y) / 2.0
    ensures RoundPositive(x) == y
    decreases y.Floor
  {
    if y >= 2.0 {
      RoundsBack(y / 2.0, x / 2.0);
    } else {
      UnitNeighbours(y, x);
    }
  }

  /** More than halfway it goes on to the next double or further. */
  lemma {:induction false} RoundsOn(y: real, x: real)
    requires y >= 1.0 && RoundPositive(y) == y
    requires x > y + Ulp(y) / 2.0
    ensures RoundPositive(x) >= y + Ulp(y)
    decreases y.Floor
  {
    if y >= 2.0 {
      RoundsOn(y / 2.0, x / 2.0);
    } else {
      UnitNeighbours(y, x);
      RoundingStaysAside(x);
    }
  }

  // ---- Integers ----

  function Pow2(e: nat): nat {
    if e == 0 then 1 else 2 * Pow2(e - 1)
  }

  /** The largest power of two that is at most k. */
  function PowerBelow(k: nat): (r: nat)
    requires k >= 1
    ensures 1 <= r <= k < 2 * r
  {
    if k == 1 then 1 else 2 * PowerBelow(k / 2)
  }

  lemma {:induction false} PowerBelowIsPow2(k: nat) returns (e: nat)
    requires k >= 1
    ensures PowerBelow(k) == Pow2(e)
  {
    if k == 1 {
      e := 0;
    } else {
      e := PowerBelowIsPow2(k / 2);
      e := e + 1;
    }
  }

  // Different powers of two are a factor of two apart.
  lemma {:induction false} Pow2Apart(e: nat, f: nat)
    ensures Pow2(e) >= 1
    ensures e < f ==> 2 * Pow2(e) <= Pow2(f)
    ensures f < e ==> 2 * Pow2(f) <= Pow2(e)
  {
    if e > 0 && f > 0 {
      Pow2Apart(e - 1, f - 1);
    } else if f > 1 {
      Pow2Apart(0, f - 1);
    } else if e > 1 {
      Pow2Apart(e - 1, 0);
    }
  }

  lemma {:induction false} UlpAbove(x: real, n: nat)
    requires n >= 1 && x.Floor == n
    ensures InUnits(Ulp(x)) == PowerBelow(n) as real
    decreases n
  {
    if n > 1 {
      UlpAbove(x / 2.0, n / 2);
    }
  }

  lemma {:induction false} Pow2Sum(a: nat, b: nat)
    ensures Pow2(a + b) == Pow2(a) * Pow2(b)
  {
    if a > 0 {
      Pow2Sum(a - 1, b);
      assert Pow2(a + b) == 2 * Pow2(a - 1 + b);
    }
  }

  lemma Pow2Of52()
    ensures Pow2(52) == UNITS
  {
    assert Pow2(13) == 0x2000;
    Pow2Sum(13, 13);
    Pow2Sum(26, 26);
  }

  // m halved i times.
  function Dyadic(m: nat, i: nat): real {
    if i == 0 then m as real else Dyadic(m, i - 1) / 2.0
  }

  lemma {:induction false} DyadicInUnits(m: nat, i: nat)
    requires i <= 52
    ensures InUnits(Dyadic(m, i)) == (m * Pow2(52 - i)) as real
  {
    if i == 0 {
      Pow2Of52();
    } else {
      DyadicInUnits(m, i - 1);
      assert m * Pow2(52 - (i - 1)) == 2 * (m * Pow2(52 - i));
    }
  }

  lemma {:induction false} DyadicIsDouble(m: nat, i: nat)
    requires i <= 52 && 1.0 <= Dyadic(m, i) < 2.0 * Pow2(52 - i) as real
    ensures RoundPositive(Dyadic(m, i)) == Dyadic(m, i)
    decreases 52 - i
  {
    var x := Dyadic(m, i);
    if x >= 2.0 {
      assert Dyadic(m, i + 1) == x / 2.0;
      DyadicIsDouble(m, i + 1);
    } else {
      DyadicInUnits(m, i);
    }
  }

  /** Integers below two to the 53 are doubles. */
  lemma IntegersAreDoubles(n: nat)
    requires n < 2 * UNITS
    ensures Fl(n as real) == n as real
  {
    if n > 0 {
      Pow2Of52();
      assert Dyadic(n, 0) == n as real;
      DyadicIsDouble(n, 0);
    }
  }

  // ---- Products ----

  lemma MulWithin(q: real, x: real)
    requires 0.0 < q <= 1.0 && x > 0.0
    ensures 0.0 < Mul(q, x) <= x
  {
  }

  lemma MulMonotone(q: real, r: real, x: real)
    requires q <= r && x >= 0.0
    ensures Mul(q, x) <= Mul(r, x)
  {
  }

  lemma Distribute(a: real, b: real, x: real)
    ensures Mul(a + b, x) == Mul(a, x) + Mul(b, x)
  {
  }

  lemma TimesMonotone(q: real, r: real, x: real)
    requires q <= r && x >= 0.0
    ensures Times(q, x) <= Times(r, x)
  {
    MulMonotone(q, r, x);
    RoundingMonotone(Mul(q, x), Mul(r, x));
  }

  // A product that does not exceed a double is not rounded past it.
  lemma TimesBelow(r: real, x: real, d: real)
    requires 0.0 < Mul(r, x) <= d && Fl(d) == d
    ensures 0.0 < Times(r, x) <= d
  {
    RoundingMonotone(Mul(r, x), d);
    RoundingError(Mul(r, x));
  }

  lemma FactorError(q: real, r: real, x: real)
    requires q - Slack(1.0) <= r <= q + Slack(1.0) && x >= 0.0
    ensures Mul(q, x) - Slack(x) <= Mul(r, x) <= Mul(q, x) + Slack(x)
  {
    MulMonotone(r, q + Slack(1.0), x);
    Distribute(q, Slack(1.0), x);
    MulMonotone(q - Slack(1.0), r, x);
    Distribute(q, -Slack(1.0), x);
  }

  lemma RoundedWithin(z: real, x: real)
    requires 0.0 <= z <= x
    ensures z - Slack(x) <= Fl(z) <= z + Slack(x)
  {
    if z > 0.0 {
      RoundingError(z);
    }
  }

  /** A rounded factor and the rounding of the product: twice the slack of the other factor. */
  lemma TwoRoundings(q: real, r: real, x: real)
    requires q - Slack(1.0) <= r <= q + Slack(1.0) && 0.0 < r <= 1.0 && x > 0.0
    ensures Mul(q, x) - 2.0 * Slack(x) <= Times(r, x) <= Mul(q, x) + 2.0 * Slack(x)
  {
    FactorError(q, r, x);
    MulWithin(r, x);
    RoundedWithin(Mul(r, x), x);
  }
}
