// Double-precision arithmetic as the recorder uses it: every operation returns the
// exact real result rounded to a 53-bit significand, ties to even (section 4.3.1 of
// IEEE 754-2019).  The exponent range is unbounded here: the values that occur lie
// far inside the normal range.
module DoubleArithmetic {
  import opened PowersOfTwo

  const TWO_52: real := 4503599627370496.0
  const TWO_53: real := 9007199254740992.0

  /** The integer nearest to x, the even one when two are equally near. */
  function NearestEven(x: real): (n: int)
    ensures -0.5 <= n as real - x <= 0.5
  {
    var below := x.Floor;
    var rest := x - below as real;
    if rest < 0.5 || (rest == 0.5 && below % 2 == 0) then below else below + 1
  }

  lemma HalvedFloor(y: real)
    requires y >= 1.0
    ensures (y / 2.0).Floor < y.Floor
  {
  }

  lemma HalvedQuotient(x: real)
    requires x > 0.0
    ensures TWO_53 / (2.0 * x) == (TWO_53 / x) / 2.0
    ensures x < TWO_53 ==> TWO_53 / x >= 1.0
  {
    var y := TWO_53 / x;
    assert y * x == TWO_53;
    assert (y / 2.0) * (2.0 * x) == TWO_53;
    assert x < TWO_53 && y < 1.0 ==> y * x <= x;
  }

  /** Scale into [2^52, 2^53), round to an integer there, scale back. */
  function RoundPositive(x: real): real
    requires x > 0.0
    decreases if x < TWO_52 then (TWO_53 / x).Floor else if x >= TWO_53 then x.Floor else 0
  {
    if x < TWO_52 then
      HalvedQuotient(x);
      HalvedFloor(TWO_53 / x);
      RoundPositive(2.0 * x) / 2.0
    else if x >= TWO_53 then
      HalvedFloor(x);
      2.0 * RoundPositive(x / 2.0)
    else
      NearestEven(x) as real
  }

  /** The double nearest to a real number. */
  function Double(x: real): real {
    if x == 0.0 then 0.0 else if x > 0.0 then RoundPositive(x) else -RoundPositive(-x)
  }

  // Exact product and quotient, named so that equal operands give equal results
  // without nonlinear reasoning.
  function Times(a: real, b: real): real { a * b }

  function Over(a: real, b: real): real
    requires b != 0.0
  {
    a / b
  }

  function Multiply(a: real, b: real): real { Double(Times(a, b)) }

  function Divide(a: real, b: real): real
    requires b != 0.0
  {
    Double(Over(a, b))
  }

  /** Conversion of a double to int: truncation toward zero. */
  function Truncate(x: real): int {
    if x >= 0.0 then x.Floor else -((-x).Floor)
  }

  /** Rounding has relative error at most 2^-53. */
  lemma {:induction false} RoundingError(x: real)
    requires x > 0.0
    ensures -x <= (RoundPositive(x) - x) * TWO_53 <= x
    decreases if x < TWO_52 then (TWO_53 / x).Floor else if x >= TWO_53 then x.Floor else 0
  {
    if x < TWO_52 {
      HalvedQuotient(x);
      HalvedFloor(TWO_53 / x);
      RoundingError(2.0 * x);
    } else if x >= TWO_53 {
      HalvedFloor(x);
      RoundingError(x / 2.0);
    }
  }

  lemma NearestEvenMonotone(x: real, y: real)
    requires x <= y
    ensures NearestEven(x) <= NearestEven(y)
  {
    if x.Floor == y.Floor {
    } else {
      assert x.Floor + 1 <= y.Floor;
    }
  }

  /** Rounding does not cross 2^52 or 2^53. */
  lemma {:induction false} RoundingKeepsBinade(x: real)
    requires x > 0.0
    ensures x < TWO_52 ==> RoundPositive(x) <= TWO_52
    ensures TWO_52 <= x < TWO_53 ==> TWO_52 <= RoundPositive(x) <= TWO_53
    ensures x >= TWO_53 ==> RoundPositive(x) >= TWO_53
    decreases if x < TWO_52 then (TWO_53 / x).Floor else if x >= TWO_53 then x.Floor else 0
  {
    if x < TWO_52 {
      HalvedQuotient(x);
      HalvedFloor(TWO_53 / x);
      RoundingKeepsBinade(2.0 * x);
    } else if x >= TWO_53 {
      HalvedFloor(x);
      RoundingKeepsBinade(x / 2.0);
    } else {
      NearestEvenMonotone(TWO_52, x);
      NearestEvenMonotone(x, TWO_53);
    }
  }

  lemma {:induction false} RoundingMonotone(x: real, y: real)
    requires 0.0 < x <= y
    ensures RoundPositive(x) <= RoundPositive(y)
    decreases if x < TWO_52 then (TWO_53 / x).Floor else if x >= TWO_53 then x.Floor else 0
  {
    if y < TWO_52 {
      HalvedQuotient(x);
      HalvedFloor(TWO_53 / x);
      RoundingMonotone(2.0 * x, 2.0 * y);
    } else if x >= TWO_53 {
      HalvedFloor(x);
      RoundingMonotone(x / 2.0, y / 2.0);
    } else if TWO_52 <= x && y < TWO_53 {
      NearestEvenMonotone(x, y);
    } else {
      RoundingKeepsBinade(x);
      RoundingKeepsBinade(y);
    }
  }

  /** Every integer of at most 53 bits is a double. */
  lemma {:induction false} IntegersAreExact(n: int)
    requires 0 <= n <= 9007199254740992
    ensures Double(n as real) == n as real
    decreases 9007199254740992 - n
  {
    var x := n as real;
    if n == 9007199254740992 {
      assert RoundPositive(x / 2.0) == NearestEven(x / 2.0) as real;
    } else if 0 < n && x < TWO_52 {
      IntegersAreExact(2 * n);
      assert 2.0 * x == (2 * n) as real;
    }
  }

  lemma NearestEvenIsNearest(x: real, n: int)
    ensures -(x - n as real) <= x - NearestEven(x) as real <= x - n as real
         || x - n as real <= x - NearestEven(x) as real <= -(x - n as real)
  {
    if n <= x.Floor {
    } else {
      assert n >= x.Floor + 1;
    }
  }

  ghost predicate NoFartherThan(a: real, b: real) {
    -b <= a <= b || b <= a <= -b
  }

  /** Rounding is to nearest: no double d is closer to x than the one chosen. */
  lemma {:induction false} RoundingIsToNearest(x: real, d: real)
    requires x > 0.0 && d > 0.0
    requires RoundPositive(d) == d
    ensures NoFartherThan(x - RoundPositive(x), x - d)
    decreases if x < TWO_52 then (TWO_53 / x).Floor else if x >= TWO_53 then x.Floor else 0
  {
    if x < TWO_52 {
      HalvedQuotient(x);
      HalvedFloor(TWO_53 / x);
      assert RoundPositive(2.0 * d) == 2.0 * d by {
        assert (2.0 * d) / 2.0 == d;
      }
      RoundingIsToNearest(2.0 * x, 2.0 * d);
    } else if x >= TWO_53 {
      HalvedFloor(x);
      assert RoundPositive(d / 2.0) == d / 2.0 by {
        assert 2.0 * (d / 2.0) == d;
      }
      RoundingIsToNearest(x / 2.0, d / 2.0);
    } else if d < TWO_52 {
      NearestEvenIsNearest(x, 4503599627370496);
    } else if d >= TWO_53 {
      NearestEvenIsNearest(x, 9007199254740992);
    } else {
      NearestEvenIsNearest(x, NearestEven(d));
    }
  }

  lemma RoundingCommutesWithDoubling(x: real)
    requires x > 0.0
    ensures RoundPositive(2.0 * x) == 2.0 * RoundPositive(x)
  {
    if x >= TWO_52 { assert (2.0 * x) / 2.0 == x; }
  }

  /** Half the distance from the integer k down to the next double. */
  function HalfGapBelow(k: int): (g: real)
    requires 0 < k <= 9007199254740992
    ensures 0.0 < g <= 0.5
    decreases 9007199254740992 - k
  {
    if k <= 4503599627370496 then HalfGapBelow(2 * k) / 2.0 else 0.5
  }

  lemma NearestEvenReaches(x: real, k: int)
    requires k % 2 == 0
    ensures NearestEven(x) >= k <==> x >= k as real - 0.5
  {
    if x.Floor < k - 1 { assert x < (k - 1) as real; }
  }

  /** Rounding reaches a whole number exactly from half that distance below it. */
  lemma {:induction false} RoundingReaches(x: real, k: int)
    requires x > 0.0 && 0 < k <= 9007199254740992 && (k <= 4503599627370496 || k % 2 == 0)
    ensures RoundPositive(x) >= k as real <==> x >= k as real - HalfGapBelow(k)
    decreases 9007199254740992 - k
  {
    if k <= 4503599627370496 {
      RoundingCommutesWithDoubling(x);
      RoundingReaches(2.0 * x, 2 * k);
      assert (2 * k) as real == 2.0 * k as real;
    } else {
      RoundingKeepsBinade(x);
      NearestEvenReaches(x, k);
    }
  }

  lemma DoublingTimes(x: real, h: real)
    ensures Times(x, 2.0 * h) == Times(2.0 * x, h)
    ensures x > 0.0 && h >= 1.0 ==> Times(x, h) >= x
  {
  }

  /** Evaluation: a number below 2^53 is rounded after k doublings, and scaled back. */
  lemma {:induction false} RoundingAfterDoublings(x: real, k: nat, r: real)
    requires x > 0.0 && 0.0 < Times(x, PowerOf2(k) as real) < TWO_53
    requires RoundPositive(Times(x, PowerOf2(k) as real)) == Times(r, PowerOf2(k) as real)
    ensures RoundPositive(x) == r
    decreases k
  {
    if k == 0 {
    } else {
      var h := PowerOf2(k - 1) as real;
      assert PowerOf2(k) as real == 2.0 * h;
      DoublingTimes(x, h);
      DoublingTimes(r, h);
      DoublingTimes(2.0 * x, h);
      RoundingAfterDoublings(2.0 * x, k - 1, 2.0 * r);
    }
  }

  lemma DoubleMonotone(x: real, y: real)
    requires 0.0 <= x <= y
    ensures 0.0 <= Double(x) <= Double(y)
  {
    if x > 0.0 {
      RoundingMonotone(x, y);
      RoundingError(x);
    } else if y > 0.0 {
      RoundingError(y);
    }
  }
}
