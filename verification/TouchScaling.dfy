// Scaling of a touch coordinate from a device's native range to the fixed range of
// the virtual touch devices, computed in doubles.
module TouchScaling {
  import opened DoubleArithmetic
  import opened PowersOfTwo

  const ABS_X_MAX: int := 16000
  const ABS_Y_MAX: int := 9000

  /** The factor from the native range to the virtual one; 0 for an empty range. */
  function ScaleFactor(max: int, range: int): real {
    var native := Double(range as real);
    if native > 0.0 then Divide(Double(max as real), native) else 0.0
  }

  /** What a raw axis value becomes: val - minimum, times the factor, truncated. */
  function Scale(max: int, minimum: int, maximum: int, val: int): int {
    Truncate(Multiply(Double((val - minimum) as real), ScaleFactor(max, maximum - minimum)))
  }

  // The ranges of the theorems: a signed 32-bit native range, and any virtual
  // maximum of up to 20 bits (the build may override 16000 and 9000).
  ghost predicate Supported(max: int, range: int) {
    0 < max <= 0x10_0000 && 0 < range <= 0x7FFF_FFFF
  }

  // ---- Real arithmetic ----

  lemma TimesKeepsOrder(a: real, b: real, n: real)
    requires a <= b && n >= 0.0
    ensures Times(a, n) <= Times(b, n)
  {
  }

  lemma LessFromTimes(a: real, b: real, n: real)
    requires Times(a, n) < Times(b, n) && n > 0.0
    ensures a < b
  {
    if a >= b { TimesKeepsOrder(b, a, n); }
  }

  lemma SameFromTimes(a: real, b: real, n: real)
    requires n > 0.0 && Times(a, n) == Times(b, n)
    ensures a == b
  {
    assert (a - b) * n == 0.0;
  }

  lemma TimesIsAssociative(a: real, b: real, c: real)
    ensures Times(Times(a, b), c) == Times(Times(a, c), b)
    ensures Times(Times(a, b), c) == Times(Times(b, c), a)
  {
  }

  lemma TimesDistributes(a: real, b: real, n: real)
    ensures Times(a - b, n) == Times(a, n) - Times(b, n)
  {
  }

  lemma WholeTimes(k: int, n: int)
    ensures Times(k as real, n as real) == (k * n) as real
  {
  }

  lemma OverTimes(m: real, n: real)
    requires m > 0.0 && n > 0.0
    ensures Over(m, n) > 0.0 && Times(Over(m, n), n) == m
  {
    if Over(m, n) <= 0.0 { TimesKeepsOrder(Over(m, n), 0.0, n); }
  }

  // x approximates y with relative error at most 2^-53.
  ghost predicate Near(x: real, y: real) {
    -y <= (x - y) * 9007199254740992.0 <= y
  }

  lemma NearTimes(x: real, y: real, w: real)
    requires Near(x, y) && w >= 0.0
    ensures Near(Times(x, w), Times(y, w))
  {
    var d := (x - y) * 9007199254740992.0;
    TimesKeepsOrder(-y, d, w);
    TimesKeepsOrder(d, y, w);
    assert d * w == (x * w - y * w) * 9007199254740992.0;
  }

  lemma SmallError(err: real, n: real)
    requires -3145728.0 <= err * 9007199254740992.0 <= 3145728.0 && 0.0 < n <= 2147483647.0
    ensures -1.0 < Times(err, n) < 1.0
  {
    var b := 3145728.0 / 9007199254740992.0;
    TimesKeepsOrder(-b, err, n);
    TimesKeepsOrder(err, b, n);
  }

  // ---- Error of the two rounded operations ----

  lemma FactorError(max: int, range: int) returns (e: real, q: real)
    requires Supported(max, range)
    ensures e == Over(max as real, range as real) && e > 0.0
    ensures Times(e, range as real) == max as real
    ensures q == ScaleFactor(max, range) && q > 0.0 && Near(q, e)
  {
    IntegersAreExact(max);
    IntegersAreExact(range);
    OverTimes(max as real, range as real);
    e := Over(max as real, range as real);
    q := ScaleFactor(max, range);
    RoundingError(e);
  }

  /** The product of the whole number v and a factor, rounded. */
  lemma ProductRounding(v: int, q: real) returns (w: real, p: real)
    requires 0 <= v <= 0x7FFF_FFFF && q > 0.0
    ensures w == v as real == Double(w) && p == Multiply(w, q) && p >= 0.0
    ensures Near(p, Times(q, w))
  {
    IntegersAreExact(v);
    w, p := v as real, Multiply(v as real, q);
    assert Times(q, w) == Times(w, q);
    TimesKeepsOrder(0.0, w, q);
    if Times(w, q) > 0.0 {
      RoundingError(Times(w, q));
    }
  }

  lemma TwoRoundings(m: real, n: real, w: real, e: real, q: real, p: real)
    requires 0.0 < m <= 1048576.0 && 0.0 <= w <= n <= 2147483647.0 && 0.0 < n
    requires Times(e, n) == m && 0.0 < e && Near(q, e) && Near(p, Times(q, w))
    ensures Times(m, w) - 1.0 < Times(p, n) < Times(m, w) + 1.0
  {
    var wq, we := Times(q, w), Times(e, w);
    NearTimes(q, e, w);
    assert we <= m by {
      TimesKeepsOrder(w, n, e);
      assert Times(w, e) == Times(e, w) && Times(n, e) == Times(e, n);
    }
    SmallError(p - we, n);
    TimesDistributes(p, we, n);
    TimesIsAssociative(e, w, n);
  }

  /** The scaled double, before truncation, is within 1/range of the exact quotient. */
  lemma ProductError(max: int, range: int, v: int) returns (p: real)
    requires Supported(max, range) && 0 <= v <= range
    ensures p == Multiply(Double(v as real), ScaleFactor(max, range)) && p >= 0.0
    ensures (v * max) as real - 1.0 < Times(p, range as real) < (v * max) as real + 1.0
  {
    var e, q := FactorError(max, range);
    var w, p' := ProductRounding(v, q);
    p := p';
    TwoRoundings(max as real, range as real, w, e, q, p);
    WholeTimes(max, v);
  }

  lemma FloorFromProduct(p: real, n: int, t: int)
    requires n > 0 && t >= 0 && p >= 0.0
    requires t as real - 1.0 < Times(p, n as real) < t as real + 1.0
    ensures p.Floor == t / n || (t % n == 0 && p.Floor == t / n - 1)
  {
    var k, r := t / n, t % n;
    var low := if r > 0 then k else k - 1;
    assert (k + 1) * n >= t + 1 && low * n <= t - 1;
    WholeTimes(k + 1, n);
    LessFromTimes(p, (k + 1) as real, n as real);
    WholeTimes(low, n);
    LessFromTimes(low as real, p, n as real);
  }

  lemma QuotientBound(v: int, n: int, max: int)
    requires 0 <= v <= n && 0 < n && 0 <= max
    ensures 0 <= (v * max) / n <= max
  {
    var k := (v * max) / n;
    assert v * max <= n * max;
    assert k * n <= n * max;
    assert k > max ==> k * n >= (max + 1) * n;
  }

  lemma ExactDivision(t: int, n: int)
    requires n > 0 && t % n == 0
    ensures (t / n) * n == t
  {
  }

  // ---- Theorems ----

  /** Despite two roundings the result is the exact floor of (val-min)*max/(maximum-minimum),
      except that it may be one less when that division leaves no remainder; and it
      always fits the range the virtual device was configured with. */
  lemma ScaleIsFloor(max: int, minimum: int, maximum: int, val: int)
    requires Supported(max, maximum - minimum) && minimum <= val <= maximum
    ensures var t := (val - minimum) * max; var n := maximum - minimum;
            var r := Scale(max, minimum, maximum, val);
            && (r == t / n || (t % n == 0 && r == t / n - 1))
            && 0 <= r <= max
  {
    var n, v := maximum - minimum, val - minimum;
    var p := ProductError(max, n, v);
    FloorFromProduct(p, n, v * max);
    QuotientBound(v, n, max);
  }

  /** Order of touches is kept: scaling is monotone in the raw value. */
  lemma ScaleIsMonotone(max: int, minimum: int, maximum: int, a: int, b: int)
    requires Supported(max, maximum - minimum) && minimum <= a <= b <= maximum
    ensures Scale(max, minimum, maximum, a) <= Scale(max, minimum, maximum, b)
  {
    var e, q := FactorError(max, maximum - minimum);
    var v, p := ProductRounding(a - minimum, q);
    var w, r := ProductRounding(b - minimum, q);
    TimesKeepsOrder(0.0, v, q);
    TimesKeepsOrder(v, w, q);
    DoubleMonotone(Times(v, q), Times(w, q));
  }

  /** When the exception occurs: the exact floor is met unless the division leaves no
      remainder and the position times the rounded factor stays more than half a
      double's distance below the quotient. */
  lemma ScaleIsExactIff(max: int, minimum: int, maximum: int, val: int)
    requires Supported(max, maximum - minimum) && minimum <= val <= maximum
    ensures var n, v := maximum - minimum, val - minimum;
            var k := (v * max) / n;
            && 0 <= k <= max
            && (Scale(max, minimum, maximum, val) == k
                <==> ((v * max) % n != 0 || k == 0
                      || Times(v as real, ScaleFactor(max, n)) >= k as real - HalfGapBelow(k)))
  {
    var n, v := maximum - minimum, val - minimum;
    var k := (v * max) / n;
    ScaleIsFloor(max, minimum, maximum, val);
    QuotientBound(v, n, max);
    if k > 0 {
      var e, q := FactorError(max, n);
      var w, p := ProductRounding(v, q);
      ProductReaches(w, q, k);
    }
  }

  lemma ProductReaches(w: real, q: real, k: int)
    requires w >= 0.0 && q > 0.0 && 0 < k <= 0x10_0000
    ensures Multiply(w, q) >= k as real <==> Times(w, q) >= k as real - HalfGapBelow(k)
  {
    TimesKeepsOrder(0.0, w, q);
    if Times(w, q) > 0.0 { RoundingReaches(Times(w, q), k); }
  }

  /** When the factor was not rounded down, there is no exception: the exact floor. */
  lemma ScaleIsExactUnlessRoundedDown(max: int, minimum: int, maximum: int, val: int)
    requires Supported(max, maximum - minimum) && minimum <= val <= maximum
    requires ScaleFactor(max, maximum - minimum) >= Over(max as real, (maximum - minimum) as real)
    ensures Scale(max, minimum, maximum, val) == ((val - minimum) * max) / (maximum - minimum)
  {
    var n, v := maximum - minimum, val - minimum;
    ScaleIsExactIff(max, minimum, maximum, val);
    if (v * max) % n == 0 {
      ExactQuotientReached(max, n, v, (v * max) / n);
    }
  }

  lemma ExactQuotientReached(max: int, n: int, v: int, k: int)
    requires Supported(max, n) && 0 <= v <= n
    requires k == (v * max) / n && (v * max) % n == 0
    requires ScaleFactor(max, n) >= Over(max as real, n as real)
    ensures Times(v as real, ScaleFactor(max, n)) >= k as real
  {
    var e, q := FactorError(max, n);
    var w := v as real;
    ExactDivision(v * max, n);
    assert Times(e, w) == k as real by {
      WholeTimes(k, n);
      WholeTimes(max, v);
      TimesIsAssociative(e, w, n as real);
      SameFromTimes(Times(e, w), k as real, n as real);
    }
    TimesKeepsOrder(e, q, w);
    assert Times(q, w) == Times(w, q);
  }

  /** An axis without a range gives 0. */
  lemma ScaleOfEmptyRange(max: int, minimum: int, maximum: int, val: int)
    requires maximum <= minimum
    ensures Scale(max, minimum, maximum, val) == 0
  {
    var n := (maximum - minimum) as real;
    if n < 0.0 { RoundingError(-n); }
    assert ScaleFactor(max, maximum - minimum) == 0.0;
    assert Times(Double((val - minimum) as real), 0.0) == 0.0;
  }

  /** Below the minimum the scale goes on symmetrically. */
  lemma ScaleIsOdd(max: int, minimum: int, maximum: int, v: int)
    ensures Scale(max, minimum, maximum, minimum - v) == -Scale(max, minimum, maximum, minimum + v)
  {
    var q, x := ScaleFactor(max, maximum - minimum), v as real;
    assert Double(-x) == -Double(x);
    assert Times(-Double(x), q) == -Times(Double(x), q);
    assert (minimum - v - minimum) as real == -x && (minimum + v - minimum) as real == x;
  }

  // The doubles in the evaluation below: 16000/19, and 19 times that.
  const Q19: real := 7407236229227789.0 / 8796093022208.0
  const P19: real := 8796093022207999.0 / 549755813888.0

  lemma FactorFor19()
    ensures ScaleFactor(ABS_X_MAX, 19) == Q19
  {
    IntegersAreExact(16000);
    IntegersAreExact(19);
    var x := Over(16000.0, 19.0);
    SomePowers();
    var y := Times(x, 8796093022208.0);
    assert y == 16000.0 * 8796093022208.0 / 19.0;
    assert NearestEven(y) == 7407236229227789;
    RoundingAfterDoublings(x, 43, Q19);
  }

  lemma ProductFor19()
    ensures Multiply(19.0, Q19) == P19
  {
    var x := Times(19.0, Q19);
    SomePowers();
    var y := Times(x, 549755813888.0);
    assert NearestEven(y) == 8796093022207999;
    RoundingAfterDoublings(x, 39, P19);
  }

  /** The exception is real: with a native range of 0..19, the far edge of the x axis
      becomes 15999 and not 16000. */
  lemma FarEdgeMayBeMissed()
    ensures Scale(ABS_X_MAX, 0, 19, 19) == 15999
  {
    FactorFor19();
    IntegersAreExact(19);
    ProductFor19();
    assert P19.Floor == 15999;
  }
}
