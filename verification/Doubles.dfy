/** Double-precision numbers as exact values, and rounding to nearest. */
module Doubles {
  import opened Arithmetic

  const TWO_52 := 0x10_0000_0000_0000
  const TWO_53 := 0x20_0000_0000_0000

  // ---------------------------------------------------------------------------
  // The numbers
  // ---------------------------------------------------------------------------

  function Pow2(n: nat): (p: nat)
    ensures p >= 1
  {
    if n == 0 then 1 else 2 * Pow2(n - 1)
  }

  lemma {:induction false} Pow2Add(a: nat, b: nat)
    ensures Pow2(a + b) == Pow2(a) * Pow2(b)
  {
    if a > 0 {
      Pow2Add(a - 1, b);
      assert a + b - 1 == a - 1 + b;
      MulAssoc(2, Pow2(a - 1), Pow2(b));
    }
  }

  lemma MulAssoc(x: int, y: int, z: int)
    ensures x * y * z == x * (y * z)
  {
  }

  lemma {:induction false} PowerAbove(l: int) returns (k: nat)
    requires l >= 1
    ensures l <= Pow2(k) < 2 * l
  {
    if l == 1 {
      k := 0;
    } else {
      k := PowerAbove(l - 1);
      if Pow2(k) < l {
        k := k + 1;
      }
    }
  }

  /** `m` times the `e`-th power of two. */
  function Scale(m: int, e: int): real {
    if e >= 0 then (m * Pow2(e)) as real else m as real / Pow2(-e) as real
  }

  /**
   * The doubles: a 53-bit significand times a power of two. The exponent limits of the format are left out: a quotient
   * of 32-bit integers stays far inside them.
   */
  ghost predicate IsDouble(x: real) {
    exists m: int, e: int :: -TWO_53 < m < TWO_53 && x == Scale(m, e)
  }

  function Distance(x: real, y: real): (d: real)
    ensures d >= 0.0
  {
    if x < y then y - x else x - y
  }

  /** Rounding to nearest as IEEE 754 defines it (section 4.3.1); how ties are broken does not matter here. */
  ghost predicate IsNearest(d: real, x: real) {
    IsDouble(d) && forall e: real | IsDouble(e) :: Distance(d, x) <= Distance(e, x)
  }

  lemma IntegerIsDouble(n: int)
    requires -TWO_53 < n < TWO_53
    ensures IsDouble(n as real)
  {
    assert Scale(n, 0) == n as real;
  }

  lemma NegateIsDouble(x: real)
    requires IsDouble(x)
    ensures IsDouble(-x)
  {
    var m: int, e: int :| -TWO_53 < m < TWO_53 && x == Scale(m, e);
    NegateScale(m, e);
  }

  lemma NegateScale(m: int, e: int)
    ensures Scale(-m, e) == -Scale(m, e)
  {
    hide Pow2;
    if e < 0 {
      NegateDividend(m as real, Pow2(-e) as real);
    } else {
      assert -m * Pow2(e) == -(m * Pow2(e));
    }
  }

  lemma NegateDividend(x: real, p: real)
    requires p > 0.0
    ensures -x / p == -(x / p)
  {
    DivMul(x, p);
    DivMul(-x, p);
    MulOrder(-x / p, -(x / p), p);
    MulOrder(-(x / p), -x / p, p);
  }

  /** Rounding to nearest is symmetric. */
  lemma NearestNegate(q: real, d: real)
    requires IsNearest(d, q)
    ensures IsNearest(-d, -q)
  {
    hide IsDouble;
    NegateIsDouble(d);
    forall e: real | IsDouble(e)
      ensures Distance(-d, -q) <= Distance(e, -q)
    {
      NegateIsDouble(e);
      assert Distance(d, q) <= Distance(-e, q);
    }
  }

  lemma DyadicIsDouble(m: int, k: nat)
    requires -TWO_53 < m < TWO_53
    ensures IsDouble(m as real / Pow2(k) as real)
  {
    if k == 0 {
      IntegerIsDouble(m);
    } else {
      var e: int := k;
      assert Scale(m, -e) == m as real / Pow2(k) as real;
    }
  }

  function Ceiling(x: real): int {
    -(-x).Floor
  }

  lemma CeilingUnique(x: real, n: int)
    requires (n - 1) as real < x <= n as real
    ensures Ceiling(x) == n
  {
  }

  // ---------------------------------------------------------------------------
  // A nearest double always exists
  // ---------------------------------------------------------------------------

  lemma {:induction false} Normalise(q: real, k0: nat) returns (k: nat)
    requires 0.0 < q * Pow2(k0) as real < TWO_53 as real
    ensures TWO_52 as real <= q * Pow2(k) as real < TWO_53 as real
    decreases (TWO_52 as real / (q * Pow2(k0) as real)).Floor
  {
    hide Pow2;
    var y := q * Pow2(k0) as real;
    if y >= TWO_52 as real {
      k := k0;
    } else {
      DoubleUp(q, k0);
      Halve(TWO_52 as real, y);
      k := Normalise(q, k0 + 1);
    }
  }

  lemma DoubleUp(q: real, k: nat)
    ensures q * Pow2(k + 1) as real == 2.0 * (q * Pow2(k) as real)
  {
    assert Pow2(k + 1) as real == 2.0 * Pow2(k) as real;
    DoubleFactor(q, Pow2(k) as real);
  }

  lemma DoubleFactor(q: real, p: real)
    ensures q * (2.0 * p) == 2.0 * (q * p)
  {
  }

  lemma Halve(x: real, y: real)
    requires 0.0 < y < x
    ensures 0 <= (x / (2.0 * y)).Floor < (x / y).Floor
  {
    DivMul(x, y);
    MulOrder(1.0, x / y, y);
    DivMul(x, 2.0 * y);
    var h := x / (2.0 * y);
    assert h * (2.0 * y) == (2.0 * h) * y;
    MulOrder(2.0 * h, x / y, y);
    MulOrder(x / y, 2.0 * h, y);
  }

  predicate Whole(z: real) {
    z == z.Floor as real
  }

  lemma WholeProduct(z: real, x: int, y: int)
    requires z == x as real * y as real
    ensures Whole(z)
  {
    CastProduct(x, y);
  }

  /** Scaling by `2^k` turns a double into an integer, or leaves it below `2^52`. */
  lemma ScaledDouble(m: int, e: int, k: nat, z: real)
    requires -TWO_53 < m < TWO_53 && z == Scale(m, e) * Pow2(k) as real
    ensures Whole(z) || -(TWO_52 as real) < z < TWO_52 as real
  {
    hide Pow2, Whole;
    if e >= 0 {
      WholeProduct(z, m * Pow2(e), Pow2(k));
    } else if -e <= k {
      CoarserDouble(m, e, k, z);
    } else {
      FinerDouble(m, e, k, z);
    }
  }

  lemma CoarserDouble(m: int, e: int, k: nat, z: real)
    requires e < 0 <= k + e && z == m as real / Pow2(-e) as real * Pow2(k) as real
    ensures Whole(z)
  {
    hide Pow2, Whole;
    var a, b := Pow2(-e), Pow2(k + e);
    Pow2Add(-e, k + e);
    assert -e + (k + e) == k;
    CastProduct(a, b);
    CancelFactor(m as real, a as real, b as real, Pow2(k) as real, z);
    WholeProduct(z, m, b);
  }

  lemma FinerDouble(m: int, e: int, k: nat, z: real)
    requires -TWO_53 < m < TWO_53 && k + e < 0 && z == m as real / Pow2(-e) as real * Pow2(k) as real
    ensures -(TWO_52 as real) < z < TWO_52 as real
  {
    hide Pow2;
    var x := Pow2(-e - k);
    Pow2Add(k, -e - k);
    assert k + (-e - k) == -e;
    CastProduct(Pow2(k), x);
    AtLeastTwo(-e - k);
    CancelDivisor(m as real, Pow2(k) as real, x as real, Pow2(-e) as real, z);
  }

  lemma AtLeastTwo(n: int)
    requires n >= 1
    ensures Pow2(n) >= 2
  {
  }

  lemma CancelFactor(m: real, a: real, b: real, p: real, z: real)
    requires a > 0.0 && p == a * b && z == m / a * p
    ensures z == m * b
  {
    DivMul(m, a);
    MulAssocReal(m / a, a, b);
  }

  lemma CancelDivisor(m: real, p: real, x: real, a: real, z: real)
    requires p > 0.0 && x >= 2.0 && -(TWO_53 as real) < m < TWO_53 as real && a == p * x && a > 0.0 && z == m / a * p
    ensures -(TWO_52 as real) < z < TWO_52 as real
  {
    DivMul(m, a);
    MulAssocReal(m / a, p, x);
    assert z * x == m;
    MulOrder(z, TWO_52 as real, x);
    MulOrder(-(TWO_52 as real), z, x);
  }

  lemma MulAssocReal(x: real, y: real, z: real)
    ensures x * y * z == x * (y * z)
  {
  }

  lemma NearestInteger(y: real, m: int, z: int)
    requires m as real <= y + 0.5 < m as real + 1.0
    ensures Distance(m as real, y) <= Distance(z as real, y)
  {
    if z < m {
      assert z as real <= m as real - 1.0;
    } else if z > m {
      assert z as real >= m as real + 1.0;
    }
  }

  lemma ScaledCloser(p: real, x: real, y: real, q: real, xs: real, ys: real, qs: real)
    requires p > 0.0 && xs == x * p && ys == y * p && qs == q * p
    requires Distance(xs, qs) <= Distance(ys, qs)
    ensures Distance(x, q) <= Distance(y, q)
  {
    hide Distance;
    DistanceScales(x, q, p, xs, qs);
    DistanceScales(y, q, p, ys, qs);
    MulOrder(Distance(y, q), Distance(x, q), p);
  }

  lemma DistanceScales(x: real, y: real, p: real, xs: real, ys: real)
    requires p > 0.0 && xs == x * p && ys == y * p
    ensures Distance(xs, ys) == Distance(x, y) * p
  {
    MulOrder(x, y, p);
    var d := Distance(x, y);
    assert d * p == if x < y then ys - xs else xs - ys by {
      if x < y {
        assert (y - x) * p == y * p - x * p;
      } else {
        assert (x - y) * p == x * p - y * p;
      }
    }
  }

  /** Every positive number below 2^53 has a nearest double, so the division below always has a result. */
  lemma NearestExists(q: real)
    requires 0.0 < q < TWO_53 as real
    ensures exists d: real :: IsNearest(d, q)
  {
    hide Scale, Pow2, IsDouble, Distance, Whole;
    PowZero();
    var k := Normalise(q, 0);
    var p := Pow2(k) as real;
    var y := q * p;
    var m := (y + 0.5).Floor;
    var d := m as real / p;
    DivMul(m as real, p);
    RoundedIsDouble(m, k);
    forall e: real | IsDouble(e)
      ensures Distance(d, q) <= Distance(e, q)
    {
      RoundedIsNearest(q, k, m, d, e);
    }
    assert IsNearest(d, q);
  }

  lemma PowZero()
    ensures Pow2(0) == 1
  {
  }

  lemma RoundedIsNearest(q: real, k: nat, m: int, d: real, e: real)
    requires TWO_52 as real <= q * Pow2(k) as real && m == (q * Pow2(k) as real + 0.5).Floor
    requires d * Pow2(k) as real == m as real && IsDouble(e)
    ensures Distance(d, q) <= Distance(e, q)
  {
    hide Scale, Pow2, Distance, Whole;
    var p := Pow2(k) as real;
    var z := e * p;
    var n: int, j: int :| -TWO_53 < n < TWO_53 && e == Scale(n, j);
    ScaledDouble(n, j, k, z);
    ScaledNearest(q * p, m, z);
    ScaledCloser(p, d, e, q, m as real, z, q * p);
  }

  lemma ScaledNearest(y: real, m: int, z: real)
    requires TWO_52 as real <= y && m == (y + 0.5).Floor
    requires Whole(z) || -(TWO_52 as real) < z < TWO_52 as real
    ensures Distance(m as real, y) <= Distance(z, y)
  {
    if Whole(z) {
      NearestInteger(y, m, z.Floor);
    } else {
      NearestInteger(y, m, TWO_52);
    }
  }

  lemma RoundedIsDouble(m: int, k: nat)
    requires 0 <= m <= TWO_53
    ensures IsDouble(m as real / Pow2(k) as real)
  {
    if m < TWO_53 {
      DyadicIsDouble(m, k);
    } else if k == 0 {
      assert Scale(TWO_52, 1) == m as real / Pow2(k) as real;
    } else {
      DyadicIsDouble(TWO_52, k - 1);
      HalfBoth(TWO_52 as real, Pow2(k - 1) as real);
    }
  }

  lemma HalfBoth(x: real, p: real)
    requires p > 0.0
    ensures x / p == 2.0 * x / (2.0 * p)
  {
    DivMul(x, p);
    DivMul(2.0 * x, 2.0 * p);
    MulOrder(x / p, 2.0 * x / (2.0 * p), 2.0 * p);
    MulOrder(2.0 * x / (2.0 * p), x / p, 2.0 * p);
  }

  // ---------------------------------------------------------------------------
  // Quotients next to an integer
  // ---------------------------------------------------------------------------

  lemma MulGrows(x: nat, l: int)
    requires l >= 1
    ensures x <= x * l
  {
  }

  lemma MulAtMost(x: nat, y: int, z: int)
    requires y <= z
    ensures x * y <= x * z
  {
  }

  lemma QuotientAtMost(t: real, l: real, n: real)
    requires l > 0.0 && t <= n * l
    ensures t / l <= n
  {
    DivMul(t, l);
    MulOrder(n, t / l, l);
  }

  lemma QuotientAbove(t: real, l: real, n: real)
    requires l > 0.0 && n * l + 1.0 <= t
    ensures n + 1.0 / l <= t / l
  {
    DivMul(t, l);
    DivMul(1.0, l);
    assert (n + 1.0 / l) * l == n * l + 1.0 / l * l;
    MulOrder(t / l, n + 1.0 / l, l);
  }

  lemma Reciprocal(l: int, p: int)
    requires 1 <= l <= p
    ensures 0.0 < 1.0 / p as real <= 1.0 / l as real
  {
    DivMul(1.0, p as real);
    DivMul(1.0, l as real);
    MulOrder(0.0, 1.0 / p as real, p as real);
    var g := 1.0 / l as real;
    MulOrder(0.0, g, l as real);
    assert g * p as real == g * l as real + g * (p - l) as real;
    MulOrder(g, 1.0 / p as real, p as real);
  }

  /** A nearest double stays in the unit interval above `n - 1`, if some double lies between `n - 1` and `q`. */
  lemma NearestBetween(n: int, g: real, q: real, d: real)
    requires g > 0.0 && (n - 1) as real + g <= q <= n as real
    requires IsDouble(n as real) && IsDouble((n - 1) as real) && IsDouble((n - 1) as real + g)
    requires IsNearest(d, q)
    ensures (n - 1) as real < d <= n as real
  {
    hide IsDouble;
    assert Distance(d, q) <= Distance(n as real, q);
    assert Distance(d, q) <= Distance((n - 1) as real + g, q);
  }

  lemma BorrowFraction(n: int, p: int)
    requires p >= 1
    ensures (n * p - 1) as real / p as real == n as real - 1.0 / p as real
  {
    var x, y := (n * p - 1) as real / p as real, n as real - 1.0 / p as real;
    DivMul((n * p - 1) as real, p as real);
    DivMul(1.0, p as real);
    assert y * p as real == (n * p) as real - 1.0;
    MulOrder(x, y, p as real);
    MulOrder(y, x, p as real);
  }

  lemma SplitFraction(n: int, p: int)
    requires p >= 1
    ensures (n * p + 1) as real / p as real == n as real + 1.0 / p as real
  {
    var x, y := (n * p + 1) as real / p as real, n as real + 1.0 / p as real;
    DivMul((n * p + 1) as real, p as real);
    DivMul(1.0, p as real);
    assert y * p as real == (n * p) as real + 1.0;
    MulOrder(x, y, p as real);
    MulOrder(y, x, p as real);
  }

  lemma QuotientAtLeast(t: real, l: real, n: real)
    requires l > 0.0 && n * l <= t
    ensures n <= t / l
  {
    DivMul(t, l);
    MulOrder(t / l, n, l);
  }

  lemma QuotientBelow(t: real, l: real, n: real)
    requires l > 0.0 && t <= n * l - 1.0
    ensures t / l <= n - 1.0 / l
  {
    DivMul(t, l);
    DivMul(1.0, l);
    assert (n - 1.0 / l) * l == n * l - 1.0 / l * l;
    MulOrder(n - 1.0 / l, t / l, l);
  }

  lemma QuotientShrinks(t: real, l: real, m: real)
    requires t >= 0.0 && 0.0 < l <= m
    ensures t / m <= t / l
  {
    DivMul(t, l);
    DivMul(t, m);
    var x := t / l;
    MulOrder(x, 0.0, l);
    assert x * m == x * l + x * (m - l);
    assert x * (m - l) >= 0.0;
    MulOrder(x, t / m, m);
  }

  /** A nearest double stays in the unit interval from `n` on, if some double lies between `q` and `n + 1`. */
  lemma NearestBelow(n: int, g: real, q: real, d: real)
    requires g > 0.0 && n as real <= q <= (n + 1) as real - g
    requires IsDouble(n as real) && IsDouble((n + 1) as real - g)
    requires IsNearest(d, q)
    ensures n as real <= d < (n + 1) as real
  {
    hide IsDouble;
    assert Distance(d, q) <= Distance(n as real, q);
    assert Distance(d, q) <= Distance((n + 1) as real - g, q);
  }
}
