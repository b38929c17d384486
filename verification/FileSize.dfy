/** Human-readable file sizes: which unit is chosen and what is printed, over exact sizes. */
module FileSize {
  import opened Arithmetic
  import opened FixedPoint

  /** The two thresholds: powers of 1000, or of 1024. */
  function Threshold(si: bool): int {
    if si then 1000 else 1024
  }

  /** Both lists of units have eight entries. */
  const LAST_UNIT := 7

  function UnitName(si: bool, u: nat): string
    requires u <= LAST_UNIT
  {
    (if si then ["kB", "MB", "GB", "TB", "PB", "EB", "ZB", "YB"]
     else ["KiB", "MiB", "GiB", "TiB", "PiB", "EiB", "ZiB", "YiB"])[u]
  }

  /**
   * What is shown: a text, unless the printing is left to `Number`, as for a count of bytes that is not whole, shown
   * with the unit `B`, and for a value from 10^21 on; `toFixed` throws for more than 100 decimals.
   */
  datatype Size = Fraction(count: real) | Text(text: string) | Huge(value: real, unit: string) | RangeError

  predicate Whole(x: real) {
    x.Floor as real == x
  }

  /** A count of bytes below the threshold. A whole number is printed as it is with no decimals. */
  function ShownCount(bytes: real): Size {
    if Whole(bytes) then Size.Text(ToFixed(bytes, 0).Text() + " B") else Fraction(bytes)
  }

  /** The digits of a whole count are its own. */
  lemma CountPrinted(bytes: real)
    requires Whole(bytes)
    ensures var printed := ToFixed(bytes, 0);
            && printed.Ok() && printed.fraction == "" && (printed.negative <==> bytes < 0.0)
            && printed.Size() == Abs(bytes)
            && (printed.whole[0] == '0' ==> printed.whole == "0")
  {
    hide ToFixed, Digits, IsNumeral, ValueOf;
    ToFixedMeaning(bytes, 0);
    assert Power(10, 0) == 1;
    RoundWhole(bytes);
  }

  /** So the text of a whole count is its decimal digits, with a minus sign if it is negative, a blank and `B`. */
  lemma CountReadsBack(bytes: real)
    requires Whole(bytes)
    ensures ShownCount(bytes).Text?
    ensures exists number: string ::
              && ShownCount(bytes).text == number + " B" && number != "" && '.' !in number
              && (number[0] == '-' <==> bytes < 0.0)
              && var size := if number[0] == '-' then number[1..] else number;
                 Readable(size) && Read(size) == Abs(bytes)
  {
    hide ToFixed, Readable, Read, IsNumeral, Whole;
    CountPrinted(bytes);
    var printed := ToFixed(bytes, 0);
    TextReadsBack(printed);
    NumeralConcat(printed.whole, printed.fraction);
    NumeralPlain(printed.whole);
    assert printed.Text() == (if printed.negative then "-" else "") + printed.whole;
    assert ShownCount(bytes).text == printed.Text() + " B";
  }

  lemma RoundWhole(x: real)
    requires Whole(x)
    ensures Rounded(x, 1) == Abs(x)
  {
    hide Round;
    var n := if x < 0.0 then -x.Floor else x.Floor;
    CastWhole(x, n);
    RoundCast(n);
    assert Abs(x) * 1 as real == Abs(x);
  }

  lemma CastWhole(x: real, n: int)
    requires Whole(x) && n == if x < 0.0 then -x.Floor else x.Floor
    ensures Abs(x) == n as real
  {
  }

  lemma RoundCast(n: int)
    ensures Round(n as real) == n
  {
  }

  /** Units count in powers of 10^3 or of 2^10, and their names are the prefixes of the one or the other standard. */
  lemma UnitsAre(si: bool, u: nat)
    requires u <= LAST_UNIT
    ensures Power(Threshold(si), u + 1) == if si then Power(10, 3 * (u + 1)) else Power(2, 10 * (u + 1))
    ensures UnitName(si, u) == if si then ["kMGTPEZY"[u]] + "B" else ["KMGTPEZY"[u]] + "iB"
  {
    hide Power, UnitName;
    PowerOfPower(10, 3, u + 1);
    PowerOfPower(2, 10, u + 1);
    SmallPowers();
    UnitNames(si, u);
  }

  lemma UnitNames(si: bool, u: nat)
    requires u <= LAST_UNIT
    ensures UnitName(si, u) == if si then ["kMGTPEZY"[u]] + "B" else ["KMGTPEZY"[u]] + "iB"
  {
    var names := if si then "kMGTPEZY" else "KMGTPEZY";
    assert names[1] == 'M' && names[2] == 'G' && names[3] == 'T' && names[4] == 'P' && names[5] == 'E';
    assert names[6] == 'Z' && names[7] == 'Y';
  }

  lemma SmallPowers()
    ensures Power(10, 3) == 1000 && Power(2, 10) == 1024
  {
    assert Power(10, 1) == 10 && Power(10, 2) == 100;
    assert Power(2, 1) == 2 && Power(2, 2) == 4 && Power(2, 3) == 8 && Power(2, 4) == 16 && Power(2, 5) == 32;
    assert Power(2, 6) == 64 && Power(2, 7) == 128 && Power(2, 8) == 256 && Power(2, 9) == 512;
  }

  lemma {:induction false} PowerSum(b: int, m: nat, n: nat)
    requires b >= 1
    ensures Power(b, m + n) == Power(b, m) * Power(b, n)
    decreases m
  {
    hide Power;
    if m == 0 {
      NoPower(b);
    } else {
      PowerSum(b, m - 1, n);
      OnePower(b, m - 1);
      OnePower(b, m - 1 + n);
      Regroup(b, Power(b, m - 1), Power(b, n));
    }
  }

  lemma NoPower(b: int)
    requires b >= 1
    ensures Power(b, 0) == 1
  {
  }

  lemma OnePower(b: int, n: nat)
    requires b >= 1
    ensures Power(b, n + 1) == b * Power(b, n)
  {
  }

  lemma Regroup(x: int, y: int, z: int)
    ensures x * (y * z) == x * y * z
  {
  }

  lemma {:induction false} PowerOfPower(b: int, m: nat, n: nat)
    requires b >= 1
    ensures Power(Power(b, m), n) == Power(b, m * n)
    decreases n
  {
    if n > 0 {
      PowerOfPower(b, m, n - 1);
      assert m * n == m + m * (n - 1);
      PowerSum(b, m, m * (n - 1));
    }
  }

  /** The value in the unit of index `u`, as it is shown. */
  function Shown(bytes: real, si: bool, dp: nat, u: nat): Size
    requires u <= LAST_UNIT
  {
    var value := Shrunk(bytes, Threshold(si), u);
    if dp > MAX_DECIMALS then RangeError
    else if Abs(value) >= FIXED_LIMIT then Huge(value, UnitName(si, u))
    else Size.Text(ToFixed(value, dp).Text() + " " + UnitName(si, u))
  }

  /**
   * A text that is shown is a number, a blank and the name of a unit, and the number reads back as the rounded value,
   * with a minus sign in front just when it is negative.
   */
  lemma ShownReadsBack(bytes: real, si: bool, dp: nat, u: nat)
    requires u <= LAST_UNIT && Shown(bytes, si, dp, u).Text?
    ensures exists number: string ::
              && Shown(bytes, si, dp, u).text == number + [' '] + UnitName(si, u) && number != ""
              && (number[0] == '-' <==> Shrunk(bytes, Threshold(si), u) < 0.0)
              && var size := if number[0] == '-' then number[1..] else number;
                 Readable(size) && Read(size) == Rounded(Shrunk(bytes, Threshold(si), u), Power(10, dp))
  {
    hide Shrunk, ToFixed, Readable, Read, Rounded, Power, UnitName;
    var value := Shrunk(bytes, Threshold(si), u);
    ToFixedMeaning(value, dp);
    TextReadsBack(ToFixed(value, dp));
    var number := ToFixed(value, dp).Text();
    assert Shown(bytes, si, dp, u).text == number + [' '] + UnitName(si, u);
  }

  /** The size in the unit of index `u`. */
  function Shrunk(bytes: real, t: int, u: nat): real
    requires t >= 1
  {
    bytes / Power(t, u + 1) as real
  }

  /** The unit of index `u` is right: every smaller one rounds to the threshold or more, and `u` does not or is the last. */
  predicate IsUnit(bytes: real, t: int, r: int, u: nat)
    requires t >= 1 && r >= 1
  {
    && u <= LAST_UNIT
    && (forall k: nat | k < u :: Rounded(Shrunk(bytes, t, k), r) >= t as real)
    && (u < LAST_UNIT ==> Rounded(Shrunk(bytes, t, u), r) < t as real)
  }

  // ---------------------------------------------------------------------------
  // Shrinking and rounding
  // ---------------------------------------------------------------------------

  lemma DivTwice(x: real, a: real, b: real, c: real)
    requires a > 0.0 && b > 0.0 && c == b * a
    ensures x / a / b == x / c
  {
    var y := x / a / b;
    DivMul(x, a);
    DivMul(x / a, b);
    assert y * c == y * b * a;
    DivMul(x, c);
    MulOrder(y, x / c, c);
    MulOrder(x / c, y, c);
  }

  lemma ShrinkStep(bytes: real, t: int, u: nat)
    requires t >= 1
    ensures Shrunk(bytes, t, u) / t as real == Shrunk(bytes, t, u + 1)
  {
    var p := Power(t, u + 1);
    assert Power(t, u + 2) == t * p;
    assert (t * p) as real == t as real * p as real;
    DivTwice(bytes, p as real, t as real, Power(t, u + 2) as real);
  }

  lemma AbsDiv(x: real, p: real, y: real)
    requires p > 0.0 && y == x / p
    ensures Abs(y) * p == Abs(x)
  {
    DivMul(x, p);
    MulOrder(0.0, x / p, p);
    MulOrder(x / p, 0.0, p);
  }

  /** Rounding reaches an integer `t` half a unit of the last decimal early. */
  lemma RoundedReaches(x: real, r: int, t: int)
    requires r >= 1
    ensures Rounded(x, r) >= t as real <==> Abs(x) * r as real + 0.5 >= t as real * r as real
  {
    hide Abs;
    DivReaches(Count(x, r) as real, r as real, t as real);
    CastProduct(t, r);
    RoundReaches(Abs(x) * r as real, t * r);
  }

  lemma DivReaches(n: real, r: real, t: real)
    requires r > 0.0
    ensures n / r >= t <==> n >= t * r
  {
    DivMul(n, r);
    MulOrder(n / r, t, r);
  }

  lemma RoundReaches(y: real, m: int)
    ensures Round(y) >= m <==> y + 0.5 >= m as real
  {
  }

  // ---------------------------------------------------------------------------
  // The loop
  // ---------------------------------------------------------------------------

  /** The do-while loop. */
  method ChooseUnit(bytes: real, si: bool, dp: nat) returns (value: real, u: nat)
    ensures IsUnit(bytes, Threshold(si), Power(10, dp), u) && value == Shrunk(bytes, Threshold(si), u)
    ensures value * Power(Threshold(si), u + 1) as real == bytes
  {
    hide Rounded, Power, Shrunk;
    var thresh := Threshold(si);
    var r := Power(10, dp);
    FirstShrink(bytes, thresh);
    value, u := bytes / thresh as real, 0;
    while Rounded(value, r) >= thresh as real && u < LAST_UNIT
      invariant 0 <= u <= LAST_UNIT && value == Shrunk(bytes, thresh, u)
      invariant forall k: nat | k < u :: Rounded(Shrunk(bytes, thresh, k), r) >= thresh as real
      decreases LAST_UNIT - u
    {
      ShrinkStep(bytes, thresh, u);
      value := value / thresh as real;
      u := u + 1;
    }
    ShrunkScales(bytes, thresh, u);
  }

  /** `humanFileSize`: what is shown is the value in the one right unit. */
  method HumanFileSize(bytes: real, si: bool, dp: nat) returns (s: Size)
    ensures Abs(bytes) < Threshold(si) as real ==> s == ShownCount(bytes)
    ensures Abs(bytes) >= Threshold(si) as real ==>
              exists u: nat :: IsUnit(bytes, Threshold(si), Power(10, dp), u) && s == Shown(bytes, si, dp, u)
  {
    hide IsUnit, Shrunk, Power, ToFixed;
    if Abs(bytes) < Threshold(si) as real {
      return ShownCount(bytes);
    }
    var value, u := ChooseUnit(bytes, si, dp);
    UnitInRange(bytes, Threshold(si), Power(10, dp), u);
    if dp > MAX_DECIMALS {
      s := RangeError;
    } else if Abs(value) >= FIXED_LIMIT {
      s := Huge(value, UnitName(si, u));
    } else {
      s := Size.Text(ToFixed(value, dp).Text() + " " + UnitName(si, u));
    }
    assert s == Shown(bytes, si, dp, u);
  }

  lemma FirstShrink(bytes: real, t: int)
    requires t >= 1
    ensures bytes / t as real == Shrunk(bytes, t, 0)
  {
    assert Power(t, 1) == t * Power(t, 0);
  }

  lemma ShrunkScales(bytes: real, t: int, u: nat)
    requires t >= 1
    ensures Shrunk(bytes, t, u) * Power(t, u + 1) as real == bytes
  {
    DivMul(bytes, Power(t, u + 1) as real);
  }

  // ---------------------------------------------------------------------------
  // What the unit means
  // ---------------------------------------------------------------------------

  /** `r` times the least size that no longer fits in the unit of index `k`. */
  function Cutoff(t: int, r: int, k: nat): real
    requires t >= 1
  {
    (t as real * r as real - 0.5) * Power(t, k + 1) as real
  }

  lemma ReachesCutoff(bytes: real, t: int, r: int, k: nat)
    requires t >= 1 && r >= 1
    ensures Rounded(Shrunk(bytes, t, k), r) >= t as real <==> Abs(bytes) * r as real >= Cutoff(t, r, k)
  {
    hide Rounded, Power;
    var p := Power(t, k + 1) as real;
    var x := Shrunk(bytes, t, k);
    RoundedReaches(x, r, t);
    AbsDiv(bytes, p, x);
    assert Abs(x) * r as real * p == Abs(bytes) * r as real;
    MulOrder(Abs(x) * r as real, t as real * r as real - 0.5, p);
  }

  lemma {:induction false} CutoffGrows(t: int, r: int, j: nat, k: nat)
    requires t >= 1 && r >= 1 && j <= k
    ensures Cutoff(t, r, j) <= Cutoff(t, r, k)
    decreases k - j
  {
    hide Cutoff;
    if j < k {
      CutoffGrows(t, r, j + 1, k);
      CutoffStep(t, r, j);
    }
  }

  lemma CutoffStep(t: int, r: int, j: nat)
    requires t >= 1 && r >= 1
    ensures Cutoff(t, r, j) <= Cutoff(t, r, j + 1)
  {
    var p, q := Power(t, j + 1), Power(t, j + 2);
    assert q == t * p;
    hide Power;
    MulPositive(t, p);
    MulAtLeast(t, p);
    ProductAtLeastOne(t, r);
    MulOrder(q as real, p as real, t as real * r as real - 0.5);
  }

  lemma MulAtLeast(t: int, p: int)
    requires t >= 1 && p >= 1
    ensures t * p >= p
  {
  }

  lemma ProductAtLeastOne(t: int, r: int)
    requires t >= 1 && r >= 1
    ensures t as real * r as real >= 1.0
  {
    MulPositive(t, r);
    assert (t * r) as real == t as real * r as real;
  }

  /** The unit is at most `k` exactly when the size lies below the cut-off of `k`. */
  lemma UnitAtMost(bytes: real, t: int, r: int, u: nat, k: nat)
    requires t >= 1 && r >= 1 && IsUnit(bytes, t, r, u) && k < LAST_UNIT
    ensures u <= k <==> Abs(bytes) * r as real < Cutoff(t, r, k)
  {
    hide Rounded, Shrunk, Cutoff;
    ReachesCutoff(bytes, t, r, k);
    ReachesCutoff(bytes, t, r, u);
    if u <= k {
      CutoffGrows(t, r, u, k);
    }
  }

  /** So the unit is determined by the size, and never goes down as the size goes up. */
  lemma UnitMonotone(a: real, b: real, t: int, r: int, u: nat, v: nat)
    requires t >= 1 && r >= 1 && Abs(a) <= Abs(b) && IsUnit(a, t, r, u) && IsUnit(b, t, r, v)
    ensures u <= v
    ensures Abs(a) == Abs(b) ==> u == v
  {
    hide IsUnit, Cutoff;
    MulOrder(Abs(b), Abs(a), r as real);
    UnitInRange(a, t, r, u);
    UnitInRange(b, t, r, v);
    if v < u {
      UnitAtMost(b, t, r, v, v);
      UnitAtMost(a, t, r, u, v);
    }
    if u < v {
      UnitAtMost(a, t, r, u, u);
      UnitAtMost(b, t, r, v, u);
    }
  }

  lemma UnitInRange(bytes: real, t: int, r: int, u: nat)
    requires t >= 1 && r >= 1 && IsUnit(bytes, t, r, u)
    ensures u <= LAST_UNIT
  {
  }

  /** The rounded number is at least 1, and below the threshold unless the unit is the last. */
  lemma RoundedInRange(bytes: real, t: int, r: int, u: nat)
    requires t >= 2 && r >= 1 && Abs(bytes) >= t as real && IsUnit(bytes, t, r, u)
    ensures Rounded(Shrunk(bytes, t, u), r) >= 1.0
    ensures u < LAST_UNIT ==> Rounded(Shrunk(bytes, t, u), r) < t as real
  {
    hide Rounded, Power, Shrunk, Abs;
    var x := Shrunk(bytes, t, u);
    RoundedReaches(x, r, 1);
    if u == 0 {
      FirstShrink(bytes, t);
      AbsDiv(bytes, t as real, x);
      AtLeastOne(Abs(x), Abs(bytes), t, r);
    } else {
      var y := Shrunk(bytes, t, u - 1);
      ShrinkStep(bytes, t, u - 1);
      RoundedReaches(y, r, t);
      AbsDiv(y, t as real, x);
      Carries(Abs(x), Abs(y), t, r);
    }
  }

  lemma AtLeastOne(x: real, y: real, t: int, r: int)
    requires t >= 1 && r >= 1 && x * t as real == y >= t as real
    ensures x * r as real >= r as real
  {
    MulOrder(x, 1.0, t as real);
    MulOrder(x, 1.0, r as real);
  }

  lemma Carries(x: real, y: real, t: int, r: int)
    requires t >= 2 && r >= 1 && x * t as real == y && y * r as real + 0.5 >= t as real * r as real
    ensures x * r as real + 0.5 >= r as real
  {
    var z := x * r as real;
    assert z * t as real == y * r as real;
    MulOrder(z + 0.5, r as real, t as real);
    assert (z + 0.5) * t as real == z * t as real + 0.5 * t as real;
  }

  /** So the number printed before the unit is at least 1, and below the threshold unless the unit is the last. */
  lemma PrintedInRange(bytes: real, t: int, dp: nat, u: nat)
    requires t >= 2 && Abs(bytes) >= t as real && IsUnit(bytes, t, Power(10, dp), u)
    ensures var printed := ToFixed(Shrunk(bytes, t, u), dp);
            && |printed.fraction| == dp
            && printed.Size() >= 1.0
            && (u < LAST_UNIT ==> printed.Size() < t as real)
  {
    hide IsUnit, Power, Shrunk, Rounded, Abs, ToFixed;
    ToFixedMeaning(Shrunk(bytes, t, u), dp);
    RoundedInRange(bytes, t, Power(10, dp), u);
  }
}
