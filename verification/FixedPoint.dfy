/** `Number.prototype.toFixed` (ECMAScript section 21.1.3.3) on exact numbers below 10^21. */
module FixedPoint {
  import opened Arithmetic

  const MAX_DECIMALS := 100
  const FIXED_LIMIT := 1_000_000_000_000_000_000_000.0

  function Abs(x: real): (a: real)
    ensures a >= 0.0
  {
    if x < 0.0 then -x else x
  }

  function Power(b: int, n: nat): (p: int)
    requires b >= 1
    ensures p >= 1
  {
    if n == 0 then 1 else
      MulPositive(b, Power(b, n - 1));
      b * Power(b, n - 1)
  }

  lemma MulPositive(x: int, y: int)
    requires x >= 1 && y >= 1
    ensures x * y >= 1
  {
  }

  /** `Math.round` */
  function Round(x: real): int {
    (x + 0.5).Floor
  }

  /** How many `r`-ths the size rounds to. */
  function Count(x: real, r: int): (n: nat)
    requires r >= 1
  {
    assert Abs(x) * r as real >= 0.0;
    Round(Abs(x) * r as real)
  }

  /** The size with `dp` decimals, where `r` is `10 ** dp`. */
  function Rounded(x: real, r: int): real
    requires r >= 1
  {
    Count(x, r) as real / r as real
  }

  // ---------------------------------------------------------------------------
  // Decimal digits
  // ---------------------------------------------------------------------------

  function Digit(n: nat): (c: char)
    requires n < 10
    ensures '0' <= c <= '9' && (c as int - '0' as int) == n
  {
    "0123456789"[n]
  }

  predicate IsNumeral(s: string) {
    forall i | 0 <= i < |s| :: '0' <= s[i] <= '9'
  }

  function ValueOf(s: string): nat
    requires IsNumeral(s)
  {
    if s == "" then 0 else 10 * ValueOf(s[..|s| - 1]) + (s[|s| - 1] as int - '0' as int)
  }

  /** The digits of a number, without leading zeros. */
  function Digits(n: nat): (s: string)
    ensures s != "" && IsNumeral(s) && ValueOf(s) == n && (s[0] == '0' ==> s == "0")
  {
    if n < 10 then
      assert [Digit(n)][..0] == "";
      [Digit(n)]
    else
      var front := Digits(n / 10);
      assert (front + [Digit(n % 10)])[..|front|] == front;
      front + [Digit(n % 10)]
  }

  function Zeros(n: nat): string {
    seq(n, _ => '0')
  }

  lemma {:induction false} ZerosAreNothing(n: nat, s: string)
    requires IsNumeral(s)
    ensures IsNumeral(Zeros(n) + s) && ValueOf(Zeros(n) + s) == ValueOf(s)
    decreases |s|, n
  {
    var z := Zeros(n) + s;
    if s != "" {
      var k := |s| - 1;
      assert z[..|z| - 1] == Zeros(n) + s[..k];
      ZerosAreNothing(n, s[..k]);
    } else if n > 0 {
      assert z[..|z| - 1] == Zeros(n - 1) + "";
      ZerosAreNothing(n - 1, "");
    }
  }

  // ---------------------------------------------------------------------------
  // toFixed
  // ---------------------------------------------------------------------------

  /** A printed number: its sign, the digits before the point and the digits after it. */
  datatype Decimal = Decimal(negative: bool, whole: string, fraction: string)
  {
    function Text(): string {
      (if negative then "-" else "") + whole + (if fraction == "" then "" else "." + fraction)
    }

    predicate Ok() {
      whole != "" && IsNumeral(whole + fraction)
    }

    /** The number it stands for, without its sign. */
    function Size(): real
      requires Ok()
    {
      ValueOf(whole + fraction) as real / Power(10, |fraction|) as real
    }
  }

  /** Where the point of a printed number is; its end if there is none. */
  function PointAt(t: string): (k: nat)
    ensures k <= |t| && '.' !in t[..k] && (k < |t| ==> t[k] == '.')
  {
    if t == "" || t[0] == '.' then 0 else 1 + PointAt(t[1..])
  }

  lemma NumeralConcat(a: string, b: string)
    ensures IsNumeral(a + b) <==> IsNumeral(a) && IsNumeral(b)
  {
    var s := a + b;
    assert forall i | 0 <= i < |a| :: a[i] == s[i];
    assert forall i | 0 <= i < |b| :: b[i] == s[|a| + i];
  }

  predicate Readable(t: string) {
    && PointAt(t) > 0 && IsNumeral(t[..PointAt(t)])
    && (PointAt(t) < |t| ==> PointAt(t) + 1 < |t| && IsNumeral(t[PointAt(t) + 1..]))
  }

  /** Reading a printed number without its sign. */
  function Read(t: string): real
    requires Readable(t)
  {
    var k := PointAt(t);
    if k == |t| then
      ValueOf(t[..k]) as real
    else
      NumeralConcat(t[..k], t[k + 1..]);
      ValueOf(t[..k] + t[k + 1..]) as real / Power(10, |t| - k - 1) as real
  }

  function Pointed(whole: string, fraction: string): string {
    whole + if fraction == "" then "" else "." + fraction
  }

  lemma UnsignedReadsBack(whole: string, fraction: string)
    requires whole != "" && IsNumeral(whole + fraction)
    ensures Readable(Pointed(whole, fraction))
    ensures Read(Pointed(whole, fraction)) == ValueOf(whole + fraction) as real / Power(10, |fraction|) as real
  {
    hide ValueOf, IsNumeral, PointAt, Power;
    NumeralConcat(whole, fraction);
    NumeralPlain(whole);
    var n, t := |whole|, Pointed(whole, fraction);
    assert t[..n] == whole;
    PointIs(t, n);
    if fraction == "" {
      assert whole + fraction == whole;
      PowerZero(10);
    } else {
      assert t[n + 1..] == fraction;
    }
  }

  /** A printed number reads back as the number it stands for, with a minus sign in front just when it is negative. */
  lemma TextReadsBack(d: Decimal)
    requires d.Ok()
    ensures d.Text() != "" && (d.Text()[0] == '-' <==> d.negative)
    ensures var t := if d.negative then d.Text()[1..] else d.Text(); Readable(t) && Read(t) == d.Size()
  {
    hide ValueOf, IsNumeral, Power, Readable, Read;
    UnsignedReadsBack(d.whole, d.fraction);
    NumeralConcat(d.whole, d.fraction);
    NumeralPlain(d.whole);
    SignedText(d);
  }

  lemma SignedText(d: Decimal)
    requires d.whole != "" && d.whole[0] != '-'
    ensures d.Text() != "" && (d.Text()[0] == '-' <==> d.negative)
    ensures (if d.negative then d.Text()[1..] else d.Text()) == Pointed(d.whole, d.fraction)
  {
    var t := Pointed(d.whole, d.fraction);
    assert d.Text() == (if d.negative then "-" else "") + t;
    assert ("-" + t)[1..] == t && "" + t == t;
  }

  lemma PowerZero(b: int)
    requires b >= 1
    ensures Power(b, 0) == 1
  {
  }

  lemma NumeralPlain(s: string)
    requires IsNumeral(s)
    ensures '.' !in s && (s != "" ==> s[0] != '-')
  {
  }

  lemma {:induction false} PointIs(t: string, n: nat)
    requires n <= |t| && '.' !in t[..n] && (n < |t| ==> t[n] == '.')
    ensures PointAt(t) == n
    decreases n
  {
    if n > 0 {
      assert t[..n][0] == t[0] && t[..n][1..] == t[1..][..n - 1];
      assert forall c | c in t[1..][..n - 1] :: c in t[..n];
      PointIs(t[1..], n - 1);
    }
  }

  /** Zeros in front, so that a digit is left before the point. */
  function Pad(m: string, dp: nat): string {
    if |m| <= dp then Zeros(dp + 1 - |m|) + m else m
  }

  function ToFixed(x: real, dp: nat): Decimal {
    var padded := Pad(Digits(Count(x, Power(10, dp))), dp);
    Decimal(x < 0.0, padded[..|padded| - dp], padded[|padded| - dp..])
  }

  /**
   * What is printed has as many decimals as asked for, at least one digit before the point and no superfluous zero
   * there, and stands for the rounded number.
   */
  lemma ToFixedMeaning(x: real, dp: nat)
    ensures var d := ToFixed(x, dp);
            && d.Ok() && |d.fraction| == dp && (d.negative <==> x < 0.0)
            && d.Size() == Rounded(x, Power(10, dp))
            && (d.whole[0] == '0' ==> d.whole == "0")
  {
    hide Power, Count, Digits, Pad, IsNumeral, ValueOf;
    var n := Count(x, Power(10, dp));
    PadMeaning(Digits(n), dp);
    var padded := Pad(Digits(n), dp);
    var d := ToFixed(x, dp);
    assert d.whole + d.fraction == padded && |d.fraction| == dp;
    assert d.Size() == n as real / Power(10, dp) as real;
  }

  lemma PadMeaning(m: string, dp: nat)
    requires m != "" && IsNumeral(m) && (m[0] == '0' ==> m == "0")
    ensures var padded := Pad(m, dp);
            && |padded| > dp && IsNumeral(padded) && ValueOf(padded) == ValueOf(m)
            && (padded[0] == '0' ==> padded[..|padded| - dp] == "0")
  {
    hide ValueOf;
    var padded := Pad(m, dp);
    if |m| <= dp {
      ZerosAreNothing(dp + 1 - |m|, m);
      assert |padded| == dp + 1 && padded[..1] == [padded[0]] == "0";
    } else if m[0] == '0' {
      assert dp == 0 && padded[..1] == m;
    }
  }

  /** The rounded number is the nearest one with that many decimals, the larger of two. */
  lemma RoundedIsNearest(x: real, n: int, z: int)
    requires n == Round(x)
    ensures Abs(n as real - x) <= Abs(z as real - x)
    ensures Abs(n as real - x) == Abs(z as real - x) ==> z <= n
  {
    if z < n {
      assert z as real <= n as real - 1.0;
    } else if z > n {
      assert z as real >= n as real + 1.0;
    }
  }
}
