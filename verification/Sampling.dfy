/**
 * Random integers: rejection sampling in the dashboard, plain modulo on the server, and
 * the exact number of draws behind every result.
 */
module Sampling {
  import opened Arithmetic
  import opened Doubles
  import opened Text

  const RANGE := 0x1_0000_0000
  const HALF := 0x8000_0000
  const MAX_SAFE_INTEGER := 0x1F_FFFF_FFFF_FFFF

  /** A 32-bit draw. */
  type Word = w: int | 0 <= w < RANGE

  /** `Math.floor(0x100000000 / max) * max` */
  function RangeLimit(max: int): int
    requires max > 0
  {
    RANGE / max * max
  }

  /** Rounding 2^32 / max to a nearest double does not move it across an integer, so the floor is the exact one. */
  lemma RangeLimitExact(max: int, quotient: real)
    requires 0 < max <= MAX_SAFE_INTEGER && IsNearest(quotient, RANGE as real / max as real)
    ensures quotient.Floor * max == RangeLimit(max)
  {
    hide IsDouble, IsNearest, Pow2;
    var n, l := RANGE / max, if max <= RANGE then max else RANGE + 1;
    DivBounds(RANGE, max);
    var k := PowerAbove(l);
    var p := Pow2(k);
    WindowQuotient(max, l, p);
    WindowSize(max, l, p);
    IntegerIsDouble(n);
    DyadicIsDouble((n + 1) * p - 1, k);
    BorrowFraction(n + 1, p);
    Reciprocal(p, p);
    NearestBelow(n, 1.0 / p as real, RANGE as real / max as real, quotient);
    FloorIs(quotient, n);
  }

  lemma FloorIs(x: real, n: int)
    requires n as real <= x < (n + 1) as real
    ensures x.Floor == n
  {
  }

  lemma WindowQuotient(max: int, l: int, p: int)
    requires 0 < max && l == (if max <= RANGE then max else RANGE + 1) <= p
    ensures var q, n := RANGE as real / max as real, RANGE / max;
            n as real <= q <= (n + 1) as real - 1.0 / p as real
  {
    var n := RANGE / max;
    DivBounds(RANGE, max);
    CastProduct(n, max);
    QuotientAtLeast(RANGE as real, max as real, n as real);
    Reciprocal(l, p);
    if max <= RANGE {
      CastProduct(n + 1, max);
      QuotientBelow(RANGE as real, max as real, (n + 1) as real);
    } else {
      QuotientBelow(RANGE as real, l as real, 1.0);
      QuotientShrinks(RANGE as real, l as real, max as real);
    }
  }

  lemma WindowSize(max: int, l: int, p: int)
    requires 0 < max && l == (if max <= RANGE then max else RANGE + 1) && l <= p < 2 * l
    ensures 0 < (RANGE / max + 1) * p - 1 < TWO_53
  {
    var n := RANGE / max;
    DivBounds(RANGE, max);
    if max <= RANGE {
      MulAtMost(n + 1, p, 2 * max);
      MulAtMost(n + 1, 1, p);
      assert (n + 1) * (2 * max) == 2 * (n * max + max);
    } else {
      assert n == 0;
    }
  }

  lemma DivBounds(a: nat, b: int)
    requires b > 0
    ensures 0 <= a / b && a / b * b <= a < a / b * b + b
    ensures b > a ==> a / b == 0
  {
  }

  /**
   * The accepted window is a multiple of `max`, leaves out fewer than `max` draws, and is more than half of all draws;
   * above 2^32 it is empty, so no draw is ever accepted.
   */
  lemma Window(max: int)
    requires max > 0
    ensures RangeLimit(max) % max == 0 && RANGE - max < RangeLimit(max) <= RANGE
    ensures max <= RANGE ==> HALF < RangeLimit(max)
    ensures RangeLimit(max) == 0 <==> max > RANGE
  {
    DivBounds(RANGE, max);
    MultipleMod(RANGE / max, max);
    var q := RANGE / max;
    if q >= 1 {
      AtLeastOnce(q, max);
    } else {
      assert q == 0 && q * max == 0;
    }
  }

  lemma AtLeastOnce(q: int, m: int)
    requires q >= 1 && m > 0
    ensures q * m >= m
  {
  }

  lemma MultipleMod(q: nat, m: int)
    requires m > 0
    ensures q * m % m == 0
  {
    ModUnique(q * m, q, 0, m);
  }

  lemma ModUnique(x: int, q: int, r: int, m: int)
    requires m > 0 && 0 <= r < m && x == q * m + r
    ensures x / m == q && x % m == r
  {
    var q', r' := x / m, x % m;
    assert x == q' * m + r';
    assert (q - q') * m == r' - r;
    if q - q' >= 1 { AtLeastOnce(q - q', m); }
    if q' - q >= 1 { AtLeastOnce(q' - q, m); }
  }

  /** The draws below `n` that give `r`. */
  ghost function Preimage(n: nat, max: int, r: int): set<int>
    requires max > 0
  {
    set x | 0 <= x < n && x % max == r
  }

  /** One draw more: it gives its own remainder. */
  lemma PreimageStep(n: nat, max: int, r: int, last: int)
    requires n > 0 && max > 0 && (n - 1) % max == last
    ensures |Preimage(n, max, r)| == |Preimage(n - 1, max, r)| + if last == r then 1 else 0
  {
    var before := Preimage(n - 1, max, r);
    assert Preimage(n, max, r) == if last == r then before + {n - 1} else before;
  }

  lemma {:induction false} PreimageCount(q: nat, s: nat, max: int, r: int)
    requires max > 0 && s <= max && 0 <= r < max
    ensures 0 <= q * max + s
    ensures |Preimage(q * max + s, max, r)| == q + if r < s then 1 else 0
    decreases q, s
  {
    hide Preimage;
    if s > 0 {
      PreimageCount(q, s - 1, max, r);
      ModUnique(q * max + (s - 1), q, s - 1, max);
      PreimageStep(q * max + s, max, r, s - 1);
    } else if q > 0 {
      PreimageCount(q - 1, max, max, r);
      OneMore(q, max);
    } else {
      PreimageNone(max, r);
    }
  }

  lemma OneMore(q: int, max: int)
    ensures (q - 1) * max + max == q * max
  {
  }

  lemma PreimageNone(max: int, r: int)
    requires max > 0
    ensures Preimage(0, max, r) == {}
  {
  }

  /** Every result has exactly the same number of accepted draws: the returned value is unbiased. */
  lemma Unbiased(max: int, r: int)
    requires 0 < max && 0 <= r < max
    ensures 0 <= RangeLimit(max)
    ensures |Preimage(RangeLimit(max), max, r)| == RANGE / max
  {
    Window(max);
    PreimageCount(RANGE / max, 0, max, r);
  }

  /** Plain modulo: the first `2^32 mod max` results have one draw more than the others. */
  lemma ModuloCount(max: int, r: int)
    requires 0 < max && 0 <= r < max
    ensures |Preimage(RANGE, max, r)| == RANGE / max + if r < RANGE % max then 1 else 0
  {
    var q, s := RANGE / max, RANGE % max;
    assert q * max + s == RANGE;
    PreimageCount(q, s, max, r);
  }

  /** So plain modulo is unbiased exactly when the keyspace size divides 2^32. */
  lemma ModuloUnbiased(max: int)
    requires 0 < max
    ensures (forall r, s | 0 <= r < max && 0 <= s < max :: |Preimage(RANGE, max, r)| == |Preimage(RANGE, max, s)|)
       <==> RANGE % max == 0
    ensures forall r, s | 0 <= r < max && 0 <= s < max :: |Preimage(RANGE, max, r)| <= |Preimage(RANGE, max, s)| + 1
  {
    forall r | 0 <= r < max
      ensures |Preimage(RANGE, max, r)| == RANGE / max + if r < RANGE % max then 1 else 0
    {
      ModuloCount(max, r);
    }
    if RANGE % max != 0 {
      assert |Preimage(RANGE, max, 0)| != |Preimage(RANGE, max, max - 1)|;
    }
  }

  // ---------------------------------------------------------------------------
  // The two generators
  // ---------------------------------------------------------------------------

  /** Draws below 2^31 keep coming: all that the redraw loop needs of its source. */
  ghost predicate Fair(stream: nat -> Word) {
    forall k: nat :: LowDrawFrom(stream, k)
  }

  ghost predicate LowDrawFrom(stream: nat -> Word, k: nat) {
    exists n: nat :: k <= n && stream(n) < HALF
  }

  /** `n` is the first draw from `k` on that falls below `limit`. */
  ghost predicate FirstBelow(stream: nat -> Word, k: nat, limit: int, n: nat) {
    k <= n && stream(n) < limit && forall m | k <= m < n :: stream(m) >= limit
  }

  lemma {:induction false} FirstExists(stream: nat -> Word, k: nat, limit: int, w: nat)
    requires k <= w && stream(w) < limit
    ensures exists n: nat :: FirstBelow(stream, k, limit, n)
    decreases w - k
  {
    if stream(k) < limit {
      assert FirstBelow(stream, k, limit, k);
    } else {
      FirstExists(stream, k + 1, limit, w);
      var n: nat :| FirstBelow(stream, k + 1, limit, n);
      assert FirstBelow(stream, k, limit, n);
    }
  }

  lemma FirstUnique(stream: nat -> Word, k: nat, limit: int, m: nat, n: nat)
    requires FirstBelow(stream, k, limit, m) && FirstBelow(stream, k, limit, n)
    ensures m == n
  {
  }

  /** A value and the number of draws made when it was ready. */
  datatype Drawn<+T> = Drawn(value: T, next: nat)

  /** An unbiased integer below `max`: the first draw inside the window, reduced. */
  ghost function Draw(stream: nat -> Word, k: nat, max: int): (d: Drawn<int>)
    requires Fair(stream) && 0 < max <= RANGE
    ensures 0 <= d.value < max && k < d.next
    ensures FirstBelow(stream, k, RangeLimit(max), d.next - 1) && d.value == stream(d.next - 1) % max
  {
    assert exists n: nat :: FirstBelow(stream, k, RangeLimit(max), n) by {
      Window(max);
      assert LowDrawFrom(stream, k);
      var w: nat :| k <= w && stream(w) < HALF;
      FirstExists(stream, k, RangeLimit(max), w);
    }
    var n: nat :| FirstBelow(stream, k, RangeLimit(max), n);
    Drawn(stream(n) % max, n + 1)
  }

  class Entropy {
    const stream: nat -> Word
    var used: nat

    constructor (stream: nat -> Word)
      ensures this.stream == stream && used == 0
    {
      this.stream := stream;
      used := 0;
    }

    method Next() returns (w: Word)
      modifies this
      ensures w == stream(old(used)) && used == old(used) + 1
    {
      w := stream(used);
      used := used + 1;
    }
  }

  /** Some draw from `k` on falls into the window: exactly what the redraw loop needs to end. */
  ghost predicate Accepts(stream: nat -> Word, k: nat, max: int)
    requires max > 0
  {
    exists n: nat :: k <= n && stream(n) < RangeLimit(max)
  }

  /** However good the source, the loop ends exactly for bounds up to 2^32. */
  lemma RedrawEnds(stream: nat -> Word, k: nat, max: int)
    requires Fair(stream) && max > 0
    ensures Accepts(stream, k, max) <==> max <= RANGE
  {
    Window(max);
    if max <= RANGE {
      assert LowDrawFrom(stream, k);
      var n: nat :| k <= n && stream(n) < HALF;
      assert stream(n) < RangeLimit(max);
    }
  }

  /** The first draw inside the window is the one that `Draw` stands for. */
  lemma DrawIs(stream: nat -> Word, k: nat, max: int, n: nat)
    requires Fair(stream) && 0 < max <= RANGE && FirstBelow(stream, k, RangeLimit(max), n)
    ensures Draw(stream, k, max) == Drawn(stream(n) % max, n + 1)
  {
    FirstUnique(stream, k, RangeLimit(max), Draw(stream, k, max).next - 1, n);
  }

  /**
   * `getSecureRandomInt`, whenever it ends: refused bounds draw nothing, any other gives the first draw inside the
   * window, reduced.
   */
  method GetSecureRandomInt(max: int, entropy: Entropy) returns (r: Option<int>)
    requires 0 < max <= MAX_SAFE_INTEGER ==> Accepts(entropy.stream, entropy.used, max)
    modifies entropy
    ensures r.None? <==> max <= 0 || max > MAX_SAFE_INTEGER
    ensures r.None? ==> entropy.used == old(entropy.used)
    ensures r.Some? ==>
              && 0 < entropy.used && FirstBelow(entropy.stream, old(entropy.used), RangeLimit(max), entropy.used - 1)
              && r.value == entropy.stream(entropy.used - 1) % max
  {
    if max <= 0 || max > MAX_SAFE_INTEGER {
      return None;
    }
    var rangeLimit := RangeLimit(max);
    ghost var good: nat :| entropy.used <= good && entropy.stream(good) < rangeLimit;
    var x := entropy.Next();
    while x >= rangeLimit
      invariant old(entropy.used) < entropy.used <= good + 1
      invariant x == entropy.stream(entropy.used - 1)
      invariant forall k | old(entropy.used) <= k < entropy.used - 1 :: entropy.stream(k) >= rangeLimit
      decreases good + 1 - entropy.used
    {
      x := entropy.Next();
    }
    return Some(x % max);
  }

  /** `PasswordGenerator.Generate` of the server; a failed argument check or allocation gives nothing. */
  method Generate(length: int, keyspace: string, entropy: Entropy) returns (r: Option<string>)
    modifies entropy
    ensures r.None? <==> |keyspace| < 2 || length < 0
    ensures r.Some? ==>
              && |r.value| == length && entropy.used == old(entropy.used) + length
              && forall i | 0 <= i < length :: r.value[i] == keyspace[entropy.stream(old(entropy.used) + i) % |keyspace|]
  {
    if |keyspace| < 2 || length < 0 {
      return None;
    }
    var result := new char[length];
    for i := 0 to length
      invariant fresh(result) && entropy.used == old(entropy.used) + i
      invariant forall k | 0 <= k < i :: result[k] == keyspace[entropy.stream(old(entropy.used) + k) % |keyspace|]
    {
      var value := entropy.Next();
      result[i] := keyspace[value % |keyspace|];
    }
    return Some(result[..]);
  }
}
