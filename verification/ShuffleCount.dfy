/** The shuffle is uniform: every order of distinct elements has equally many tuples of accepted draws behind it. */
module ShuffleCount {
  import opened Collections
  import opened Sampling
  import opened Shuffle

  /** One accepted draw for each index: below the window of its bound. Index 0 draws nothing. */
  predicate Accepted(w: seq<int>) {
    |w| > 0 ==> w[0] == 0 && forall i | 0 < i < |w| :: 0 <= w[i] < RangeLimit(i + 1)
  }

  function Residue(x: int, n: int): (r: nat)
    requires n > 0
    ensures r < n
  {
    x % n
  }

  /** The choices that these draws are reduced to. */
  function Residues(w: seq<int>): (js: seq<nat>)
    ensures |js| == |w| && forall i | 0 <= i < |w| :: js[i] == Residue(w[i], i + 1)
    ensures Choices(js)
  {
    seq(|w|, i requires 0 <= i < |w| => Residue(w[i], i + 1))
  }

  function Below(n: nat): (b: set<int>)
    ensures forall x :: x in b <==> 0 <= x < n
  {
    if n == 0 then {} else Below(n - 1) + {n - 1}
  }

  function Longer(w: seq<int>, x: int): (r: seq<int>)
    ensures r != [] && r[..|r| - 1] == w && r[|r| - 1] == x
  {
    w + [x]
  }

  lemma LongerLast(w: seq<int>)
    requires w != []
    ensures w == Longer(w[..|w| - 1], w[|w| - 1])
  {
  }

  function Zeros(n: nat): seq<int> {
    seq(n, _ => 0)
  }

  /** Each tuple of `a` with each number of `b` behind it. */
  ghost function Extended(a: set<seq<int>>, b: set<int>): set<seq<int>> {
    set w, x | w in a && x in b :: Longer(w, x)
  }

  /** All tuples of accepted draws for an array of `n` elements. */
  ghost function Tuples(n: nat): set<seq<int>> {
    if n <= 1 then {Zeros(n)} else Extended(Tuples(n - 1), Below(RangeLimit(n)))
  }

  /** Those of them that are reduced to given choices. */
  ghost function TuplesFor(js: seq<nat>): set<seq<int>> {
    var n := |js|;
    if n <= 1 then {Zeros(n)} else Extended(TuplesFor(js[..n - 1]), Preimage(RangeLimit(n), n, js[n - 1]))
  }

  /** Those after which the loop leaves the order `p`. */
  ghost function Behind<T(!new)>(s: seq<T>, p: seq<T>): set<seq<int>> {
    set w | w in Tuples(|s|) && |w| == |s| && Shuffled(s, Residues(w)) == p
  }

  /** The number of tuples behind one order: the product of `RANGE / i` over the bounds 2 to `n`. */
  ghost function Share(n: nat): int {
    if n <= 1 then 1 else Share(n - 1) * (RANGE / n)
  }

  function Factorial(n: nat): nat {
    if n == 0 then 1 else n * Factorial(n - 1)
  }

  // ---------------------------------------------------------------------------
  // Membership
  // ---------------------------------------------------------------------------

  lemma ExtendedHas(a: set<seq<int>>, b: set<int>, w: seq<int>)
    ensures w in Extended(a, b) <==> w != [] && w[..|w| - 1] in a && w[|w| - 1] in b
  {
    if w != [] {
      LongerLast(w);
    }
  }

  lemma AcceptedSnoc(w: seq<int>)
    requires |w| > 1
    ensures Accepted(w) <==> Accepted(w[..|w| - 1]) && 0 <= w[|w| - 1] < RangeLimit(|w|)
  {
    var v := w[..|w| - 1];
    assert v[0] == w[0];
    assert forall i | 0 < i < |v| :: v[i] == w[i];
  }

  lemma {:induction false} TuplesHave(n: nat, w: seq<int>)
    ensures w in Tuples(n) <==> |w| == n && Accepted(w)
  {
    hide Extended, Accepted, RangeLimit;
    if n <= 1 {
      ShortTuple(n, w);
    } else {
      Window(n);
      ExtendedHas(Tuples(n - 1), Below(RangeLimit(n)), w);
      if |w| == n {
        AcceptedSnoc(w);
        TuplesHave(n - 1, w[..n - 1]);
      } else if w != [] {
        TuplesHave(n - 1, w[..|w| - 1]);
      }
    }
  }

  lemma ShortTuple(n: nat, w: seq<int>)
    requires n <= 1
    ensures w in {Zeros(n)} <==> |w| == n && Accepted(w)
  {
    assert |w| == n && Accepted(w) ==> w == Zeros(n);
  }

  lemma ResiduesSnoc(w: seq<int>, js: seq<nat>)
    requires |w| == |js| > 1
    ensures Residues(w) == js <==> Residues(w[..|w| - 1]) == js[..|js| - 1] && Residue(w[|w| - 1], |w|) == js[|js| - 1]
  {
    var n := |w| - 1;
    assert Residues(w)[..n] == Residues(w[..n]);
    assert Residues(w) == Residues(w)[..n] + [Residue(w[n], n + 1)];
    assert js == js[..n] + [js[n]];
  }

  lemma {:induction false} TuplesForHave(js: seq<nat>, w: seq<int>)
    requires Choices(js)
    ensures w in TuplesFor(js) <==> |w| == |js| && Accepted(w) && Residues(w) == js
    decreases |js|
  {
    hide Extended, Accepted, RangeLimit, Residues;
    var n := |js|;
    if n <= 1 {
      ShortTuple(n, w);
      assert |w| == n && n == 1 ==> Residues(w)[0] == js[0];
      assert |w| == n ==> Residues(w) == js;
    } else {
      Window(n);
      ExtendedHas(TuplesFor(js[..n - 1]), Preimage(RangeLimit(n), n, js[n - 1]), w);
      if |w| == n {
        AcceptedSnoc(w);
        ResiduesSnoc(w, js);
        TuplesForHave(js[..n - 1], w[..n - 1]);
      } else if w != [] {
        TuplesForHave(js[..n - 1], w[..|w| - 1]);
      }
    }
  }

  // ---------------------------------------------------------------------------
  // Counting
  // ---------------------------------------------------------------------------

  ghost function EachWith(a: set<seq<int>>, x: int): set<seq<int>> {
    set w | w in a :: Longer(w, x)
  }

  lemma EachWithOneMore(a: set<seq<int>>, w: seq<int>, x: int)
    requires w in a
    ensures EachWith(a, x) == EachWith(a - {w}, x) + {Longer(w, x)} && Longer(w, x) !in EachWith(a - {w}, x)
  {
    hide Longer;
    assert a == a - {w} + {w};
  }

  lemma {:induction false} EachWithCount(a: set<seq<int>>, x: int)
    ensures |EachWith(a, x)| == |a|
  {
    if a != {} {
      var w :| w in a;
      EachWithOneMore(a, w, x);
      EachWithCount(a - {w}, x);
    }
  }

  lemma ExtendedOneMore(a: set<seq<int>>, b: set<int>, x: int)
    requires x in b
    ensures Extended(a, b) == Extended(a, b - {x}) + EachWith(a, x) && Extended(a, b - {x}) !! EachWith(a, x)
  {
    forall w
      ensures w in Extended(a, b) <==> w in Extended(a, b - {x}) || w in EachWith(a, x)
      ensures w !in Extended(a, b - {x}) || w !in EachWith(a, x)
    {
      ExtendedHas(a, b, w);
      ExtendedHas(a, b - {x}, w);
      EachWithHas(a, x, w);
    }
  }

  lemma EachWithHas(a: set<seq<int>>, x: int, w: seq<int>)
    ensures w in EachWith(a, x) <==> w != [] && w[..|w| - 1] in a && w[|w| - 1] == x
  {
    if w != [] {
      LongerLast(w);
    }
  }

  lemma {:induction false} ExtendedCount(a: set<seq<int>>, b: set<int>)
    ensures |Extended(a, b)| == |a| * |b|
  {
    hide EachWith, Extended;
    if b == {} {
      ExtendedNone(a);
    } else {
      HasElement(b);
      var x :| x in b;
      ExtendedOneMore(a, b, x);
      ExtendedCount(a, b - {x});
      EachWithCount(a, x);
      TimesOneMore(|a|, |b|);
    }
  }

  lemma ExtendedNone(a: set<seq<int>>)
    ensures Extended(a, {}) == {}
  {
  }

  lemma TimesOneMore(m: int, n: int)
    ensures m * n == m * (n - 1) + m
  {
  }

  lemma {:induction false} BelowCount(n: nat)
    ensures |Below(n)| == n
  {
    if n > 0 {
      BelowCount(n - 1);
    }
  }

  lemma {:induction false} TuplesForCount(js: seq<nat>)
    requires Choices(js)
    ensures |TuplesFor(js)| == Share(|js|)
    decreases |js|
  {
    hide Extended, RangeLimit, Preimage;
    var n := |js|;
    if n > 1 {
      TuplesForCount(js[..n - 1]);
      Unbiased(n, js[n - 1]);
      ExtendedCount(TuplesFor(js[..n - 1]), Preimage(RangeLimit(n), n, js[n - 1]));
    }
  }

  lemma {:induction false} TuplesCount(n: nat)
    ensures |Tuples(n)| == Factorial(n) * Share(n)
  {
    hide Extended, Below;
    if n > 1 {
      TuplesCount(n - 1);
      Window(n);
      BelowCount(RangeLimit(n));
      ExtendedCount(Tuples(n - 1), Below(RangeLimit(n)));
      Regroup(Factorial(n - 1), Share(n - 1), RANGE / n, n);
    }
  }

  lemma {:induction false} ShareSign(n: nat)
    ensures 0 <= Share(n) && (Share(n) > 0 <==> n <= RANGE)
  {
    if n > 1 {
      ShareSign(n - 1);
      DivBounds(RANGE, n);
      var g, q := Share(n - 1), RANGE / n;
      if n <= RANGE {
        assert q >= 1 && g * q >= g by { AtLeastOnce(q, g); }
      } else {
        assert q == 0 && g * q == 0;
      }
    }
  }

  lemma Regroup(f: int, g: int, q: int, n: int)
    ensures f * g * (q * n) == n * f * (g * q)
  {
  }

  // ---------------------------------------------------------------------------
  // The shuffle
  // ---------------------------------------------------------------------------

  /** The draws of a tuple stand at these places of the stream, the one for the last index first. */
  predicate StandAt(stream: nat -> Word, w: seq<int>, at: seq<nat>, k: nat, next: nat) {
    && |at| == |w| && (forall i | 0 < i < |w| :: w[i] == stream(at[i]) && k <= at[i] < next)
    && forall i, j | 0 < i < j < |w| :: at[j] < at[i]
  }

  /** What the loop draws is such a tuple, reduced: each choice comes from a draw of its own. */
  lemma {:induction false} DrawnTuple(stream: nat -> Word, k: nat, n: nat) returns (w: seq<int>, at: seq<nat>)
    requires Fair(stream) && n <= RANGE
    ensures w in Tuples(n) && Residues(w) == DrawChoices(stream, k, n).value
    ensures StandAt(stream, w, at, k, DrawChoices(stream, k, n).next)
    decreases n
  {
    hide Fair, Tuples, Accepted, Residues, RangeLimit, Draw, DrawChoices, FirstBelow, Choices;
    if n <= 1 {
      w := NothingDrawn(stream, k, n);
      at := seq(n, _ => 0);
    } else {
      var j := Draw(stream, k, n);
      var front, before := DrawnTuple(stream, j.next, n - 1);
      TuplesHave(n - 1, front);
      var x := DrawnWord(stream, k, n);
      w := front + [x];
      at := before + [j.next - 1];
      DrawsForward(stream, j.next, n - 1);
      assert w[..n - 1] == front && w[n - 1] == x;
      AcceptedSnoc(w);
      DrawTurn(stream, k, n);
      ResiduesSnoc(w, DrawChoices(stream, k, n).value);
    }
    TuplesHave(n, w);
  }

  lemma {:induction false} DrawsForward(stream: nat -> Word, k: nat, n: nat)
    requires Fair(stream) && n <= RANGE
    ensures k <= DrawChoices(stream, k, n).next
    decreases n
  {
    hide Fair, RangeLimit, FirstBelow, Choices;
    if n > 1 {
      DrawsForward(stream, Draw(stream, k, n).next, n - 1);
    }
  }

  lemma NothingDrawn(stream: nat -> Word, k: nat, n: nat) returns (w: seq<int>)
    requires Fair(stream) && n <= 1
    ensures |w| == n && Accepted(w) && Residues(w) == DrawChoices(stream, k, n).value
  {
    hide Fair, RangeLimit;
    w := Zeros(n);
    assert Residues(w) == Zeros(n);
  }

  lemma DrawnWord(stream: nat -> Word, k: nat, n: nat) returns (x: int)
    requires Fair(stream) && 0 < n <= RANGE
    ensures 0 <= x < RangeLimit(n) && Residue(x, n) == Draw(stream, k, n).value
    ensures k < Draw(stream, k, n).next && x == stream(Draw(stream, k, n).next - 1)
  {
    hide Fair, RangeLimit;
    x := stream(Draw(stream, k, n).next - 1);
  }

  /**
   * The number of accepted tuples behind an order of distinct elements does not depend on the order, and all orders
   * together use up all tuples: each order has exactly the `1 / n!` share. There are such tuples up to 2^32 elements.
   */
  lemma ShuffleIsUniform<T(!new)>(s: seq<T>, p: seq<T>)
    requires Distinct(s) && multiset(p) == multiset(s)
    ensures |Behind(s, p)| == Share(|s|)
    ensures |Tuples(|s|)| == Factorial(|s|) * |Behind(s, p)|
    ensures Behind(s, p) != {} <==> |s| <= RANGE
  {
    hide Shuffled, Tuples, TuplesFor, Residues, Accepted, Distinct, Choices;
    var js := ShuffledOnto(s, p);
    forall w
      ensures w in Behind(s, p) <==> w in TuplesFor(js)
    {
      TuplesHave(|s|, w);
      TuplesForHave(js, w);
      if |w| == |s| && Shuffled(s, Residues(w)) == p {
        ShuffledInjective(s, js, Residues(w));
      }
    }
    assert Behind(s, p) == TuplesFor(js);
    TuplesForCount(js);
    TuplesCount(|s|);
    ShareSign(|s|);
  }
}
