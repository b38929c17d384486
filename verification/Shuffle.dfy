/** The Fisher-Yates loop of the password generator: choice vectors and permutations correspond one to one. */
module Shuffle {
  import opened Sampling
  import opened Text

  /** `js[i]` is the position drawn at index `i`; index 0 draws nothing. */
  predicate Choices(js: seq<nat>) {
    |js| > 0 ==> js[0] == 0 && forall i | 0 <= i < |js| :: js[i] <= i
  }

  function Swap<T>(s: seq<T>, i: nat, j: nat): (r: seq<T>)
    requires i < |s| && j < |s|
    ensures |r| == |s| && r[i] == s[j] && multiset(r) == multiset(s)
  {
    s[i := s[j]][j := s[i]]
  }

  /** What the loop from the last index down to 1 leaves. */
  function Shuffled<T>(s: seq<T>, js: seq<nat>): (r: seq<T>)
    requires |js| == |s| && Choices(js)
    ensures |r| == |s|
    decreases |s|
  {
    if |s| <= 1 then s
    else
      var i := |s| - 1;
      var t := Swap(s, i, js[i]);
      Shuffled(t[..i], js[..i]) + [t[i]]
  }

  /** One turn of the loop, as an equation. */
  lemma ShuffledStep<T>(s: seq<T>, js: seq<nat>)
    requires |js| == |s| > 1 && Choices(js)
    ensures var i := |s| - 1;
            && Choices(js[..i])
            && Shuffled(s, js) == Shuffled(Swap(s, i, js[i])[..i], js[..i]) + [Swap(s, i, js[i])[i]]
  {
  }

  lemma ShuffledShort<T>(s: seq<T>, js: seq<nat>)
    requires |js| == |s| <= 1 && Choices(js)
    ensures Shuffled(s, js) == s
  {
  }

  lemma ChoiceBound(js: seq<nat>, i: nat)
    requires Choices(js) && i < |js|
    ensures js[i] <= i
  {
  }

  lemma ChoicesShort(js: seq<nat>)
    requires |js| <= 1 && (|js| == 1 ==> js[0] == 0)
    ensures Choices(js)
  {
  }

  lemma ChoicesSnoc(js: seq<nat>, j: nat)
    requires js != [] && Choices(js) && j <= |js|
    ensures Choices(js + [j])
  {
  }

  lemma Snoc<T>(r: seq<T>, x: T)
    ensures multiset(r + [x]) == multiset(r) + multiset{x}
    ensures (r + [x])[..|r|] == r && (r + [x])[|r|] == x
  {
  }

  lemma Cancel<T>(a: multiset<T>, b: multiset<T>, x: T)
    requires a + multiset{x} == b + multiset{x}
    ensures a == b
  {
    assert a == a + multiset{x} - multiset{x};
    assert b == b + multiset{x} - multiset{x};
  }

  predicate Distinct<T(==)>(s: seq<T>) {
    forall i, j | 0 <= i < j < |s| :: s[i] != s[j]
  }

  lemma LastOut<T>(t: seq<T>)
    requires t != []
    ensures multiset(t) == multiset(t[..|t| - 1]) + multiset{t[|t| - 1]}
  {
    assert t == t[..|t| - 1] + [t[|t| - 1]];
  }

  /** The shuffle only permutes. */
  lemma {:induction false} ShuffledPermutes<T>(s: seq<T>, js: seq<nat>)
    requires |js| == |s| && Choices(js)
    ensures multiset(Shuffled(s, js)) == multiset(s)
    decreases |s|
  {
    hide Shuffled, Choices, Swap;
    if |s| > 1 {
      var i := |s| - 1;
      ChoiceBound(js, i);
      ShuffledStep(s, js);
      var t := Swap(s, i, js[i]);
      LastOut(t);
      ShuffledPermutes(t[..i], js[..i]);
      Snoc(Shuffled(t[..i], js[..i]), t[i]);
    } else {
      ShuffledShort(s, js);
    }
  }

  lemma DistinctIndex<T>(s: seq<T>, i: nat, j: nat)
    requires Distinct(s) && i < |s| && j < |s| && s[i] == s[j]
    ensures i == j
  {
  }

  lemma DistinctPrefix<T>(s: seq<T>, j: nat)
    requires Distinct(s) && j < |s|
    ensures Distinct(Swap(s, |s| - 1, j)[..|s| - 1])
  {
    var i := |s| - 1;
    var t := Swap(s, i, j)[..i];
    forall a, b | 0 <= a < b < i
      ensures t[a] != t[b]
    {
      assert t[a] == if a == j then s[i] else s[a];
      assert t[b] == if b == j then s[i] else s[b];
    }
  }

  /** Different choices give different results: each permutation of distinct elements comes from one vector at most. */
  lemma {:induction false} ShuffledInjective<T>(s: seq<T>, js: seq<nat>, ks: seq<nat>)
    requires Distinct(s) && |js| == |ks| == |s| && Choices(js) && Choices(ks)
    requires Shuffled(s, js) == Shuffled(s, ks)
    ensures js == ks
    decreases |s|
  {
    hide Shuffled, Choices, Swap, Distinct;
    if |s| > 1 {
      var i := |s| - 1;
      ChoiceBound(js, i);
      ChoiceBound(ks, i);
      ShuffledStep(s, js);
      ShuffledStep(s, ks);
      var t, u := Swap(s, i, js[i]), Swap(s, i, ks[i]);
      Snoc(Shuffled(t[..i], js[..i]), t[i]);
      Snoc(Shuffled(u[..i], ks[..i]), u[i]);
      DistinctIndex(s, js[i], ks[i]);
      DistinctPrefix(s, js[i]);
      ShuffledInjective(t[..i], js[..i], ks[..i]);
      assert js == js[..i] + [js[i]] && ks == ks[..i] + [ks[i]];
    } else if |s| == 1 {
      ChoiceBound(js, 0);
      ChoiceBound(ks, 0);
    }
  }

  /** Every rearrangement comes from some vector, repeated elements or not. */
  lemma {:induction false} ShuffledOnto<T>(s: seq<T>, p: seq<T>) returns (js: seq<nat>)
    requires multiset(p) == multiset(s)
    ensures |js| == |s| && Choices(js) && Shuffled(s, js) == p
    decreases |s|
  {
    hide Shuffled, Choices, Swap;
    assert |p| == |multiset(p)| == |multiset(s)| == |s|;
    if |s| <= 1 {
      js := seq(|s|, _ => 0);
      ChoicesShort(js);
      ShuffledShort(s, js);
      assert |s| == 1 ==> p[0] in multiset(s);
    } else {
      var i := |s| - 1;
      assert p[i] in multiset(p);
      var j: nat :| j < |s| && s[j] == p[i];
      var t := Swap(s, i, j);
      LastOut(t);
      LastOut(p);
      Cancel(multiset(p[..i]), multiset(t[..i]), p[i]);
      var front := ShuffledOnto(t[..i], p[..i]);
      js := front + [j];
      Snoc(front, j);
      ChoicesSnoc(front, j);
      ShuffledStep(s, js);
      assert p == p[..i] + [p[i]];
    }
  }

  /** The correspondence: on distinct elements every permutation comes from exactly one choice vector. */
  lemma ShuffleBijection<T>(s: seq<T>, p: seq<T>)
    requires Distinct(s) && multiset(p) == multiset(s)
    ensures exists js: seq<nat> :: |js| == |s| && Choices(js) && Shuffled(s, js) == p
    ensures forall js: seq<nat>, ks: seq<nat> |
              && |js| == |s| && Choices(js) && |ks| == |s| && Choices(ks)
              && Shuffled(s, js) == p && Shuffled(s, ks) == p :: js == ks
  {
    var js := ShuffledOnto(s, p);
    forall js: seq<nat>, ks: seq<nat> |
        && |js| == |s| && Choices(js) && |ks| == |s| && Choices(ks)
        && Shuffled(s, js) == p && Shuffled(s, ks) == p
      ensures js == ks
    {
      ShuffledInjective(s, js, ks);
    }
  }

  /** The same, with the part of the array that is already final behind it. */
  lemma ShuffledTurn<T>(s: seq<T>, rest: seq<T>, js: seq<nat>, t: seq<T>)
    requires |js| == |s| > 1 && Choices(js) && t == Swap(s, |s| - 1, js[|s| - 1])
    ensures var i := |s| - 1;
            Choices(js[..i]) && Shuffled(s, js) + rest == Shuffled(t[..i], js[..i]) + ([t[i]] + rest)
  {
    hide Shuffled, Choices, Swap;
    ShuffledStep(s, js);
    var i := |s| - 1;
    assert Shuffled(t[..i], js[..i]) + [t[i]] + rest == Shuffled(t[..i], js[..i]) + ([t[i]] + rest);
  }

  /** The choices the loop draws, the one for the last index first. */
  ghost function DrawChoices(stream: nat -> Word, k: nat, n: nat): (d: Drawn<seq<nat>>)
    requires Fair(stream) && n <= RANGE
    ensures |d.value| == n && Choices(d.value)
    decreases n
  {
    if n <= 1 then Drawn(seq(n, _ => 0), k)
    else
      var j := Draw(stream, k, n);
      var front := DrawChoices(stream, j.next, n - 1);
      Drawn(front.value + [j.value], front.next)
  }

  lemma DrawTurn(stream: nat -> Word, k: nat, n: nat)
    requires Fair(stream) && 2 <= n <= RANGE
    ensures var j, d := Draw(stream, k, n), DrawChoices(stream, k, n);
            && d.value[n - 1] == j.value
            && d.value[..n - 1] == DrawChoices(stream, j.next, n - 1).value
            && d.next == DrawChoices(stream, j.next, n - 1).next
  {
  }

  /** One turn of the loop on the whole array: the part behind `i` is final. */
  lemma ArrayTurn<T>(was: seq<T>, i: nat, js: seq<nat>)
    requires 0 < i < |was| && |js| == i + 1 && Choices(js) && js[i] <= i
    ensures var now := Swap(was, i, js[i]);
            && Choices(js[..i])
            && Shuffled(was[..i + 1], js) + was[i + 1..] == Shuffled(now[..i], js[..i]) + now[i..]
  {
    hide Shuffled, Choices;
    var now, s := Swap(was, i, js[i]), was[..i + 1];
    var t := Swap(s, i, js[i]);
    ShuffledTurn(s, was[i + 1..], js, t);
    assert now[..i] == t[..i];
    assert now[i..] == [t[i]] + was[i + 1..];
  }

  /** What the loop keeps: shuffling what is left of `cur` with the choices still to come gives `end`. */
  ghost predicate Pending<T>(stream: nat -> Word, k: nat, cur: seq<T>, i: int, end: seq<T>, next: nat)
    requires Fair(stream)
  {
    && -1 <= i < |cur| < RANGE
    && (i == -1 ==> cur == [])
    && var d := DrawChoices(stream, k, i + 1);
       Shuffled(cur[..i + 1], d.value) + cur[i + 1..] == end && d.next == next
  }

  lemma PendingStart<T>(stream: nat -> Word, k: nat, s: seq<T>)
    requires Fair(stream) && |s| < RANGE
    ensures var d := DrawChoices(stream, k, |s|); Pending(stream, k, s, |s| - 1, Shuffled(s, d.value), d.next)
  {
    hide Shuffled, Choices, DrawChoices;
    assert s[..|s|] == s && s[|s|..] == [];
  }

  lemma PendingTurn<T>(stream: nat -> Word, k: nat, cur: seq<T>, i: int, end: seq<T>, next: nat)
    requires Fair(stream) && Pending(stream, k, cur, i, end, next) && i > 0
    ensures var d := Draw(stream, k, i + 1); Pending(stream, d.next, Swap(cur, i, d.value), i - 1, end, next)
  {
    hide Shuffled, Choices, DrawChoices, Swap, Draw;
    DrawTurn(stream, k, i + 1);
    var js := DrawChoices(stream, k, i + 1).value;
    ArrayTurn(cur, i, js);
  }

  lemma PendingEnd<T>(stream: nat -> Word, k: nat, cur: seq<T>, i: int, end: seq<T>, next: nat)
    requires Fair(stream) && Pending(stream, k, cur, i, end, next) && i <= 0
    ensures cur == end && k == next
  {
    hide Shuffled, Choices;
    ShuffledShort(cur[..i + 1], DrawChoices(stream, k, i + 1).value);
    assert cur == cur[..i + 1] + cur[i + 1..];
  }

  /** The loop, in place. The bound on the length is JavaScript's own. */
  method ShuffleInPlace<T>(a: array<T>, entropy: Entropy)
    requires Fair(entropy.stream) && a.Length < RANGE
    modifies a, entropy
    ensures var d := DrawChoices(entropy.stream, old(entropy.used), a.Length);
            a[..] == Shuffled(old(a[..]), d.value) && entropy.used == d.next
  {
    hide Shuffled, Choices, Draw, DrawChoices, Fair, Pending;
    var i := a.Length - 1;
    ghost var stream := entropy.stream;
    ghost var all := DrawChoices(stream, entropy.used, a.Length);
    ghost var end := Shuffled(a[..], all.value);
    PendingStart(stream, entropy.used, a[..]);
    while i > 0
      invariant -1 <= i < a.Length
      invariant Pending(stream, entropy.used, a[..], i, end, all.next)
      decreases i
    {
      PendingTurn(stream, entropy.used, a[..], i, end, all.next);
      ghost var was := a[..];
      RedrawEnds(stream, entropy.used, i + 1);
      ghost var k := entropy.used;
      var draw := GetSecureRandomInt(i + 1, entropy);
      DrawIs(stream, k, i + 1, entropy.used - 1);
      var j := draw.value;
      a[i], a[j] := a[j], a[i];
      assert a[..] == Swap(was, i, j);
      i := i - 1;
    }
    PendingEnd(stream, entropy.used, a[..], i, end, all.next);
  }
}
