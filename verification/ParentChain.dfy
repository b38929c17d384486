/**
 * Parent pointers: where the chain of a node ends, its depth, its path from the root and
 * the subtree below it. Nothing is assumed about the pointers; cycles are allowed.
 */
module ParentChain {
  import opened Text

  type Id = string

  /** The parent of every listed node, if that parent is listed too. */
  type Parents = map<Id, Option<Id>>

  predicate Closed(p: Parents) {
    forall x | x in p && p[x].Some? :: p[x].value in p
  }

  /** The chain from `x` ends at a node without a listed parent after at most `n` steps. */
  predicate EndsWithin(p: Parents, x: Id, n: nat)
    requires Closed(p) && x in p
    decreases n
  {
    p[x].None? || (n > 0 && EndsWithin(p, p[x].value, n - 1))
  }

  ghost predicate Rooted(p: Parents, x: Id)
    requires Closed(p) && x in p
  {
    exists n: nat :: EndsWithin(p, x, n)
  }

  lemma {:induction false} EndsWithinMore(p: Parents, x: Id, n: nat, m: nat)
    requires Closed(p) && x in p && EndsWithin(p, x, n) && n <= m
    ensures EndsWithin(p, x, m)
    decreases n
  {
    if p[x].Some? {
      EndsWithinMore(p, p[x].value, n - 1, m - 1);
    }
  }

  lemma RootedStep(p: Parents, x: Id)
    requires Closed(p) && x in p
    ensures p[x].None? ==> Rooted(p, x)
    ensures p[x].Some? ==> (Rooted(p, x) <==> Rooted(p, p[x].value))
  {
    if p[x].None? {
      assert EndsWithin(p, x, 0);
    } else {
      if Rooted(p, x) {
        var n: nat :| EndsWithin(p, x, n);
        assert EndsWithin(p, p[x].value, n - 1);
      }
      if Rooted(p, p[x].value) {
        var n: nat :| EndsWithin(p, p[x].value, n);
        assert EndsWithin(p, x, n + 1);
      }
    }
  }

  /** The number of steps from `x` to the end of its chain. */
  ghost function Depth(p: Parents, x: Id): (d: nat)
    requires Closed(p) && x in p && Rooted(p, x)
    ensures EndsWithin(p, x, d) && (d > 0 ==> !EndsWithin(p, x, d - 1))
  {
    var n: nat :| EndsWithin(p, x, n);
    LeastEnd(p, x, n)
  }

  ghost function LeastEnd(p: Parents, x: Id, n: nat): (d: nat)
    requires Closed(p) && x in p && EndsWithin(p, x, n)
    ensures EndsWithin(p, x, d) && (d > 0 ==> !EndsWithin(p, x, d - 1))
  {
    if n > 0 && EndsWithin(p, x, n - 1) then LeastEnd(p, x, n - 1) else n
  }

  lemma DepthStep(p: Parents, x: Id)
    requires Closed(p) && x in p && Rooted(p, x)
    ensures p[x].None? ==> Depth(p, x) == 0
    ensures p[x].Some? ==> Rooted(p, p[x].value) && Depth(p, x) == Depth(p, p[x].value) + 1
  {
    RootedStep(p, x);
    var d := Depth(p, x);
    if p[x].Some? {
      var y := p[x].value;
      var e := Depth(p, y);
      assert EndsWithin(p, x, e + 1);
      if e + 1 < d {
        EndsWithinMore(p, x, e + 1, d - 1);
      }
      if d < e + 1 {
        EndsWithinMore(p, y, d - 1, e - 1);
      }
    }
  }

  /** The ids from the root down to `x`. */
  ghost function Path(p: Parents, x: Id): seq<Id>
    requires Closed(p) && x in p && Rooted(p, x)
    decreases Depth(p, x)
  {
    DepthStep(p, x);
    if p[x].None? then [x] else Path(p, p[x].value) + [x]
  }

  /** The path has one more id than the depth, and each of its ids is rooted, with the path up to itself. */
  lemma {:induction false} PathShape(p: Parents, x: Id)
    requires Closed(p) && x in p && Rooted(p, x)
    ensures |Path(p, x)| == Depth(p, x) + 1 && Path(p, x)[Depth(p, x)] == x
    ensures forall i | 0 <= i < |Path(p, x)| ::
              var y := Path(p, x)[i]; y in p && Rooted(p, y) && Depth(p, y) == i && Path(p, y) == Path(p, x)[..i + 1]
    decreases Depth(p, x)
  {
    DepthStep(p, x);
    var path := Path(p, x);
    if p[x].Some? {
      PathShape(p, p[x].value);
      var up := Path(p, p[x].value);
      forall i | 0 <= i < |path|
        ensures var y := path[i]; y in p && Rooted(p, y) && Depth(p, y) == i && Path(p, y) == path[..i + 1]
      {
        if i < |up| {
          assert path[i] == up[i] && path[..i + 1] == up[..i + 1];
        } else {
          assert path[..i + 1] == path;
        }
      }
    } else {
      assert path[..1] == path;
    }
  }

  lemma PathDistinct(p: Parents, x: Id)
    requires Closed(p) && x in p && Rooted(p, x)
    ensures forall i, j | 0 <= i < j < |Path(p, x)| :: Path(p, x)[i] != Path(p, x)[j]
  {
    PathShape(p, x);
  }

  lemma {:induction false} DistinctBounded(s: seq<Id>, all: set<Id>)
    requires forall i, j | 0 <= i < j < |s| :: s[i] != s[j]
    requires forall i | 0 <= i < |s| :: s[i] in all
    ensures |s| <= |all|
    decreases |s|
  {
    if s != [] {
      var n := |s| - 1;
      DistinctBounded(s[..n], all - {s[n]});
    }
  }

  lemma DepthBounded(p: Parents, x: Id)
    requires Closed(p) && x in p && Rooted(p, x)
    ensures Depth(p, x) < |p|
  {
    PathShape(p, x);
    PathDistinct(p, x);
    DistinctBounded(Path(p, x), p.Keys);
  }

  /** `x` is `y` or one of its ancestors. */
  ghost predicate Above(p: Parents, x: Id, y: Id)
    requires Closed(p) && y in p && Rooted(p, y)
  {
    x in Path(p, y)
  }

  ghost predicate AllRooted(p: Parents)
    requires Closed(p)
  {
    forall x | x in p :: Rooted(p, x)
  }

  /** Two tables that agree on a chain give it the same path. */
  lemma {:induction false} PathFrame(p: Parents, q: Parents, x: Id)
    requires Closed(p) && Closed(q) && x in p && Rooted(p, x)
    requires forall y | y in Path(p, x) :: y in p && y in q && q[y] == p[y]
    ensures x in q && Rooted(q, x) && Path(q, x) == Path(p, x)
    decreases Depth(p, x)
  {
    DepthStep(p, x);
    PathShape(p, x);
    assert x in Path(p, x);
    RootedStep(q, x);
    if p[x].Some? {
      PathFrame(p, q, p[x].value);
    }
    DepthStep(q, x);
  }
}
