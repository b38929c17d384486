/**
 * Two updates at once: each passes its guard on the same table, then both are written. The server has no lock
 * around guard and write.
 */
module AssetRace {
  import opened Text
  import opened ParentChain
  import opened AssetTable
  import AssetWalk

  /** Who is above `n` after `x` has moved, for a node `y` that was not. */
  lemma MovedAbove(p: Parents, x: Id, parent: Option<Id>, y: Id, n: Id)
    requires CanMove(p, x, parent) && n in p && !Above(p, y, n)
    ensures var q := p[x := parent];
            && Closed(q) && Rooted(q, n)
            && (Above(q, y, n) <==> Above(p, x, n) && parent.Some? && Above(p, y, parent.value))
  {
    if Above(p, x, n) {
      MoveInside(p, x, parent, n);
      assert forall i | 0 <= i < |Below(p, x, n)| :: Below(p, x, n)[i] in Path(p, n);
    } else {
      MoveOutside(p, x, parent, n);
    }
  }

  /** Redirecting `y` itself does not take it off the paths it is on. */
  lemma {:induction false} AboveKept(q: Parents, r: Parents, y: Id, n: Id)
    requires Closed(q) && Closed(r) && q.Keys == r.Keys && (forall z | z in q && z != y :: r[z] == q[z])
    requires n in q && Rooted(q, n) && Rooted(r, n) && Above(q, y, n)
    ensures Above(r, y, n)
    decreases Depth(q, n)
  {
    DepthStep(q, n);
    DepthStep(r, n);
    if n == y {
      PathShape(r, y);
    } else {
      AboveKept(q, r, y, q[n].value);
    }
  }

  /** A node hung under its own subtree has no root any more. */
  lemma CycleCloses(q: Parents, y: Id, n: Id)
    requires Closed(q) && y in q && n in q && Rooted(q, n) && Above(q, y, n)
    ensures Closed(q[y := Some(n)]) && !Rooted(q[y := Some(n)], y)
  {
    var r := q[y := Some(n)];
    if Rooted(r, y) {
      DepthStep(r, y);
      AboveKept(q, r, y, n);
      PathShape(r, n);
      assert false;
    }
  }

  /**
   * Two moves that were both allowed on the same table leave a forest exactly when they are not each into the subtree
   * of the other.
   */
  lemma RacingMoves(p: Parents, x: Id, a: Option<Id>, y: Id, b: Option<Id>)
    requires CanMove(p, x, a) && CanMove(p, y, b)
    ensures var r := p[x := a][y := b];
            && Closed(r)
            && (AllRooted(r) <==>
                !(x != y && a.Some? && b.Some? && Above(p, y, a.value) && Above(p, x, b.value)))
  {
    var q := p[x := a];
    MoveRooted(p, x, a);
    if x == y {
      assert q[y := b] == p[y := b];
      MoveRooted(p, y, b);
    } else if b.None? {
      MoveRooted(q, y, b);
    } else {
      MovedAbove(p, x, a, y, b.value);
      if Above(q, y, b.value) {
        CycleCloses(q, y, b.value);
      } else {
        MoveRooted(q, y, b);
      }
    }
  }

  /** The smallest race: two roots of a project, each moved under the other. */
  lemma RaceExists(project: Id, x: Id, y: Id)
    requires x != y
    ensures var rows := map[x := Asset(project, None, "x"), y := Asset(project, None, "y")];
            && WellFormed(rows) && Allowed(rows, x, y) && Allowed(rows, y, x)
            && !WellFormed(rows[x := Asset(project, Some(y), "x")][y := Asset(project, Some(x), "y")])
  {
    var rows := map[x := Asset(project, None, "x"), y := Asset(project, None, "y")];
    var p := ParentsOf(rows);
    RootedStep(p, x);
    RootedStep(p, y);
    assert Path(p, x) == [x] && Path(p, y) == [y];
    RacingMoves(p, x, Some(y), y, Some(x));
    var raced := rows[x := Asset(project, Some(y), "x")][y := Asset(project, Some(x), "y")];
    assert ParentsOf(raced) == p[x := Some(y)][y := Some(x)];
  }

  /** From then on, a move of any other asset of the project under either of the two never gets an answer. */
  lemma RaceNeverEnds(rows: Rows, x: Id, y: Id, z: Id)
    requires x in rows && y in rows && z in rows && x != z && y != z
    requires rows[x].project == rows[y].project == rows[z].project
    requires rows[x].parent == Some(y) && rows[y].parent == Some(x)
    ensures !AssetWalk.WalkEnds(rows, z, x) && !AssetWalk.WalkEnds(rows, z, y)
  {
    AssetWalk.CircleNeverEnds(rows, z, {x, y}, x);
    AssetWalk.CircleNeverEnds(rows, z, {x, y}, y);
  }
}
