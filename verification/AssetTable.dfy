/** The server's asset table: parent pointers, what a move does to them, and what every request keeps. */
module AssetTable {
  import opened Text
  import opened ParentChain

  datatype Asset = Asset(project: Id, parent: Option<Id>, name: string)

  type Rows = map<Id, Asset>

  datatype UpdateRequest = UpdateRequest(name: Option<string>, parent: Option<Id>)

  datatype Response = Ok | Created | NoContent | NotFound | BadRequest | Conflict

  function ParentsOf(rows: Rows): Parents {
    map x | x in rows :: rows[x].parent
  }

  predicate SameProject(rows: Rows) {
    forall x | x in rows && rows[x].parent.Some? && rows[x].parent.value in rows ::
      rows[rows[x].parent.value].project == rows[x].project
  }

  /** The index `asset_project_parent_name_idx`. */
  predicate UniqueNames(rows: Rows) {
    forall x, y | x in rows && y in rows && rows[x] == rows[y] :: x == y
  }

  /** A forest per project. */
  ghost predicate WellFormed(rows: Rows) {
    && Closed(ParentsOf(rows)) && AllRooted(ParentsOf(rows))
    && SameProject(rows) && UniqueNames(rows)
  }

  /** What a move asks for: an existing node of the same project, outside the subtree of the moved node. */
  ghost predicate Allowed(rows: Rows, x: Id, parent: Id)
    requires WellFormed(rows) && x in rows
  {
    parent in rows && rows[parent].project == rows[x].project && !Above(ParentsOf(rows), x, parent)
  }

  predicate Clashes(rows: Rows, x: Id, asset: Asset) {
    exists y | y in rows :: y != x && rows[y] == asset
  }

  /** `UpdateOne` on the fields that structure the tree. */
  ghost function Update(rows: Rows, x: Id, request: UpdateRequest): (Rows, Response)
    requires WellFormed(rows)
  {
    if x !in rows then (rows, NotFound)
    else if request.parent.Some? && !Allowed(rows, x, request.parent.value) then (rows, BadRequest)
    else if request.name.Some? && IsBlank(Trim(request.name.value)) then (rows, BadRequest)
    else
      var name := if request.name.Some? then Trim(request.name.value) else rows[x].name;
      var asset := Asset(rows[x].project, request.parent, name);
      if Clashes(rows, x, asset) then (rows, Conflict) else (rows[x := asset], Ok)
  }

  // ---------------------------------------------------------------------------
  // Moving a node
  // ---------------------------------------------------------------------------

  /** The path a moved node hangs from. */
  ghost function Base(p: Parents, parent: Option<Id>): seq<Id>
    requires Closed(p) && AllRooted(p) && (parent.Some? ==> parent.value in p)
  {
    if parent.None? then [] else Path(p, parent.value)
  }

  ghost predicate CanMove(p: Parents, x: Id, parent: Option<Id>) {
    && Closed(p) && AllRooted(p) && x in p
    && (parent.Some? ==> parent.value in p && !Above(p, x, parent.value))
  }

  /** The part of the path of `n` from its ancestor `x` down. */
  ghost function Below(p: Parents, x: Id, n: Id): (r: seq<Id>)
    requires Closed(p) && n in p && Rooted(p, n) && Above(p, x, n)
    ensures x in p && Rooted(p, x)
    ensures |Path(p, x)| == Depth(p, x) + 1 && |r| > 0 && Depth(p, x) + |r| == Depth(p, n) + 1
    ensures r[0] == x && r[|r| - 1] == n && Path(p, n) == Path(p, x)[..Depth(p, x)] + r
  {
    PathShape(p, n);
    PathShape(p, x);
    var i := Depth(p, x);
    assert Path(p, x)[..i] == Path(p, n)[..i];
    Path(p, n)[i..]
  }

  /** A step down from a node below `x`. */
  lemma BelowStep(p: Parents, x: Id, n: Id)
    requires Closed(p) && n in p && Rooted(p, n) && Above(p, x, n) && n != x
    ensures p[n].Some? && Rooted(p, p[n].value) && Depth(p, n) == Depth(p, p[n].value) + 1
    ensures Above(p, x, p[n].value) && Below(p, x, n) == Below(p, x, p[n].value) + [n]
  {
    DepthStep(p, n);
    PathShape(p, p[n].value);
    assert Path(p, n) == Path(p, p[n].value) + [n];
  }

  lemma BelowSelf(p: Parents, x: Id)
    requires Closed(p) && x in p && Rooted(p, x)
    ensures Above(p, x, x) && Below(p, x, x) == [x]
  {
    PathShape(p, x);
  }

  /** A node outside the moved subtree keeps its path. */
  lemma MoveOutside(p: Parents, x: Id, parent: Option<Id>, n: Id)
    requires CanMove(p, x, parent) && n in p && !Above(p, x, n)
    ensures Closed(p[x := parent]) && Rooted(p[x := parent], n) && Path(p[x := parent], n) == Path(p, n)
  {
    PathShape(p, n);
    PathFrame(p, p[x := parent], n);
  }

  /** One more node at the end of a path, in the old table and in the new one. */
  lemma PathSnoc(q: Parents, n: Id, up: Id, base: seq<Id>, inner: seq<Id>)
    requires Closed(q) && n in q && q[n] == Some(up) && Rooted(q, up) && Path(q, up) == base + inner
    ensures Rooted(q, n) && Path(q, n) == base + (inner + [n])
  {
    RootedStep(q, n);
    DepthStep(q, n);
  }

  lemma MoveRoot(p: Parents, x: Id, parent: Option<Id>)
    requires CanMove(p, x, parent)
    ensures var q := p[x := parent];
            Closed(q) && Rooted(q, x) && Path(q, x) == Base(p, parent) + [x]
  {
    var q := p[x := parent];
    if parent.Some? {
      MoveOutside(p, x, parent, parent.value);
      assert Base(p, parent) + [] == Base(p, parent) && [] + [x] == [x];
      PathSnoc(q, x, parent.value, Base(p, parent), []);
    } else {
      RootedStep(q, x);
      DepthStep(q, x);
    }
  }

  /** A node of the moved subtree hangs from the new parent, by the same inner path. */
  lemma {:induction false} MoveInside(p: Parents, x: Id, parent: Option<Id>, n: Id)
    requires CanMove(p, x, parent) && n in p && Above(p, x, n)
    ensures var q := p[x := parent];
            Closed(q) && Rooted(q, n) && Path(q, n) == Base(p, parent) + Below(p, x, n)
    decreases Depth(p, n)
  {
    if n == x {
      BelowSelf(p, x);
      MoveRoot(p, x, parent);
    } else {
      BelowStep(p, x, n);
      MoveInside(p, x, parent, p[n].value);
      PathSnoc(p[x := parent], n, p[n].value, Base(p, parent), Below(p, x, p[n].value));
    }
  }

  ghost predicate MovedBelow(p: Parents, q: Parents, x: Id, parent: Option<Id>, n: Id)
    requires Closed(p) && AllRooted(p) && Closed(q) && AllRooted(q) && n in p && n in q && x in p && x in q
    requires parent.Some? ==> parent.value in p
  {
    && (Above(q, x, n) <==> Above(p, x, n))
    && (!Above(p, x, n) ==> Path(q, n) == Path(p, n))
    && (Above(p, x, n) ==>
          && Path(q, n) == Base(p, parent) + Below(p, x, n) && Below(q, x, n) == Below(p, x, n)
          && Depth(q, n) - Depth(p, n) == Depth(q, x) - Depth(p, x) == |Base(p, parent)| - Depth(p, x))
  }

  lemma MoveRooted(p: Parents, x: Id, parent: Option<Id>)
    requires CanMove(p, x, parent)
    ensures Closed(p[x := parent]) && AllRooted(p[x := parent])
  {
    var q := p[x := parent];
    forall n | n in q
      ensures Rooted(q, n)
    {
      if Above(p, x, n) { MoveInside(p, x, parent, n); } else { MoveOutside(p, x, parent, n); }
    }
  }

  lemma MoveOne(p: Parents, x: Id, parent: Option<Id>, n: Id)
    requires CanMove(p, x, parent) && n in p && Closed(p[x := parent]) && AllRooted(p[x := parent])
    ensures MovedBelow(p, p[x := parent], x, parent, n)
  {
    var q := p[x := parent];
    MoveRoot(p, x, parent);
    PathShape(q, x);
    PathShape(p, n);
    PathShape(q, n);
    if Above(p, x, n) {
      MoveOneInside(p, x, parent, n);
    } else {
      MoveOutside(p, x, parent, n);
      hide Base, Below;
    }
  }

  lemma MoveOneInside(p: Parents, x: Id, parent: Option<Id>, n: Id)
    requires CanMove(p, x, parent) && n in p && Above(p, x, n)
    requires Closed(p[x := parent]) && AllRooted(p[x := parent])
    ensures MovedBelow(p, p[x := parent], x, parent, n)
  {
    var q := p[x := parent];
    MoveRoot(p, x, parent);
    PathShape(q, x);
    PathShape(p, n);
    PathShape(q, n);
    MoveInside(p, x, parent, n);
    var base, inner := Base(p, parent), Below(p, x, n);
    assert Path(q, n)[|base|] == inner[0] == x;
    assert Path(q, n)[|base|..] == inner;
  }

  /**
   * A move keeps the forest: every chain still ends, the moved subtree keeps its nodes and its inner paths, all its
   * depths shift by one constant, and every other path stays as it was.
   */
  lemma MoveKeepsForest(p: Parents, x: Id, parent: Option<Id>)
    requires CanMove(p, x, parent)
    ensures Closed(p[x := parent]) && AllRooted(p[x := parent])
    ensures forall n | n in p :: MovedBelow(p, p[x := parent], x, parent, n)
  {
    MoveRooted(p, x, parent);
    forall n | n in p
      ensures MovedBelow(p, p[x := parent], x, parent, n)
    {
      MoveOne(p, x, parent, n);
    }
  }

  // ---------------------------------------------------------------------------
  // What the requests keep
  // ---------------------------------------------------------------------------

  lemma ReplaceWellFormed(rows: Rows, x: Id, asset: Asset)
    requires WellFormed(rows) && x in rows && asset.project == rows[x].project && !Clashes(rows, x, asset)
    requires asset.parent.Some? ==> Allowed(rows, x, asset.parent.value)
    ensures CanMove(ParentsOf(rows), x, asset.parent)
    ensures ParentsOf(rows[x := asset]) == ParentsOf(rows)[x := asset.parent]
    ensures WellFormed(rows[x := asset])
  {
    assert ParentsOf(rows[x := asset]) == ParentsOf(rows)[x := asset.parent];
    MoveRooted(ParentsOf(rows), x, asset.parent);
    ReplaceProject(rows, x, asset);
    ReplaceNames(rows, x, asset);
    hide Closed, AllRooted, SameProject, UniqueNames, Clashes, Above;
  }

  lemma ReplaceProject(rows: Rows, x: Id, asset: Asset)
    requires SameProject(rows) && x in rows && asset.project == rows[x].project
    requires asset.parent.Some? ==> asset.parent.value in rows && rows[asset.parent.value].project == asset.project
    ensures SameProject(rows[x := asset])
  {
  }

  lemma ReplaceNames(rows: Rows, x: Id, asset: Asset)
    requires UniqueNames(rows) && x in rows && !Clashes(rows, x, asset)
    ensures UniqueNames(rows[x := asset])
  {
  }

  /** The guard of `UpdateOne` keeps the table a forest per project, and the move is one `MoveKeepsForest` speaks of. */
  lemma UpdateWellFormed(rows: Rows, x: Id, request: UpdateRequest)
    requires WellFormed(rows)
    ensures WellFormed(Update(rows, x, request).0)
    ensures Update(rows, x, request).1.Ok? ==>
              && CanMove(ParentsOf(rows), x, request.parent)
              && ParentsOf(Update(rows, x, request).0) == ParentsOf(rows)[x := request.parent]
    ensures Update(rows, x, request).1.Ok? ==>
              var rows' := Update(rows, x, request).0;
              && x in rows && x in rows' && rows' == rows[x := rows'[x]] && rows'[x].project == rows[x].project
              && (if request.name.None? then rows'[x].name == rows[x].name else !IsBlank(rows'[x].name))
    ensures !Update(rows, x, request).1.Ok? ==> Update(rows, x, request).0 == rows
  {
    hide Trim, WellFormed, Allowed, Clashes, CanMove;
    var (rows', response) := Update(rows, x, request);
    if response.Ok? {
      ReplaceWellFormed(rows, x, rows'[x]);
    }
  }

  /** The tables `POST` can produce: the key is new, the foreign key holds and the index has room. */
  predicate Storable(rows: Rows, id: Id, asset: Asset) {
    && id !in rows
    && (asset.parent.Some? ==> asset.parent.value in rows || asset.parent.value == id)
    && !Clashes(rows, id, asset)
  }

  /** A node that is its own parent is on no path from a root. */
  lemma SelfParentUnrooted(p: Parents, x: Id)
    requires Closed(p) && x in p && p[x] == Some(x)
    ensures !Rooted(p, x)
  {
    if Rooted(p, x) {
      DepthStep(p, x);
      assert false;
    }
  }

  /** A new row disturbs no earlier path, and is rooted unless it is its own parent. */
  lemma InsertRooted(p: Parents, id: Id, parent: Option<Id>)
    requires Closed(p) && AllRooted(p) && id !in p && (parent.Some? ==> parent.value in p || parent.value == id)
    ensures Closed(p[id := parent]) && (AllRooted(p[id := parent]) <==> parent != Some(id))
  {
    var q := p[id := parent];
    forall n | n in p
      ensures Rooted(q, n)
    {
      PathShape(p, n);
      PathFrame(p, q, n);
    }
    if parent == Some(id) {
      SelfParentUnrooted(q, id);
    } else {
      RootedStep(q, id);
    }
  }

  /**
   * `CreateOne` checks no parent: the table stays well formed exactly when the parent is absent or an earlier row of
   * the same project.
   */
  lemma InsertWellFormed(rows: Rows, id: Id, asset: Asset)
    requires WellFormed(rows) && Storable(rows, id, asset)
    ensures WellFormed(rows[id := asset]) <==>
              (asset.parent.Some? ==> asset.parent.value in rows && rows[asset.parent.value].project == asset.project)
  {
    var rows' := rows[id := asset];
    assert ParentsOf(rows') == ParentsOf(rows)[id := asset.parent];
    InsertRooted(ParentsOf(rows), id, asset.parent);
    InsertRest(rows, id, asset);
    hide UniqueNames, SameProject, Closed, AllRooted, Clashes;
  }

  lemma InsertRest(rows: Rows, id: Id, asset: Asset)
    requires Closed(ParentsOf(rows)) && SameProject(rows) && UniqueNames(rows) && Storable(rows, id, asset)
    ensures UniqueNames(rows[id := asset])
    ensures asset.parent != Some(id) ==>
              (SameProject(rows[id := asset]) <==>
               (asset.parent.Some? ==> rows[asset.parent.value].project == asset.project))
  {
    var rows' := rows[id := asset];
    forall x | x in rows
      ensures rows'[x] == rows[x] && (rows[x].parent.Some? ==> rows[x].parent.value in rows)
    {
      assert ParentsOf(rows)[x] == rows[x].parent;
    }
    if SameProject(rows') && asset.parent.Some? && asset.parent.value != id {
      assert id in rows' && rows'[id].parent.value in rows';
    }
  }

  /** `DeleteOne`: the foreign key cascades to the whole subtree. */
  ghost function Delete(rows: Rows, id: Id): Rows
    requires WellFormed(rows)
  {
    map y | y in rows && !Above(ParentsOf(rows), id, y) :: rows[y]
  }

  /** What a delete takes away: the row itself, and every row whose parent goes. All others stay as they are. */
  lemma DeleteExactly(rows: Rows, id: Id, y: Id)
    requires WellFormed(rows)
    ensures id !in Delete(rows, id) && (id !in rows ==> Delete(rows, id) == rows)
    ensures y in Delete(rows, id) ==> y in rows && Delete(rows, id)[y] == rows[y]
    ensures y in rows ==>
              (y in Delete(rows, id) <==>
               y != id && (rows[y].parent.Some? ==> rows[y].parent.value in Delete(rows, id)))
  {
    var p := ParentsOf(rows);
    forall n | n in rows
      ensures Above(p, id, n) <==> n == id || (p[n].Some? && Above(p, id, p[n].value))
    {
      DepthStep(p, n);
      PathShape(p, n);
      assert Path(p, n)[|Path(p, n)| - 1] == n;
    }
    if id !in rows {
      forall n | n in rows
        ensures !Above(p, id, n)
      {
        PathShape(p, n);
      }
    }
  }

  lemma DeleteOneNode(rows: Rows, id: Id, n: Id)
    requires WellFormed(rows) && n in Delete(rows, id)
    ensures var p, q := ParentsOf(rows), ParentsOf(Delete(rows, id));
            && q[n] == p[n] && (p[n].Some? ==> p[n].value in q)
            && (forall y | y in Path(p, n) :: y in q && q[y] == p[y])
  {
    var p := ParentsOf(rows);
    PathShape(p, n);
    DepthStep(p, n);
    forall y | y in Path(p, n)
      ensures y in Delete(rows, id)
    {
      var i :| 0 <= i < |Path(p, n)| && Path(p, n)[i] == y;
      assert Path(p, y) == Path(p, n)[..i + 1];
    }
    if p[n].Some? {
      PathShape(p, p[n].value);
      assert p[n].value in Path(p, n);
    }
  }

  /** What a delete leaves keeps its paths. */
  lemma DeleteWellFormed(rows: Rows, id: Id)
    requires WellFormed(rows)
    ensures WellFormed(Delete(rows, id))
    ensures forall n | n in Delete(rows, id) :: Path(ParentsOf(Delete(rows, id)), n) == Path(ParentsOf(rows), n)
  {
    var p, q := ParentsOf(rows), ParentsOf(Delete(rows, id));
    forall n | n in q
      ensures q[n].Some? ==> q[n].value in q
    {
      DeleteOneNode(rows, id, n);
    }
    forall n | n in q
      ensures Rooted(q, n) && Path(q, n) == Path(p, n)
    {
      DeleteOneNode(rows, id, n);
      PathFrame(p, q, n);
    }
  }
}
