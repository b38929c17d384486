/**
 * The loops of the dashboard's asset tree, proved against the forest they build, and the
 * forest of a well-formed server table.
 */
module AssetBuild {
  import opened Text
  import opened ParentChain
  import opened AssetView
  import opened AssetForest
  import opened AssetOrder
  import AssetTable

  lemma {:induction false} ByIdKeys(assets: seq<Asset>)
    ensures forall x | x in ById(assets) :: ById(assets)[x].id == x
  {
    if assets != [] {
      ByIdKeys(assets[..|assets| - 1]);
    }
  }

  lemma {:induction false} SelectSnoc(order: seq<Id>, p: Parents, parent: Option<Id>, x: Id)
    ensures Select(order + [x], p, parent) == Select(order, p, parent) + (if x in p && p[x] == parent then [x] else [])
  {
    if order == [] {
      assert ([] + [x])[1..] == [];
    } else {
      assert (order + [x])[0] == order[0] && (order + [x])[1..] == order[1..] + [x];
      SelectSnoc(order[1..], p, parent, x);
    }
  }

  /**
   * `buildAssetTree`, with the comparator of names as a collation key. For every list the roots are the assets without
   * a listed parent, the children of a node those that name it, and siblings are sorted by name.
   */
  method BuildAssetTree(assets: seq<Asset>, collate: string -> real) returns (forest: seq<Tree>)
    ensures forest == Forest(FlatOf(assets, collate))
    ensures RootsNamed(assets, forest) && ChildrenNamed(assets, forest)
    ensures Ordered(assets, collate, forest)
  {
    hide RootsNamed, ChildrenNamed, Ordered, Siblings, Select, Sort, Grow, Forest, AtDepth, Nested, Closed;
    hide ById, Order, FlatOk, ParentsOf, KeyOf;
    var byId, order := MapById(assets);
    var f := Flat(order, ParentsOf(byId), KeyOf(byId, collate));
    assert f == FlatOf(assets, collate);
    var children, roots := NestByParent(byId, f);
    SortedRoots(f, roots);
    forest := SortRecursively(f, children, roots, 0);
    ForestOfList(assets, collate);
  }

  /** The map by id, and its keys in the order a JavaScript map has them. */
  method MapById(assets: seq<Asset>) returns (byId: map<Id, Asset>, order: seq<Id>)
    ensures byId == ById(assets) && order == Order(assets)
  {
    byId, order := map[], [];
    for i := 0 to |assets|
      invariant byId == ById(assets[..i]) && order == Order(assets[..i])
    {
      assert assets[..i + 1][..i] == assets[..i];
      if assets[i].id !in byId {
        order := order + [assets[i].id];
      }
      byId := byId[assets[i].id := assets[i]];
    }
    assert assets[..|assets|] == assets;
  }

  lemma SortedRoots(f: Flat, roots: seq<Id>)
    requires FlatOk(f) && roots == Select(f.order, f.parents, None)
    ensures AtDepth(f, Siblings(f, None), 0) && Sort(roots, f.key) == Siblings(f, None)
    ensures Forest(f) == Grow(f, Siblings(f, None), 0)
  {
    RootsAtTop(f);
    hide FlatOk, Select, Sort, AtDepth;
  }

  ghost predicate Nested(f: Flat, children: map<Id, seq<Id>>, i: nat)
    requires i <= |f.order|
  {
    && children.Keys == f.parents.Keys
    && forall x | x in children :: children[x] == Select(f.order[..i], f.parents, Some(x))
  }

  function Push(children: map<Id, seq<Id>>, parent: Option<Id>, node: Id): map<Id, seq<Id>>
    requires parent.Some? ==> parent.value in children
  {
    if parent.Some? then children[parent.value := children[parent.value] + [node]] else children
  }

  lemma SelectStep(f: Flat, parent: Option<Id>, i: nat)
    requires i < |f.order| && f.order[i] in f.parents
    ensures Select(f.order[..i + 1], f.parents, parent)
         == Select(f.order[..i], f.parents, parent) + (if f.parents[f.order[i]] == parent then [f.order[i]] else [])
  {
    assert f.order[..i + 1] == f.order[..i] + [f.order[i]];
    SelectSnoc(f.order[..i], f.parents, parent, f.order[i]);
  }

  lemma NestedStep(f: Flat, children: map<Id, seq<Id>>, i: nat)
    requires Closed(f.parents) && i < |f.order| && f.order[i] in f.parents && Nested(f, children, i)
    ensures f.parents[f.order[i]].Some? ==> f.parents[f.order[i]].value in children
    ensures Nested(f, Push(children, f.parents[f.order[i]], f.order[i]), i + 1)
  {
    hide Select;
    var node := f.order[i];
    var children' := Push(children, f.parents[node], node);
    forall x | x in children'
      ensures children'[x] == Select(f.order[..i + 1], f.parents, Some(x))
    {
      SelectStep(f, Some(x), i);
    }
  }

  lemma Listed(f: Flat, i: nat)
    requires FlatOk(f) && i < |f.order|
    ensures f.order[i] in f.parents
  {
  }

  lemma NestedNone(f: Flat, children: map<Id, seq<Id>>)
    requires children.Keys == f.parents.Keys && forall x | x in children :: children[x] == []
    ensures Nested(f, children, 0) && Select(f.order[..0], f.parents, None) == []
  {
  }

  lemma ParentsAt(byId: map<Id, Asset>, x: Id)
    requires x in byId
    ensures ParentsOf(byId)[x] == ParentOf(byId, x)
  {
  }

  /** One turn of the second loop. */
  method PushNode(children: map<Id, seq<Id>>, roots: seq<Id>, parent: Option<Id>, node: Id)
    returns (children': map<Id, seq<Id>>, roots': seq<Id>)
    requires parent.Some? ==> parent.value in children
    ensures children' == Push(children, parent, node)
    ensures roots' == roots + if parent == None then [node] else []
  {
    children', roots' := children, roots;
    if parent.Some? {
      children' := children[parent.value := children[parent.value] + [node]];
    } else {
      roots' := roots + [node];
    }
  }

  /** The state of the second loop after `i` turns. */
  ghost predicate Pushed(f: Flat, children: map<Id, seq<Id>>, roots: seq<Id>, i: nat) {
    i <= |f.order| && Nested(f, children, i) && roots == Select(f.order[..i], f.parents, None)
  }

  lemma PushedStep(byId: map<Id, Asset>, f: Flat, children: map<Id, seq<Id>>, roots: seq<Id>, i: nat)
    requires FlatOk(f) && f.parents == ParentsOf(byId) && i < |f.order| && Pushed(f, children, roots, i)
    ensures f.order[i] in byId
    ensures var node := f.order[i];
            var parent := ParentOf(byId, node);
            && (parent.Some? ==> parent.value in children)
            && Pushed(f, Push(children, parent, node), roots + (if parent == None then [node] else []), i + 1)
  {
    Listed(f, i);
    ParentsAt(byId, f.order[i]);
    NestedStep(f, children, i);
    SelectStep(f, None, i);
    hide Select, FlatOk, Nested, ParentsOf, ParentOf, Push;
  }

  /** The second loop: each node is pushed to its parent's children, or to the roots. */
  method NestByParent(byId: map<Id, Asset>, f: Flat)
    returns (children: map<Id, seq<Id>>, roots: seq<Id>)
    requires FlatOk(f) && f.parents == ParentsOf(byId)
    ensures roots == Select(f.order, f.parents, None)
    ensures Nested(f, children, |f.order|)
  {
    children := map x | x in byId :: [];
    roots := [];
    NestedNone(f, children);
    assert Pushed(f, children, roots, 0);
    hide Pushed, ParentsOf, FlatOk;
    for i := 0 to |f.order|
      invariant Pushed(f, children, roots, i)
    {
      PushedStep(byId, f, children, roots, i);
      children, roots := PushNode(children, roots, ParentOf(byId, f.order[i]), f.order[i]);
    }
    PushedAll(f, children, roots);
  }

  lemma PushedAll(f: Flat, children: map<Id, seq<Id>>, roots: seq<Id>)
    requires Pushed(f, children, roots, |f.order|)
    ensures roots == Select(f.order, f.parents, None) && Nested(f, children, |f.order|)
  {
    assert f.order[..|f.order|] == f.order;
  }

  lemma SiblingsAre(f: Flat, children: map<Id, seq<Id>>, x: Id)
    requires FlatOk(f) && Nested(f, children, |f.order|) && x in f.parents
    ensures x in children && Sort(children[x], f.key) == Siblings(f, Some(x))
  {
    hide FlatOk, Select, Sort;
    assert f.order[..|f.order|] == f.order;
  }

  lemma GrowNothing(f: Flat, depth: nat)
    requires FlatOk(f)
    ensures AtDepth(f, [], depth) && Grow(f, [], depth) == []
  {
  }

  /** `sortRecursively`: each array of siblings is sorted, then those of its nodes. */
  method SortRecursively(f: Flat, children: map<Id, seq<Id>>, ids: seq<Id>, ghost depth: nat) returns (nodes: seq<Tree>)
    requires FlatOk(f) && Nested(f, children, |f.order|) && AtDepth(f, Sort(ids, f.key), depth)
    ensures nodes == Grow(f, Sort(ids, f.key), depth)
    decreases |f.parents| + 1 - depth
  {
    hide Grow, Siblings, FlatOk, Nested, AtDepth, Sort, Place;
    var sorted := Sort(ids, f.key);
    var i := 0;
    nodes := [];
    assert sorted[0..] == sorted;
    while i < |sorted|
      invariant i <= |sorted| && AtDepth(f, sorted[i..], depth)
      invariant nodes + Grow(f, sorted[i..], depth) == Grow(f, sorted, depth)
    {
      ghost var node := GrowStep(f, sorted[i..], depth, []);
      assert sorted[i..][1..] == sorted[i + 1..] && sorted[i..][0] == sorted[i];
      SiblingsAre(f, children, sorted[i]);
      var sub := SortRecursively(f, children, children[sorted[i]], depth + 1);
      assert [Node(sorted[i], sub)] == [node];
      nodes := nodes + [Node(sorted[i], sub)];
      i := i + 1;
    }
    assert sorted[i..] == [];
    GrowNothing(f, depth);
  }

  /** `assetPath` */
  method AssetPath(assets: seq<Asset>, assetId: Id) returns (path: seq<Asset>)
    ensures assetId !in ById(assets) ==> path == []
    ensures assetId in ById(assets) ==>
              var trace := Trace(ParentsOf(ById(assets)), assetId, {});
              |path| == |trace| && forall i | 0 <= i < |path| :: path[i].id == trace[i] && path[i] in ById(assets).Values
  {
    var byId: map<Id, Asset> := ById(assets);
    ByIdKeys(assets);
    ghost var p := ParentsOf(byId);
    path := [];
    ghost var ids: seq<Id> := [];
    var cursor := if assetId in byId then Some(byId[assetId]) else None;
    var seen: set<Id> := {};
    while cursor.Some? && cursor.value.id !in seen
      invariant assetId !in byId ==> cursor.None? && path == []
      invariant cursor.Some? ==> cursor.value.id in byId && byId[cursor.value.id] == cursor.value
      invariant assetId in byId ==>
        (if cursor.Some? then Trace(p, cursor.value.id, seen) else []) + ids == Trace(p, assetId, {})
      invariant |path| == |ids| && forall i | 0 <= i < |path| :: path[i].id == ids[i] && path[i] in byId.Values
      decreases byId.Keys - seen, cursor.Some?
    {
      var asset := cursor.value;
      seen := seen + {asset.id};
      path, ids := [asset] + path, [asset.id] + ids;
      cursor := if ParentOf(byId, asset.id).Some? then Some(byId[ParentOf(byId, asset.id).value]) else None;
    }
  }

  // ---------------------------------------------------------------------------
  // The forest of a project of the server's table
  // ---------------------------------------------------------------------------

  /** What `GET` returns for a project: its rows, each once or more, in any order. */
  ghost predicate Listing(rows: AssetTable.Rows, project: Id, list: seq<Asset>) {
    && (forall i | 0 <= i < |list| ::
          && list[i].id in rows && rows[list[i].id].project == project
          && list[i].parentId == rows[list[i].id].parent)
    && (forall x | x in rows && rows[x].project == project :: exists i :: 0 <= i < |list| && list[i].id == x)
  }

  lemma {:induction false} ByIdEntries(list: seq<Asset>)
    ensures forall i | 0 <= i < |list| :: list[i].id in ById(list)
    ensures forall x | x in ById(list) :: exists i :: 0 <= i < |list| && list[i].id == x && ById(list)[x] == list[i]
  {
    if list != [] {
      var n := |list| - 1;
      ByIdEntries(list[..n]);
      forall x | x in ById(list)
        ensures exists i :: 0 <= i < |list| && list[i].id == x && ById(list)[x] == list[i]
      {
        if x == list[n].id {
          assert ById(list)[x] == list[n];
        } else {
          var i :| 0 <= i < |list[..n]| && list[..n][i].id == x && ById(list[..n])[x] == list[..n][i];
          assert list[i].id == x && ById(list)[x] == list[i];
        }
      }
    }
  }

  lemma ListingParents(rows: AssetTable.Rows, project: Id, list: seq<Asset>)
    requires AssetTable.WellFormed(rows) && "" !in rows && Listing(rows, project, list)
    ensures forall x :: x in ById(list) <==> x in rows && rows[x].project == project
    ensures forall x | x in ById(list) :: ParentsOf(ById(list))[x] == rows[x].parent
  {
    ByIdEntries(list);
    forall x | x in ById(list)
      ensures x in rows && rows[x].project == project && ParentsOf(ById(list))[x] == rows[x].parent
    {
      var i :| 0 <= i < |list| && list[i].id == x && ById(list)[x] == list[i];
      assert AssetTable.ParentsOf(rows)[x] == rows[x].parent;
      if rows[x].parent.Some? {
        var k :| 0 <= k < |list| && list[k].id == rows[x].parent.value;
      }
    }
  }

  /** A chain never leaves its project. */
  lemma {:induction false} PathProject(rows: AssetTable.Rows, x: Id)
    requires AssetTable.WellFormed(rows) && x in rows
    ensures var p := AssetTable.ParentsOf(rows);
            forall y | y in Path(p, x) :: y in rows && rows[y].project == rows[x].project
    decreases Depth(AssetTable.ParentsOf(rows), x)
  {
    var p := AssetTable.ParentsOf(rows);
    DepthStep(p, x);
    if p[x].Some? {
      PathProject(rows, p[x].value);
    }
  }

  /**
   * On a well-formed table the dashboard shows every asset of the project exactly once, and nothing else, each at its
   * depth in the server's table.
   */
  lemma ServerForest(rows: AssetTable.Rows, project: Id, list: seq<Asset>, collate: string -> real, m: Id)
    requires AssetTable.WellFormed(rows) && "" !in rows && Listing(rows, project, list)
    ensures var forest := Forest(FlatOf(list, collate));
            CountId(Place(forest, []), m) == if m in rows && rows[m].project == project then 1 else 0
    ensures m in rows && rows[m].project == project ==>
              var q, p := FlatOf(list, collate).parents, AssetTable.ParentsOf(rows);
              m in q && Rooted(q, m) && Path(q, m) == Path(p, m)
  {
    var f, p := FlatOf(list, collate), AssetTable.ParentsOf(rows);
    ListingParents(rows, project, list);
    ForestCounts(f, m);
    if m in rows && rows[m].project == project {
      PathProject(rows, m);
      forall y | y in Path(p, m)
        ensures y in p && y in f.parents && f.parents[y] == p[y]
      {
        assert y in ById(list);
      }
      PathFrame(p, f.parents, m);
    }
  }
}
