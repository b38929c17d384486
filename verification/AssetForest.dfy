/**
 * The dashboard's asset tree: building a forest from a flat list that may hold missing
 * parents, self-parents and cycles, and printing the path of an asset.
 */
module AssetForest {
  import opened Text
  import opened ParentChain
  import opened AssetView

  datatype Asset = Asset(id: Id, parentId: Option<Id>, name: string)

  // ---------------------------------------------------------------------------
  // The map by id
  // ---------------------------------------------------------------------------

  /** `new Map`: the last asset with an id wins. */
  function ById(assets: seq<Asset>): map<Id, Asset> {
    if assets == [] then map[]
    else var n := |assets| - 1; ById(assets[..n])[assets[n].id := assets[n]]
  }

  /** The keys of a JavaScript map in insertion order: an id keeps the place where it first appeared. */
  function Order(assets: seq<Asset>): (order: seq<Id>)
    ensures forall x :: x in order <==> x in ById(assets)
    ensures forall i, j | 0 <= i < j < |order| :: order[i] != order[j]
  {
    if assets == [] then []
    else
      var n := |assets| - 1;
      var order := Order(assets[..n]);
      if assets[n].id in order then order else order + [assets[n].id]
  }

  /** `parentId ? byId.get(parentId) : undefined`: a missing, empty or unlisted parent is no parent. */
  function ParentOf(byId: map<Id, Asset>, x: Id): Option<Id>
    requires x in byId
  {
    var parent := byId[x].parentId;
    if parent.Some? && parent.value != "" && parent.value in byId then parent else None
  }

  function ParentsOf(byId: map<Id, Asset>): (p: Parents)
    ensures Closed(p) && p.Keys == byId.Keys
  {
    map x | x in byId :: ParentOf(byId, x)
  }

  /** The ids with a given parent, in map order; with no parent, the roots. */
  function Select(order: seq<Id>, p: Parents, parent: Option<Id>): (r: seq<Id>)
    ensures forall x :: x in r <==> x in order && x in p && p[x] == parent
  {
    if order == [] then []
    else (if order[0] in p && p[order[0]] == parent then [order[0]] else []) + Select(order[1..], p, parent)
  }

  // ---------------------------------------------------------------------------
  // Sorting siblings by name
  // ---------------------------------------------------------------------------

  /** A stable sort by collation key; the comparator is any total preorder of names. */
  function Insert(x: Id, sorted: seq<Id>, key: Id -> real): seq<Id> {
    if sorted == [] || key(x) <= key(sorted[0]) then [x] + sorted else [sorted[0]] + Insert(x, sorted[1..], key)
  }

  function Sort(ids: seq<Id>, key: Id -> real): seq<Id> {
    if ids == [] then [] else Insert(ids[0], Sort(ids[1..], key), key)
  }

  function WithKey(ids: seq<Id>, key: Id -> real, k: real): seq<Id> {
    if ids == [] then [] else (if key(ids[0]) == k then [ids[0]] else []) + WithKey(ids[1..], key, k)
  }

  predicate Sorted(ids: seq<Id>, key: Id -> real) {
    forall i, j | 0 <= i < j < |ids| :: key(ids[i]) <= key(ids[j])
  }

  lemma {:induction false} InsertElements(x: Id, sorted: seq<Id>, key: Id -> real)
    ensures multiset(Insert(x, sorted, key)) == multiset{x} + multiset(sorted)
  {
    if !(sorted == [] || key(x) <= key(sorted[0])) {
      InsertElements(x, sorted[1..], key);
      assert sorted == [sorted[0]] + sorted[1..];
    }
  }

  lemma {:induction false} InsertSorted(x: Id, sorted: seq<Id>, key: Id -> real)
    requires Sorted(sorted, key)
    ensures Sorted(Insert(x, sorted, key), key)
    ensures sorted != [] && key(sorted[0]) < key(x) ==> Insert(x, sorted, key)[0] == sorted[0]
    ensures sorted == [] || key(x) <= key(sorted[0]) ==> Insert(x, sorted, key)[0] == x
  {
    if !(sorted == [] || key(x) <= key(sorted[0])) {
      InsertSorted(x, sorted[1..], key);
    }
  }

  lemma WithKeyCons(x: Id, rest: seq<Id>, key: Id -> real, k: real)
    ensures WithKey([x] + rest, key, k) == (if key(x) == k then [x] else []) + WithKey(rest, key, k)
  {
    assert ([x] + rest)[1..] == rest;
  }

  lemma {:induction false} InsertStable(x: Id, sorted: seq<Id>, key: Id -> real, k: real)
    requires Sorted(sorted, key)
    ensures WithKey(Insert(x, sorted, key), key, k) == (if key(x) == k then [x] else []) + WithKey(sorted, key, k)
  {
    WithKeyCons(x, sorted, key, k);
    if !(sorted == [] || key(x) <= key(sorted[0])) {
      var rest := sorted[1..];
      assert sorted == [sorted[0]] + rest;
      WithKeyCons(sorted[0], rest, key, k);
      WithKeyCons(sorted[0], Insert(x, rest, key), key, k);
      InsertStable(x, rest, key, k);
      hide WithKey, Sorted;
    }
  }

  lemma SortMembers(ids: seq<Id>, key: Id -> real)
    ensures |Sort(ids, key)| == |ids| && forall y :: y in Sort(ids, key) <==> y in ids
  {
    SortSpec(ids, key, 0.0);
    assert |multiset(ids)| == |ids| && |multiset(Sort(ids, key))| == |Sort(ids, key)|;
    assert forall y :: y in ids <==> y in multiset(ids);
    assert forall y :: y in Sort(ids, key) <==> y in multiset(Sort(ids, key));
  }

  /** The sort is a permutation, sorted, and keeps the order of assets whose names collate alike. */
  lemma {:induction false} SortSpec(ids: seq<Id>, key: Id -> real, k: real)
    ensures Sorted(Sort(ids, key), key) && multiset(Sort(ids, key)) == multiset(ids)
    ensures WithKey(Sort(ids, key), key, k) == WithKey(ids, key, k)
  {
    if ids != [] {
      hide Sorted, Insert;
      var rest := Sort(ids[1..], key);
      SortSpec(ids[1..], key, k);
      InsertElements(ids[0], rest, key);
      InsertSorted(ids[0], rest, key);
      InsertStable(ids[0], rest, key, k);
      assert ids == [ids[0]] + ids[1..];
    }
  }

  // ---------------------------------------------------------------------------
  // Growing the forest
  // ---------------------------------------------------------------------------

  /** A flat list after its first loop: ids in map order, effective parents, collation keys. */
  datatype Flat = Flat(order: seq<Id>, parents: Parents, key: Id -> real)

  predicate FlatOk(f: Flat) {
    && Closed(f.parents)
    && (forall i | 0 <= i < |f.order| :: f.order[i] in f.parents)
    && (forall x | x in f.parents :: x in f.order)
    && (forall i, j | 0 <= i < j < |f.order| :: f.order[i] != f.order[j])
  }

  function KeyOf(byId: map<Id, Asset>, collate: string -> real): Id -> real {
    x => if x in byId then collate(byId[x].name) else 0.0
  }

  function FlatOf(assets: seq<Asset>, collate: string -> real): (f: Flat)
    ensures FlatOk(f) && f.parents.Keys == ById(assets).Keys
  {
    var byId := ById(assets);
    Flat(Order(assets), ParentsOf(byId), KeyOf(byId, collate))
  }

  function Siblings(f: Flat, parent: Option<Id>): (r: seq<Id>)
    requires FlatOk(f)
    ensures forall x :: x in r <==> x in f.parents && f.parents[x] == parent
  {
    SortMembers(Select(f.order, f.parents, parent), f.key);
    Sort(Select(f.order, f.parents, parent), f.key)
  }

  /** All listed ids stand at this depth. */
  ghost predicate AtDepth(f: Flat, ids: seq<Id>, depth: nat)
    requires FlatOk(f)
  {
    forall x | x in ids :: x in f.parents && Rooted(f.parents, x) && Depth(f.parents, x) == depth
  }

  lemma ChildrenDeeper(f: Flat, x: Id, depth: nat)
    requires FlatOk(f) && x in f.parents && Rooted(f.parents, x) && Depth(f.parents, x) == depth
    ensures AtDepth(f, Siblings(f, Some(x)), depth + 1) && depth < |f.parents|
  {
    DepthBounded(f.parents, x);
    forall y | y in Siblings(f, Some(x))
      ensures Rooted(f.parents, y) && Depth(f.parents, y) == depth + 1
    {
      RootedStep(f.parents, y);
      DepthStep(f.parents, y);
    }
  }

  lemma RootsAtTop(f: Flat)
    requires FlatOk(f)
    ensures AtDepth(f, Siblings(f, None), 0)
  {
    forall y | y in Siblings(f, None)
      ensures Rooted(f.parents, y) && Depth(f.parents, y) == 0
    {
      RootedStep(f.parents, y);
      DepthStep(f.parents, y);
    }
  }

  /**
   * `sortRecursively` and the child arrays, read as trees. The recursion ends because a node reached from a root is
   * rooted, and no depth reaches the number of ids - whatever cycles the rest of the list holds.
   */
  function Grow(f: Flat, ids: seq<Id>, ghost depth: nat): seq<Tree>
    requires FlatOk(f) && AtDepth(f, ids, depth)
    decreases |f.parents| + 1 - depth, |ids|
  {
    if ids == [] then []
    else
      ChildrenDeeper(f, ids[0], depth);
      assert forall x | x in ids[1..] :: x in ids;
      [Node(ids[0], Grow(f, Siblings(f, Some(ids[0])), depth + 1))] + Grow(f, ids[1..], depth)
  }

  function Forest(f: Flat): seq<Tree>
    requires FlatOk(f)
  {
    RootsAtTop(f);
    Grow(f, Siblings(f, None), 0)
  }

  // ---------------------------------------------------------------------------
  // Which assets the forest holds, and where
  // ---------------------------------------------------------------------------

  /** The trail of an entry, followed by the entry itself, is its path in the parent table. */
  ghost predicate OnPath(f: Flat, e: Placed)
    requires FlatOk(f)
  {
    e.node.id in f.parents && Rooted(f.parents, e.node.id) && Path(f.parents, e.node.id) == e.trail + [e.node.id]
  }

  ghost predicate AllOnPath(f: Flat, ps: seq<Placed>)
    requires FlatOk(f)
  {
    forall e | e in ps :: OnPath(f, e)
  }

  lemma {:induction false} GrowOnPath(f: Flat, ids: seq<Id>, depth: nat, trail: seq<Id>)
    requires FlatOk(f) && AtDepth(f, ids, depth)
    requires forall x | x in ids :: x in f.parents && Rooted(f.parents, x) && Path(f.parents, x) == trail + [x]
    ensures AllOnPath(f, Place(Grow(f, ids, depth), trail))
    decreases |f.parents| + 1 - depth, |ids|
  {
    hide OnPath, FlatOk, Siblings, AtDepth, Grow, Path, Rooted;
    if ids == [] {
      GrowEmpty(f, depth, trail);
    } else {
      var x := ids[0];
      var node := GrowStep(f, ids, depth, trail);
      ChildrenOnPath(f, x, trail);
      GrowOnPath(f, Siblings(f, Some(x)), depth + 1, trail + [x]);
      GrowOnPath(f, ids[1..], depth, trail);
      assert ids[0] in ids;
      PlacedOnPath(f, node, trail);
    }
  }

  lemma GrowEmpty(f: Flat, depth: nat, trail: seq<Id>)
    requires FlatOk(f) && AtDepth(f, [], depth)
    ensures Place(Grow(f, [], depth), trail) == []
  {
  }

  lemma PlacedOnPath(f: Flat, node: Tree, trail: seq<Id>)
    requires FlatOk(f) && node.id in f.parents && Rooted(f.parents, node.id)
    requires Path(f.parents, node.id) == trail + [node.id]
    ensures OnPath(f, Placed(node, trail))
  {
  }

  lemma ChildrenOnPath(f: Flat, x: Id, trail: seq<Id>)
    requires FlatOk(f) && x in f.parents && Rooted(f.parents, x) && Path(f.parents, x) == trail + [x]
    ensures forall y | y in Siblings(f, Some(x)) ::
              y in f.parents && Rooted(f.parents, y) && Path(f.parents, y) == trail + [x] + [y]
  {
    hide Siblings, Rooted;
    forall y | y in Siblings(f, Some(x))
      ensures Rooted(f.parents, y) && Path(f.parents, y) == trail + [x] + [y]
    {
      RootedStep(f.parents, y);
      DepthStep(f.parents, y);
    }
  }

  function CountId(ps: seq<Placed>, m: Id): nat {
    if ps == [] then 0 else (if ps[0].node.id == m then 1 else 0) + CountId(ps[1..], m)
  }

  lemma {:induction false} CountIdConcat(a: seq<Placed>, b: seq<Placed>, m: Id)
    ensures CountId(a + b, m) == CountId(a, m) + CountId(b, m)
  {
    if a == [] {
      assert a + b == b;
    } else {
      assert (a + b)[1..] == a[1..] + b;
      CountIdConcat(a[1..], b, m);
    }
  }

  predicate NoRepeats(ids: seq<Id>) {
    forall y | y in ids :: multiset(ids)[y] == 1
  }

  lemma NoRepeatsTail(ids: seq<Id>)
    requires NoRepeats(ids) && ids != []
    ensures ids[0] !in ids[1..] && NoRepeats(ids[1..])
  {
    assert multiset(ids) == multiset{ids[0]} + multiset(ids[1..]) by { assert ids == [ids[0]] + ids[1..]; }
    assert multiset(ids)[ids[0]] == 1;
    assert ids[0] !in multiset(ids[1..]);
    forall y | y in ids[1..]
      ensures multiset(ids[1..])[y] == 1
    {
      assert y in ids && multiset(ids)[y] == 1;
      assert y in multiset(ids[1..]);
    }
  }

  lemma {:induction false} SelectNoRepeats(order: seq<Id>, p: Parents, parent: Option<Id>)
    requires forall i, j | 0 <= i < j < |order| :: order[i] != order[j]
    ensures NoRepeats(Select(order, p, parent))
  {
    if order != [] {
      SelectNoRepeats(order[1..], p, parent);
      var rest := Select(order[1..], p, parent);
      assert order[0] !in rest;
      assert order[0] !in multiset(rest);
      assert multiset([order[0]] + rest) == multiset{order[0]} + multiset(rest);
    }
  }

  lemma SiblingsNoRepeats(f: Flat, parent: Option<Id>)
    requires FlatOk(f)
    ensures NoRepeats(Siblings(f, parent))
  {
    var ids := Select(f.order, f.parents, parent);
    SelectNoRepeats(f.order, f.parents, parent);
    SortSpec(ids, f.key, 0.0);
    forall y | y in Siblings(f, parent)
      ensures multiset(Siblings(f, parent))[y] == 1
    {
      assert y in multiset(Siblings(f, parent));
      assert y in multiset(ids) && y in ids;
    }
  }

  /** The ancestor of `m` at this depth is one of these ids. */
  ghost predicate Under(f: Flat, ids: seq<Id>, depth: nat, m: Id)
    requires FlatOk(f)
  {
    m in f.parents && Rooted(f.parents, m) && depth < |Path(f.parents, m)| && Path(f.parents, m)[depth] in ids
  }

  /** Going down one level: a node is under the children of `x` exactly when it is strictly below `x`. */
  lemma UnderChildren(f: Flat, x: Id, depth: nat, m: Id)
    requires FlatOk(f) && x in f.parents && Rooted(f.parents, x) && Depth(f.parents, x) == depth
    ensures Under(f, Siblings(f, Some(x)), depth + 1, m) <==> Under(f, [x], depth, m) && m != x
  {
    if m in f.parents && Rooted(f.parents, m) {
      PathShape(f.parents, m);
      var path := Path(f.parents, m);
      if depth + 1 < |path| {
        var y := path[depth + 1];
        DepthStep(f.parents, y);
        assert Path(f.parents, y) == path[..depth + 2];
        assert Path(f.parents, y)[depth] == path[depth];
        PathShape(f.parents, f.parents[y].value);
        assert path[depth] == f.parents[y].value;
      }
    }
  }

  lemma PlaceCons(node: Tree, rest: seq<Tree>, trail: seq<Id>)
    ensures Place([node] + rest, trail)
         == [Placed(node, trail)] + Place(node.children, trail + [node.id]) + Place(rest, trail)
  {
    assert ([node] + rest)[1..] == rest;
  }

  lemma LevelSplit(f: Flat, ids: seq<Id>, depth: nat)
    requires FlatOk(f) && AtDepth(f, ids, depth) && ids != []
    ensures ids[0] in f.parents && Rooted(f.parents, ids[0]) && Depth(f.parents, ids[0]) == depth < |f.parents|
    ensures AtDepth(f, Siblings(f, Some(ids[0])), depth + 1) && AtDepth(f, ids[1..], depth)
  {
    assert ids[0] in ids;
    assert forall x | x in ids[1..] :: x in ids;
    ChildrenDeeper(f, ids[0], depth);
  }

  /** One level of `Grow`, as trees and as placed entries. */
  lemma GrowStep(f: Flat, ids: seq<Id>, depth: nat, trail: seq<Id>) returns (node: Tree)
    requires FlatOk(f) && AtDepth(f, ids, depth) && ids != []
    ensures ids[0] in f.parents && Rooted(f.parents, ids[0]) && Depth(f.parents, ids[0]) == depth < |f.parents|
    ensures AtDepth(f, Siblings(f, Some(ids[0])), depth + 1) && AtDepth(f, ids[1..], depth)
    ensures node == Node(ids[0], Grow(f, Siblings(f, Some(ids[0])), depth + 1))
    ensures Grow(f, ids, depth) == [node] + Grow(f, ids[1..], depth)
    ensures Place(Grow(f, ids, depth), trail)
         == [Placed(node, trail)] + Place(node.children, trail + [ids[0]]) + Place(Grow(f, ids[1..], depth), trail)
  {
    LevelSplit(f, ids, depth);
    hide AtDepth, FlatOk, Siblings, Place;
    node := Node(ids[0], Grow(f, Siblings(f, Some(ids[0])), depth + 1));
    PlaceCons(node, Grow(f, ids[1..], depth), trail);
  }

  lemma CountOne(e: Placed, m: Id)
    ensures CountId([e], m) == if e.node.id == m then 1 else 0
  {
    assert [e][1..] == [];
  }

  lemma {:induction false} GrowCounts(f: Flat, ids: seq<Id>, depth: nat, trail: seq<Id>, m: Id)
    requires FlatOk(f) && AtDepth(f, ids, depth) && NoRepeats(ids)
    ensures CountId(Place(Grow(f, ids, depth), trail), m) == if Under(f, ids, depth, m) then 1 else 0
    decreases |f.parents| + 1 - depth, |ids|
  {
    hide Grow, Place, FlatOk, Siblings, Under, NoRepeats;
    if ids != [] {
      var node := GrowStep(f, ids, depth, trail);
      var x := ids[0];
      NoRepeatsTail(ids);
      SiblingsNoRepeats(f, Some(x));
      GrowCounts(f, Siblings(f, Some(x)), depth + 1, trail + [x], m);
      GrowCounts(f, ids[1..], depth, trail, m);
      hide AtDepth;
      UnderChildren(f, x, depth, m);
      UnderSplit(f, ids, depth, m);
      var first, inner := [Placed(node, trail)], Place(node.children, trail + [x]);
      CountIdConcat(first + inner, Place(Grow(f, ids[1..], depth), trail), m);
      CountIdConcat(first, inner, m);
      CountOne(first[0], m);
    } else {
      assert Grow(f, ids, depth) == [] && Place([], trail) == [] by { GrowNone(f, ids, depth, trail); }
      UnderNone(f, ids, depth, m);
    }
  }

  lemma GrowNone(f: Flat, ids: seq<Id>, depth: nat, trail: seq<Id>)
    requires FlatOk(f) && AtDepth(f, ids, depth) && ids == []
    ensures Grow(f, ids, depth) == [] && Place([], trail) == []
  {
  }

  lemma UnderNone(f: Flat, ids: seq<Id>, depth: nat, m: Id)
    requires FlatOk(f) && ids == []
    ensures !Under(f, ids, depth, m)
  {
  }

  lemma UnderSplit(f: Flat, ids: seq<Id>, depth: nat, m: Id)
    requires FlatOk(f) && ids != [] && ids[0] !in ids[1..]
    requires ids[0] in f.parents && Rooted(f.parents, ids[0]) && Depth(f.parents, ids[0]) == depth
    ensures Under(f, ids, depth, m) <==> Under(f, [ids[0]], depth, m) || Under(f, ids[1..], depth, m)
    ensures !(Under(f, [ids[0]], depth, m) && Under(f, ids[1..], depth, m))
    ensures m == ids[0] ==> Under(f, [ids[0]], depth, m)
  {
    PathShape(f.parents, ids[0]);
  }

  /**
   * For any flat list, the flattened forest holds each id whose parent chain ends at an asset without a listed parent
   * exactly once, and no other id.
   */
  lemma ForestCounts(f: Flat, m: Id)
    requires FlatOk(f)
    ensures CountId(Place(Forest(f), []), m) == if m in f.parents && Rooted(f.parents, m) then 1 else 0
  {
    RootsAtTop(f);
    SiblingsNoRepeats(f, None);
    GrowCounts(f, Siblings(f, None), 0, [], m);
    if m in f.parents && Rooted(f.parents, m) {
      PathShape(f.parents, m);
      DepthStep(f.parents, Path(f.parents, m)[0]);
    }
  }

  /** For every entry of the flattened forest, its ancestors in the tree followed by itself are its path. */
  lemma ForestPaths(f: Flat)
    requires FlatOk(f)
    ensures AllOnPath(f, Place(Forest(f), []))
    ensures Flatten(Forest(f), 0) == Entries(Place(Forest(f), []))
  {
    RootsAtTop(f);
    forall x | x in Siblings(f, None)
      ensures Path(f.parents, x) == [] + [x]
    {
      DepthStep(f.parents, x);
    }
    GrowOnPath(f, Siblings(f, None), 0, []);
    FlattenPlaces(Forest(f), []);
  }

  /** Every level of the forest is sorted by name, and the children of a node are exactly the assets that name it. */
  predicate Faithful(f: Flat, nodes: seq<Tree>)
    requires FlatOk(f)
  {
    nodes != [] ==>
      && nodes[0].id in f.parents && IdsOf(nodes[0].children) == Siblings(f, Some(nodes[0].id))
      && Faithful(f, nodes[0].children) && Faithful(f, nodes[1..])
  }

  function IdsOf(nodes: seq<Tree>): seq<Id> {
    if nodes == [] then [] else [nodes[0].id] + IdsOf(nodes[1..])
  }

  lemma {:induction false} GrowFaithful(f: Flat, ids: seq<Id>, depth: nat)
    requires FlatOk(f) && AtDepth(f, ids, depth)
    ensures IdsOf(Grow(f, ids, depth)) == ids && Faithful(f, Grow(f, ids, depth))
    decreases |f.parents| + 1 - depth, |ids|
  {
    hide Grow, Siblings, FlatOk, AtDepth, Place, Faithful, IdsOf;
    if ids == [] {
      FaithfulNone(f, ids, depth);
    } else {
      var node := GrowStep(f, ids, depth, []);
      GrowFaithful(f, Siblings(f, Some(ids[0])), depth + 1);
      GrowFaithful(f, ids[1..], depth);
      FaithfulCons(f, node, Grow(f, ids[1..], depth));
    }
  }

  lemma FaithfulNone(f: Flat, ids: seq<Id>, depth: nat)
    requires FlatOk(f) && AtDepth(f, ids, depth) && ids == []
    ensures IdsOf(Grow(f, ids, depth)) == [] && Faithful(f, Grow(f, ids, depth))
  {
  }

  lemma FaithfulCons(f: Flat, node: Tree, rest: seq<Tree>)
    requires FlatOk(f) && node.id in f.parents && IdsOf(node.children) == Siblings(f, Some(node.id))
    requires Faithful(f, node.children) && Faithful(f, rest)
    ensures Faithful(f, [node] + rest) && IdsOf([node] + rest) == [node.id] + IdsOf(rest)
  {
    hide FlatOk, Siblings;
    assert ([node] + rest)[1..] == rest;
  }

  /**
   * For any flat list: the roots are the assets without a listed parent, the children of every node are exactly the
   * assets that name it, and every level is sorted by name.
   */
  lemma ForestFaithful(f: Flat)
    requires FlatOk(f)
    ensures IdsOf(Forest(f)) == Siblings(f, None) && Faithful(f, Forest(f))
  {
    RootsAtTop(f);
    GrowFaithful(f, Siblings(f, None), 0);
    hide Grow, Siblings, Faithful, IdsOf;
  }

  /** Each level: a sorted arrangement of the assets that name the parent, in list order where names collate alike. */
  lemma SiblingsMeaning(f: Flat, parent: Option<Id>, k: real)
    requires FlatOk(f)
    ensures var level := Siblings(f, parent);
            && Sorted(level, f.key)
            && (forall x :: x in level <==> x in f.parents && f.parents[x] == parent)
            && WithKey(level, f.key, k) == WithKey(Select(f.order, f.parents, parent), f.key, k)
  {
    SortSpec(Select(f.order, f.parents, parent), f.key, k);
  }

  /** No other forest is like that. */
  lemma {:induction false} FaithfulUnique(f: Flat, a: seq<Tree>, b: seq<Tree>)
    requires FlatOk(f) && IdsOf(a) == IdsOf(b) && Faithful(f, a) && Faithful(f, b)
    ensures a == b
    decreases a
  {
    hide Siblings, FlatOk;
    if a != [] {
      assert IdsOf(a)[0] == a[0].id && IdsOf(b) != [] && b != [] && IdsOf(b)[0] == b[0].id;
      assert IdsOf(a)[1..] == IdsOf(a[1..]) && IdsOf(b)[1..] == IdsOf(b[1..]);
      FaithfulUnique(f, a[0].children, b[0].children);
      FaithfulUnique(f, a[1..], b[1..]);
      assert a == [a[0]] + a[1..] && b == [b[0]] + b[1..];
    } else {
      assert IdsOf(b) == [];
    }
  }

  // ---------------------------------------------------------------------------
  // The path of an asset
  // ---------------------------------------------------------------------------

  /** The walk of `assetPath`: up the parents until none is left or an id comes back. */
  function Trace(p: Parents, x: Id, seen: set<Id>): seq<Id>
    requires Closed(p) && x in p
    decreases |p.Keys - seen|
  {
    if x in seen then []
    else if p[x].None? then [x]
    else
      assert p.Keys - (seen + {x}) < p.Keys - seen by { assert x in p.Keys - seen; }
      SmallerSet(p.Keys - (seen + {x}), p.Keys - seen);
      Trace(p, p[x].value, seen + {x}) + [x]
  }

  lemma SmallerSet(a: set<Id>, b: set<Id>)
    requires a < b
    ensures |a| < |b|
  {
    assert b == a + (b - a);
    assert b - a != {};
    assert |b| == |a| + |b - a|;
  }

  /** On a rooted asset the walk is the path from its root. */
  lemma {:induction false} TraceIsPath(p: Parents, x: Id, seen: set<Id>)
    requires Closed(p) && x in p && Rooted(p, x)
    requires forall y | y in Path(p, x) :: y !in seen
    ensures Trace(p, x, seen) == Path(p, x)
    decreases Depth(p, x)
  {
    DepthStep(p, x);
    PathShape(p, x);
    PathDistinct(p, x);
    assert x in Path(p, x);
    if p[x].Some? {
      var up := p[x].value;
      forall y | y in Path(p, up)
        ensures y !in seen + {x}
      {
        var i :| 0 <= i < |Path(p, up)| && Path(p, up)[i] == y;
        assert Path(p, x)[i] == y;
      }
      TraceIsPath(p, up, seen + {x});
    }
  }

  /** A list of ids each of which is the parent of the next. */
  predicate Linked(p: Parents, ids: seq<Id>)
    requires Closed(p)
  {
    forall i | 0 <= i < |ids| :: ids[i] in p && (i > 0 ==> p[ids[i]] == Some(ids[i - 1]))
  }

  /**
   * On every input, cyclic ones included, the walk ends: it repeats no id, links each id to its parent, and starts
   * at an id that has no parent or whose parent was seen already.
   */
  lemma {:induction false} TraceShape(p: Parents, x: Id, seen: set<Id>)
    requires Closed(p) && x in p
    ensures var t := Trace(p, x, seen);
            && (t == [] <==> x in seen)
            && (t != [] ==> t[|t| - 1] == x)
            && Linked(p, t)
            && (forall i | 0 <= i < |t| :: t[i] !in seen)
            && (forall i, j | 0 <= i < j < |t| :: t[i] != t[j])
            && (t != [] && p[t[0]].Some? ==> p[t[0]].value in seen || p[t[0]].value in t)
    decreases |p.Keys - seen|
  {
    if x !in seen && p[x].Some? {
      assert p.Keys - (seen + {x}) < p.Keys - seen by { assert x in p.Keys - seen; }
      SmallerSet(p.Keys - (seen + {x}), p.Keys - seen);
      TraceShape(p, p[x].value, seen + {x});
    }
  }

  lemma {:induction false} LinkedRooted(p: Parents, t: seq<Id>, i: nat)
    requires Closed(p) && Linked(p, t) && i < |t| && p[t[0]].None?
    ensures Rooted(p, t[i])
  {
    if i > 0 {
      LinkedRooted(p, t, i - 1);
    }
    RootedStep(p, t[i]);
  }

  /** The walk starts at an asset without a parent exactly when the chain is no cycle. */
  lemma TraceStart(p: Parents, x: Id)
    requires Closed(p) && x in p
    ensures var t := Trace(p, x, {}); t != [] && t[0] in p && (p[t[0]].None? <==> Rooted(p, x))
  {
    TraceShape(p, x, {});
    var t := Trace(p, x, {});
    if p[t[0]].None? {
      LinkedRooted(p, t, |t| - 1);
    }
    if Rooted(p, x) {
      TraceIsPath(p, x, {});
      PathShape(p, x);
      DepthStep(p, t[0]);
    }
  }

  /**
   * For every entry of the flattened forest, depth + 1 is the length of its `assetPath`, and that path is the entry's
   * ancestors in the tree followed by the entry.
   */
  lemma EntriesAgreeWithPath(f: Flat, i: nat)
    requires FlatOk(f) && i < |Flatten(Forest(f), 0)|
    ensures |Place(Forest(f), [])| == |Flatten(Forest(f), 0)|
    ensures var entry, place := Flatten(Forest(f), 0)[i], Place(Forest(f), [])[i];
            && entry.node == place.node && entry.node.id in f.parents
            && Trace(f.parents, entry.node.id, {}) == place.trail + [entry.node.id]
            && entry.depth + 1 == |Trace(f.parents, entry.node.id, {})|
  {
    ForestPaths(f);
    var place := Place(Forest(f), [])[i];
    assert OnPath(f, place);
    hide FlatOk, Forest, Place, Flatten;
    TraceIsPath(f.parents, place.node.id, {});
  }
}
