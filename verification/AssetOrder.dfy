/** The dashboard's forest in terms of the list it is built from: who hangs where, and that siblings are sorted by name. */
module AssetOrder {
  import opened Text
  import opened ParentChain
  import opened AssetView
  import opened AssetForest

  // ---------------------------------------------------------------------------
  // The list
  // ---------------------------------------------------------------------------

  /** Where an id first stands in the list; behind its end if it does not. */
  function FirstAt(assets: seq<Asset>, x: Id): (k: nat)
    ensures k <= |assets| && (k < |assets| ==> assets[k].id == x) && forall i | 0 <= i < k :: assets[i].id != x
  {
    if assets == [] || assets[0].id == x then 0 else 1 + FirstAt(assets[1..], x)
  }

  /** The last asset with an id is the one that counts. */
  lemma {:induction false} ByIdIsLast(assets: seq<Asset>, x: Id)
    ensures x in ById(assets) <==> FirstAt(assets, x) < |assets|
    ensures x in ById(assets) ==>
              exists k | 0 <= k < |assets| ::
                && assets[k].id == x && ById(assets)[x] == assets[k]
                && forall i | k < i < |assets| :: assets[i].id != x
  {
    if assets != [] {
      var n := |assets| - 1;
      ByIdIsLast(assets[..n], x);
      FirstAtFront(assets, x);
      if assets[n].id == x {
        assert ById(assets)[x] == assets[n];
      } else if x in ById(assets) {
        var k :| 0 <= k < n && assets[..n][k].id == x && ById(assets[..n])[x] == assets[..n][k]
                 && forall i | k < i < n :: assets[..n][i].id != x;
        assert assets[k].id == x && ById(assets)[x] == assets[k];
        forall i | k < i < |assets|
          ensures assets[i].id != x
        {
          assert i < n ==> assets[..n][i].id != x;
        }
      }
    }
  }

  lemma FirstAtFront(assets: seq<Asset>, x: Id)
    requires assets != []
    ensures var n := |assets| - 1;
            FirstAt(assets, x) == if FirstAt(assets[..n], x) < n then FirstAt(assets[..n], x)
                                  else if assets[n].id == x then n else n + 1
  {
    var n := |assets| - 1;
    var a, b := FirstAt(assets, x), FirstAt(assets[..n], x);
    assert forall i | 0 <= i < n :: assets[..n][i] == assets[i];
    if b < n {
      assert assets[b].id == x;
      assert a < n ==> assets[..n][a].id == x;
    }
  }

  // ---------------------------------------------------------------------------
  // Keeping an order through selection and sorting
  // ---------------------------------------------------------------------------

  predicate Ascending(ids: seq<Id>, rank: Id -> int) {
    forall i, j | 0 <= i < j < |ids| :: rank(ids[i]) < rank(ids[j])
  }

  /** Where keys are equal, ranks ascend. */
  predicate Stable(ids: seq<Id>, key: Id -> real, rank: Id -> int) {
    forall i, j | 0 <= i < j < |ids| && key(ids[i]) == key(ids[j]) :: rank(ids[i]) < rank(ids[j])
  }

  lemma {:induction false} OrderAscends(assets: seq<Asset>)
    ensures Ascending(Order(assets), x => FirstAt(assets, x))
  {
    if assets != [] {
      var n := |assets| - 1;
      OrderAscends(assets[..n]);
      var order, all := Order(assets[..n]), Order(assets);
      forall i, j | 0 <= i < j < |all|
        ensures FirstAt(assets, all[i]) < FirstAt(assets, all[j])
      {
        FirstAtFront(assets, all[i]);
        FirstAtFront(assets, all[j]);
        assert all[i] == order[i] && order[i] in order;
        ByIdIsLast(assets[..n], all[i]);
        ByIdIsLast(assets[..n], all[j]);
        if j < |order| {
          assert all[j] == order[j] && order[j] in order;
        }
      }
    }
  }

  lemma AscendingTail(order: seq<Id>, rank: Id -> int)
    requires Ascending(order, rank)
    ensures Ascending([], rank) && (order != [] ==> Ascending(order[1..], rank))
  {
  }

  lemma FirstIsLeast(order: seq<Id>, y: Id, rank: Id -> int)
    requires order != [] && Ascending(order, rank) && y in order[1..]
    ensures rank(order[0]) < rank(y)
  {
    var i :| 0 <= i < |order[1..]| && order[1..][i] == y;
    assert order[i + 1] == y;
  }

  lemma AscendingCons(x: Id, rest: seq<Id>, rank: Id -> int)
    requires Ascending(rest, rank) && forall i | 0 <= i < |rest| :: rank(x) < rank(rest[i])
    ensures Ascending([x] + rest, rank)
  {
    var s := [x] + rest;
    forall i, j | 0 <= i < j < |s|
      ensures rank(s[i]) < rank(s[j])
    {
      assert s[j] == rest[j - 1];
      if i > 0 {
        assert s[i] == rest[i - 1];
      }
    }
  }

  lemma {:induction false} SelectAscends(order: seq<Id>, p: Parents, parent: Option<Id>, rank: Id -> int)
    requires Ascending(order, rank)
    ensures Ascending(Select(order, p, parent), rank)
  {
    hide Ascending;
    AscendingTail(order, rank);
    if order != [] {
      SelectAscends(order[1..], p, parent, rank);
      var rest := Select(order[1..], p, parent);
      forall i | 0 <= i < |rest|
        ensures rank(order[0]) < rank(rest[i])
      {
        assert rest[i] in rest;
        FirstIsLeast(order, rest[i], rank);
      }
      AscendingCons(order[0], rest, rank);
      assert [] + rest == rest;
    }
  }

  lemma {:induction false} InsertStays(x: Id, sorted: seq<Id>, key: Id -> real, rank: Id -> int)
    requires Stable(sorted, key, rank) && forall y | y in sorted :: rank(x) < rank(y)
    ensures Stable(Insert(x, sorted, key), key, rank)
    ensures forall y :: y in Insert(x, sorted, key) <==> y == x || y in sorted
  {
    if !(sorted == [] || key(x) <= key(sorted[0])) {
      InsertStays(x, sorted[1..], key, rank);
      var rest := Insert(x, sorted[1..], key);
      forall j | 0 <= j < |rest| && key(sorted[0]) == key(rest[j])
        ensures rank(sorted[0]) < rank(rest[j])
      {
        assert rest[j] in sorted[1..];
      }
    }
  }

  lemma {:induction false} SortStays(ids: seq<Id>, key: Id -> real, rank: Id -> int)
    requires Ascending(ids, rank)
    ensures Stable(Sort(ids, key), key, rank) && forall y :: y in Sort(ids, key) <==> y in ids
  {
    if ids != [] {
      SortStays(ids[1..], key, rank);
      assert forall y | y in ids[1..] :: rank(ids[0]) < rank(y);
      InsertStays(ids[0], Sort(ids[1..], key), key, rank);
    }
  }

  // ---------------------------------------------------------------------------
  // The forest
  // ---------------------------------------------------------------------------

  /** Siblings are sorted by name, and stand in the order of the list where their names collate alike. */
  predicate ByName(assets: seq<Asset>, collate: string -> real, ids: seq<Id>) {
    && (forall i | 0 <= i < |ids| :: ids[i] in ById(assets))
    && forall i, j | 0 <= i < j < |ids| ::
         var a, b := collate(ById(assets)[ids[i]].name), collate(ById(assets)[ids[j]].name);
         a < b || (a == b && FirstAt(assets, ids[i]) < FirstAt(assets, ids[j]))
  }

  /** Every level is sorted. */
  predicate Ordered(assets: seq<Asset>, collate: string -> real, nodes: seq<Tree>) {
    && ByName(assets, collate, IdsOf(nodes))
    && forall i | 0 <= i < |nodes| :: Ordered(assets, collate, nodes[i].children)
  }

  /** The children of a node are the assets that name it as their parent. */
  ghost predicate NodeNamed(assets: seq<Asset>, node: Tree) {
    forall x :: x in IdsOf(node.children) <==>
      x in ById(assets) && node.id in ById(assets) && node.id != "" && ById(assets)[x].parentId == Some(node.id)
  }

  ghost predicate ChildrenNamed(assets: seq<Asset>, nodes: seq<Tree>) {
    forall i | 0 <= i < |nodes| :: NodeNamed(assets, nodes[i]) && ChildrenNamed(assets, nodes[i].children)
  }

  /** The roots are the assets without a parent, or whose parent is empty or not in the list. */
  ghost predicate RootsNamed(assets: seq<Asset>, nodes: seq<Tree>) {
    forall x :: x in IdsOf(nodes) <==>
      && x in ById(assets)
      && var parent := ById(assets)[x].parentId; parent.None? || parent.value == "" || parent.value !in ById(assets)
  }

  lemma LevelByName(assets: seq<Asset>, collate: string -> real, parent: Option<Id>)
    ensures ByName(assets, collate, Siblings(FlatOf(assets, collate), parent))
  {
    hide Sorted, Stable, ByName, Siblings, Sort, Select, KeyOf, Ascending, FlatOk, Closed;
    var f := FlatOf(assets, collate);
    var rank := x => FirstAt(assets, x) as int;
    OrderIsRanked(assets, rank);
    LevelSorted(f, parent, rank);
    SortedIsByName(assets, collate, Siblings(f, parent), rank);
  }

  lemma OrderIsRanked(assets: seq<Asset>, rank: Id -> int)
    requires forall x :: rank(x) == FirstAt(assets, x)
    ensures Ascending(Order(assets), rank)
  {
    OrderAscends(assets);
    hide FirstAt, Order;
  }

  lemma LevelSorted(f: Flat, parent: Option<Id>, rank: Id -> int)
    requires FlatOk(f) && Ascending(f.order, rank)
    ensures Sorted(Siblings(f, parent), f.key) && Stable(Siblings(f, parent), f.key, rank)
  {
    hide FlatOk, Sort, Select, Sorted, Stable, Ascending;
    SelectAscends(f.order, f.parents, parent, rank);
    SortStays(Select(f.order, f.parents, parent), f.key, rank);
    SortSpec(Select(f.order, f.parents, parent), f.key, 0.0);
  }

  lemma SortedIsByName(assets: seq<Asset>, collate: string -> real, ids: seq<Id>, rank: Id -> int)
    requires forall x | x in ids :: x in ById(assets)
    requires forall x :: rank(x) == FirstAt(assets, x)
    requires Sorted(ids, KeyOf(ById(assets), collate)) && Stable(ids, KeyOf(ById(assets), collate), rank)
    ensures ByName(assets, collate, ids)
  {
    hide ById, FirstAt;
    var key := KeyOf(ById(assets), collate);
    forall i | 0 <= i < |ids|
      ensures ids[i] in ById(assets) && key(ids[i]) == collate(ById(assets)[ids[i]].name)
    {
      assert ids[i] in ids;
    }
    forall i, j | 0 <= i < j < |ids|
      ensures key(ids[i]) < key(ids[j]) || (key(ids[i]) == key(ids[j]) && FirstAt(assets, ids[i]) < FirstAt(assets, ids[j]))
    {
      assert rank(ids[i]) == FirstAt(assets, ids[i]) && rank(ids[j]) == FirstAt(assets, ids[j]);
    }
  }

  lemma LevelNamed(assets: seq<Asset>, collate: string -> real, n: Id, x: Id)
    requires n in ById(assets)
    ensures x in Siblings(FlatOf(assets, collate), Some(n)) <==>
              x in ById(assets) && n != "" && ById(assets)[x].parentId == Some(n)
  {
    hide Sort, Select, Order, ById;
  }

  lemma FaithfulNode(assets: seq<Asset>, collate: string -> real, node: Tree)
    requires node.id in ById(assets) && IdsOf(node.children) == Siblings(FlatOf(assets, collate), Some(node.id))
    ensures NodeNamed(assets, node) && ByName(assets, collate, IdsOf(node.children))
  {
    hide ById, Siblings, FlatOf, ByName, IdsOf;
    LevelByName(assets, collate, Some(node.id));
    forall x
      ensures x in IdsOf(node.children) <==>
                x in ById(assets) && node.id != "" && ById(assets)[x].parentId == Some(node.id)
    {
      LevelNamed(assets, collate, node.id, x);
    }
  }

  lemma FaithfulParts(assets: seq<Asset>, collate: string -> real, nodes: seq<Tree>)
    requires Faithful(FlatOf(assets, collate), nodes) && nodes != []
    ensures var f := FlatOf(assets, collate);
            && nodes[0].id in ById(assets) && IdsOf(nodes[0].children) == Siblings(f, Some(nodes[0].id))
            && Faithful(f, nodes[0].children) && Faithful(f, nodes[1..])
  {
    hide FlatOf, ById, Siblings, IdsOf, FlatOk;
  }

  lemma {:induction false} FaithfulNamed(assets: seq<Asset>, collate: string -> real, nodes: seq<Tree>)
    requires Faithful(FlatOf(assets, collate), nodes)
    ensures ChildrenNamed(assets, nodes)
    ensures forall i | 0 <= i < |nodes| :: Ordered(assets, collate, nodes[i].children)
    decreases nodes
  {
    hide ById, Siblings, FlatOf, ByName, Faithful, NodeNamed, IdsOf;
    if nodes != [] {
      FaithfulParts(assets, collate, nodes);
      FaithfulNode(assets, collate, nodes[0]);
      FaithfulNamed(assets, collate, nodes[0].children);
      FaithfulNamed(assets, collate, nodes[1..]);
      forall i | 1 <= i < |nodes|
        ensures NodeNamed(assets, nodes[i]) && ChildrenNamed(assets, nodes[i].children)
        ensures Ordered(assets, collate, nodes[i].children)
      {
        assert nodes[i] == nodes[1..][i - 1];
      }
    }
  }

  lemma RootsAreNamed(assets: seq<Asset>, collate: string -> real, x: Id)
    ensures x in Siblings(FlatOf(assets, collate), None) <==>
              && x in ById(assets)
              && var parent := ById(assets)[x].parentId; parent.None? || parent.value == "" || parent.value !in ById(assets)
  {
    hide Sort, Select, Order, ById;
  }

  /** The forest of any list, in terms of the list. */
  lemma ForestOfList(assets: seq<Asset>, collate: string -> real)
    ensures var forest := Forest(FlatOf(assets, collate));
            Ordered(assets, collate, forest) && RootsNamed(assets, forest) && ChildrenNamed(assets, forest)
  {
    hide ById, Siblings, FlatOf, ByName, Forest, ChildrenNamed;
    var f := FlatOf(assets, collate);
    ForestFaithful(f);
    FaithfulNamed(assets, collate, Forest(f));
    LevelByName(assets, collate, None);
    forall x {
      RootsAreNamed(assets, collate, x);
    }
  }
}
