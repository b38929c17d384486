/** Reading a forest of assets: flattening it, hiding collapsed subtrees and counting what they hide. */
module AssetView {
  import opened ParentChain

  datatype Tree = Node(id: Id, children: seq<Tree>)

  datatype Entry = Entry(node: Tree, depth: nat)

  /** `flattenAssetTree` */
  function Flatten(nodes: seq<Tree>, depth: nat): seq<Entry> {
    if nodes == [] then []
    else [Entry(nodes[0], depth)] + Flatten(nodes[0].children, depth + 1) + Flatten(nodes[1..], depth)
  }

  /** `visibleRows` */
  function VisibleRows(nodes: seq<Tree>, collapsed: set<Id>, depth: nat): seq<Entry> {
    if nodes == [] then []
    else [Entry(nodes[0], depth)]
         + (if nodes[0].id in collapsed then [] else VisibleRows(nodes[0].children, collapsed, depth + 1))
         + VisibleRows(nodes[1..], collapsed, depth)
  }

  function SumDescendants(nodes: seq<Tree>): nat {
    if nodes == [] then 0 else 1 + SumDescendants(nodes[0].children) + SumDescendants(nodes[1..])
  }

  /** `countDescendants` */
  function CountDescendants(node: Tree): nat {
    SumDescendants(node.children)
  }

  function Toggle(collapsed: set<Id>, id: Id): set<Id> {
    if id in collapsed then collapsed - {id} else collapsed + {id}
  }

  // ---------------------------------------------------------------------------
  // Every node with the ids above it
  // ---------------------------------------------------------------------------

  /** An entry of the flattened forest, with the ids of its ancestors from the root down. */
  datatype Placed = Placed(node: Tree, trail: seq<Id>)

  function Place(nodes: seq<Tree>, trail: seq<Id>): seq<Placed> {
    if nodes == [] then []
    else [Placed(nodes[0], trail)] + Place(nodes[0].children, trail + [nodes[0].id]) + Place(nodes[1..], trail)
  }

  function Entries(ps: seq<Placed>): (es: seq<Entry>)
    ensures |es| == |ps| && forall i | 0 <= i < |ps| :: es[i] == Entry(ps[i].node, |ps[i].trail|)
  {
    seq(|ps|, i requires 0 <= i < |ps| => Entry(ps[i].node, |ps[i].trail|))
  }

  lemma EntriesConcat(a: seq<Placed>, b: seq<Placed>)
    ensures Entries(a + b) == Entries(a) + Entries(b)
  {
  }

  /** The depth of an entry is the number of its ancestors. */
  lemma {:induction false} FlattenPlaces(nodes: seq<Tree>, trail: seq<Id>)
    ensures Flatten(nodes, |trail|) == Entries(Place(nodes, trail))
    decreases nodes
  {
    if nodes != [] {
      var trail' := trail + [nodes[0].id];
      FlattenPlaces(nodes[0].children, trail');
      FlattenPlaces(nodes[1..], trail);
      var first, inner, rest := [Placed(nodes[0], trail)], Place(nodes[0].children, trail'), Place(nodes[1..], trail);
      EntriesConcat(first, inner);
      EntriesConcat(first + inner, rest);
      assert Entries(first) == [Entry(nodes[0], |trail|)];
    }
  }

  lemma {:induction false} TrailsExtend(nodes: seq<Tree>, trail: seq<Id>)
    ensures forall i | 0 <= i < |Place(nodes, trail)| :: trail <= Place(nodes, trail)[i].trail
    decreases nodes
  {
    if nodes != [] {
      TrailsExtend(nodes[0].children, trail + [nodes[0].id]);
      TrailsExtend(nodes[1..], trail);
    }
  }

  // ---------------------------------------------------------------------------
  // Collapsing
  // ---------------------------------------------------------------------------

  /** No ancestor from position `base` down is collapsed. */
  predicate Shown(p: Placed, collapsed: set<Id>, base: nat) {
    forall k | base <= k < |p.trail| :: p.trail[k] !in collapsed
  }

  function Keep(ps: seq<Placed>, collapsed: set<Id>, base: nat): seq<Placed> {
    if ps == [] then []
    else (if Shown(ps[0], collapsed, base) then [ps[0]] else []) + Keep(ps[1..], collapsed, base)
  }

  lemma {:induction false} KeepConcat(a: seq<Placed>, b: seq<Placed>, collapsed: set<Id>, base: nat)
    ensures Keep(a + b, collapsed, base) == Keep(a, collapsed, base) + Keep(b, collapsed, base)
  {
    hide Shown;
    if a == [] {
      assert a + b == b;
    } else {
      var ab, first := a + b, if Shown(a[0], collapsed, base) then [a[0]] else [];
      assert ab[0] == a[0] && ab[1..] == a[1..] + b;
      KeepConcat(a[1..], b, collapsed, base);
      assert first + (Keep(a[1..], collapsed, base) + Keep(b, collapsed, base))
          == first + Keep(a[1..], collapsed, base) + Keep(b, collapsed, base);
    }
  }

  lemma ShownFrom(p: Placed, collapsed: set<Id>, base: nat)
    requires base < |p.trail|
    ensures Shown(p, collapsed, base) <==> p.trail[base] !in collapsed && Shown(p, collapsed, base + 1)
  {
  }

  /** Below a node whose id stands at position `base`, everything hinges on that id and the positions after it. */
  lemma {:induction false} KeepBelow(ps: seq<Placed>, collapsed: set<Id>, base: nat, id: Id)
    requires forall i | 0 <= i < |ps| :: base < |ps[i].trail| && ps[i].trail[base] == id
    ensures Keep(ps, collapsed, base) == if id in collapsed then [] else Keep(ps, collapsed, base + 1)
  {
    hide Shown;
    if ps != [] {
      ShownFrom(ps[0], collapsed, base);
      KeepBelow(ps[1..], collapsed, base, id);
    }
  }

  lemma KeepTop(node: Tree, collapsed: set<Id>, trail: seq<Id>)
    ensures Keep([Placed(node, trail)], collapsed, |trail|) == [Placed(node, trail)]
  {
    assert [Placed(node, trail)][1..] == [];
  }

  /** The places below a node, filtered from its own position or from the position of its children. */
  lemma KeepChildren(nodes: seq<Tree>, collapsed: set<Id>, trail: seq<Id>, id: Id)
    ensures Keep(Place(nodes, trail + [id]), collapsed, |trail|)
         == if id in collapsed then [] else Keep(Place(nodes, trail + [id]), collapsed, |trail| + 1)
  {
    var inner := Place(nodes, trail + [id]);
    TrailsExtend(nodes, trail + [id]);
    forall i | 0 <= i < |inner|
      ensures |trail| < |inner[i].trail| && inner[i].trail[|trail|] == id
    {
      assert inner[i].trail[|trail|] == (trail + [id])[|trail|];
    }
    KeepBelow(inner, collapsed, |trail|, id);
  }

  /** A row is visible exactly when none of its ancestors is collapsed, and the order is that of the flattened forest. */
  lemma {:induction false} VisibleRowsMeaning(nodes: seq<Tree>, collapsed: set<Id>, trail: seq<Id>)
    ensures VisibleRows(nodes, collapsed, |trail|) == Entries(Keep(Place(nodes, trail), collapsed, |trail|))
    decreases nodes
  {
    hide Shown, Keep;
    if nodes != [] {
      var id := nodes[0].id;
      var trail', n := trail + [id], |trail|;
      VisibleRowsMeaning(nodes[0].children, collapsed, trail');
      VisibleRowsMeaning(nodes[1..], collapsed, trail);
      var first, inner, rest := [Placed(nodes[0], trail)], Place(nodes[0].children, trail'), Place(nodes[1..], trail);
      KeepConcat(first + inner, rest, collapsed, n);
      KeepConcat(first, inner, collapsed, n);
      KeepTop(nodes[0], collapsed, trail);
      KeepChildren(nodes[0].children, collapsed, trail, id);
      KeepEntries(first, Keep(inner, collapsed, n), Keep(rest, collapsed, n));
      assert Entries(first) == [Entry(nodes[0], n)];
    } else {
      KeepNone(collapsed, |trail|);
    }
  }

  lemma KeepNone(collapsed: set<Id>, base: nat)
    ensures Keep([], collapsed, base) == []
  {
  }

  lemma KeepEntries(a: seq<Placed>, b: seq<Placed>, c: seq<Placed>)
    ensures Entries(a + b + c) == Entries(a) + Entries(b) + Entries(c)
  {
  }

  function HiddenBelow(rows: seq<Entry>, collapsed: set<Id>): nat {
    if rows == [] then 0
    else (if rows[0].node.id in collapsed then CountDescendants(rows[0].node) else 0) + HiddenBelow(rows[1..], collapsed)
  }

  lemma {:induction false} HiddenBelowConcat(a: seq<Entry>, b: seq<Entry>, collapsed: set<Id>)
    ensures HiddenBelow(a + b, collapsed) == HiddenBelow(a, collapsed) + HiddenBelow(b, collapsed)
  {
    if a == [] {
      assert a + b == b;
    } else {
      assert (a + b)[1..] == a[1..] + b;
      HiddenBelowConcat(a[1..], b, collapsed);
    }
  }

  lemma {:induction false} FlattenSize(nodes: seq<Tree>, depth: nat)
    ensures |Flatten(nodes, depth)| == SumDescendants(nodes)
    decreases nodes
  {
    if nodes != [] {
      FlattenSize(nodes[0].children, depth + 1);
      FlattenSize(nodes[1..], depth);
    }
  }

  /** The visible rows and the descendants announced by the collapsed ones add up to the whole forest. */
  lemma {:induction false} NothingIsLost(nodes: seq<Tree>, collapsed: set<Id>, depth: nat)
    ensures var rows := VisibleRows(nodes, collapsed, depth);
            |rows| + HiddenBelow(rows, collapsed) == |Flatten(nodes, depth)|
    decreases nodes
  {
    if nodes != [] {
      var first, rest := [Entry(nodes[0], depth)], VisibleRows(nodes[1..], collapsed, depth);
      var inner := if nodes[0].id in collapsed then [] else VisibleRows(nodes[0].children, collapsed, depth + 1);
      NothingIsLost(nodes[0].children, collapsed, depth + 1);
      NothingIsLost(nodes[1..], collapsed, depth);
      FlattenSize(nodes[0].children, depth + 1);
      HiddenBelowConcat(first + inner, rest, collapsed);
      HiddenBelowConcat(first, inner, collapsed);
      assert first[1..] == [];
    }
  }

  lemma {:induction false} NothingCollapsed(nodes: seq<Tree>, depth: nat)
    ensures VisibleRows(nodes, {}, depth) == Flatten(nodes, depth)
    decreases nodes
  {
    if nodes != [] {
      NothingCollapsed(nodes[0].children, depth + 1);
      NothingCollapsed(nodes[1..], depth);
    }
  }

  /** Toggling twice changes nothing, and toggling once only concerns rows strictly below that id. */
  lemma ToggleMeaning(collapsed: set<Id>, id: Id, p: Placed)
    ensures Toggle(Toggle(collapsed, id), id) == collapsed
    ensures id !in p.trail ==> (Shown(p, Toggle(collapsed, id), 0) <==> Shown(p, collapsed, 0))
    ensures id in p.trail ==> !(Shown(p, Toggle(collapsed, id), 0) && Shown(p, collapsed, 0))
  {
    var toggled := Toggle(collapsed, id);
    assert forall x :: x != id ==> (x in toggled <==> x in collapsed);
    assert forall k | 0 <= k < |p.trail| :: p.trail[k] in p.trail;
    if id in p.trail {
      var k :| 0 <= k < |p.trail| && p.trail[k] == id;
    }
  }
}
