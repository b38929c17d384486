/**
 * Ingesting discovered assets: a node is identified by its name under its parent, so a candidate tree is merged into
 * the table, and merging it again changes nothing.
 */
module AssetUpsert {
  import opened Text
  import opened ParentChain
  import opened AssetTable

  datatype Candidate = Candidate(name: string, children: seq<Candidate>)

  /** The table, and how many ids were issued. */
  datatype Store = Store(rows: Rows, issued: nat)

  datatype Upserted = Upserted(store: Store, id: Id, created: bool)

  /** What ingesting a tree leaves, how many rows it created, and whether it failed. */
  datatype Ingested = Ingested(store: Store, created: nat, failed: bool)

  /** The ids still to be issued are new, and new to each other. */
  ghost predicate Supply(issue: nat -> Id, store: Store) {
    && (forall i: nat, j: nat | store.issued <= i < j :: issue(i) != issue(j))
    && (forall i: nat | store.issued <= i :: issue(i) !in store.rows)
  }

  /** What the database itself guarantees: parents are rows, and no two rows share project, parent and name. */
  predicate Tidy(rows: Rows) {
    Closed(ParentsOf(rows)) && UniqueNames(rows)
  }

  ghost predicate Ready(issue: nat -> Id, store: Store) {
    Tidy(store.rows) && Supply(issue, store)
  }

  predicate ParentRow(rows: Rows, parent: Option<Id>) {
    parent.Some? ==> parent.value in rows
  }

  /** The parent, if any, is a row of the project. */
  predicate ParentOk(rows: Rows, project: Id, parent: Option<Id>) {
    parent.Some? ==> parent.value in rows && rows[parent.value].project == project
  }

  predicate Exists(rows: Rows, asset: Asset) {
    exists x | x in rows :: rows[x] == asset
  }

  /** `UpsertAsync`; a parent that is no row fails the insert on its foreign key. */
  ghost function Upsert(issue: nat -> Id, store: Store, project: Id, parent: Option<Id>, name: string): Option<Upserted> {
    var asset := Asset(project, parent, Trim(name));
    if Exists(store.rows, asset) then
      var x :| x in store.rows && store.rows[x] == asset;
      Some(Upserted(store, x, false))
    else if !ParentRow(store.rows, parent) then None
    else
      var id := issue(store.issued);
      Some(Upserted(Store(store.rows[id := asset], store.issued + 1), id, true))
  }

  predicate Extends(a: Rows, b: Rows) {
    forall x | x in a :: x in b && b[x] == a[x]
  }

  lemma TidyInsert(rows: Rows, id: Id, asset: Asset)
    requires Tidy(rows) && id !in rows && ParentRow(rows, asset.parent) && !Exists(rows, asset)
    ensures Tidy(rows[id := asset])
  {
    assert ParentsOf(rows[id := asset]) == ParentsOf(rows)[id := asset.parent];
  }

  /** What one upsert keeps on any table; it fails exactly for a parent that is no row. */
  lemma UpsertKeeps(issue: nat -> Id, store: Store, project: Id, parent: Option<Id>, name: string)
    requires Ready(issue, store)
    ensures Upsert(issue, store, project, parent, name).None? <==> !ParentRow(store.rows, parent)
    ensures ParentRow(store.rows, parent) ==>
              var u := Upsert(issue, store, project, parent, name).value;
              && u.id in u.store.rows && u.store.rows[u.id] == Asset(project, parent, Trim(name))
              && Extends(store.rows, u.store.rows) && Ready(issue, u.store)
              && |u.store.rows| == |store.rows| + (if u.created then 1 else 0)
              && u.store.issued == store.issued + (if u.created then 1 else 0)
              && (u.created <==> !Exists(store.rows, Asset(project, parent, Trim(name))))
  {
    hide Trim, Tidy;
    var asset := Asset(project, parent, Trim(name));
    ExistingParent(store.rows, asset);
    if !Exists(store.rows, asset) && ParentRow(store.rows, parent) {
      var id := issue(store.issued);
      TidyInsert(store.rows, id, asset);
      assert store.rows[id := asset].Keys == store.rows.Keys + {id};
    }
  }

  lemma ExistingParent(rows: Rows, asset: Asset)
    requires Tidy(rows)
    ensures Exists(rows, asset) ==> ParentRow(rows, asset.parent)
  {
    if Exists(rows, asset) {
      var x :| x in rows && rows[x] == asset;
      assert ParentsOf(rows)[x] == asset.parent;
    }
  }

  /** A new row is well placed exactly when its parent is a row of the same project. */
  lemma UpsertWellFormed(issue: nat -> Id, store: Store, project: Id, parent: Option<Id>, name: string)
    requires Ready(issue, store) && WellFormed(store.rows) && ParentRow(store.rows, parent)
    ensures Upsert(issue, store, project, parent, name).Some?
    ensures var u := Upsert(issue, store, project, parent, name).value;
            WellFormed(u.store.rows) <==> !u.created || ParentOk(store.rows, project, parent)
  {
    hide Trim, WellFormed;
    UpsertKeeps(issue, store, project, parent, name);
    var asset := Asset(project, parent, Trim(name));
    if !Exists(store.rows, asset) {
      var id := issue(store.issued);
      assert Storable(store.rows, id, asset);
      InsertWellFormed(store.rows, id, asset);
    }
  }

  lemma ParentKept(a: Rows, b: Rows, project: Id, parent: Option<Id>)
    requires Extends(a, b)
    ensures ParentRow(a, parent) ==> ParentRow(b, parent)
    ensures ParentOk(a, project, parent) ==> ParentOk(b, project, parent)
  {
  }

  /** An upsert under a row, or at the top, never fails. */
  ghost function UpsertUnder(issue: nat -> Id, store: Store, project: Id, parent: Option<Id>, name: string): (u: Upserted)
    requires Ready(issue, store) && ParentRow(store.rows, parent)
    ensures Upsert(issue, store, project, parent, name) == Some(u)
    ensures Ready(issue, u.store) && Extends(store.rows, u.store.rows)
    ensures ParentRow(u.store.rows, parent) && ParentOk(u.store.rows, project, Some(u.id))
    ensures |u.store.rows| == |store.rows| + (if u.created then 1 else 0)
    ensures u.store.issued == store.issued + (if u.created then 1 else 0)
  {
    hide Tidy, Upsert, Supply, Trim;
    UpsertKeeps(issue, store, project, parent, name);
    ParentKept(store.rows, Upsert(issue, store, project, parent, name).value.store.rows, project, parent);
    Upsert(issue, store, project, parent, name).value
  }

  /**
   * `UpsertTreeAsync`: each candidate, then its children under it. The first candidate fails for a parent that is no
   * row; after that nothing can.
   */
  ghost function UpsertTree(issue: nat -> Id, store: Store, project: Id, parent: Option<Id>, candidates: seq<Candidate>)
    : (r: Ingested)
    requires Ready(issue, store)
    ensures Ready(issue, r.store) && Extends(store.rows, r.store.rows)
    ensures |r.store.rows| == |store.rows| + r.created && r.store.issued == store.issued + r.created
    ensures r.failed <==> candidates != [] && !ParentRow(store.rows, parent)
    ensures r.failed ==> r.store == store
    decreases candidates
  {
    hide Tidy, Supply, UpsertUnder, ParentOk;
    if candidates == [] then Ingested(store, 0, false)
    else if !ParentRow(store.rows, parent) then Ingested(store, 0, true)
    else
      var u := UpsertUnder(issue, store, project, parent, candidates[0].name);
      var below := UpsertTree(issue, u.store, project, Some(u.id), candidates[0].children);
      ParentKept(u.store.rows, below.store.rows, project, Some(u.id));
      ParentKept(u.store.rows, below.store.rows, project, parent);
      ChildFits(u.store.rows, project, u.id);
      var rest := UpsertTree(issue, below.store, project, parent, candidates[1..]);
      Ingested(rest.store, (if u.created then 1 else 0) + below.created + rest.created, false)
  }

  lemma ChildFits(rows: Rows, project: Id, id: Id)
    requires ParentOk(rows, project, Some(id))
    ensures ParentRow(rows, Some(id))
  {
  }

  // ---------------------------------------------------------------------------
  // A row is known by the names on its path
  // ---------------------------------------------------------------------------

  ghost function Names(rows: Rows, x: Id): (r: seq<string>)
    requires WellFormed(rows) && x in rows
    ensures r != [] && r[|r| - 1] == rows[x].name
    decreases Depth(ParentsOf(rows), x)
  {
    DepthStep(ParentsOf(rows), x);
    if rows[x].parent.None? then [rows[x].name] else Names(rows, rows[x].parent.value) + [rows[x].name]
  }

  ghost function BaseNames(rows: Rows, parent: Option<Id>): seq<string>
    requires WellFormed(rows) && (parent.Some? ==> parent.value in rows)
  {
    if parent.None? then [] else Names(rows, parent.value)
  }

  ghost predicate Known(rows: Rows, project: Id, names: seq<string>)
    requires WellFormed(rows)
  {
    exists x :: x in rows && rows[x].project == project && Names(rows, x) == names
  }

  lemma NamesStep(rows: Rows, x: Id)
    requires WellFormed(rows) && x in rows
    ensures rows[x].parent.Some? ==>
              var up := rows[x].parent.value;
              && up in rows && rows[up].project == rows[x].project
              && Depth(ParentsOf(rows), x) == Depth(ParentsOf(rows), up) + 1
    ensures Names(rows, x) == BaseNames(rows, rows[x].parent) + [rows[x].name]
  {
    assert ParentsOf(rows)[x] == rows[x].parent;
    DepthStep(ParentsOf(rows), x);
  }

  lemma {:induction false} NamesFrame(a: Rows, b: Rows, x: Id)
    requires WellFormed(a) && WellFormed(b) && Extends(a, b) && x in a
    ensures Names(b, x) == Names(a, x)
    decreases Depth(ParentsOf(a), x)
  {
    hide WellFormed, Names, Depth;
    NamesStep(a, x);
    NamesStep(b, x);
    if a[x].parent.Some? {
      NamesFrame(a, b, a[x].parent.value);
    }
  }

  /** In one project no two rows have the same names on their paths. */
  lemma {:induction false} NamesUnique(rows: Rows, x: Id, y: Id)
    requires WellFormed(rows) && x in rows && y in rows && rows[x].project == rows[y].project
    requires Names(rows, x) == Names(rows, y)
    ensures x == y
    decreases Depth(ParentsOf(rows), x)
  {
    assert UniqueNames(rows);
    hide WellFormed, Names, Depth;
    NamesStep(rows, x);
    NamesStep(rows, y);
    LastEqual(BaseNames(rows, rows[x].parent), rows[x].name, BaseNames(rows, rows[y].parent), rows[y].name);
    if rows[x].parent.Some? && rows[y].parent.Some? {
      NamesUnique(rows, rows[x].parent.value, rows[y].parent.value);
    }
    assert rows[x] == rows[y];
  }

  lemma LastEqual<T>(a: seq<T>, x: T, b: seq<T>, y: T)
    requires a + [x] == b + [y]
    ensures a == b && x == y
  {
    assert (a + [x])[..|a|] == a && (b + [y])[..|b|] == b;
    assert (a + [x])[|a|] == x && (b + [y])[|b|] == y;
  }

  // ---------------------------------------------------------------------------
  // What ingesting a tree adds
  // ---------------------------------------------------------------------------

  /** The names are those of a node of the candidate tree, from the top down. */
  predicate InTree(candidates: seq<Candidate>, names: seq<string>)
    decreases candidates
  {
    && names != [] && candidates != []
    && (|| (names[0] == Trim(candidates[0].name) && (|names| == 1 || InTree(candidates[0].children, names[1..])))
        || InTree(candidates[1..], names))
  }

  predicate Adds(base: seq<string>, candidates: seq<Candidate>, names: seq<string>) {
    base <= names && InTree(candidates, names[|base|..])
  }

  lemma AddsStep(base: seq<string>, candidates: seq<Candidate>, names: seq<string>)
    requires candidates != []
    ensures var first := base + [Trim(candidates[0].name)];
            Adds(base, candidates, names) <==>
            (names == first || Adds(first, candidates[0].children, names) || Adds(base, candidates[1..], names))
  {
    hide Trim;
    var name := Trim(candidates[0].name);
    var first := base + [name];
    if base <= names && |names| > |base| {
      var rest := names[|base|..];
      assert first <= names <==> rest[0] == name;
      assert names[|first|..] == rest[1..];
      assert |rest| == 1 && rest[0] == name ==> names == first;
    }
  }

  /** A table with one more row, or none more, knows one more path at most. */
  lemma KnownGrows(a: Rows, b: Rows, id: Id, p: Id, names: seq<string>)
    requires WellFormed(a) && WellFormed(b) && Extends(a, b) && id in b && b.Keys == a.Keys + {id}
    ensures Known(b, p, names) <==> Known(a, p, names) || (b[id].project == p && Names(b, id) == names)
  {
    hide WellFormed, Names;
    forall x | x in a
      ensures x in b && b[x] == a[x] && Names(b, x) == Names(a, x)
    {
      NamesFrame(a, b, x);
    }
    if Known(a, p, names) {
      var x :| x in a && a[x].project == p && Names(a, x) == names;
      assert x in b;
    }
  }

  lemma UpsertKeys(issue: nat -> Id, store: Store, project: Id, parent: Option<Id>, name: string)
    requires Upsert(issue, store, project, parent, name).Some?
    ensures var u := Upsert(issue, store, project, parent, name).value; u.store.rows.Keys == store.rows.Keys + {u.id}
  {
    hide Trim;
  }

  lemma UpsertKnown(issue: nat -> Id, store: Store, project: Id, parent: Option<Id>, name: string, p: Id, names: seq<string>)
    requires Ready(issue, store) && WellFormed(store.rows) && ParentOk(store.rows, project, parent)
    ensures Upsert(issue, store, project, parent, name).Some?
    ensures var u := Upsert(issue, store, project, parent, name).value;
            && WellFormed(u.store.rows) && Extends(store.rows, u.store.rows)
            && u.id in u.store.rows && u.store.rows[u.id].project == project
            && Names(u.store.rows, u.id) == BaseNames(store.rows, parent) + [Trim(name)]
            && (Known(u.store.rows, p, names) <==>
                Known(store.rows, p, names) || (p == project && names == BaseNames(store.rows, parent) + [Trim(name)]))
  {
    hide Upsert, Trim, WellFormed, Tidy, Names, Supply, Known;
    UpsertKeeps(issue, store, project, parent, name);
    UpsertWellFormed(issue, store, project, parent, name);
    UpsertKeys(issue, store, project, parent, name);
    var u := Upsert(issue, store, project, parent, name).value;
    NamesStep(u.store.rows, u.id);
    if parent.Some? {
      NamesFrame(store.rows, u.store.rows, parent.value);
    }
    KnownGrows(store.rows, u.store.rows, u.id, p, names);
  }

  /** On a well-formed table a tree is well placed exactly when nothing is created or its parent is in the project. */
  lemma {:induction false} UpsertTreeWellFormed(issue: nat -> Id, store: Store, project: Id, parent: Option<Id>,
                                                candidates: seq<Candidate>)
    requires Ready(issue, store) && WellFormed(store.rows)
    ensures var r := UpsertTree(issue, store, project, parent, candidates);
            WellFormed(r.store.rows) <==> r.created == 0 || ParentOk(store.rows, project, parent)
    decreases candidates
  {
    hide WellFormed, Tidy, Upsert, UpsertUnder, Supply, Trim, UpsertTree;
    if candidates == [] || !ParentRow(store.rows, parent) {
      TreeNone(issue, store, project, parent, candidates);
    } else {
      TreeStep(issue, store, project, parent, candidates);
      UpsertWellFormed(issue, store, project, parent, candidates[0].name);
      var u := UpsertUnder(issue, store, project, parent, candidates[0].name);
      if ParentOk(store.rows, project, parent) {
        UpsertTreeWellFormed(issue, u.store, project, Some(u.id), candidates[0].children);
        var below := UpsertTree(issue, u.store, project, Some(u.id), candidates[0].children);
        ParentKept(store.rows, below.store.rows, project, parent);
        UpsertTreeWellFormed(issue, below.store, project, parent, candidates[1..]);
      } else {
        UpsertKeeps(issue, store, project, parent, candidates[0].name);
        ForeignRow(store.rows, u.store.rows, project, parent.value, u.id);
        var after := UpsertTree(issue, store, project, parent, candidates).store;
        ForeignRow(store.rows, after.rows, project, parent.value, u.id);
        assert u.created by { assert !WellFormed(u.store.rows); }
      }
    }
  }

  /** A row under a parent of another project spoils the table, whatever else is in it. */
  lemma ForeignRow(a: Rows, b: Rows, project: Id, parent: Id, x: Id)
    requires Extends(a, b) && parent in a && a[parent].project != project
    requires x in b && b[x].project == project && b[x].parent == Some(parent)
    ensures !WellFormed(b)
  {
  }

  /** The result is the merge: the paths of the old table and those of the candidate tree below the parent. */
  lemma {:induction false} UpsertTreeMerges(issue: nat -> Id, store: Store, project: Id, parent: Option<Id>,
                                            candidates: seq<Candidate>, p: Id, names: seq<string>)
    requires Ready(issue, store) && WellFormed(store.rows) && ParentOk(store.rows, project, parent)
    ensures var after := UpsertTree(issue, store, project, parent, candidates).store;
            && WellFormed(after.rows)
            && (Known(after.rows, p, names) <==>
                Known(store.rows, p, names) || (p == project && Adds(BaseNames(store.rows, parent), candidates, names)))
    decreases candidates
  {
    hide WellFormed, Tidy, Upsert, UpsertUnder, Supply, Trim, Names, Known, UpsertTree, Adds;
    if candidates != [] {
      UpsertKnown(issue, store, project, parent, candidates[0].name, p, names);
      TreeStep(issue, store, project, parent, candidates);
      var u := UpsertUnder(issue, store, project, parent, candidates[0].name);
      var below := UpsertTree(issue, u.store, project, Some(u.id), candidates[0].children);
      UpsertTreeMerges(issue, u.store, project, Some(u.id), candidates[0].children, p, names);
      ParentKept(store.rows, u.store.rows, project, parent);
      ParentKept(u.store.rows, below.store.rows, project, parent);
      UpsertTreeMerges(issue, below.store, project, parent, candidates[1..], p, names);
      if parent.Some? {
        NamesFrame(store.rows, u.store.rows, parent.value);
        NamesFrame(u.store.rows, below.store.rows, parent.value);
      }
      AddsStep(BaseNames(store.rows, parent), candidates, names);
    } else {
      TreeNone(issue, store, project, parent, candidates);
      AddsNothing(BaseNames(store.rows, parent), names);
    }
  }

  lemma AddsNothing(base: seq<string>, names: seq<string>)
    ensures !Adds(base, [], names)
  {
  }

  /** Ingesting the same tree again creates nothing and changes nothing. */
  lemma UpsertTreeTwice(issue: nat -> Id, store: Store, project: Id, parent: Option<Id>, candidates: seq<Candidate>)
    requires Ready(issue, store) && WellFormed(store.rows) && ParentOk(store.rows, project, parent)
    ensures var after := UpsertTree(issue, store, project, parent, candidates).store;
            UpsertTree(issue, after, project, parent, candidates) == Ingested(after, 0, false)
  {
    hide WellFormed, Tidy, Supply, Trim, Names, UpsertTree, Adds;
    var after := UpsertTree(issue, store, project, parent, candidates).store;
    var again := UpsertTree(issue, after, project, parent, candidates).store;
    UpsertTreeMerges(issue, store, project, parent, candidates, project, []);
    ParentKept(store.rows, after.rows, project, parent);
    UpsertTreeMerges(issue, after, project, parent, candidates, project, []);
    if parent.Some? {
      NamesFrame(store.rows, after.rows, parent.value);
    }
    forall x | x in again.rows
      ensures x in after.rows
    {
      var p, names := again.rows[x].project, Names(again.rows, x);
      assert Known(again.rows, p, names);
      UpsertTreeMerges(issue, after, project, parent, candidates, p, names);
      UpsertTreeMerges(issue, store, project, parent, candidates, p, names);
      var y :| y in after.rows && after.rows[y].project == p && Names(after.rows, y) == names;
      NamesFrame(after.rows, again.rows, y);
      NamesUnique(again.rows, x, y);
    }
    assert again.rows == after.rows;
  }

  lemma TreeNone(issue: nat -> Id, store: Store, project: Id, parent: Option<Id>, candidates: seq<Candidate>)
    requires Ready(issue, store) && (candidates == [] || !ParentRow(store.rows, parent))
    ensures UpsertTree(issue, store, project, parent, candidates) == Ingested(store, 0, candidates != [])
  {
    hide Tidy, Supply, UpsertUnder;
  }

  lemma TreeStep(issue: nat -> Id, store: Store, project: Id, parent: Option<Id>, candidates: seq<Candidate>)
    requires Ready(issue, store) && ParentRow(store.rows, parent) && candidates != []
    ensures var u := UpsertUnder(issue, store, project, parent, candidates[0].name);
            var below := UpsertTree(issue, u.store, project, Some(u.id), candidates[0].children);
            && !below.failed && ParentRow(below.store.rows, parent)
            && var rest := UpsertTree(issue, below.store, project, parent, candidates[1..]);
               UpsertTree(issue, store, project, parent, candidates)
               == Ingested(rest.store, (if u.created then 1 else 0) + below.created + rest.created, false)
  {
    hide Tidy, Supply, UpsertUnder, Upsert, Trim, ParentOk, Extends, Ready, ParentsOf;
    var u := UpsertUnder(issue, store, project, parent, candidates[0].name);
    var below := UpsertTree(issue, u.store, project, Some(u.id), candidates[0].children);
    ParentKept(u.store.rows, below.store.rows, project, parent);
    ChildFits(u.store.rows, project, u.id);
  }

  // ---------------------------------------------------------------------------
  // The service
  // ---------------------------------------------------------------------------

  class AssetUpsertService {
    var assets: Rows
    var issued: nat
    const issue: nat -> Id

    constructor (issue: nat -> Id)
      ensures assets == map[] && issued == 0 && this.issue == issue
    {
      this.issue := issue;
      assets, issued := map[], 0;
    }

    ghost function Current(): Store
      reads this
    {
      Store(assets, issued)
    }

    /** `UpsertAsync`; nothing is returned when the database refuses the parent. */
    method UpsertOne(project: Id, parent: Option<Id>, name: string) returns (r: Option<(Id, bool)>)
      requires Ready(issue, Current())
      modifies this`assets, this`issued
      ensures var u := Upsert(issue, old(Current()), project, parent, name);
              && (r.None? <==> u.None?)
              && (u.Some? ==> r.value == (u.value.id, u.value.created) && Current() == u.value.store)
              && (u.None? ==> Current() == old(Current()))
    {
      hide Trim, Supply, Closed;
      var asset := Asset(project, parent, Trim(name));
      if x :| x in assets && assets[x] == asset {
        assert UniqueNames(assets);
        return Some((x, false));
      }
      if parent.Some? && parent.value !in assets {
        return None;
      }
      var id := issue(issued);
      assets, issued := assets[id := asset], issued + 1;
      return Some((id, true));
    }

    /** `UpsertTreeAsync`: the number of rows created; nothing is returned when the database refuses the parent. */
    method UpsertAll(project: Id, parent: Option<Id>, candidates: seq<Candidate>) returns (created: Option<nat>)
      requires Ready(issue, Current())
      modifies this`assets, this`issued
      ensures var r := UpsertTree(issue, old(Current()), project, parent, candidates);
              Current() == r.store && created == if r.failed then None else Some(r.created)
      decreases candidates
    {
      hide Tidy, Supply, Upsert, UpsertUnder, UpsertTree, Trim, ParentOk;
      var count := 0;
      ghost var all := UpsertTree(issue, Current(), project, parent, candidates);
      assert candidates[0..] == candidates && candidates[|candidates|..] == [];
      for i := 0 to |candidates|
        invariant Ready(issue, Current()) && (i > 0 ==> ParentRow(assets, parent))
        invariant var left := UpsertTree(issue, Current(), project, parent, candidates[i..]);
                  left.store == all.store && left.failed == all.failed && count + left.created == all.created
      {
        var candidate := candidates[i];
        UpsertKeeps(issue, Current(), project, parent, candidate.name);
        assert candidates[i..][1..] == candidates[i + 1..];
        if ParentRow(assets, parent) {
          TreeStep(issue, Current(), project, parent, candidates[i..]);
        }
        ghost var before := Current();
        var one := UpsertOne(project, parent, candidate.name);
        if one.None? {
          TreeNone(issue, before, project, parent, candidates[i..]);
          return None;
        }
        ghost var u := UpsertUnder(issue, before, project, parent, candidate.name);
        var below := UpsertAll(project, Some(one.value.0), candidate.children);
        count := count + (if one.value.1 then 1 else 0) + below.value;
      }
      TreeNone(issue, Current(), project, parent, []);
      return Some(count);
    }
  }
}
