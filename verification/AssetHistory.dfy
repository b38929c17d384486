/**
 * Everything that changes the asset table, one save after the other. Ingesting a tree saves after every node, so each
 * of its nodes is a request of its own here and others may come in between.
 */
module AssetHistory {
  import opened Text
  import opened ParentChain
  import opened AssetTable
  import opened AssetUpsert
  import AssetWalk

  datatype Request =
    | Put(id: Id, update: UpdateRequest)
    | Post(id: Id, asset: Asset)
    | Remove(id: Id)
    | Ensure(project: Id, parent: Option<Id>, name: string)
    | Discover(project: Id, parent: Option<Id>, name: string)

  /** `EnsureOne`: a blank name is refused, and so is, by the database, a parent that is no row. */
  ghost function EnsureOne(issue: nat -> Id, store: Store, project: Id, parent: Option<Id>, name: string): Store {
    if IsBlank(Trim(name)) then store else DiscoverOne(issue, store, project, parent, Trim(name))
  }

  /** One node of `UpsertTreeAsync`; the parent it was given may be gone by now. */
  ghost function DiscoverOne(issue: nat -> Id, store: Store, project: Id, parent: Option<Id>, name: string): Store {
    var u := Upsert(issue, store, project, parent, name);
    if u.None? then store else u.value.store
  }

  /** A parent that is a row is one of the project. */
  predicate OwnParent(rows: Rows, project: Id, parent: Option<Id>) {
    parent.Some? && parent.value in rows ==> rows[parent.value].project == project
  }

  /**
   * The check that creation leaves to its callers: a parent is a row of the same project. The ids that clients choose
   * are not among those still to be issued.
   */
  ghost predicate Guarded(issue: nat -> Id, store: Store, request: Request) {
    match request
    case Put(_, _) => true
    case Remove(_) => true
    case Post(id, asset) =>
      ParentOk(store.rows, asset.project, asset.parent) && forall k: nat | store.issued <= k :: issue(k) != id
    case Ensure(project, parent, _) => OwnParent(store.rows, project, parent)
    case Discover(project, parent, _) => OwnParent(store.rows, project, parent)
  }

  ghost function Serve(issue: nat -> Id, store: Store, request: Request): Store
    requires WellFormed(store.rows)
  {
    match request
    case Put(id, update) => store.(rows := Update(store.rows, id, update).0)
    case Post(id, asset) => if Storable(store.rows, id, asset) then store.(rows := store.rows[id := asset]) else store
    case Remove(id) => store.(rows := Delete(store.rows, id))
    case Ensure(project, parent, name) => EnsureOne(issue, store, project, parent, name)
    case Discover(project, parent, name) => DiscoverOne(issue, store, project, parent, name)
  }

  lemma FewerKeys(issue: nat -> Id, store: Store, rows: Rows)
    requires Supply(issue, store) && rows.Keys <= store.rows.Keys
    ensures Supply(issue, store.(rows := rows))
  {
  }

  lemma UpdateKeys(rows: Rows, id: Id, update: UpdateRequest)
    requires WellFormed(rows)
    ensures Update(rows, id, update).0.Keys == rows.Keys
  {
    hide WellFormed, Trim, Allowed, Clashes;
  }

  lemma UpsertPlaced(issue: nat -> Id, store: Store, project: Id, parent: Option<Id>, name: string)
    requires Supply(issue, store) && WellFormed(store.rows) && OwnParent(store.rows, project, parent)
    ensures var after := DiscoverOne(issue, store, project, parent, name);
            && WellFormed(after.rows) && Supply(issue, after) && Extends(store.rows, after.rows)
  {
    hide WellFormed, Supply, Trim, Upsert, Tidy, Exists;
    ForestIsTidy(store.rows);
    UpsertKeeps(issue, store, project, parent, name);
    if ParentRow(store.rows, parent) {
      UpsertWellFormed(issue, store, project, parent, name);
      assert ParentOk(store.rows, project, parent);
    }
  }

  /** The asset is in the table afterwards, in a new row exactly when it was not before; every other row stays. */
  ghost predicate Finds(before: Rows, after: Rows, asset: Asset) {
    && (exists x :: x in after && after[x] == asset) && Extends(before, after)
    && |after| == |before| + if exists x :: x in before && before[x] == asset then 0 else 1
  }

  lemma DiscoverFinds(issue: nat -> Id, store: Store, project: Id, parent: Option<Id>, name: string)
    requires Ready(issue, store)
    ensures var after := DiscoverOne(issue, store, project, parent, name);
            if ParentRow(store.rows, parent) then Finds(store.rows, after.rows, Asset(project, parent, Trim(name)))
            else after == store
  {
    hide Tidy, Supply, Trim, Upsert;
    UpsertKeeps(issue, store, project, parent, name);
    if ParentRow(store.rows, parent) {
      var u := Upsert(issue, store, project, parent, name).value;
      assert u.store.rows[u.id] == Asset(project, parent, Trim(name));
    }
  }

  /** `EnsureOne` finds or creates the trimmed name under the parent, unless it is blank or the parent is no row. */
  lemma EnsureFinds(issue: nat -> Id, store: Store, project: Id, parent: Option<Id>, name: string)
    requires Ready(issue, store)
    ensures var after := EnsureOne(issue, store, project, parent, name);
            if !IsBlank(name) && ParentRow(store.rows, parent)
            then Finds(store.rows, after.rows, Asset(project, parent, Trim(name)))
            else after == store
  {
    hide Tidy, Supply, Trim, DiscoverOne, Finds;
    TrimTwice(name);
    DiscoverFinds(issue, store, project, parent, Trim(name));
  }

  /**
   * `CreateOne` stores a row just as it was sent, or nothing: nothing exactly for an id in use, an unknown parent, or a
   * name its parent already has.
   */
  lemma PostStores(issue: nat -> Id, store: Store, id: Id, asset: Asset)
    requires WellFormed(store.rows)
    ensures var refused := || id in store.rows
                           || (asset.parent.Some? && asset.parent.value !in store.rows && asset.parent.value != id)
                           || (exists y :: y in store.rows && y != id && store.rows[y] == asset);
            Serve(issue, store, Post(id, asset)).rows == if refused then store.rows else store.rows[id := asset]
  {
    hide WellFormed;
  }

  /**
   * What the other requests do: an update does what the controller does, a delete takes the row and every row whose
   * parent goes, and upserts find or create.
   */
  lemma ServeDoes(issue: nat -> Id, store: Store, request: Request, y: Id)
    requires Sound(issue, store)
    ensures var after := Serve(issue, store, request).rows;
            && (request.Put? ==>
                  && AssetWalk.Answered(store.rows, request.id, request.update)
                  && after == AssetWalk.UpdateAny(store.rows, request.id, request.update).rows)
            && (request.Remove? && y in store.rows ==>
                  (y in after <==>
                   y != request.id && (store.rows[y].parent.Some? ==> store.rows[y].parent.value in after)))
            && (request.Discover? && ParentRow(store.rows, request.parent) ==>
                  Finds(store.rows, after, Asset(request.project, request.parent, Trim(request.name))))
            && (request.Ensure? && ParentRow(store.rows, request.parent) && !IsBlank(request.name) ==>
                  Finds(store.rows, after, Asset(request.project, request.parent, Trim(request.name))))
  {
    hide WellFormed, Supply, Update, Above, Trim, IsBlank, Finds, DiscoverOne, EnsureOne, Tidy, Delete;
    hide AssetWalk.UpdateAny, AssetWalk.Answered;
    ForestIsTidy(store.rows);
    match request
    case Put(id, update) => AssetWalk.UpdateOnForest(store.rows, id, update);
    case Remove(id) => DeleteExactly(store.rows, id, y);
    case Discover(project, parent, name) => DiscoverFinds(issue, store, project, parent, name);
    case Ensure(project, parent, name) => EnsureFinds(issue, store, project, parent, name);
    case _ =>
  }

  lemma ForestIsTidy(rows: Rows)
    requires WellFormed(rows)
    ensures Tidy(rows)
  {
  }

  ghost predicate Sound(issue: nat -> Id, store: Store) {
    WellFormed(store.rows) && Supply(issue, store)
  }

  lemma ServeKeeps(issue: nat -> Id, store: Store, request: Request)
    requires Sound(issue, store) && Guarded(issue, store, request)
    ensures Sound(issue, Serve(issue, store, request))
  {
    hide WellFormed, Supply, Update, Storable, Above, Upsert, Trim, Delete;
    match request
    case Put(id, update) => PutKeeps(issue, store, id, update);
    case Post(id, asset) => if Storable(store.rows, id, asset) { PostKeeps(issue, store, id, asset); }
    case Remove(id) => RemoveKeeps(issue, store, id);
    case Ensure(project, parent, name) => UpsertPlaced(issue, store, project, parent, Trim(name));
    case Discover(project, parent, name) => UpsertPlaced(issue, store, project, parent, name);
  }

  lemma PutKeeps(issue: nat -> Id, store: Store, id: Id, update: UpdateRequest)
    requires Sound(issue, store)
    ensures Sound(issue, store.(rows := Update(store.rows, id, update).0))
  {
    hide WellFormed, Supply, Update;
    UpdateWellFormed(store.rows, id, update);
    UpdateKeys(store.rows, id, update);
    FewerKeys(issue, store, Update(store.rows, id, update).0);
  }

  lemma PostKeeps(issue: nat -> Id, store: Store, id: Id, asset: Asset)
    requires Sound(issue, store) && Guarded(issue, store, Post(id, asset)) && Storable(store.rows, id, asset)
    ensures Sound(issue, store.(rows := store.rows[id := asset]))
  {
    hide WellFormed, Clashes;
    InsertWellFormed(store.rows, id, asset);
  }

  lemma RemoveKeeps(issue: nat -> Id, store: Store, id: Id)
    requires Sound(issue, store)
    ensures Sound(issue, store.(rows := Delete(store.rows, id)))
  {
    hide WellFormed, Supply, Above;
    DeleteWellFormed(store.rows, id);
    FewerKeys(issue, store, Delete(store.rows, id));
  }

  ghost predicate History(issue: nat -> Id, stores: seq<Store>, requests: seq<Request>) {
    && |stores| == |requests| + 1 && stores[0] == Store(map[], 0)
    && (forall i: nat, j: nat | i < j :: issue(i) != issue(j))
    && forall i | 0 <= i < |requests| :: Served(issue, stores[i], requests[i], stores[i + 1])
  }

  ghost predicate Served(issue: nat -> Id, store: Store, request: Request, after: Store) {
    WellFormed(store.rows) ==> Guarded(issue, store, request) && after == Serve(issue, store, request)
  }

  lemma {:induction false} AlwaysSound(issue: nat -> Id, stores: seq<Store>, requests: seq<Request>, i: nat)
    requires History(issue, stores, requests) && i <= |requests|
    ensures Sound(issue, stores[i])
  {
    hide WellFormed, Supply, Serve, Guarded;
    if i > 0 {
      AlwaysSound(issue, stores, requests, i - 1);
      assert Served(issue, stores[i - 1], requests[i - 1], stores[i]);
      ServeKeeps(issue, stores[i - 1], requests[i - 1]);
    } else {
      EmptySound(issue);
    }
  }

  /** Over every sequence of guarded saves of all five kinds the table stays an acyclic, project-closed forest. */
  lemma AlwaysWellFormed(issue: nat -> Id, stores: seq<Store>, requests: seq<Request>, i: nat)
    requires History(issue, stores, requests) && i <= |requests|
    ensures WellFormed(stores[i].rows)
  {
    hide WellFormed, Supply, History;
    AlwaysSound(issue, stores, requests, i);
  }

  lemma EmptySound(issue: nat -> Id)
    requires forall i: nat, j: nat | i < j :: issue(i) != issue(j)
    ensures Sound(issue, Store(map[], 0))
  {
    assert ParentsOf(map[]) == map[];
  }

  /**
   * No save moves a row to another project. So the guard of `Discover` holds for every child of an ingested tree: its
   * parent was a row of the project when the parent was upserted, and is still one or gone.
   */
  lemma ProjectsStay(issue: nat -> Id, store: Store, request: Request, x: Id)
    requires Sound(issue, store) && Guarded(issue, store, request) && x in store.rows
    ensures var after := Serve(issue, store, request);
            x in after.rows ==> after.rows[x].project == store.rows[x].project
  {
    hide WellFormed, Supply, Update, Above, Upsert, Trim;
    match request
    case Put(id, update) => UpdateWellFormed(store.rows, id, update);
    case Ensure(project, parent, name) => UpsertPlaced(issue, store, project, parent, Trim(name));
    case Discover(project, parent, name) => UpsertPlaced(issue, store, project, parent, name);
    case _ =>
  }
}
