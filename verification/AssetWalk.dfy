/**
 * The walk that guards a move. It keeps no set of visited nodes, so on a table with a cycle it may go on for ever:
 * when it ends, what it answers, and the controller around it.
 */
module AssetWalk {
  import opened Text
  import opened ParentChain
  import opened AssetTable

  // ---------------------------------------------------------------------------
  // When the walk ends, on any table
  // ---------------------------------------------------------------------------

  /** The walk goes no further from `c`: it is the asset itself, unknown, of another project, or without a parent. */
  predicate Stops(rows: Rows, x: Id, c: Id)
    requires x in rows
  {
    c == x || c !in rows || rows[c].project != rows[x].project || rows[c].parent.None?
  }

  predicate StopsWithin(rows: Rows, x: Id, c: Id, n: nat)
    requires x in rows
    decreases n
  {
    Stops(rows, x, c) || (n > 0 && StopsWithin(rows, x, rows[c].parent.value, n - 1))
  }

  /** The walk for moving `x` under `start` ends. */
  ghost predicate WalkEnds(rows: Rows, x: Id, start: Id)
    requires x in rows
  {
    exists n: nat :: StopsWithin(rows, x, start, n)
  }

  function Nodes(rows: Rows, start: Id): set<Id> {
    rows.Keys + {start} + set c | c in rows && rows[c].parent.Some? :: rows[c].parent.value
  }

  /** The parent pointers, cut where the walk stops. */
  function Cut(rows: Rows, x: Id, start: Id): (p: Parents)
    requires x in rows
    ensures Closed(p) && start in p
  {
    map c | c in Nodes(rows, start) :: if Stops(rows, x, c) then None else rows[c].parent
  }

  lemma {:induction false} WalkIsChain(rows: Rows, x: Id, start: Id, c: Id, n: nat)
    requires x in rows && c in Cut(rows, x, start)
    ensures StopsWithin(rows, x, c, n) <==> EndsWithin(Cut(rows, x, start), c, n)
    decreases n
  {
    if n > 0 && !Stops(rows, x, c) {
      WalkIsChain(rows, x, start, rows[c].parent.value, n - 1);
    }
  }

  /** The walk follows the chain from the new parent, cut where it stops. */
  lemma WalkIsCutChain(rows: Rows, x: Id, start: Id)
    requires x in rows
    ensures WalkEnds(rows, x, start) <==> Rooted(Cut(rows, x, start), start)
  {
    var q := Cut(rows, x, start);
    forall n: nat
      ensures StopsWithin(rows, x, start, n) <==> EndsWithin(q, start, n)
    {
      WalkIsChain(rows, x, start, start, n);
    }
    hide Cut;
  }

  /** Rows of the project whose parents are among them again; a row that is its own parent is the smallest case. */
  predicate Circle(rows: Rows, x: Id, circle: set<Id>)
    requires x in rows
  {
    forall c | c in circle ::
      && c in rows && c != x && rows[c].project == rows[x].project
      && rows[c].parent.Some? && rows[c].parent.value in circle
  }

  lemma {:induction false} CircleGoesOn(rows: Rows, x: Id, circle: set<Id>, c: Id, n: nat)
    requires x in rows && Circle(rows, x, circle) && c in circle
    ensures !StopsWithin(rows, x, c, n)
    decreases n
  {
    if n > 0 {
      CircleGoesOn(rows, x, circle, rows[c].parent.value, n - 1);
    }
  }

  /** Moving an asset under a node of a circle it is not part of never gets an answer. */
  lemma CircleNeverEnds(rows: Rows, x: Id, circle: set<Id>, c: Id)
    requires x in rows && Circle(rows, x, circle) && c in circle
    ensures !WalkEnds(rows, x, c)
  {
    forall n: nat
      ensures !StopsWithin(rows, x, c, n)
    {
      CircleGoesOn(rows, x, circle, c, n);
    }
  }

  /** Outside every circle the walk ends: the rows from which it goes on for ever are a circle themselves. */
  lemma EndlessIsCircle(rows: Rows, x: Id)
    requires x in rows
    ensures Circle(rows, x, set c | c in rows && !WalkEnds(rows, x, c))
  {
    var endless := set c | c in rows && !WalkEnds(rows, x, c);
    forall c | c in endless
      ensures c != x && rows[c].project == rows[x].project
      ensures rows[c].parent.Some? && rows[c].parent.value in endless
    {
      assert !StopsWithin(rows, x, c, 0);
      var up := rows[c].parent.value;
      if WalkEnds(rows, x, up) {
        var n: nat :| StopsWithin(rows, x, up, n);
        assert StopsWithin(rows, x, c, n + 1);
      }
      assert !StopsWithin(rows, x, up, 0);
    }
  }

  /** On any table the walk ends exactly when the new parent is in no circle of rows of the project without the asset. */
  lemma WalkEndsExactly(rows: Rows, x: Id, start: Id)
    requires x in rows
    ensures WalkEnds(rows, x, start) <==> !exists circle :: Circle(rows, x, circle) && start in circle
  {
    forall circle | Circle(rows, x, circle) && start in circle
      ensures !WalkEnds(rows, x, start)
    {
      CircleNeverEnds(rows, x, circle, start);
    }
    if !WalkEnds(rows, x, start) {
      assert !StopsWithin(rows, x, start, 0);
      EndlessIsCircle(rows, x);
      assert start in set c | c in rows && !WalkEnds(rows, x, c);
    }
  }

  /** `POST` stores a row that names itself as parent; moving another asset of the project under it never ends. */
  lemma SelfParentNeverEnds(rows: Rows, x: Id, c: Id, asset: Asset)
    requires x in rows && c !in rows && Storable(rows, c, asset)
    requires asset.parent == Some(c) && asset.project == rows[x].project
    ensures !WalkEnds(rows[c := asset], x, c)
  {
    CircleNeverEnds(rows[c := asset], x, {c}, c);
  }

  // ---------------------------------------------------------------------------
  // What it answers
  // ---------------------------------------------------------------------------

  /** Every node the walk visits is another row of the project. */
  ghost predicate Accepts(rows: Rows, x: Id, q: Parents, c: Id)
    requires x in rows && Closed(q) && c in q && Rooted(q, c)
  {
    forall y | y in Path(q, c) :: Proper(rows, x, y)
  }

  predicate Proper(rows: Rows, x: Id, y: Id)
    requires x in rows
  {
    y in rows && rows[y].project == rows[x].project && y != x
  }

  lemma AcceptsStep(rows: Rows, x: Id, start: Id, c: Id)
    requires x in rows && c in Cut(rows, x, start) && Rooted(Cut(rows, x, start), c)
    ensures var q := Cut(rows, x, start);
            && (Accepts(rows, x, q, c) ==> Proper(rows, x, c))
            && (Stops(rows, x, c) ==> (Accepts(rows, x, q, c) <==> Proper(rows, x, c)))
            && (!Stops(rows, x, c) ==>
                  var up := rows[c].parent.value;
                  && up in q && Rooted(q, up) && Depth(q, c) == Depth(q, up) + 1
                  && (Accepts(rows, x, q, c) <==> Accepts(rows, x, q, up)))
  {
    var q := Cut(rows, x, start);
    DepthStep(q, c);
    hide Depth, Rooted;
  }

  /** On a well-formed table the walk always ends, and accepts what `Allowed` says. */
  lemma {:induction false} WalkOnForest(rows: Rows, x: Id, start: Id, c: Id)
    requires WellFormed(rows) && x in rows && c in rows && rows[c].project == rows[x].project
    ensures var q := Cut(rows, x, start);
            c in q && Rooted(q, c) && (Accepts(rows, x, q, c) <==> !Above(ParentsOf(rows), x, c))
    decreases Depth(ParentsOf(rows), c)
  {
    var p, q := ParentsOf(rows), Cut(rows, x, start);
    DepthStep(p, c);
    PathShape(p, c);
    RootedStep(q, c);
    if !Stops(rows, x, c) {
      WalkOnForest(rows, x, start, rows[c].parent.value);
    }
    AcceptsStep(rows, x, start, c);
    hide WellFormed, Accepts, Cut;
  }

  lemma WalkIsAllowed(rows: Rows, x: Id, start: Id)
    requires WellFormed(rows) && x in rows
    ensures WalkEnds(rows, x, start) && Rooted(Cut(rows, x, start), start)
    ensures Accepts(rows, x, Cut(rows, x, start), start) <==> Allowed(rows, x, start)
  {
    WalkIsCutChain(rows, x, start);
    if start in rows && rows[start].project == rows[x].project {
      WalkOnForest(rows, x, start, start);
    } else {
      RootedStep(Cut(rows, x, start), start);
      AcceptsStep(rows, x, start, start);
    }
    hide WellFormed, Accepts, Cut, Rooted;
  }

  // ---------------------------------------------------------------------------
  // Updates on any table
  // ---------------------------------------------------------------------------

  /** What the walk answers, where it ends. */
  ghost predicate MayMove(rows: Rows, x: Id, start: Id)
    requires x in rows && WalkEnds(rows, x, start)
  {
    WalkIsCutChain(rows, x, start);
    Accepts(rows, x, Cut(rows, x, start), start)
  }

  /** A chain of other rows of the project, each the parent of the one before, the last without a parent. */
  predicate Climbs(rows: Rows, x: Id, chain: seq<Id>)
    requires x in rows
  {
    && chain != [] && Proper(rows, x, chain[0])
    && if |chain| == 1 then rows[chain[0]].parent == None
       else rows[chain[0]].parent == Some(chain[1]) && Climbs(rows, x, chain[1..])
  }

  lemma {:induction false} AcceptedClimbs(rows: Rows, x: Id, start: Id, c: Id) returns (chain: seq<Id>)
    requires x in rows && c in Cut(rows, x, start) && Rooted(Cut(rows, x, start), c)
    requires Accepts(rows, x, Cut(rows, x, start), c)
    ensures Climbs(rows, x, chain) && chain[0] == c
    decreases Depth(Cut(rows, x, start), c)
  {
    hide Accepts, Cut, Rooted, Depth;
    AcceptsStep(rows, x, start, c);
    if Stops(rows, x, c) {
      chain := [c];
      ClimbsCons(rows, x, c, []);
    } else {
      var rest := AcceptedClimbs(rows, x, start, rows[c].parent.value);
      chain := [c] + rest;
      ClimbsCons(rows, x, c, rest);
    }
  }

  lemma ClimbsCons(rows: Rows, x: Id, c: Id, rest: seq<Id>)
    requires x in rows && Proper(rows, x, c) && (rest != [] ==> Climbs(rows, x, rest))
    requires rows[c].parent == if rest == [] then None else Some(rest[0])
    ensures Climbs(rows, x, [c] + rest)
  {
    hide Proper;
    assert ([c] + rest)[1..] == rest;
  }

  lemma {:induction false} ClimbsAccepted(rows: Rows, x: Id, start: Id, c: Id, chain: seq<Id>)
    requires x in rows && c in Cut(rows, x, start) && Rooted(Cut(rows, x, start), c)
    requires Climbs(rows, x, chain) && chain[0] == c
    ensures Accepts(rows, x, Cut(rows, x, start), c)
    decreases |chain|
  {
    hide Accepts, Cut, Rooted;
    AcceptsStep(rows, x, start, c);
    if |chain| > 1 {
      ClimbsAccepted(rows, x, start, chain[1], chain[1..]);
    }
  }

  /** The walk accepts a parent exactly when such a chain leads up from it. */
  lemma MayMoveExactly(rows: Rows, x: Id, start: Id)
    requires x in rows && WalkEnds(rows, x, start)
    ensures MayMove(rows, x, start) <==> exists chain :: Climbs(rows, x, chain) && chain[0] == start
  {
    hide Accepts, Cut, Rooted, WalkEnds, Proper;
    WalkIsCutChain(rows, x, start);
    if MayMove(rows, x, start) {
      var chain := AcceptedClimbs(rows, x, start, start);
    }
    if chain :| Climbs(rows, x, chain) && chain[0] == start {
      ClimbsAccepted(rows, x, start, start, chain);
    }
  }

  /** An accepted parent has a root above it, and not the asset. */
  lemma {:induction false} AcceptedIsRooted(rows: Rows, x: Id, start: Id, c: Id)
    requires x in rows && Closed(ParentsOf(rows))
    requires c in Cut(rows, x, start) && Rooted(Cut(rows, x, start), c) && Accepts(rows, x, Cut(rows, x, start), c)
    ensures c in rows && Rooted(ParentsOf(rows), c) && x !in Path(ParentsOf(rows), c)
    decreases Depth(Cut(rows, x, start), c)
  {
    AcceptsStep(rows, x, start, c);
    var p := ParentsOf(rows);
    RootedStep(p, c);
    if !Stops(rows, x, c) {
      AcceptedIsRooted(rows, x, start, rows[c].parent.value);
    }
    DepthStep(p, c);
    hide Accepts, Cut, Rooted, Depth;
  }

  lemma {:induction false} StaysRooted(p: Parents, x: Id, parent: Option<Id>, n: Id)
    requires Closed(p) && Closed(p[x := parent]) && x in p && Rooted(p[x := parent], x) && n in p && Rooted(p, n)
    ensures Rooted(p[x := parent], n)
    decreases Depth(p, n)
  {
    DepthStep(p, n);
    RootedStep(p[x := parent], n);
    if n != x && p[n].Some? {
      StaysRooted(p, x, parent, p[n].value);
    }
    hide Rooted, Depth;
  }

  /**
   * On any table whose parents are rows, an accepted move closes no circle: the moved asset gets a root, and whatever
   * had one keeps one.
   */
  lemma AcceptedMove(rows: Rows, x: Id, parent: Option<Id>)
    requires x in rows && Closed(ParentsOf(rows))
    requires parent.Some? ==> WalkEnds(rows, x, parent.value) && MayMove(rows, x, parent.value)
    ensures var p, q := ParentsOf(rows), ParentsOf(rows)[x := parent];
            Closed(q) && Rooted(q, x) && forall n | n in p && Rooted(p, n) :: Rooted(q, n)
  {
    var p, q := ParentsOf(rows), ParentsOf(rows)[x := parent];
    if parent.Some? {
      WalkIsCutChain(rows, x, parent.value);
      AcceptedIsRooted(rows, x, parent.value, parent.value);
      PathShape(p, parent.value);
      PathFrame(p, q, parent.value);
    }
    RootedStep(q, x);
    forall n | n in p && Rooted(p, n)
      ensures Rooted(q, n)
    {
      StaysRooted(p, x, parent, n);
    }
    hide Rooted, WalkEnds, MayMove, Path;
  }

  datatype Reply = Reply(rows: Rows, response: Response)

  /** The walk of an update, if it makes one, ends. */
  ghost predicate Answered(rows: Rows, x: Id, request: UpdateRequest) {
    x in rows && request.parent.Some? ==> WalkEnds(rows, x, request.parent.value)
  }

  /** `UpdateOne` on any table, where its walk ends. */
  ghost function UpdateAny(rows: Rows, x: Id, request: UpdateRequest): Reply
    requires Answered(rows, x, request)
  {
    if x !in rows then Reply(rows, NotFound)
    else if request.parent.Some? && !MayMove(rows, x, request.parent.value) then Reply(rows, BadRequest)
    else if request.name.Some? && IsBlank(Trim(request.name.value)) then Reply(rows, BadRequest)
    else
      var name := if request.name.Some? then Trim(request.name.value) else rows[x].name;
      var asset := Asset(rows[x].project, request.parent, name);
      if Clashes(rows, x, asset) then Reply(rows, Conflict) else Reply(rows[x := asset], Response.Ok)
  }

  /** The parent asked for can be taken: none, or one from which only other rows of the project lead up. */
  ghost predicate ParentFits(rows: Rows, x: Id, parent: Option<Id>)
    requires x in rows
  {
    parent.Some? ==> exists chain :: Climbs(rows, x, chain) && chain[0] == parent.value
  }

  /** The name asked for, trimmed, or the one it has. */
  function NewName(rows: Rows, x: Id, request: UpdateRequest): string
    requires x in rows
  {
    if request.name.Some? then Trim(request.name.value) else rows[x].name
  }

  /** Which answer an update gets, and what it stores. */
  lemma UpdateAnswers(rows: Rows, x: Id, request: UpdateRequest)
    requires Answered(rows, x, request)
    ensures UpdateAny(rows, x, request).response == NotFound <==> x !in rows
    ensures x in rows ==>
              var r := UpdateAny(rows, x, request);
              var refused := !ParentFits(rows, x, request.parent) || (request.name.Some? && IsBlank(request.name.value));
              var asset := Asset(rows[x].project, request.parent, NewName(rows, x, request));
              var taken := exists y :: y in rows && y != x && rows[y] == asset;
              && (r.response == BadRequest <==> refused)
              && (r.response == Conflict <==> !refused && taken)
              && (r.response == Response.Ok <==> !refused && !taken)
              && r.rows == if r.response == Response.Ok then rows[x := asset] else rows
  {
    hide Trim, WalkEnds, MayMove, IsBlank, Climbs;
    if x in rows {
      if request.parent.Some? {
        MayMoveExactly(rows, x, request.parent.value);
      }
      if request.name.Some? {
        TrimTwice(request.name.value);
      }
    }
  }

  /** An update changes the asset's own row or nothing; a successful one gives the asset a root and takes none away. */
  lemma UpdateAnyKeeps(rows: Rows, x: Id, request: UpdateRequest)
    requires Answered(rows, x, request) && Closed(ParentsOf(rows))
    ensures var r := UpdateAny(rows, x, request);
            && (r.response != Response.Ok ==> r.rows == rows)
            && (r.response == Response.Ok ==>
                  var p, q := ParentsOf(rows), ParentsOf(r.rows);
                  && x in rows && x in r.rows && r.rows == rows[x := r.rows[x]] && r.rows[x].project == rows[x].project
                  && q == p[x := request.parent] && Closed(q) && Rooted(q, x)
                  && forall n | n in p && Rooted(p, n) :: Rooted(q, n))
  {
    hide Trim, WalkEnds, MayMove, Clashes, Rooted, IsBlank;
    var r := UpdateAny(rows, x, request);
    if r.response == Response.Ok {
      AcceptedMove(rows, x, request.parent);
      assert ParentsOf(rows[x := r.rows[x]]) == ParentsOf(rows)[x := request.parent];
    }
  }

  /** On a well-formed table it is the update of the forest. */
  lemma UpdateOnForest(rows: Rows, x: Id, request: UpdateRequest)
    requires WellFormed(rows)
    ensures Answered(rows, x, request)
    ensures UpdateAny(rows, x, request) == Reply(Update(rows, x, request).0, Update(rows, x, request).1)
  {
    if x in rows && request.parent.Some? {
      WalkIsAllowed(rows, x, request.parent.value);
    }
    hide WellFormed, WalkEnds, Accepts, Allowed, Trim, IsBlank, Clashes, Cut, Rooted;
  }

  // ---------------------------------------------------------------------------
  // The controller
  // ---------------------------------------------------------------------------

  class AssetsController {
    var assets: Rows

    /**
     * `CanReparentAsync`, on any table on which it ends: it accepts exactly when every node from the new parent up to
     * where it stops is another row of the asset's project.
     */
    method CanReparent(assetId: Id, newParentId: Id) returns (ok: bool)
      requires assetId in assets && WalkEnds(assets, assetId, newParentId)
      ensures ok <==> MayMove(assets, assetId, newParentId)
    {
      hide Accepts, Cut, Rooted, WalkEnds;
      ghost var q := Cut(assets, assetId, newParentId);
      WalkIsCutChain(assets, assetId, newParentId);
      var cursor := Some(newParentId);
      while cursor.Some?
        invariant cursor.Some? ==>
          && cursor.value in q && Rooted(q, cursor.value)
          && (Accepts(assets, assetId, q, newParentId) <==> Accepts(assets, assetId, q, cursor.value))
        invariant cursor.None? ==> Accepts(assets, assetId, q, newParentId)
        decreases if cursor.None? then 0 else Depth(q, cursor.value) + 1
      {
        AcceptsStep(assets, assetId, newParentId, cursor.value);
        if cursor.value == assetId {
          return false;
        }
        if cursor.value !in assets || assets[cursor.value].project != assets[assetId].project {
          return false;
        }
        cursor := assets[cursor.value].parent;
      }
      return true;
    }

    /** `UpdateOne`, on any table on which its walk ends. */
    method UpdateOne(id: Id, request: UpdateRequest) returns (response: Response)
      requires Answered(assets, id, request)
      modifies this
      ensures Reply(assets, response) == UpdateAny(old(assets), id, request)
    {
      hide WalkEnds, MayMove, Trim, IsBlank;
      if id !in assets {
        return NotFound;
      }
      if request.parent.Some? {
        var ok := CanReparent(id, request.parent.value);
        if !ok {
          return BadRequest;
        }
      }
      var asset := assets[id];
      if request.name.Some? {
        var name := Trim(request.name.value);
        if IsBlank(name) {
          return BadRequest;
        }
        asset := asset.(name := name);
      }
      asset := asset.(parent := request.parent);
      if Clashes(assets, id, asset) {
        return Conflict;
      }
      assets := assets[id := asset];
      return Ok;
    }
  }
}
