/**
 * Two reports at once on tasks of one run. `UpdateTaskStatus` reads the run with its tasks, derives the status and
 * saves what changed; nothing holds the tables between the read and the save.
 */
module ScanRace {
  import opened Text
  import opened ScanStatus
  import opened ScanApi
  import opened ScanProtocol

  /** A report: its task, the status, and the error and the time of this request. */
  datatype Request = Request(taskId: int, status: Status, error: Option<string>, now: int)

  /** What a report is about to save: the row of its task, and the run status it read and the one it derived. */
  datatype Draft = Draft(taskId: int, task: Task, before: Status, derived: Status)

  /** The request up to `SaveChanges`. */
  function Prepare(db: Db, t: int, status: Status, error: Option<string>, now: int): Draft
    requires TasksOk(db) && RunsOk(db) && t in db.tasks
  {
    var db' := UpdateTask(db, t, status, error, now);
    var run := db.tasks[t].run;
    Draft(t, db'.tasks[t], db.runs[run].status, db'.runs[run].status)
  }

  /** `SaveChanges`: an unchanged run status is not written. */
  function Save(db: Db, draft: Draft): Db
    requires draft.task.run in db.runs
  {
    var row := db.runs[draft.task.run];
    var saved := if draft.derived == draft.before then row else row.(status := draft.derived);
    db.(tasks := db.tasks[draft.taskId := draft.task], runs := db.runs[draft.task.run := saved])
  }

  /** Served alone, the two halves are the update. */
  lemma ServedAlone(db: Db, t: int, status: Status, error: Option<string>, now: int)
    requires TasksOk(db) && RunsOk(db) && t in db.tasks
    ensures Save(db, Prepare(db, t, status, error, now)) == UpdateTask(db, t, status, error, now)
  {
    hide RecomputeStatus;
  }

  predicate AllOver(tasks: seq<Status>) {
    forall i | 0 <= i < |tasks| :: tasks[i].Terminal()
  }

  /** Statuses before, with the first report, with the second, and with both. */
  predicate Raced(a: seq<Status>, b: seq<Status>, c: seq<Status>, d: seq<Status>, i: nat, j: nat) {
    && |a| == |b| == |c| == |d| && i < |a| && j < |a| && i != j
    && (forall k | 0 <= k < |a| :: b[k] == if k == i then d[i] else a[k])
    && (forall k | 0 <= k < |a| :: c[k] == if k == j then d[j] else a[k])
    && (forall k | 0 <= k < |a| && k != i && k != j :: d[k] == a[k])
    && NoneLower(a, d)
    && (forall k | 0 <= k < |a| :: !a[k].Partial? && !d[k].Partial?)
  }

  /** The status that the second save leaves. */
  function Left(before: Status, first: Status, second: Status): Status {
    if second != before then second else if first != before then first else before
  }

  function Derive(tasks: seq<Status>): Status {
    RecomputeStatus(Queued, tasks)
  }

  predicate SomeOpen(tasks: seq<Status>) {
    exists i | 0 <= i < |tasks| :: !tasks[i].Terminal()
  }

  predicate AllQueued(tasks: seq<Status>) {
    forall i | 0 <= i < |tasks| :: tasks[i].Queued?
  }

  /** All that matters here about the rule. */
  lemma DeriveMeaning(tasks: seq<Status>)
    requires tasks != [] && forall k | 0 <= k < |tasks| :: !tasks[k].Partial?
    ensures IsScanRunActive(Derive(tasks)) <==> SomeOpen(tasks)
    ensures SomeOpen(tasks) <==> !AllOver(tasks)
    ensures Derive(tasks).Queued? <==> AllQueued(tasks)
  {
    RecomputeStatusMeaning(Queued, tasks);
    hide RecomputeStatus;
  }

  lemma RaceShape(a: seq<Status>, b: seq<Status>, c: seq<Status>, d: seq<Status>, i: nat, j: nat)
    requires Raced(a, b, c, d, i, j)
    ensures forall k | 0 <= k < |a| :: !b[k].Partial? && !c[k].Partial?
    ensures NoneLower(a, b) && NoneLower(a, c) && NoneLower(b, d) && NoneLower(c, d)
    ensures a[i].Terminal() ==> b == a && c == d
    ensures a[j].Terminal() ==> c == a && b == d
    ensures !a[i].Terminal() ==> SomeOpen(c)
    ensures !a[j].Terminal() ==> SomeOpen(b)
  {
    assert NoLower(a[i], d[i]) && NoLower(a[j], d[j]);
    assert b[j] == a[j] && c[i] == a[i];
    if a[i].Terminal() {
      assert d[i] == a[i];
    }
    if a[j].Terminal() {
      assert d[j] == a[j];
    }
  }

  lemma OpenBefore(a: seq<Status>, b: seq<Status>)
    requires NoneLower(a, b)
    ensures SomeOpen(b) ==> SomeOpen(a)
    ensures AllQueued(b) ==> AllQueued(a)
  {
    if SomeOpen(b) {
      var k :| 0 <= k < |b| && !b[k].Terminal();
      assert NoLower(a[k], b[k]) && !a[k].Terminal();
    }
    if AllQueued(b) {
      assert forall k | 0 <= k < |a| :: NoLower(a[k], b[k]) && b[k].Queued?;
    }
  }

  lemma QueuedTogether(a: seq<Status>, b: seq<Status>, c: seq<Status>, d: seq<Status>, i: nat, j: nat)
    requires Raced(a, b, c, d, i, j)
    ensures AllQueued(b) && AllQueued(c) ==> AllQueued(d)
  {
    if AllQueued(b) && AllQueued(c) {
      assert b[i].Queued? && c[j].Queued?;
      forall k | 0 <= k < |d|
        ensures d[k].Queued?
      {
        assert b[k].Queued?;
      }
    }
  }

  /** The second save leaves the right status exactly unless the two reports end the last two open tasks. */
  lemma RaceOutcome(a: seq<Status>, b: seq<Status>, c: seq<Status>, d: seq<Status>, i: nat, j: nat)
    requires Raced(a, b, c, d, i, j)
    ensures var left := Left(Derive(a), Derive(b), Derive(c));
            && (left == Derive(d) <==> !(AllOver(d) && !a[i].Terminal() && !a[j].Terminal()))
            && (left != Derive(d) ==> IsScanRunActive(left))
  {
    RaceShape(a, b, c, d, i, j);
    DeriveMeaning(a);
    DeriveMeaning(b);
    DeriveMeaning(c);
    DeriveMeaning(d);
    OpenBefore(a, b);
    OpenBefore(a, c);
    OpenBefore(b, d);
    OpenBefore(c, d);
    QueuedTogether(a, b, c, d, i, j);
    hide Derive, SomeOpen, AllOver, AllQueued, Raced, NoneLower;
  }

  // ---------------------------------------------------------------------------
  // On the tables
  // ---------------------------------------------------------------------------

  predicate Known(db: Db, r: Request) {
    r.taskId in db.tasks && !r.status.Partial?
  }

  function Row(db: Db, r: Request): Task
    requires r.taskId in db.tasks
  {
    Stamp(db.tasks[r.taskId], r.status, r.error, r.now)
  }

  function Read(db: Db, r: Request): Draft
    requires TasksOk(db) && RunsOk(db) && Known(db, r)
  {
    Prepare(db, r.taskId, r.status, r.error, r.now)
  }

  function Serve(db: Db, r: Request): Db
    requires TasksOk(db) && RunsOk(db) && Known(db, r)
  {
    UpdateTask(db, r.taskId, r.status, r.error, r.now)
  }

  /** Both reports are read before either is saved. */
  function Race(db: Db, first: Request, second: Request): Db
    requires TasksOk(db) && RunsOk(db) && Known(db, first) && Known(db, second)
  {
    Save(Save(db, Read(db, first)), Read(db, second))
  }

  /** The second report is read after the first is saved. */
  function InTurn(db: Db, first: Request, second: Request): Db
    requires Valid(db) && Known(db, first) && Known(db, second)
  {
    UpdateTaskValid(db, first.taskId, first.status, first.error, first.now);
    Serve(Serve(db, first), second)
  }

  predicate ListedOnce(db: Db, run: int)
    requires run in db.runs
  {
    forall i, j | 0 <= i < j < |db.runs[run].tasks| :: db.runs[run].tasks[i] != db.runs[run].tasks[j]
  }

  /** The requests are about to end the last two open tasks of one run. */
  predicate LastTwo(db: Db, first: Request, second: Request)
    requires TasksOk(db) && RunsOk(db) && Known(db, first) && Known(db, second)
  {
    var t, u := db.tasks[first.taskId], db.tasks[second.taskId];
    && t.run == u.run && !t.status.Terminal() && !u.status.Terminal()
    && first.status.Terminal() && second.status.Terminal()
    && forall k | 0 <= k < |db.runs[t.run].tasks| ::
         var id := db.runs[t.run].tasks[k];
         id == first.taskId || id == second.taskId || db.tasks[id].status.Terminal()
  }

  lemma StatusesUpdated(tasks: map<int, Task>, ids: seq<int>, t: int, row: Task)
    requires AllIn(ids, tasks) && t in tasks
    ensures AllIn(ids, tasks[t := row])
    ensures var a, b := StatusesOf(tasks, ids), StatusesOf(tasks[t := row], ids);
            forall k | 0 <= k < |ids| :: b[k] == if ids[k] == t then row.status else a[k]
  {
    hide StatusesOf;
  }

  lemma RaceIsRaced(db: Db, t: int, p: Task, u: int, q: Task, ids: seq<int>) returns (i: nat, j: nat)
    requires AllIn(ids, db.tasks) && t in db.tasks && u in db.tasks && t != u && t in ids && u in ids
    requires forall i, j | 0 <= i < j < |ids| :: ids[i] != ids[j]
    requires NoLower(db.tasks[t].status, p.status) && NoLower(db.tasks[u].status, q.status)
    requires !p.status.Partial? && !q.status.Partial? && forall k | 0 <= k < |ids| :: !db.tasks[ids[k]].status.Partial?
    ensures var both := db.tasks[t := p][u := q];
            && AllIn(ids, db.tasks[t := p]) && AllIn(ids, db.tasks[u := q]) && AllIn(ids, both)
            && i < |ids| && ids[i] == t && j < |ids| && ids[j] == u
            && StatusesOf(both, ids)[i] == p.status && StatusesOf(both, ids)[j] == q.status
            && Raced(StatusesOf(db.tasks, ids), StatusesOf(db.tasks[t := p], ids), StatusesOf(db.tasks[u := q], ids),
                     StatusesOf(both, ids), i, j)
  {
    hide StatusesOf;
    i :| 0 <= i < |ids| && ids[i] == t;
    j :| 0 <= j < |ids| && ids[j] == u;
    StatusesUpdated(db.tasks, ids, t, p);
    StatusesUpdated(db.tasks, ids, u, q);
    StatusesUpdated(db.tasks[t := p], ids, u, q);
  }

  /** The rows of the run of a task, and what a change of that task's row derives. */
  function RunTasks(db: Db, t: int): seq<int>
    requires TasksOk(db) && RunsOk(db) && t in db.tasks
  {
    db.runs[db.tasks[t].run].tasks
  }

  function With(db: Db, tasks: map<int, Task>, run: int, status: Status): Db
    requires run in db.runs
  {
    db.(tasks := tasks, runs := db.runs[run := db.runs[run].(status := status)])
  }

  lemma UpdateIs(db: Db, t: int, status: Status, error: Option<string>, now: int)
    requires TasksOk(db) && RunsOk(db) && t in db.tasks
    ensures var ids, tasks := RunTasks(db, t), db.tasks[t := Stamp(db.tasks[t], status, error, now)];
            && AllIn(ids, db.tasks) && AllIn(ids, tasks)
            && UpdateTask(db, t, status, error, now) == With(db, tasks, db.tasks[t].run, Derive(StatusesOf(tasks, ids)))
  {
    hide StatusesOf;
  }

  lemma PrepareIs(db: Db, t: int, status: Status, error: Option<string>, now: int)
    requires TasksOk(db) && RunsOk(db) && Derived(db) && t in db.tasks
    ensures var ids, row := RunTasks(db, t), Stamp(db.tasks[t], status, error, now);
            && AllIn(ids, db.tasks) && AllIn(ids, db.tasks[t := row])
            && Prepare(db, t, status, error, now)
               == Draft(t, row, Derive(StatusesOf(db.tasks, ids)), Derive(StatusesOf(db.tasks[t := row], ids)))
  {
    UpdateIs(db, t, status, error, now);
    hide StatusesOf, RecomputeStatus, UpdateTask;
  }

  /** Reports on tasks of different runs do not meet. */
  lemma DifferentRuns(db: Db, first: Request, second: Request)
    requires Valid(db) && Known(db, first) && Known(db, second)
    requires db.tasks[first.taskId].run != db.tasks[second.taskId].run
    ensures Race(db, first, second) == InTurn(db, first, second)
  {
    hide RecomputeStatus, StatusesOf, Valid, UpdateTask, Prepare, Derive;
    ValidParts(db);
    var mid := Serve(db, first);
    StoredIsDerived(db, first.taskId);
    StoredIsDerived(db, second.taskId);
    UpdateTaskValid(db, first.taskId, first.status, first.error, first.now);
    ValidParts(mid);
    PrepareIs(db, first.taskId, first.status, first.error, first.now);
    PrepareIs(db, second.taskId, second.status, second.error, second.now);
    UpdateIs(db, first.taskId, first.status, first.error, first.now);
    UpdateIs(mid, second.taskId, second.status, second.error, second.now);
    OtherRunFrame(db, first.taskId, Row(db, first), second.taskId, Row(db, second));
  }

  lemma OtherRunFrame(db: Db, t: int, p: Task, u: int, q: Task)
    requires TasksOk(db) && RunsOk(db) && t in db.tasks && u in db.tasks && db.tasks[t].run != db.tasks[u].run
    ensures var ids := RunTasks(db, u);
            && AllIn(ids, db.tasks[u := q]) && AllIn(ids, db.tasks[t := p][u := q])
            && StatusesOf(db.tasks[t := p][u := q], ids) == StatusesOf(db.tasks[u := q], ids)
  {
    hide StatusesOf, Stamped;
    StatusesFrame(db.tasks[t := p][u := q], db.tasks[u := q], RunTasks(db, u));
  }

  lemma SaveTwice(db: Db, first: Draft, second: Draft)
    requires first.task.run in db.runs && second.task.run == first.task.run
    requires first.before == second.before == db.runs[first.task.run].status
    ensures Save(Save(db, first), second)
         == With(db, db.tasks[first.taskId := first.task][second.taskId := second.task], first.task.run,
                 Left(first.before, first.derived, second.derived))
  {
  }

  lemma SameRunRace(db: Db, first: Request, second: Request)
    requires Valid(db) && Known(db, first) && Known(db, second)
    requires db.tasks[first.taskId].run == db.tasks[second.taskId].run
    ensures var t, u, p, q := first.taskId, second.taskId, Row(db, first), Row(db, second);
            var ids := RunTasks(db, t);
            && AllIn(ids, db.tasks) && AllIn(ids, db.tasks[t := p]) && AllIn(ids, db.tasks[u := q])
            && Race(db, first, second)
               == With(db, db.tasks[t := p][u := q], db.tasks[t].run,
                       Left(Derive(StatusesOf(db.tasks, ids)), Derive(StatusesOf(db.tasks[t := p], ids)),
                            Derive(StatusesOf(db.tasks[u := q], ids))))
  {
    hide RecomputeStatus, StatusesOf, Valid, TasksOk, Derived, UpdateTask, Prepare, Derive, Save, With, Left;
    ValidParts(db);
    var t := first.taskId;
    PrepareIs(db, t, first.status, first.error, first.now);
    PrepareIs(db, second.taskId, second.status, second.error, second.now);
    StoredIsDerived(db, t);
    SaveTwice(db, Read(db, first), Read(db, second));
  }

  lemma StoredIsDerived(db: Db, t: int)
    requires TasksOk(db) && RunsOk(db) && Derived(db) && t in db.tasks
    ensures AllIn(RunTasks(db, t), db.tasks)
    ensures db.runs[db.tasks[t].run].status == Derive(StatusesOf(db.tasks, RunTasks(db, t)))
  {
    hide StatusesOf, RecomputeStatus;
  }

  lemma SameRunTurn(db: Db, first: Request, second: Request)
    requires Valid(db) && Known(db, first) && Known(db, second) && first.taskId != second.taskId
    requires db.tasks[first.taskId].run == db.tasks[second.taskId].run
    ensures var t, u := first.taskId, second.taskId;
            var ids, both := RunTasks(db, t), db.tasks[t := Row(db, first)][u := Row(db, second)];
            && AllIn(ids, both) && Valid(InTurn(db, first, second))
            && InTurn(db, first, second) == With(db, both, db.tasks[t].run, Derive(StatusesOf(both, ids)))
  {
    hide RecomputeStatus, StatusesOf, Valid, TasksOk, RunsOk, UpdateTask, Derive, Stamp, With, RunTasks;
    ValidParts(db);
    var mid := Serve(db, first);
    UpdateTaskValid(db, first.taskId, first.status, first.error, first.now);
    ValidParts(mid);
    UpdatedRun(db, first.taskId, first.status, first.error, first.now, second.taskId);
    UpdateTaskValid(mid, second.taskId, second.status, second.error, second.now);
    UpdateIs(mid, second.taskId, second.status, second.error, second.now);
    WithTwice(db, mid, db.tasks[first.taskId].run);
  }

  /** What the first report leaves for the second to read. */
  lemma UpdatedRun(db: Db, t: int, first: Status, error: Option<string>, now: int, u: int)
    requires TasksOk(db) && RunsOk(db) && t in db.tasks && u in db.tasks && t != u && db.tasks[t].run == db.tasks[u].run
    requires TasksOk(UpdateTask(db, t, first, error, now)) && RunsOk(UpdateTask(db, t, first, error, now))
    ensures var mid, run := UpdateTask(db, t, first, error, now), db.tasks[t].run;
            && mid.tasks == db.tasks[t := Stamp(db.tasks[t], first, error, now)]
            && u in mid.tasks && mid.tasks[u] == db.tasks[u] && RunTasks(mid, u) == RunTasks(db, t)
            && run in mid.runs && run in db.runs
            && mid.runs == db.runs[run := db.runs[run].(status := mid.runs[run].status)]
            && mid.(tasks := db.tasks, runs := db.runs) == db
  {
    hide RecomputeStatus, StatusesOf;
  }

  lemma WithTwice(db: Db, mid: Db, run: int)
    requires run in db.runs && run in mid.runs && mid.(tasks := db.tasks, runs := db.runs) == db
    requires mid.runs == db.runs[run := db.runs[run].(status := mid.runs[run].status)]
    ensures forall tasks, status :: With(mid, tasks, run, status) == With(db, tasks, run, status)
  {
    forall tasks, status: Status
      ensures With(mid, tasks, run, status) == With(db, tasks, run, status)
    {
      assert mid.runs[run := mid.runs[run].(status := status)] == db.runs[run := db.runs[run].(status := status)];
    }
  }

  /** Only one of two different derived statuses is the one the tables call for. */
  lemma OneIsDerived(db: Db, tasks: map<int, Task>, run: int, x: Status, y: Status)
    requires run in db.runs && Valid(With(db, tasks, run, x)) && Valid(With(db, tasks, run, y))
    ensures x == y
  {
    assert Derived(With(db, tasks, run, x)) && Derived(With(db, tasks, run, y));
    hide RecomputeStatus, StatusesOf, TasksOk;
    assert With(db, tasks, run, x).runs[run].tasks == With(db, tasks, run, y).runs[run].tasks;
  }

  /** What two overlapping reports leave: the tables of serving them in turn, or a run that stays active for good. */
  predicate Outcome(db: Db, first: Request, second: Request)
    requires Valid(db) && Known(db, first) && Known(db, second)
  {
    var raced, turn, run := Race(db, first, second), InTurn(db, first, second), db.tasks[first.taskId].run;
    && Valid(turn)
    && (raced == turn <==> !LastTwo(db, first, second))
    && (raced != turn ==>
          && !Valid(raced) && raced.tasks == turn.tasks
          && run in raced.runs && IsScanRunActive(raced.runs[run].status))
  }

  /**
   * Two overlapping reports, each moving its task forward, leave the tables as if they had been served in turn exactly
   * unless they are about to end the last two open tasks of one run. Then the run stays active with all its tasks over.
   */
  lemma RacingReports(db: Db, first: Request, second: Request)
    requires Valid(db) && Known(db, first) && Known(db, second) && first.taskId != second.taskId
    requires ListedOnce(db, db.tasks[first.taskId].run)
    requires NoLower(db.tasks[first.taskId].status, first.status)
    requires NoLower(db.tasks[second.taskId].status, second.status)
    ensures Outcome(db, first, second)
  {
    hide Valid, Race, InTurn, ListedOnce, NoLower;
    if db.tasks[first.taskId].run != db.tasks[second.taskId].run {
      DifferentRuns(db, first, second);
      InTurnValid(db, first, second);
    } else {
      RacingInOneRun(db, first, second);
    }
  }

  lemma InTurnValid(db: Db, first: Request, second: Request)
    requires Valid(db) && Known(db, first) && Known(db, second)
    ensures Valid(InTurn(db, first, second))
  {
    hide Valid, RecomputeStatus, StatusesOf;
    ValidParts(db);
    UpdateTaskValid(db, first.taskId, first.status, first.error, first.now);
    UpdateTaskValid(Serve(db, first), second.taskId, second.status, second.error, second.now);
  }

  lemma RacingInOneRun(db: Db, first: Request, second: Request)
    requires Valid(db) && Known(db, first) && Known(db, second) && first.taskId != second.taskId
    requires ListedOnce(db, db.tasks[first.taskId].run) && db.tasks[first.taskId].run == db.tasks[second.taskId].run
    requires NoLower(db.tasks[first.taskId].status, first.status)
    requires NoLower(db.tasks[second.taskId].status, second.status)
    ensures Outcome(db, first, second)
  {
    hide Valid, Race, InTurn, StatusesOf, Derive, Left, Raced, AllOver, NoLower, Derived;
    ValidParts(db);
    var t, u, p, q := first.taskId, second.taskId, Row(db, first), Row(db, second);
    var ids, run, both := RunTasks(db, t), db.tasks[t].run, db.tasks[t := p][u := q];
    SameRunRace(db, first, second);
    SameRunTurn(db, first, second);
    var i, j := RaceIsRaced(db, t, p, u, q, ids);
    var a, b := StatusesOf(db.tasks, ids), StatusesOf(db.tasks[t := p], ids);
    var c, d := StatusesOf(db.tasks[u := q], ids), StatusesOf(both, ids);
    RaceOutcome(a, b, c, d, i, j);
    LastTwoIsOver(db, first, second, a, b, c, d, i, j);
    var x, y := Left(Derive(a), Derive(b), Derive(c)), Derive(d);
    if Valid(With(db, both, run, x)) {
      OneIsDerived(db, both, run, x, y);
    }
  }

  /** The condition seen from the tables before, and from those after. */
  lemma LastTwoIsOver(db: Db, first: Request, second: Request,
                      a: seq<Status>, b: seq<Status>, c: seq<Status>, d: seq<Status>, i: nat, j: nat)
    requires TasksOk(db) && RunsOk(db) && Known(db, first) && Known(db, second)
    requires ListedOnce(db, db.tasks[first.taskId].run) && db.tasks[first.taskId].run == db.tasks[second.taskId].run
    requires Raced(a, b, c, d, i, j) && |a| == |RunTasks(db, first.taskId)|
    requires forall k | 0 <= k < |a| :: a[k] == db.tasks[RunTasks(db, first.taskId)[k]].status
    requires RunTasks(db, first.taskId)[i] == first.taskId && RunTasks(db, first.taskId)[j] == second.taskId
    requires d[i] == first.status && d[j] == second.status
    ensures LastTwo(db, first, second) <==> AllOver(d) && !a[i].Terminal() && !a[j].Terminal()
  {
    var ids := RunTasks(db, first.taskId);
    assert forall k | 0 <= k < |d| && k != i && k != j :: d[k] == a[k];
    assert forall k | 0 <= k < |ids| && k != i && k != j :: ids[k] != first.taskId && ids[k] != second.taskId;
    hide Raced, TasksOk, RunsOk;
    if LastTwo(db, first, second) {
      forall k | 0 <= k < |d|
        ensures d[k].Terminal()
      {
        assert a[k] == db.tasks[ids[k]].status;
      }
    }
    if AllOver(d) && !a[i].Terminal() && !a[j].Terminal() {
      forall k | 0 <= k < |ids|
        ensures ids[k] == first.taskId || ids[k] == second.taskId || db.tasks[ids[k]].status.Terminal()
      {
        assert d[k].Terminal();
      }
    }
  }

  /** In every state of the protocol a run lists each of its tasks once, so the condition is all there is. */
  lemma RacingInProtocol(w: World, first: Request, second: Request)
    requires Inv(w) && Known(w.db, first) && Known(w.db, second) && first.taskId != second.taskId
    requires NoLower(w.db.tasks[first.taskId].status, first.status)
    requires NoLower(w.db.tasks[second.taskId].status, second.status)
    ensures Valid(w.db) && Outcome(w.db, first, second)
  {
    hide Inv, Valid, Outcome, TablesOk;
    InvParts(w);
    InvListedOnce(w, w.db.tasks[first.taskId].run);
    RacingReports(w.db, first, second);
  }

  lemma InvListedOnce(w: World, run: int)
    requires Inv(w) && run in w.db.runs
    ensures ListedOnce(w.db, run)
  {
    assert Consecutive(w.db);
    hide Inv, Valid;
  }

  /** The smallest such race: both tasks of a run are running and succeed at about the same time. */
  lemma ReportRaceExists(plan: Recommendation, now: int, now': int) returns (db: Db)
    ensures Valid(db) && 1 in db.tasks && 2 in db.tasks && db.tasks[1].status == db.tasks[2].status == Running
    ensures !Valid(Race(db, Request(1, Succeeded, None, now), Request(2, Succeeded, None, now')))
  {
    hide Valid, Race, TasksOk, RunsOk;
    var db0 := AddRun(EMPTY_DB, [plan, plan]);
    EmptyValid();
    AddRunValid(EMPTY_DB, [plan, plan]);
    FirstRun(plan);
    ValidParts(db0);
    var db1 := UpdateTask(db0, 1, Running, None, now);
    UpdateTaskValid(db0, 1, Running, None, now);
    ValidParts(db1);
    UpdatedRun(db0, 1, Running, None, now, 2);
    db := UpdateTask(db1, 2, Running, None, now);
    UpdateTaskValid(db1, 2, Running, None, now);
    ValidParts(db);
    UpdatedRun(db1, 2, Running, None, now, 1);
    BothRunning(db, now, now');
  }

  lemma EmptyValid()
    ensures Valid(EMPTY_DB)
  {
  }

  lemma FirstRun(plan: Recommendation)
    ensures var db := AddRun(EMPTY_DB, [plan, plan]);
            && 1 in db.tasks && 2 in db.tasks && db.tasks[1].run == db.tasks[2].run == 1
            && 1 in db.runs && db.runs[1].tasks == [1, 2]
  {
  }

  lemma BothRunning(db: Db, now: int, now': int)
    requires Valid(db) && 1 in db.tasks && 2 in db.tasks && db.tasks[1].run == db.tasks[2].run == 1
    requires 1 in db.runs && db.runs[1].tasks == [1, 2] && db.tasks[1].status.Running? && db.tasks[2].status.Running?
    ensures !Valid(Race(db, Request(1, Succeeded, None, now), Request(2, Succeeded, None, now')))
  {
    hide Valid, Race, InTurn, TasksOk, RunsOk, LastTwo, ListedOnce;
    ValidParts(db);
    var first, second := Request(1, Succeeded, None, now), Request(2, Succeeded, None, now');
    TheTwo(db, first, second);
    RacingReports(db, first, second);
  }

  lemma TheTwo(db: Db, first: Request, second: Request)
    requires TasksOk(db) && RunsOk(db) && 1 in db.tasks && 2 in db.tasks && db.tasks[1].run == db.tasks[2].run == 1
    requires 1 in db.runs && db.runs[1].tasks == [1, 2] && db.tasks[1].status.Running? && db.tasks[2].status.Running?
    requires first.taskId == 1 && second.taskId == 2 && first.status == second.status == Succeeded
    ensures LastTwo(db, first, second) && ListedOnce(db, 1)
  {
    hide TasksOk, RunsOk;
  }
}
