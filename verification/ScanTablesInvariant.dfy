/** The steps that change the API's tables keep the invariant. */
module ScanTablesInvariant {
  import opened Text
  import opened ScanStatus
  import opened ScanApi
  import opened Runner
  import opened ScanProtocol
  import opened ScanInvariant
  import CommandLine

  // ---------------------------------------------------------------------------
  // What reports and deletes leave alone
  // ---------------------------------------------------------------------------

  /** No row appears, schedules keep their contents, and only the status of `t` may change. */
  predicate Updated(db: Db, db': Db, t: int) {
    && db'.nextRun == db.nextRun && db'.nextTask == db.nextTask && db'.nextSchedule == db.nextSchedule
    && db'.tasks.Keys == db.tasks.Keys && db'.runs.Keys == db.runs.Keys
    && (forall u | u in db.tasks && u != t :: db'.tasks[u].status == db.tasks[u].status)
    && (forall r | r in db.runs :: db'.runs[r].tasks == db.runs[r].tasks)
    && (forall s | s in db'.schedules :: s in db.schedules && db'.schedules[s] == db.schedules[s])
  }

  lemma UpdateTaskUpdated(db: Db, t: int, status: Status, error: Option<string>, now: int)
    requires Valid(db) && t in db.tasks
    ensures var db' := UpdateTask(db, t, status, error, now);
            Updated(db, db', t) && db'.tasks[t].status == status
  {
  }

  lemma RemoveScheduleValid(db: Db, id: int)
    requires Valid(db)
    ensures Valid(RemoveSchedule(db, id))
  {
    SchedulesAlone(db, RemoveSchedule(db, id));
  }

  /** Reports and deletes keep everything but the statements about the reported task. */
  lemma UpdatedInv(w: World, db': Db, t: int)
    requires Inv(w) && Valid(db') && Updated(w.db, db', t)
    ensures var w' := w.(db := db');
            && TablesOk(w') && RunnerOk(w') && AllSound(w') && StartedOk(w') && FiredOk(w')
            && HomeOk(w') && AllSame(w')
  {
    hide Inv, TablesOk, RunnerOk, AllSound, StartedOk, FiredOk, HomeOk, AllSame, Valid, Updated;
    InvParts(w);
    RefusedSame(w);
    UpdatedTables(w, db', t);
    UpdatedRunner(w, db', t);
    UpdatedMentions(w, db', t);
  }

  lemma RefusedSame(w: World)
    requires RefusedOk(w)
    ensures AllSame(w)
  {
  }

  lemma UpdatedTables(w: World, db': Db, t: int)
    requires TablesOk(w) && HomeOk(w) && Valid(db') && Updated(w.db, db', t)
    ensures TablesOk(w.(db := db')) && HomeOk(w.(db := db'))
  {
    hide Valid;
    assert Consecutive(db') by { assert Consecutive(w.db); }
  }

  lemma UpdatedRunner(w: World, db': Db, t: int)
    requires RunnerOk(w) && FiredOk(w) && StartedOk(w) && Updated(w.db, db', t)
    ensures RunnerOk(w.(db := db')) && FiredOk(w.(db := db')) && StartedOk(w.(db := db'))
  {
    hide BookOk;
    var w' := w.(db := db');
    assert StartedOk(w') by { assert forall id :: Listed(w, id) <==> Listed(w', id); }
  }

  lemma UpdatedMentions(w: World, db': Db, t: int)
    requires AllSound(w) && AllSame(w) && Updated(w.db, db', t)
    ensures AllSound(w.(db := db')) && AllSame(w.(db := db'))
  {
    var w' := w.(db := db');
    assert forall s :: Sound(w, s) <==> Sound(w', s);
    assert forall s :: Same(w, s) ==> Same(w', s);
    hide Sound, Same;
  }

  /** Nothing that the invariant expects to find its task open is about `t`. */
  predicate NoAgent(w: World, t: int) {
    && (forall id | id in w.db.schedules && id !in w.started :: w.db.schedules[id].taskId != t)
    && (w.pass.Reconciling? ==>
          forall i | 0 <= i < |w.pass.todo| && w.pass.todo[i].id !in w.started :: w.pass.todo[i].taskId != t)
    && (forall j | j in w.book.jobs :: w.book.jobs[j].taskId != t)
    && (forall e | e in w.execs && w.execs[e].pc.Left() > 1 :: w.execs[e].sched.taskId != t)
  }

  /** A report keeps the invariant if its task is tainted, or is not closed under anybody's feet. */
  lemma ReportInv(w: World, t: int, status: Status, error: Option<string>, now: int)
    requires Inv(w) && t in w.db.tasks && !status.Partial?
    requires t in w.tainted || (t in w.home && (status.Terminal() ==> NoAgent(w, t)))
    requires t in w.tainted || status.Failed? || NoneRefused(w, t)
    ensures Inv(w.(db := UpdateTask(w.db, t, status, error, now)))
  {
    var db' := UpdateTask(w.db, t, status, error, now);
    var w' := w.(db := db');
    UpdateTaskValid(w.db, t, status, error, now);
    UpdateTaskUpdated(w.db, t, status, error, now);
    UpdatedInv(w, db', t);
    ReportOpen(w, db', t, status);
    ReportRefused(w, db', t, status);
    hide TablesOk, RunnerOk, AllSound, StartedOk, FiredOk, AllOpen, UpdateTask, HomeOk, RefusedOk, AllSame;
    assert Waiting(w');
  }

  predicate NoneRefused(w: World, t: int) {
    forall id | id in w.db.schedules && w.db.schedules[id].taskId == t :: Refusal(w.db.schedules[id]).None?
  }

  lemma ReportRefused(w: World, db': Db, t: int, status: Status)
    requires RefusedOk(w) && Updated(w.db, db', t) && t in w.db.tasks && db'.tasks[t].status == status
    requires t in w.tainted || status.Failed? || NoneRefused(w, t)
    requires AllSame(w.(db := db'))
    ensures RefusedOk(w.(db := db'))
  {
    hide AllSame, PcOk, Refusal;
    var w' := w.(db := db');
    forall id | id in db'.schedules
      ensures Spared(w', db'.schedules[id])
    {
      assert Spared(w, w.db.schedules[id]);
    }
  }

  lemma ReportOpen(w: World, db': Db, t: int, status: Status)
    requires AllOpen(w) && Updated(w.db, db', t) && t in w.db.tasks && db'.tasks[t].status == status
    requires t in w.tainted || (status.Terminal() ==> NoAgent(w, t))
    ensures AllOpen(w.(db := db'))
  {
    var w' := w.(db := db');
    forall s | Open(w, s) && (s.taskId != t || t in w.tainted || !status.Terminal())
      ensures Open(w', s)
    {
    }
    hide Open;
    if t !in w.tainted && status.Terminal() {
      assert NoAgent(w, t);
    }
  }

  lemma DeleteScheduleInv(w: World, id: int)
    requires Inv(w)
    ensures Inv(DeleteScheduleStep(w, id))
  {
    RemoveScheduleValid(w.db, id);
    UpdatedInv(w, RemoveSchedule(w.db, id), 0);
    DeleteScheduleOpen(w, id);
    DeleteScheduleRefused(w, id);
    hide TablesOk, RunnerOk, AllSound, StartedOk, FiredOk, Waiting, AllOpen, HomeOk, RefusedOk, AllSame;
  }

  lemma DeleteScheduleRefused(w: World, id: int)
    requires RefusedOk(w) && AllSame(DeleteScheduleStep(w, id))
    ensures RefusedOk(DeleteScheduleStep(w, id))
  {
    hide AllSame, PcOk, Refusal;
    var w' := DeleteScheduleStep(w, id);
    assert forall s :: Spared(w, s) ==> Spared(w', s);
  }

  lemma DeleteScheduleOpen(w: World, id: int)
    requires Waiting(w) && AllOpen(w)
    ensures Waiting(DeleteScheduleStep(w, id)) && AllOpen(DeleteScheduleStep(w, id))
  {
    var w' := DeleteScheduleStep(w, id);
    assert forall s :: Open(w, s) <==> Open(w', s);
    hide Open;
  }

  // ---------------------------------------------------------------------------
  // Tainting, and reports by somebody else
  // ---------------------------------------------------------------------------

  lemma TaintInv(w: World, more: set<int>)
    requires Inv(w)
    ensures Inv(w.(tainted := w.tainted + more))
  {
    hide Valid, Consecutive, Refusal, BookOk;
    var w' := w.(tainted := w.tainted + more);
    assert TablesOk(w');
    assert Waiting(w') && RunnerOk(w') && FiredOk(w') && HomeOk(w');
    assert AllSound(w') by { assert forall s :: Sound(w, s) ==> Sound(w', s); }
    assert StartedOk(w') by { assert forall id :: Listed(w, id) <==> Listed(w', id); }
    assert AllOpen(w') by { assert forall s :: Open(w, s) ==> Open(w', s); }
    assert AllSame(w') by { assert forall s :: Same(w, s) <==> Same(w', s); }
    SameRefused(w, w');
  }

  lemma ForeignReportInv(w: World, t: int, status: Status, error: Option<string>, now: int)
    requires Inv(w) && t in w.db.tasks && !status.Partial?
    ensures Inv(ForeignReportStep(w, t, status, error, now))
  {
    TaintInv(w, {t});
    ReportInv(w.(tainted := w.tainted + {t}), t, status, error, now);
  }

  // ---------------------------------------------------------------------------
  // New rows
  // ---------------------------------------------------------------------------

  lemma UserScheduleInv(w: World, commandId: string, line: string, cron: string, taskId: int)
    requires Inv(w)
    ensures Inv(UserScheduleStep(w, commandId, line, cron, taskId))
  {
    var w1 := w.(tainted := w.tainted + {taskId});
    TaintInv(w, {taskId});
    AddScheduleRows(w1, commandId, line, cron, taskId);
    hide Inv, NewRows;
    NewRowsInv(w1, AddSchedule(w.db, commandId, line, cron, taskId), w.home);
  }

  lemma AddScheduleRows(w: World, commandId: string, line: string, cron: string, taskId: int)
    requires Valid(w.db) && taskId in w.tainted
    ensures var db' := AddSchedule(w.db, commandId, line, cron, taskId); Valid(db') && NewRows(w, db', w.home)
  {
    AddScheduleValid(w.db, commandId, line, cron, taskId);
    assert SchedulesOk(w.db);
    hide Valid;
  }

  lemma AddScheduleValid(db: Db, commandId: string, line: string, cron: string, taskId: int)
    requires Valid(db)
    ensures Valid(AddSchedule(db, commandId, line, cron, taskId))
  {
    SchedulesAlone(db, AddSchedule(db, commandId, line, cron, taskId));
  }

  /** Schedules are only appended, and each new one is either tainted or the first of an open task. */
  predicate NewRows(w: World, db': Db, home': map<int, int>) {
    && db'.runs == w.db.runs && db'.tasks == w.db.tasks
    && w.db.nextSchedule <= db'.nextSchedule
    && (forall s | s in w.db.schedules :: s in db'.schedules && db'.schedules[s] == w.db.schedules[s])
    && (forall s | s in db'.schedules && s !in w.db.schedules :: w.db.nextSchedule <= s)
    && (forall t | t in w.home :: t in home' && home'[t] == w.home[t])
    && (forall s | s in db'.schedules && s !in w.db.schedules :: FreshRow(w.(db := db', home := home'), db'.schedules[s]))
  }

  predicate FreshRow(w: World, s: Schedule) {
    Sound(w, s) && Open(w, s) && Spared(w, s)
  }

  lemma NewRowsInv(w: World, db': Db, home': map<int, int>)
    requires Inv(w) && NewRows(w, db', home')
    ensures var w' := w.(db := db', home := home');
            && RunnerOk(w') && AllSound(w') && StartedOk(w') && FiredOk(w') && AllOpen(w') && RefusedOk(w')
    ensures Valid(db') && home' == w.home ==> Inv(w.(db := db', home := home'))
  {
    NewRowsRunner(w, db', home');
    NewRowsSound(w, db', home');
    NewRowsStarted(w, db', home');
    NewRowsOpen(w, db', home');
    NewRowsSame(w, db', home');
    NewRowsSpared(w, db', home');
    if Valid(db') && home' == w.home {
      NewRowsTables(w, db');
    }
    hide TablesOk, Waiting, RunnerOk, AllSound, StartedOk, FiredOk, AllOpen, AllSame, HomeOk, NewRows, PcOk, Spared, Valid;
  }

  lemma NewRowsRunner(w: World, db': Db, home': map<int, int>)
    requires RunnerOk(w) && FiredOk(w) && NewRows(w, db', home')
    ensures var w' := w.(db := db', home := home'); RunnerOk(w') && FiredOk(w')
  {
    hide FreshRow;
  }

  lemma NewRowsSound(w: World, db': Db, home': map<int, int>)
    requires AllSound(w) && NewRows(w, db', home')
    ensures AllSound(w.(db := db', home := home'))
  {
    var w' := w.(db := db', home := home');
    assert forall s :: Sound(w, s) ==> Sound(w', s);
    hide Sound, Open, Spared;
  }

  lemma NewRowsStarted(w: World, db': Db, home': map<int, int>)
    requires StartedOk(w) && RunnerOk(w) && NewRows(w, db', home')
    ensures StartedOk(w.(db := db', home := home'))
  {
    hide FreshRow;
    var w' := w.(db := db', home := home');
    assert forall id :: Listed(w, id) <==> Listed(w', id);
    hide Listed;
  }

  lemma NewRowsOpen(w: World, db': Db, home': map<int, int>)
    requires AllOpen(w) && NewRows(w, db', home')
    ensures AllOpen(w.(db := db', home := home'))
  {
    var w' := w.(db := db', home := home');
    assert forall s :: Open(w, s) <==> Open(w', s);
    hide Sound, Open, Spared;
  }

  lemma NewRowsSame(w: World, db': Db, home': map<int, int>)
    requires RunnerOk(w) && AllSame(w) && NewRows(w, db', home')
    ensures AllSame(w.(db := db', home := home'))
  {
    hide FreshRow;
    var w' := w.(db := db', home := home');
    forall s | Same(w, s) && s.id < w.db.nextSchedule
      ensures Same(w', s)
    {
    }
    hide Same;
  }

  lemma NewRowsSpared(w: World, db': Db, home': map<int, int>)
    requires RefusedOk(w) && NewRows(w, db', home') && AllSame(w.(db := db', home := home'))
    ensures RefusedOk(w.(db := db', home := home'))
  {
    var w' := w.(db := db', home := home');
    assert forall s :: Spared(w, s) ==> Spared(w', s);
    hide Sound, Open, Spared, AllSame, PcOk;
  }

  lemma NewRowsTables(w: World, db': Db)
    requires TablesOk(w) && Waiting(w) && HomeOk(w) && Valid(db') && NewRows(w, db', w.home)
    ensures TablesOk(w.(db := db')) && Waiting(w.(db := db')) && HomeOk(w.(db := db'))
  {
    assert Consecutive(db') by { assert Consecutive(w.db); }
    hide Valid, Consecutive, FreshRow;
  }

  // ---------------------------------------------------------------------------
  // CreateOne: first the tasks, then their schedules
  // ---------------------------------------------------------------------------

  /** Rows `row .. row + n` are the "once" schedules of tasks `first .. first + n`. */
  ghost predicate RowsIssued(db: Db, db': Db, first: int, n: nat) {
    var row := db.nextSchedule;
    && db'.runs == db.runs && db'.tasks == db.tasks && db'.nextSchedule == row + n
    && (forall s :: s in db'.schedules <==> s in db.schedules || row <= s < row + n)
    && (forall s | s in db.schedules :: s < row && db'.schedules[s] == db.schedules[s])
    && (forall s | row <= s < row + n ::
          db'.schedules[s].id == s && db'.schedules[s].Once() && db'.schedules[s].taskId == first + (s - row))
  }

  ghost predicate HomesIssued(home: map<int, int>, home': map<int, int>, first: int, n: nat, row: int) {
    && (forall t :: t in home' <==> t in home || first <= t < first + n)
    && (forall t | t in home' :: home'[t] == if first <= t < first + n then row + (t - first) else home[t])
  }

  ghost predicate TasksAre(w: World, run: int, first: int, n: nat) {
    forall t | first <= t < first + n :: t in w.db.tasks && t !in w.home && w.db.tasks[t].run == run
  }

  /** What the second half of `CreateOne` does, seen from outside. */
  ghost predicate Issued(w: World, w': World, run: int, first: int, n: nat) {
    && w' == w.(db := w'.db, unscheduled := w.unscheduled - {run}, home := w'.home)
    && TasksAre(w, run, first, n)
    && RowsIssued(w.db, w'.db, first, n)
    && HomesIssued(w.home, w'.home, first, n, w.db.nextSchedule)
  }

  lemma {:induction false} HomeOfIssued(home: map<int, int>, ids: seq<int>, row: int)
    requires ids != [] && forall i | 0 <= i < |ids| :: ids[i] == ids[0] + i
    ensures HomesIssued(home, HomeOf(home, ids, row), ids[0], |ids|, row)
  {
    var n := |ids| - 1;
    if n > 0 {
      HomeOfIssued(home, ids[..n], row);
    } else {
      assert HomeOf(home, ids[..0], row) == home;
    }
  }

  lemma TasksOfRun(w: World, run: int)
    requires TablesOk(w) && run in w.unscheduled
    ensures var ids := w.db.runs[run].tasks;
            && ids != [] && AllIn(ids, w.db.tasks)
            && (forall i | 0 <= i < |ids| :: ids[i] == ids[0] + i)
            && TasksAre(w, run, ids[0], |ids|)
  {
    var ids := w.db.runs[run].tasks;
    forall t | ids[0] <= t < ids[0] + |ids|
      ensures t in w.db.tasks && t !in w.home && w.db.tasks[t].run == run
    {
      assert ids[t - ids[0]] == t;
    }
  }

  lemma OnceRowsShape(row: int, tasks: map<int, Task>, ids: seq<int>, i: nat)
    requires AllIn(ids, tasks) && i < |ids|
    ensures var s := OnceRows(row, tasks, ids)[i]; s.id == row + i && s.Once() && s.taskId == ids[i]
  {
    hide CommandLine.Compose;
  }

  lemma OnceRowsIssued(db: Db, ids: seq<int>)
    requires SchedulesOk(db) && AllIn(ids, db.tasks)
    requires ids != [] && forall i | 0 <= i < |ids| :: ids[i] == ids[0] + i
    ensures RowsIssued(db, AddSchedules(db, ids), ids[0], |ids|)
  {
    hide Insert, OnceRows, OnceSchedule;
    var db', row := AddSchedules(db, ids), db.nextSchedule;
    var rows := OnceRows(row, db.tasks, ids);
    assert db'.schedules == Insert(db.schedules, row, rows);
    InsertContents(db.schedules, row, rows);
    forall s | row <= s < row + |ids|
      ensures && db'.schedules[s].id == s && db'.schedules[s].Once()
              && db'.schedules[s].taskId == ids[0] + (s - row)
    {
      OnceRowsShape(row, db.tasks, ids, s - row);
      assert db'.schedules[s] == rows[s - row];
    }
  }

  lemma CreateSchedulesIssued(w: World, run: int)
    requires TablesOk(w) && run in w.unscheduled && AllIn(w.db.runs[run].tasks, w.db.tasks)
    ensures var ids := w.db.runs[run].tasks;
            ids != [] && Valid(CreateSchedulesStep(w, run).db) && Issued(w, CreateSchedulesStep(w, run), run, ids[0], |ids|)
  {
    var ids := w.db.runs[run].tasks;
    TasksOfRun(w, run);
    SchedulesNumbered(w);
    AddSchedulesValid(w.db, ids);
    HomeOfIssued(w.home, ids, w.db.nextSchedule);
    OnceRowsIssued(w.db, ids);
    hide TablesOk, Valid, TasksAre, RowsIssued, HomesIssued, AddSchedules, HomeOf;
  }

  lemma CreateSchedulesInv(w: World, run: int)
    requires Inv(w) && run in w.unscheduled
    ensures AllIn(w.db.runs[run].tasks, w.db.tasks) && Inv(CreateSchedulesStep(w, run))
  {
    TasksOfRun(w, run);
    CreateSchedulesIssued(w, run);
    var ids, w' := w.db.runs[run].tasks, CreateSchedulesStep(w, run);
    IssuedTables(w, w', run, ids[0], |ids|);
    IssuedFresh(w, w', run, ids[0], |ids|);
    NewRowsInv(w, w'.db, w'.home);
    IssuedHome(w, w', run, ids[0], |ids|);
    OtherRunsIrrelevant(w.(db := w'.db, home := w'.home), w'.unscheduled);
    hide TablesOk, Waiting, RunnerOk, AllSound, StartedOk, FiredOk, AllOpen, NewRows, HomeOk, RefusedOk, Valid, Issued;
  }

  /** Which runs still wait for schedules matters to the tables alone. */
  lemma OtherRunsIrrelevant(w: World, unscheduled: set<int>)
    requires RunnerOk(w) && AllSound(w) && StartedOk(w) && FiredOk(w) && AllOpen(w) && RefusedOk(w)
    ensures var w' := w.(unscheduled := unscheduled);
            RunnerOk(w') && AllSound(w') && StartedOk(w') && FiredOk(w') && AllOpen(w') && RefusedOk(w')
  {
    hide PcOk;
    var w' := w.(unscheduled := unscheduled);
    assert AllSame(w') by { assert forall s :: Same(w, s) <==> Same(w', s); }
    SameRefused(w, w');
    assert RunnerOk(w') && FiredOk(w');
    assert AllSound(w') by { assert forall s :: Sound(w, s) <==> Sound(w', s); }
    assert StartedOk(w') by { assert forall id :: Listed(w, id) <==> Listed(w', id); }
    assert AllOpen(w') by { assert forall s :: Open(w, s) <==> Open(w', s); }
  }

  lemma IssuedTables(w: World, w': World, run: int, first: int, n: nat)
    requires TablesOk(w) && Waiting(w) && Valid(w'.db) && Issued(w, w', run, first, n)
    ensures TablesOk(w') && Waiting(w')
  {
    assert RunsOk(w.db);
    assert Consecutive(w'.db) by { assert Consecutive(w.db); }
    hide Valid, Consecutive;
    forall r, i | r in w'.unscheduled && 0 <= i < |w.db.runs[r].tasks|
      ensures w.db.runs[r].tasks[i] !in w'.home
    {
      assert w.db.tasks[w.db.runs[r].tasks[i]].run == r;
    }
  }

  lemma IssuedHome(w: World, w': World, run: int, first: int, n: nat)
    requires HomeOk(w) && Issued(w, w', run, first, n)
    ensures HomeOk(w')
  {
  }

  lemma IssuedFresh(w: World, w': World, run: int, first: int, n: nat)
    requires Waiting(w) && Issued(w, w', run, first, n)
    ensures NewRows(w, w'.db, w'.home)
  {
    var w1 := w.(db := w'.db, home := w'.home);
    forall s | s in w'.db.schedules && s !in w.db.schedules
      ensures FreshRow(w1, w'.db.schedules[s])
    {
      var t := w'.db.schedules[s].taskId;
      assert first <= t < first + n;
    }
  }

  /** What the first half of `CreateOne` does, seen from outside. */
  predicate Enlarged(w: World, w': World, run: int) {
    && w' == w.(db := w'.db, unscheduled := w.unscheduled + {run})
    && w'.db.schedules == w.db.schedules && w'.db.nextSchedule == w.db.nextSchedule
    && (forall t | t in w.db.tasks :: t in w'.db.tasks && w'.db.tasks[t] == w.db.tasks[t])
    && (forall t | t in w'.db.tasks && t !in w.db.tasks :: w'.db.tasks[t].status.Queued?)
    && (forall r | r in w.db.runs :: r in w'.db.runs && r != run && w'.db.runs[r] == w.db.runs[r])
    && run in w'.db.runs
    && (forall i | 0 <= i < |w'.db.runs[run].tasks| :: w'.db.runs[run].tasks[i] !in w.db.tasks)
  }

  lemma CreateTasksEnlarged(w: World, plans: seq<Recommendation>)
    requires Valid(w.db) && plans != []
    ensures Enlarged(w, CreateTasksStep(w, plans), w.db.nextRun)
  {
    hide Valid, Stamped;
    ValidParts(w.db);
  }

  lemma AddRunConsecutive(db: Db, plans: seq<Recommendation>)
    requires Consecutive(db) && plans != []
    ensures Consecutive(AddRun(db, plans))
  {
    var db' := AddRun(db, plans);
    forall r, i | r in db'.runs && 0 <= i < |db'.runs[r].tasks|
      ensures db'.runs[r].tasks[i] == db'.runs[r].tasks[0] + i
    {
      if r != db.nextRun { assert r in db.runs; }
    }
  }

  lemma CreateTasksInv(w: World, plans: seq<Recommendation>)
    requires Inv(w) && plans != []
    ensures Inv(CreateTasksStep(w, plans))
  {
    var w' := CreateTasksStep(w, plans);
    AddRunValid(w.db, plans);
    AddRunConsecutive(w.db, plans);
    CreateTasksEnlarged(w, plans);
    hide AddRun;
    EnlargedTables(w, w', w.db.nextRun);
    EnlargedRest(w, w', w.db.nextRun);
    EnlargedRefused(w, w', w.db.nextRun);
    hide TablesOk, Waiting, RunnerOk, AllSound, StartedOk, FiredOk, AllOpen, HomeOk, RefusedOk, Valid, Consecutive, Enlarged;
  }

  lemma EnlargedTables(w: World, w': World, run: int)
    requires TablesOk(w) && Waiting(w) && Valid(w'.db) && Consecutive(w'.db) && Enlarged(w, w', run)
    ensures TablesOk(w') && Waiting(w')
  {
    hide Valid, Consecutive;
    forall r, i | r in w'.unscheduled && 0 <= i < |w'.db.runs[r].tasks|
      ensures w'.db.runs[r].tasks[i] !in w'.home
    {
      var t := w'.db.runs[r].tasks[i];
      assert t in w.home ==> t in w.db.tasks;
      if r != run {
        assert r in w.unscheduled && w'.db.runs[r] == w.db.runs[r];
      }
    }
  }

  lemma EnlargedRefused(w: World, w': World, run: int)
    requires HomeOk(w) && RefusedOk(w) && Enlarged(w, w', run)
    ensures HomeOk(w') && RefusedOk(w')
  {
    hide PcOk;
    assert AllSame(w') by { assert forall s :: Same(w, s) <==> Same(w', s); }
    hide AllSame;
    assert forall s :: Spared(w, s) ==> Spared(w', s);
  }

  lemma EnlargedRest(w: World, w': World, run: int)
    requires RunnerOk(w) && AllSound(w) && StartedOk(w) && FiredOk(w) && AllOpen(w)
    requires Enlarged(w, w', run)
    ensures RunnerOk(w') && AllSound(w') && StartedOk(w') && FiredOk(w') && AllOpen(w')
  {
    assert RunnerOk(w') && FiredOk(w');
    assert AllSound(w') by { assert forall s :: Sound(w, s) <==> Sound(w', s); }
    assert StartedOk(w') by { assert forall id :: Listed(w, id) <==> Listed(w', id); }
    assert AllOpen(w') by { assert forall s :: Open(w, s) ==> Open(w', s); }
  }
}
