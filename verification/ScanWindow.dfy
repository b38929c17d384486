/**
 * A restart in the window between a terminal report and the delete of its schedule: which tasks can move back, and
 * that no others can.
 */
module ScanWindow {
  import opened Collections
  import opened Text
  import opened ScanStatus
  import opened ScanApi
  import opened Runner
  import opened ScanProtocol
  import opened ScanTablesInvariant
  import opened ScanSafety
  import opened ScanRuns

  function Rerun(w: World, page: seq<Schedule>, now: int): seq<Step> {
    var proceed := Proceed(w.nextExec, None, true, now);
    [Restart, Poll(page), Entry(true), Fire(w.book.nextJob), proceed, proceed]
  }

  /** After the restart the stored schedule is listed, gets a job, and the job runs. */
  lemma RerunFires(w: World, page: seq<Schedule>) returns (w1: World, w2: World, w3: World, w4: World)
    requires Valid(w.db) && Snapshot(page, w.db.schedules) && page != [] && page[0].Once()
    ensures Next(w, Restart, w1) && Next(w1, Poll(page), w2) && Next(w2, Entry(true), w3)
    ensures Next(w3, Fire(w.book.nextJob), w4)
    ensures w4.db == w.db && w4.execs == map[w.nextExec := Exec(page[0], Begin)]
  {
    hide Valid, AtRisk;
    w1 := RestartStep(w);
    w2 := PollStep(w1, page);
    w3 := EntryStep(w2, true);
    w4 := FireStep(w3, w.book.nextJob);
  }

  /** The execution reports `running` and the report arrives. */
  lemma RerunReports(w: World, e: int, s: Schedule, now: int, w1: World)
    requires Valid(w.db) && e in w.execs && w.execs[e] == Exec(s, Begin)
    requires Refusal(s).None? && s.taskId != 0 && s.taskId in w.db.tasks
    requires w1 == w.(execs := w.execs[e := Exec(s, SendRunning)])
    ensures Next(w, Proceed(e, None, true, now), w1)
    ensures var w2 := ProceedStep(w1, e, None, true, now);
            && Next(w1, Proceed(e, None, true, now), w2)
            && s.taskId in w2.db.tasks && w2.db.tasks[s.taskId].status == Running
  {
    hide Valid, Refusal;
  }

  /**
   * Whatever the status of a task, if its runnable "once" schedule is still stored, a restart and five more steps make
   * the task `running` again.
   */
  lemma RestartWindow(w: World, page: seq<Schedule>, now: int) returns (ws: seq<World>)
    requires Valid(w.db) && Snapshot(page, w.db.schedules) && page != []
    requires page[0].Once() && Refusal(page[0]).None? && page[0].taskId != 0 && page[0].taskId in w.db.tasks
    ensures Chain(ws, Rerun(w, page, now)) && ws[0] == w
    ensures page[0].taskId in ws[6].db.tasks && ws[6].db.tasks[page[0].taskId].status == Running
  {
    hide Next, ProceedStep, Valid, Snapshot, Refusal;
    var w1, w2, w3, w4 := RerunFires(w, page);
    var w5 := w4.(execs := w4.execs[w.nextExec := Exec(page[0], SendRunning)]);
    RerunReports(w4, w.nextExec, page[0], now, w5);
    ws := [w, w1, w2, w3, w4, w5, ProceedStep(w5, w.nextExec, None, true, now)];
  }

  // ---------------------------------------------------------------------------
  // Which tasks a restart can move back
  // ---------------------------------------------------------------------------

  /** Somebody outside the protocol reports on the task, or stores a schedule for it. */
  predicate Touches(step: Step, t: int) {
    || (step.AddUserSchedule? && step.taskId == t)
    || (step.ForeignReport? && step.taskId == t)
  }

  /** A chain from `w` that starts with a restart, leaves the task to the protocol, and changes its status. */
  predicate MovesBack(w: World, ws: seq<World>, steps: seq<Step>, t: int) {
    && Chain(ws, steps) && ws[0] == w && steps != [] && steps[0] == Restart
    && (forall i | 0 <= i < |steps| :: !Touches(steps[i], t))
    && t in w.db.tasks && t in ws[|steps|].db.tasks && ws[|steps|].db.tasks[t].status != w.db.tasks[t].status
  }

  /** A list of some rows of the table, each once. */
  lemma {:induction false} ListOf(schedules: map<int, Schedule>, ids: set<int>) returns (page: seq<Schedule>)
    requires ids <= schedules.Keys && forall id | id in ids :: schedules[id].id == id
    ensures |page| == |ids|
    ensures forall i | 0 <= i < |page| :: page[i].id in ids && schedules[page[i].id] == page[i]
    ensures forall id | id in ids :: schedules[id] in page
  {
    if ids == {} {
      page := [];
    } else {
      HasElement(ids);
      var id :| id in ids;
      var rest := ListOf(schedules, ids - {id});
      page := [schedules[id]] + rest;
      assert forall x | x in rest :: x in page;
      assert page[0] == schedules[id];
    }
  }

  /** A list of the whole table that begins with a given row. */
  lemma ListFrom(schedules: map<int, Schedule>, id: int) returns (page: seq<Schedule>)
    requires id in schedules && forall s | s in schedules :: schedules[s].id == s
    ensures page != [] && page[0] == schedules[id] && Snapshot(page, schedules) && |page| == |schedules|
  {
    var rest := ListOf(schedules, schedules.Keys - {id});
    page := [schedules[id]] + rest;
    forall s | s in schedules
      ensures schedules[s] in page
    {
      assert s != id ==> schedules[s] in rest;
      assert page[0] == schedules[id];
    }
  }

  /** A task at risk does move back. */
  lemma AtRiskMovesBack(w: World, t: int)
    requires Inv(w) && t in AtRisk(w)
    ensures exists ws, steps :: MovesBack(w, ws, steps, t)
  {
    hide Inv, Refusal, Valid, Snapshot, Next, Chain;
    InvParts(w);
    AtRiskRow(w, t);
    var page := ListFrom(w.db.schedules, w.home[t]);
    var ws := RestartWindow(w, page, 0);
    RerunMovesBack(w, page, ws, t);
  }

  lemma AtRiskRow(w: World, t: int)
    requires HomeOk(w) && TasksOk(w.db) && t in AtRisk(w)
    ensures t != 0 && t in w.home && w.home[t] in w.db.schedules && t in w.db.tasks && w.db.tasks[t].status.Terminal()
    ensures var s := w.db.schedules[w.home[t]]; s.taskId == t && s.Once() && Refusal(s).None?
  {
    hide Refusal;
  }

  lemma RerunMovesBack(w: World, page: seq<Schedule>, ws: seq<World>, t: int)
    requires t in w.db.tasks && w.db.tasks[t].status.Terminal()
    requires Chain(ws, Rerun(w, page, 0)) && ws[0] == w
    requires t in ws[6].db.tasks && ws[6].db.tasks[t].status == Running
    ensures MovesBack(w, ws, Rerun(w, page, 0), t)
  {
    hide Next;
  }

  /** The schedule of the task is gone, or would only be refused. */
  predicate Settled(w: World, t: int) {
    && t in w.db.tasks && w.db.tasks[t].status.Terminal() && t !in w.tainted && t in w.home
    && (w.home[t] in w.db.schedules ==> Refusal(w.db.schedules[w.home[t]]).Some?)
  }

  /** Rows that were stored stay as they are or go, and a task keeps the schedule `CreateOne` gave it. */
  predicate RowsKept(w: World, w': World) {
    && w.db.nextSchedule <= w'.db.nextSchedule
    && (forall t | t in w.home :: t in w'.home && w'.home[t] == w.home[t])
    && (forall s | s in w'.db.schedules && s < w.db.nextSchedule ::
          s in w.db.schedules && w'.db.schedules[s] == w.db.schedules[s])
  }

  lemma StepRowsKept(w: World, step: Step)
    requires Inv(w) && Enabled(w, step)
    ensures RowsKept(w, Apply(w, step))
  {
    hide Inv, Refusal, Valid, TablesOk, RowsKept, Deliver, UpdateTask;
    hide CreateTasksStep, CreateSchedulesStep;
    InvParts(w);
    if step.CreateSchedules? {
      IssuedKept(w, step.run);
    } else if step.CreateTasks? {
      EnlargedKept(w, step.plans);
    } else if step.ForeignReport? {
      UpdateTaskUpdated(w.db, step.taskId, step.status, step.error, step.now);
      UpdatedKept(w, Apply(w, step), step.taskId);
    } else if step.Proceed? {
      ProceedKept(w, step.exec, step.outcome, step.delivered, step.now);
    } else {
      OthersKept(w, step);
    }
  }

  lemma EnlargedKept(w: World, plans: seq<Recommendation>)
    requires Valid(w.db) && plans != []
    ensures RowsKept(w, CreateTasksStep(w, plans))
  {
    hide Valid, CreateTasksStep;
    CreateTasksEnlarged(w, plans);
  }

  lemma UpdatedKept(w: World, w': World, t: int)
    requires Updated(w.db, w'.db, t) && w'.home == w.home
    ensures RowsKept(w, w')
  {
  }

  lemma ProceedKept(w: World, exec: int, outcome: Option<string>, delivered: bool, now: int)
    requires Valid(w.db) && exec in w.execs && !w.execs[exec].pc.Done?
    ensures RowsKept(w, ProceedStep(w, exec, outcome, delivered, now))
  {
    hide Valid, Refusal, Deliver, Emit, Advance, RowsKept, Updated;
    DeliverForward(w.db, w.execs[exec].sched, w.execs[exec].pc, now);
    UpdatedNothing(w.db);
    var w' := ProceedStep(w, exec, outcome, delivered, now);
    UpdatedKept(w, w', if delivered then w.execs[exec].sched.taskId else 0);
  }

  lemma OthersKept(w: World, step: Step)
    requires Valid(w.db) && SchedulesOk(w.db) && Enabled(w, step)
    requires !step.CreateSchedules? && !step.CreateTasks? && !step.ForeignReport? && !step.Proceed?
    ensures RowsKept(w, Apply(w, step))
  {
    hide Valid, Refusal, Admit, DropStale;
  }

  lemma IssuedKept(w: World, run: int)
    requires TablesOk(w) && run in w.unscheduled && AllIn(w.db.runs[run].tasks, w.db.tasks)
    ensures RowsKept(w, CreateSchedulesStep(w, run))
  {
    hide TablesOk, AddSchedules, HomeOf, Valid, TasksAre;
    TasksOfRun(w, run);
    CreateSchedulesIssued(w, run);
  }

  lemma SettledStep(w: World, step: Step, t: int)
    requires Inv(w) && Enabled(w, step) && Settled(w, t) && !Touches(step, t)
    ensures var w' := Apply(w, step); Settled(w', t) && w'.db.tasks[t].status == w.db.tasks[t].status
  {
    hide Inv, Valid, TablesOk, Apply, Refusal, Enabled, Touches;
    InvParts(w);
    StepRowsKept(w, step);
    StepForward(w, step);
    SettledUntainted(w, step, t);
    SettledKept(w, Apply(w, step), t);
  }

  lemma SettledKept(w: World, w': World, t: int)
    requires Settled(w, t) && HomeOk(w) && RowsKept(w, w') && Forward(w, w') && t !in w'.tainted
    ensures Settled(w', t) && w'.db.tasks[t].status == w.db.tasks[t].status
  {
    hide Refusal;
    assert NoLower(w.db.tasks[t].status, w'.db.tasks[t].status);
  }

  lemma SettledUntainted(w: World, step: Step, t: int)
    requires Valid(w.db) && Enabled(w, step) && Settled(w, t) && !Touches(step, t)
    ensures t !in Apply(w, step).tainted
  {
    hide Valid, Refusal, UpdateTask, AddRun, AddSchedules, AddSchedule, HomeOf, Deliver, DropStale, Admit, Advance;
  }

  lemma {:induction false} SettledForGood(ws: seq<World>, steps: seq<Step>, t: int, i: nat)
    requires Chain(ws, steps) && Inv(ws[0]) && Settled(ws[0], t) && i <= |steps|
    requires forall k | 0 <= k < |steps| :: !Touches(steps[k], t)
    ensures Inv(ws[i]) && Settled(ws[i], t) && ws[i].db.tasks[t].status == ws[0].db.tasks[t].status
  {
    hide Inv, Settled, Apply, Enabled, Valid, Touches;
    if i > 0 {
      SettledForGood(ws, steps, t, i - 1);
      assert Next(ws[i - 1], steps[i - 1], ws[i]);
      StepInv(ws[i - 1], steps[i - 1]);
      SettledStep(ws[i - 1], steps[i - 1], t);
    }
  }

  /**
   * The taint of a restart is exact: a finished task whose history nobody else touched can change its status after a
   * restart, with the protocol left alone, exactly when it is at risk.
   */
  lemma RestartIsExact(w: World, t: int)
    requires Inv(w) && t in w.db.tasks && w.db.tasks[t].status.Terminal() && t !in w.tainted
    ensures t in AtRisk(w) <==> exists ws, steps :: MovesBack(w, ws, steps, t)
  {
    hide Inv, Valid, Refusal, MovesBack;
    if t in AtRisk(w) {
      AtRiskMovesBack(w, t);
    }
    forall ws, steps | MovesBack(w, ws, steps, t)
      ensures t in AtRisk(w)
    {
      OnlyAtRisk(w, ws, steps, t);
    }
  }

  lemma OnlyAtRisk(w: World, ws: seq<World>, steps: seq<Step>, t: int)
    requires MovesBack(w, ws, steps, t) && Inv(w) && w.db.tasks[t].status.Terminal() && t !in w.tainted
    ensures t in AtRisk(w)
  {
    assert Waiting(w);
    hide Inv, Next, Touches, Refusal;
    if Settled(w, t) {
      SettledForGood(ws, steps, t, |steps|);
    }
  }
}
