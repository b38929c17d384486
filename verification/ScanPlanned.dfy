/** What is executed for a scan task is what was recommended for it, over every run of the protocol. */
module ScanPlanned {
  import opened Text
  import opened ScanStatus
  import opened ScanApi
  import opened Runner
  import opened ScanProtocol
  import opened ScanTablesInvariant
  import opened ScanSafety
  import opened ScanRuns
  import CommandLine

  /** A mention of an untainted task runs the task's own recommendation. */
  predicate Planned(w: World, s: Schedule) {
    s.taskId != 0 && s.taskId !in w.tainted ==>
      s.taskId in w.db.tasks && Plans(s, s.taskId, w.db.tasks[s.taskId].plan)
  }

  predicate AllPlanned(w: World) {
    && (forall id | id in w.db.schedules :: Planned(w, w.db.schedules[id]))
    && (w.pass.Reconciling? ==> forall i | 0 <= i < |w.pass.todo| :: Planned(w, w.pass.todo[i]))
    && (forall j | j in w.book.jobs :: Planned(w, w.book.jobs[j]))
    && (forall e | e in w.execs :: Planned(w, w.execs[e].sched))
  }

  /** No task loses its row or its recommendation. */
  predicate KeepsPlans(w: World, w': World) {
    && w.tainted <= w'.tainted
    && forall t | t in w.db.tasks :: t in w'.db.tasks && w'.db.tasks[t].plan == w.db.tasks[t].plan
  }

  lemma StillPlanned(w: World, w': World)
    requires KeepsPlans(w, w')
    ensures forall s | Planned(w, s) :: Planned(w', s)
  {
    hide Plans;
  }

  lemma StepKeepsPlans(w: World, step: Step)
    requires Inv(w) && Enabled(w, step)
    ensures KeepsPlans(w, Apply(w, step))
  {
    hide Inv, Valid, TablesOk, TasksOk, RunsOk, SchedulesOk, Derived, Waiting, RunnerOk, AllSound, StartedOk, FiredOk;
    hide AllOpen, HomeOk, RefusedOk, Refusal, UpdateTask, Deliver, CreateTasksStep, HomeOf, Insert, OnceRows;
    InvParts(w);
    if step.CreateTasks? {
      CreateTasksEnlarged(w, step.plans);
    } else if step.ForeignReport? {
      ReportStored(w.db, step.taskId, step.status, step.error, step.now);
    } else if step.Proceed? {
      DeliverKeepsPlans(w.db, w.execs[step.exec].sched, w.execs[step.exec].pc, step.now);
    }
  }

  lemma DeliverKeepsPlans(db: Db, c: Schedule, pc: Pc, now: int)
    requires Valid(db)
    ensures var db' := Deliver(db, Emit(c, pc), now);
            && (forall t | t in db.tasks :: t in db'.tasks && db'.tasks[t].plan == db.tasks[t].plan)
            && (forall s | s in db'.schedules :: s in db.schedules && db'.schedules[s] == db.schedules[s])
  {
    hide Valid, UpdateTask, Refusal, CommandLine.Split;
    if c.taskId != 0 && c.taskId in db.tasks {
      if pc.SendRunning? {
        ReportStored(db, c.taskId, Running, None, now);
      } else if pc.SendFinal? {
        ReportStored(db, c.taskId, FinalStatus(pc.error), pc.error, now);
      }
    }
  }

  /** The new rows of `CreateOne` run the recommendations of their tasks. */
  lemma NewRowsPlanned(w: World, run: int)
    requires TablesOk(w) && run in w.unscheduled && AllIn(w.db.runs[run].tasks, w.db.tasks) && AllPlanned(w)
    ensures var w' := CreateSchedulesStep(w, run); forall id | id in w'.db.schedules :: Planned(w', w'.db.schedules[id])
  {
    hide Plans, OnceSchedule, AddSchedules, HomeOf, Insert, OnceRows;
    var ids, w' := w.db.runs[run].tasks, CreateSchedulesStep(w, run);
    var plans := seq(|ids|, i requires 0 <= i < |ids| => w.db.tasks[ids[i]].plan);
    TablesNumbered(w);
    AddedRows(w.db, ids, plans);
    SameTasks(w.db, ids);
    forall id | id in w'.db.schedules
      ensures Planned(w', w'.db.schedules[id])
    {
      if id in w.db.schedules {
        assert Planned(w, w.db.schedules[id]);
      } else {
        var i := id - w.db.nextSchedule;
        OnceRuns(id, ids[i], plans[i]);
        PlansTask(w'.db.schedules[id], ids[i], plans[i]);
      }
    }
  }

  lemma TablesNumbered(w: World)
    requires TablesOk(w)
    ensures SchedulesOk(w.db)
  {
  }

  lemma SameTasks(db: Db, ids: seq<int>)
    requires AllIn(ids, db.tasks)
    ensures AddSchedules(db, ids).tasks == db.tasks
  {
  }

  lemma StepPlanned(w: World, step: Step)
    requires Inv(w) && Enabled(w, step) && AllPlanned(w)
    ensures AllPlanned(Apply(w, step))
  {
    hide Inv, Valid, TablesOk, Refusal, Planned, KeepsPlans, Apply, AllPlanned;
    InvParts(w);
    StepKeepsPlans(w, step);
    StillPlanned(w, Apply(w, step));
    if step.CreateTasks? || step.CreateSchedules? || step.AddUserSchedule? || step.ForeignReport? || step.Proceed? {
      TablesPlanned(w, step);
    } else {
      MentionsPlanned(w, step);
    }
  }

  lemma TablesPlanned(w: World, step: Step)
    requires Valid(w.db) && TablesOk(w) && Enabled(w, step) && AllPlanned(w)
    requires step.CreateTasks? || step.CreateSchedules? || step.AddUserSchedule? || step.ForeignReport? || step.Proceed?
    requires forall s | Planned(w, s) :: Planned(Apply(w, step), s)
    ensures AllPlanned(Apply(w, step))
  {
    hide Valid, TablesOk, TasksOk, RunsOk, Derived, SchedulesOk;
    hide Refusal, Planned, UpdateTask, AddRun, AddSchedules, HomeOf, Deliver, Advance;
    ValidParts(w.db);
    match step
    case CreateTasks(plans) => SchedulesSame(w.db, plans);
    case CreateSchedules(run) => NewRowsPlanned(w, run);
    case AddUserSchedule(commandId, line, cron, taskId) => UserSchedulePlanned(w, commandId, line, cron, taskId);
    case ForeignReport(t, status, error, now) => SameSchedules(w.db, t, status, error, now);
    case Proceed(exec, _, _, now) => DeliverKeepsPlans(w.db, w.execs[exec].sched, w.execs[exec].pc, now);
  }

  lemma MentionsPlanned(w: World, step: Step)
    requires Valid(w.db) && Enabled(w, step) && AllPlanned(w)
    requires step.DeleteSchedule? || step.Poll? || step.Entry? || step.EndPass? || step.Fire? || step.Restart?
    requires forall s | Planned(w, s) :: Planned(Apply(w, step), s)
    ensures AllPlanned(Apply(w, step))
  {
    hide Valid, Refusal, Planned, AtRisk, DropStale;
    match step
    case Poll(page) => assert forall i | 0 <= i < |page| :: Planned(w, w.db.schedules[page[i].id]);
    case EndPass => JobsFewer(w);
    case _ =>
  }

  lemma UserSchedulePlanned(w: World, commandId: string, line: string, cron: string, taskId: int)
    requires AllPlanned(w)
    ensures var w' := UserScheduleStep(w, commandId, line, cron, taskId);
            forall id | id in w'.db.schedules :: Planned(w', w'.db.schedules[id])
  {
    hide Plans;
  }

  lemma SameSchedules(db: Db, t: int, status: Status, error: Option<string>, now: int)
    requires TasksOk(db) && RunsOk(db) && t in db.tasks
    ensures UpdateTask(db, t, status, error, now).schedules == db.schedules
  {
    hide StatusesOf, RecomputeStatus;
  }

  lemma SchedulesSame(db: Db, plans: seq<Recommendation>)
    ensures AddRun(db, plans).schedules == db.schedules
  {
  }

  lemma JobsFewer(w: World)
    requires w.pass.Reconciling?
    ensures var b := EndPassStep(w).book; forall j | j in b.jobs :: j in w.book.jobs && b.jobs[j] == w.book.jobs[j]
  {
  }

  // ---------------------------------------------------------------------------
  // Every run
  // ---------------------------------------------------------------------------

  lemma {:induction false} BehaviourPlanned(ws: seq<World>, steps: seq<Step>, i: nat)
    requires Behaviour(ws, steps) && i <= |steps|
    ensures AllPlanned(ws[i])
  {
    hide Inv, Valid, Apply, Enabled, Planned;
    if i > 0 {
      BehaviourPlanned(ws, steps, i - 1);
      BehaviourInv(ws, steps, i - 1);
      assert Next(ws[i - 1], steps[i - 1], ws[i]);
      StepPlanned(ws[i - 1], steps[i - 1]);
    }
  }

  /** In every run a task keeps the recommendation it was created with. */
  lemma {:induction false} PlanStays(ws: seq<World>, steps: seq<Step>, i: nat, j: nat, t: int)
    requires Behaviour(ws, steps) && i <= j <= |steps| && t in ws[i].db.tasks
    ensures t in ws[j].db.tasks && ws[j].db.tasks[t].plan == ws[i].db.tasks[t].plan
    decreases j - i
  {
    hide Inv, Valid, Apply, Enabled;
    if i < j {
      PlanStays(ws, steps, i, j - 1, t);
      BehaviourInv(ws, steps, j - 1);
      assert Next(ws[j - 1], steps[j - 1], ws[j]);
      StepKeepsPlans(ws[j - 1], steps[j - 1]);
    }
  }

  /**
   * In every run, whatever is executed for a task that the protocol alone is in charge of is the command recommended
   * for it: of a plain path and balanced arguments, that path with those arguments, split.
   */
  lemma RunsWhatWasPlanned(ws: seq<World>, steps: seq<Step>, i: nat, e: int)
    requires Behaviour(ws, steps) && i <= |steps| && e in ws[i].execs
    requires ws[i].execs[e].sched.taskId != 0 && ws[i].execs[e].sched.taskId !in ws[i].tainted
    ensures var c := ws[i].execs[e].sched;
            c.taskId in ws[i].db.tasks && Plans(c, c.taskId, ws[i].db.tasks[c.taskId].plan)
    ensures var c := ws[i].execs[e].sched;
            var plan := ws[i].db.tasks[c.taskId].plan;
            var path, args := CommandLine.OrEmpty(plan.executablePath), CommandLine.OrEmpty(plan.arguments);
            CommandLine.PlainPath(path) && CommandLine.Balanced(args) ==>
              Emit(c, Executing) == [Execute(path, CommandLine.Split(args))]
  {
    hide Next, CommandLine.Split, CommandLine.Balanced, TrimEnd, IsBlank, CommandLine.PlainPath;
    BehaviourPlanned(ws, steps, i);
    assert Planned(ws[i], ws[i].execs[e].sched);
  }
}
