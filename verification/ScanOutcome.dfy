/** Where the verdict on a task comes from: over every run it is the outcome of an execution, or somebody else's word. */
module ScanOutcome {
  import opened Text
  import opened ScanStatus
  import opened ScanApi
  import opened Runner
  import opened ScanProtocol
  import opened ScanTablesInvariant
  import opened ScanSafety
  import opened ScanRuns

  /** What the step settles about the task: an execution ends, a schedule is refused, or somebody else reports. */
  predicate Settles(w: World, step: Step, t: int, status: Status, error: Option<string>) {
    match step
    case ForeignReport(u, s, e, _) => u == t && status == s && error == if s == Failed then e else None
    case Proceed(exec, outcome, _, _) =>
      && exec in w.execs && w.execs[exec].sched.taskId == t
      && var refusal := Refusal(w.execs[exec].sched);
         if w.execs[exec].pc == Begin then refusal.Some? && status == Failed && error == refusal
         else w.execs[exec].pc == Executing && error == outcome && status == if outcome == None then Succeeded else Failed
    case _ => false
  }

  /** An execution that is about to report this verdict. */
  predicate About(w: World, e: int, t: int, status: Status, error: Option<string>) {
    && e in w.execs && w.execs[e].sched.taskId == t && w.execs[e].pc == SendFinal(error)
    && status == if error == None then Succeeded else Failed
  }

  lemma DeliveredVerdict(db: Db, c: Schedule, pc: Pc, now: int, t: int)
    requires Valid(db) && t in db.tasks
    ensures var db' := Deliver(db, Emit(c, pc), now);
            && t in db'.tasks
            && (|| (db'.tasks[t].status == db.tasks[t].status && db'.tasks[t].error == db.tasks[t].error)
                || (c.taskId == t && pc.SendRunning? && db'.tasks[t].status == Running)
                || (c.taskId == t && pc.SendFinal? && db'.tasks[t].error == pc.error
                    && db'.tasks[t].status == if pc.error == None then Succeeded else Failed))
  {
    hide Valid, UpdateTask, Refusal;
    var u := c.taskId;
    if u != 0 && u in db.tasks {
      if pc.SendRunning? {
        ReportStored(db, u, Running, None, now);
      } else if pc.SendFinal? {
        ReportStored(db, u, FinalStatus(pc.error), pc.error, now);
      }
    }
  }

  /** A final report that arrives leaves the task succeeded exactly when the execution gave no error. */
  lemma FinalReportArrives(w: World, exec: int, outcome: Option<string>, now: int)
    requires Valid(w.db) && exec in w.execs && w.execs[exec].pc.SendFinal?
    requires w.execs[exec].sched.taskId != 0 && w.execs[exec].sched.taskId in w.db.tasks
    ensures var t, error := w.execs[exec].sched.taskId, w.execs[exec].pc.error;
            var after := ProceedStep(w, exec, outcome, true, now).db.tasks;
            && t in after && after[t].error == error && after[t].finishedAt == Some(now)
            && (error == None ==> after[t].status == Succeeded) && (error != None ==> after[t].status == Failed)
  {
    hide Valid, UpdateTask, Refusal;
    var c, error := w.execs[exec].sched, w.execs[exec].pc.error;
    ReportStored(w.db, c.taskId, FinalStatus(error), error, now);
  }

  /** A report by somebody else is stored like any other. */
  lemma ForeignReportArrives(w: World, t: int, status: Status, error: Option<string>, now: int)
    requires Valid(w.db) && t in w.db.tasks
    ensures StoresReport(w.db, ForeignReportStep(w, t, status, error, now).db, t, status, error, now)
  {
    hide Valid, UpdateTask, StoresReport;
    ValidParts(w.db);
    UpdateTaskStores(w.db, t, status, error, now);
  }

  /** A schedule that a user stores is one new row with what was sent; all others stay. */
  lemma UserScheduleStored(w: World, commandId: string, line: string, cron: string, taskId: int)
    requires SchedulesOk(w.db)
    ensures var was, now := w.db.schedules, UserScheduleStep(w, commandId, line, cron, taskId).db.schedules;
            exists s | s in now && s !in was ::
              now == was[s := now[s]] && now[s] == Schedule(s, commandId, line, cron, taskId)
  {
    var now := UserScheduleStep(w, commandId, line, cron, taskId).db.schedules;
    assert w.db.nextSchedule in now && w.db.nextSchedule !in w.db.schedules;
  }

  // ---------------------------------------------------------------------------
  // One step
  // ---------------------------------------------------------------------------

  /** A new verdict is settled by the step, or reported by an execution. */
  predicate Explained(w: World, step: Step, w': World, t: int) {
    && t in w'.db.tasks
    && (w'.db.tasks[t].status.Terminal() ==>
          || (t in w.db.tasks && w'.db.tasks[t].status == w.db.tasks[t].status
              && w'.db.tasks[t].error == w.db.tasks[t].error)
          || Settles(w, step, t, w'.db.tasks[t].status, w'.db.tasks[t].error)
          || (step.Proceed? && About(w, step.exec, t, w'.db.tasks[t].status, w'.db.tasks[t].error)))
  }

  lemma StepExplained(w: World, step: Step, t: int)
    requires Inv(w) && Enabled(w, step) && t in Apply(w, step).db.tasks
    ensures Explained(w, step, Apply(w, step), t)
  {
    hide Inv, Valid, TablesOk, TasksOk, RunsOk, SchedulesOk, Derived, Waiting, RunnerOk, AllSound, StartedOk, FiredOk;
    hide AllOpen, HomeOk, RefusedOk, Refusal, UpdateTask, Deliver, CreateTasksStep, HomeOf, Insert, OnceRows;
    InvParts(w);
    if step.CreateTasks? {
      CreateTasksEnlarged(w, step.plans);
    } else if step.ForeignReport? {
      ReportStored(w.db, step.taskId, step.status, step.error, step.now);
    } else if step.Proceed? {
      ProceedExplained(w, step, t);
    }
  }

  lemma ProceedExplained(w: World, step: Step, t: int)
    requires Valid(w.db) && step.Proceed? && Enabled(w, step) && t in Apply(w, step).db.tasks
    ensures Explained(w, step, Apply(w, step), t)
  {
    hide Valid, Refusal, Deliver, Emit, Updated;
    var c, pc := w.execs[step.exec].sched, w.execs[step.exec].pc;
    DeliverForward(w.db, c, pc, step.now);
    assert t in w.db.tasks by { DeliverKeys(w, step); }
    DeliveredVerdict(w.db, c, pc, step.now, t);
  }

  lemma DeliverKeys(w: World, step: Step)
    requires Valid(w.db) && step.Proceed? && Enabled(w, step)
    ensures Apply(w, step).db.tasks.Keys == w.db.tasks.Keys
  {
    hide Valid, Refusal, Deliver, Emit;
    DeliverForward(w.db, w.execs[step.exec].sched, w.execs[step.exec].pc, step.now);
  }

  /** An execution is about to report what the step settled, or was before. */
  lemma StepAbout(w: World, step: Step, e: int, t: int, status: Status, error: Option<string>)
    requires Valid(w.db) && Enabled(w, step) && About(Apply(w, step), e, t, status, error)
    ensures About(w, e, t, status, error) || Settles(w, step, t, status, error)
  {
    hide Valid, Refusal, UpdateTask, AddRun, AddSchedules, AddSchedule, HomeOf, Deliver, DropStale, Admit, AtRisk;
  }

  // ---------------------------------------------------------------------------
  // Every run
  // ---------------------------------------------------------------------------

  ghost predicate Settled(ws: seq<World>, steps: seq<Step>, i: nat, t: int, status: Status, error: Option<string>)
    requires |ws| == |steps| + 1 && i <= |steps|
  {
    exists k: nat :: k < i && Settles(ws[k], steps[k], t, status, error)
  }

  lemma SettledBefore(ws: seq<World>, steps: seq<Step>, i: nat, t: int, status: Status, error: Option<string>)
    requires |ws| == |steps| + 1 && 0 < i <= |steps|
    requires Settled(ws, steps, i - 1, t, status, error) || Settles(ws[i - 1], steps[i - 1], t, status, error)
    ensures Settled(ws, steps, i, t, status, error)
  {
    hide Settles;
    if k: nat :| k < i - 1 && Settles(ws[k], steps[k], t, status, error) {
      assert k < i;
    }
  }

  lemma {:induction false} AboutIsSettled(ws: seq<World>, steps: seq<Step>, i: nat, e: int, t: int, status: Status,
                                          error: Option<string>)
    requires Behaviour(ws, steps) && i <= |steps| && About(ws[i], e, t, status, error)
    ensures Settled(ws, steps, i, t, status, error)
  {
    hide Settled, Settles, Apply, Enabled, Valid;
    if i > 0 {
      assert Next(ws[i - 1], steps[i - 1], ws[i]);
      StepAbout(ws[i - 1], steps[i - 1], e, t, status, error);
      if About(ws[i - 1], e, t, status, error) {
        AboutIsSettled(ws, steps, i - 1, e, t, status, error);
      }
      SettledBefore(ws, steps, i, t, status, error);
    }
  }

  /**
   * In every run, whatever was lost or repeated: a task that is over was settled that way by an earlier step. So it is
   * stored as succeeded only if a command for it ran without an error, or somebody else said so; and the error of a
   * failed task is the one its execution gave, why its schedule was refused, or what somebody else reported.
   */
  lemma {:induction false} VerdictIsSettled(ws: seq<World>, steps: seq<Step>, i: nat, t: int)
    requires Behaviour(ws, steps) && i <= |steps| && t in ws[i].db.tasks && ws[i].db.tasks[t].status.Terminal()
    ensures Settled(ws, steps, i, t, ws[i].db.tasks[t].status, ws[i].db.tasks[t].error)
  {
    hide Settled, Settles, Apply, Enabled, Valid, Inv, About;
    if i > 0 {
      var status, error := ws[i].db.tasks[t].status, ws[i].db.tasks[t].error;
      BehaviourInv(ws, steps, i - 1);
      assert Next(ws[i - 1], steps[i - 1], ws[i]);
      StepExplained(ws[i - 1], steps[i - 1], t);
      if Settles(ws[i - 1], steps[i - 1], t, status, error) {
      } else if steps[i - 1].Proceed? && About(ws[i - 1], steps[i - 1].exec, t, status, error) {
        AboutIsSettled(ws, steps, i - 1, steps[i - 1].exec, t, status, error);
      } else {
        VerdictIsSettled(ws, steps, i - 1, t);
      }
      SettledBefore(ws, steps, i, t, status, error);
    }
  }

  /** For a task that the protocol alone is in charge of it is never somebody else's word. */
  lemma VerdictIsEarned(ws: seq<World>, steps: seq<Step>, i: nat, t: int)
    requires Behaviour(ws, steps) && i <= |steps| && t in ws[i].db.tasks && ws[i].db.tasks[t].status.Terminal()
    requires t !in ws[i].tainted
    ensures exists k: nat ::
              k < i && steps[k].Proceed? && Settles(ws[k], steps[k], t, ws[i].db.tasks[t].status, ws[i].db.tasks[t].error)
  {
    hide Settles, Inv, Enabled, Valid;
    VerdictIsSettled(ws, steps, i, t);
    var status, error := ws[i].db.tasks[t].status, ws[i].db.tasks[t].error;
    var k: nat :| k < i && Settles(ws[k], steps[k], t, status, error);
    BehaviourForward(ws, steps, k + 1, i);
    assert Next(ws[k], steps[k], ws[k + 1]);
    ForeignTaints(ws[k], steps[k], t, status, error);
  }

  lemma ForeignTaints(w: World, step: Step, t: int, status: Status, error: Option<string>)
    requires Valid(w.db) && Enabled(w, step) && Settles(w, step, t, status, error)
    ensures step.Proceed? || t in Apply(w, step).tainted
  {
    hide Valid, Refusal, UpdateTask;
  }

  // ---------------------------------------------------------------------------
  // From an outcome to the verdict
  // ---------------------------------------------------------------------------

  /** The execution ended with this error; it has still to report, or has reported. */
  predicate Ended(w: World, e: int, c: Schedule, error: Option<string>) {
    && e < w.nextExec
    && (e in w.execs ==> w.execs[e].sched == c && (w.execs[e].pc == SendFinal(error) || w.execs[e].pc == Deleting))
  }

  lemma EndedStep(w: World, step: Step, e: int, c: Schedule, error: Option<string>)
    requires Valid(w.db) && Enabled(w, step) && Ended(w, e, c, error)
    ensures Ended(Apply(w, step), e, c, error)
  {
    hide Valid, Refusal, UpdateTask, AddRun, AddSchedules, AddSchedule, HomeOf, Deliver, DropStale, Admit, AtRisk;
  }

  lemma {:induction false} EndedStays(ws: seq<World>, steps: seq<Step>, i: nat, j: nat, e: int, c: Schedule,
                                      error: Option<string>)
    requires Behaviour(ws, steps) && i <= j <= |steps| && Ended(ws[i], e, c, error)
    ensures Ended(ws[j], e, c, error)
    decreases j - i
  {
    hide Ended, Apply, Enabled, Valid;
    if i < j {
      EndedStays(ws, steps, i, j - 1, e, c, error);
      assert Next(ws[j - 1], steps[j - 1], ws[j]);
      EndedStep(ws[j - 1], steps[j - 1], e, c, error);
    }
  }

  lemma JustEnded(w: World, step: Step, e: int)
    requires Inv(w) && Enabled(w, step) && step.Proceed? && step.exec == e && e in w.execs && w.execs[e].pc == Executing
    ensures Ended(Apply(w, step), e, w.execs[e].sched, step.outcome)
  {
    hide Inv, Valid, Refusal, Deliver, TablesOk, BookOk;
    InvParts(w);
  }

  lemma ProceedIs(w: World, step: Step)
    requires Valid(w.db) && Enabled(w, step) && step.Proceed?
    ensures step.exec in w.execs && !w.execs[step.exec].pc.Done?
    ensures Apply(w, step) == ProceedStep(w, step.exec, step.outcome, step.delivered, step.now)
  {
    hide Valid, ProceedStep;
  }

  /**
   * In every run, if the command of an execution ended with some outcome and its final report arrives at any later
   * time, the task is then stored as succeeded exactly when there was no error, and otherwise as failed with it.
   */
  lemma OutcomeIsStored(ws: seq<World>, steps: seq<Step>, i: nat, j: nat, e: int, outcome: Option<string>)
    requires Behaviour(ws, steps) && i < j < |steps|
    requires e in ws[i].execs && ws[i].execs[e].pc == Executing
    requires steps[i].Proceed? && steps[i].exec == e && steps[i].outcome == outcome
    requires steps[j].Proceed? && steps[j].exec == e && steps[j].delivered
    requires e in ws[j].execs && ws[j].execs[e].pc.SendFinal?
    requires ws[i].execs[e].sched.taskId != 0 && ws[i].execs[e].sched.taskId in ws[j].db.tasks
    ensures var t, after := ws[i].execs[e].sched.taskId, ws[j + 1].db.tasks;
            && t in after && after[t].error == outcome
            && (outcome == None ==> after[t].status == Succeeded) && (outcome != None ==> after[t].status == Failed)
  {
    hide Inv, Valid, Refusal, Deliver, Apply, Enabled, FinalStatus;
    BehaviourInv(ws, steps, i);
    assert Next(ws[i], steps[i], ws[i + 1]) && Next(ws[j], steps[j], ws[j + 1]);
    var c := ws[i].execs[e].sched;
    JustEnded(ws[i], steps[i], e);
    ProceedIs(ws[j], steps[j]);
    EndedStays(ws, steps, i + 1, j, e, c, outcome);
    FinalReportArrives(ws[j], e, steps[j].outcome, steps[j].now);
  }
}
