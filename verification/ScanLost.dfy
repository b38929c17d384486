/**
 * A terminal report that is lost: nobody is left to repeat it, so the task keeps the status it had, until a restart
 * finds the schedule still stored, and for good if the schedule is gone.
 */
module ScanLost {
  import opened Text
  import opened ScanStatus
  import opened ScanApi
  import opened Runner
  import opened ScanProtocol
  import opened ScanInvariant
  import opened ScanTablesInvariant
  import opened ScanSafety
  import opened ScanRuns

  /** No job and no execution will report on the task; if its schedule is still there, it had its job. */
  predicate Unattended(w: World, t: int) {
    && t in w.db.tasks && t in w.home
    && (forall s | s in w.db.schedules && w.db.schedules[s].taskId == t :: s in w.started)
    && (w.pass.Reconciling? ==>
          forall i | 0 <= i < |w.pass.todo| && w.pass.todo[i].taskId == t :: w.pass.todo[i].id in w.started)
    && (forall j | j in w.book.jobs :: w.book.jobs[j].taskId != t)
    && (forall e | e in w.execs && w.execs[e].pc.Left() > 1 :: w.execs[e].sched.taskId != t)
  }

  predicate Unscheduled(w: World, t: int) {
    forall s | s in w.db.schedules :: w.db.schedules[s].taskId != t
  }

  /** The task is still unattended, its status is the same, and no schedule for it came up. */
  predicate Stays(w: World, w': World, t: int) {
    && t in w.db.tasks && Unattended(w', t) && w'.db.tasks[t].status == w.db.tasks[t].status
    && (Unscheduled(w, t) ==> Unscheduled(w', t))
  }

  lemma ProceedStays(w: World, exec: int, outcome: Option<string>, delivered: bool, now: int, t: int)
    requires Valid(w.db) && Unattended(w, t) && exec in w.execs && !w.execs[exec].pc.Done?
    ensures Stays(w, ProceedStep(w, exec, outcome, delivered, now), t)
  {
    hide Deliver, Valid, Refusal, Emit;
    var c, pc := w.execs[exec].sched, w.execs[exec].pc;
    DeliverForward(w.db, c, pc, now);
  }

  lemma CreateSchedulesStays(w: World, run: int, t: int)
    requires TablesOk(w) && Unattended(w, t) && run in w.unscheduled && run in w.db.runs
    ensures AllIn(w.db.runs[run].tasks, w.db.tasks) && Stays(w, CreateSchedulesStep(w, run), t)
  {
    hide TablesOk, Valid, AddSchedules, HomeOf, CreateSchedulesStep, Unattended, Unscheduled;
    TasksOfRun(w, run);
    CreateSchedulesIssued(w, run);
    var ids := w.db.runs[run].tasks;
    IssuedStays(w, CreateSchedulesStep(w, run), run, ids[0], |ids|, t);
  }

  lemma IssuedStays(w: World, w': World, run: int, first: int, n: nat, t: int)
    requires Unattended(w, t) && Issued(w, w', run, first, n)
    ensures Stays(w, w', t)
  {
    forall s | s in w'.db.schedules && w'.db.schedules[s].taskId == t
      ensures s in w.db.schedules && w.db.schedules[s].taskId == t
    {
      assert first <= t < first + n ==> t !in w.home;
    }
  }

  lemma CreateTasksStays(w: World, plans: seq<Recommendation>, t: int)
    requires Valid(w.db) && Unattended(w, t) && plans != []
    ensures Stays(w, CreateTasksStep(w, plans), t)
  {
    hide Valid, AddRun, Refusal;
    CreateTasksEnlarged(w, plans);
  }

  lemma ForeignReportStays(w: World, u: int, status: Status, error: Option<string>, now: int, t: int)
    requires Valid(w.db) && Unattended(w, t) && u in w.db.tasks && u != t
    ensures Stays(w, ForeignReportStep(w, u, status, error, now), t)
  {
    hide Valid, UpdateTask;
    UpdateTaskUpdated(w.db, u, status, error, now);
  }

  lemma PollStays(w: World, page: seq<Schedule>, t: int)
    requires Unattended(w, t) && SchedulesOk(w.db) && Snapshot(page, w.db.schedules)
    ensures Stays(w, PollStep(w, page), t)
  {
  }

  /** A listed schedule that had its job is active, so it gets no second one. */
  lemma EntryStays(w: World, accepted: bool, t: int)
    requires Unattended(w, t) && StartedOk(w) && w.pass.Reconciling? && w.pass.todo != []
    ensures Stays(w, EntryStep(w, accepted), t)
  {
    EntryIsNew(w);
    hide StartedOk;
  }

  lemma BookkeepingStays(w: World, step: Step, t: int)
    requires Valid(w.db) && Unattended(w, t) && Enabled(w, step)
    requires step.EndPass? || step.Fire? || step.DeleteSchedule? || (step.Restart? && Unscheduled(w, t))
    ensures Stays(w, Apply(w, step), t)
  {
    hide Valid, AtRisk;
  }

  lemma StepStays(w: World, step: Step, t: int)
    requires Inv(w) && Unattended(w, t) && Enabled(w, step) && t !in Apply(w, step).tainted
    requires step.Restart? ==> Unscheduled(w, t)
    ensures Stays(w, Apply(w, step), t)
  {
    hide Inv, Valid, TablesOk, StartedOk, SchedulesOk, Stays, Unattended, Unscheduled, Refusal;
    hide CreateTasksStep, CreateSchedulesStep, AddSchedule, UpdateTask, PollStep, EntryStep, ProceedStep;
    hide DeleteScheduleStep, EndPassStep, FireStep, RestartStep;
    InvParts(w);
    match step
    case CreateTasks(plans) => CreateTasksStays(w, plans, t);
    case CreateSchedules(run) => CreateSchedulesStays(w, run, t);
    case AddUserSchedule(commandId, line, cron, taskId) => UserScheduleStays(w, commandId, line, cron, taskId, t);
    case ForeignReport(u, status, error, now) => ForeignReportStays(w, u, status, error, now, t);
    case Poll(page) => PollStays(w, page, t);
    case Entry(accepted) => EntryStays(w, accepted, t);
    case Proceed(exec, outcome, delivered, now) => ProceedStays(w, exec, outcome, delivered, now, t);
    case _ => BookkeepingStays(w, step, t);
  }

  lemma UserScheduleStays(w: World, commandId: string, line: string, cron: string, taskId: int, t: int)
    requires Unattended(w, t) && taskId != t && SchedulesOk(w.db)
    ensures Stays(w, UserScheduleStep(w, commandId, line, cron, taskId), t)
  {
  }

  lemma {:induction false} UnattendedStays(ws: seq<World>, steps: seq<Step>, i: nat, j: nat, t: int)
    requires Behaviour(ws, steps) && i <= j <= |steps| && Unattended(ws[i], t) && t !in ws[j].tainted
    requires Unscheduled(ws[i], t) || forall k | i <= k < j :: !steps[k].Restart?
    ensures t in ws[i].db.tasks && t in ws[j].db.tasks && ws[j].db.tasks[t].status == ws[i].db.tasks[t].status
    ensures Unattended(ws[j], t)
    ensures Unscheduled(ws[i], t) ==> Unscheduled(ws[j], t)
    decreases j - i
  {
    assert t in ws[i].db.tasks;
    hide Inv, Unscheduled, Apply, Enabled, Valid, TablesOk;
    if i < j {
      BehaviourInv(ws, steps, j - 1);
      assert Next(ws[j - 1], steps[j - 1], ws[j]);
      StepForward(ws[j - 1], steps[j - 1]);
      UnattendedStays(ws, steps, i, j - 1, t);
      StepStays(ws[j - 1], steps[j - 1], t);
    }
  }

  /** The step is the terminal report of a scan task, and the report is lost. */
  predicate Loses(w: World, step: Step, t: int) {
    && step.Proceed? && !step.delivered && Enabled(w, step)
    && w.execs[step.exec].pc.SendFinal? && w.execs[step.exec].sched.taskId == t && t != 0
  }

  /** Right after the loss nobody attends to the task, and unless its schedule is refused it is not over. */
  lemma LossLeavesUnattended(w: World, step: Step, t: int)
    requires Inv(w) && Loses(w, step, t) && t !in w.tainted
    ensures var w' := Apply(w, step);
            && Unattended(w', t) && w'.db.tasks[t].status == w.db.tasks[t].status
            && (Refusal(w.execs[step.exec].sched).None? ==> IsScanRunActive(w'.db.tasks[t].status))
  {
    hide Inv, Valid, TablesOk, Refusal, BookOk;
    InvParts(w);
    LastAgent(w, step.exec, step.outcome);
    LossIsAdvance(w, step, t);
    var c := w.execs[step.exec].sched;
    assert Sound(w, c) && Open(w, c);
  }

  lemma LossIsAdvance(w: World, step: Step, t: int)
    requires Valid(w.db) && Loses(w, step, t)
    ensures Apply(w, step) == Advanced(w, step.exec, step.outcome)
  {
    hide Valid, Refusal, Deliver;
  }

  /** An unattended task without its own schedule has none. */
  lemma HomeGone(w: World, t: int)
    requires Inv(w) && t in w.home && t != 0 && t !in w.tainted && w.home[t] !in w.db.schedules
    ensures Unscheduled(w, t)
  {
    hide Inv, Valid, TablesOk;
    InvParts(w);
    forall s | s in w.db.schedules
      ensures w.db.schedules[s].taskId != t
    {
      assert Sound(w, w.db.schedules[s]);
    }
  }

  /**
   * In every run, from a lost terminal report on, the task keeps the status it had as long as the runner is not
   * restarted, whether or not the delete that follows is lost as well.
   */
  lemma LostReportStays(ws: seq<World>, steps: seq<Step>, i: nat, j: nat, t: int)
    requires Behaviour(ws, steps) && i < j <= |steps| && Loses(ws[i], steps[i], t) && t !in ws[j].tainted
    requires forall k | i < k < j :: !steps[k].Restart?
    ensures t in ws[i].db.tasks && t in ws[j].db.tasks && ws[j].db.tasks[t].status == ws[i].db.tasks[t].status
    ensures Unattended(ws[j], t)
    ensures Refusal(ws[i].execs[steps[i].exec].sched).None? ==> IsScanRunActive(ws[j].db.tasks[t].status)
  {
    BehaviourInv(ws, steps, i);
    BehaviourForward(ws, steps, i, j);
    assert Next(ws[i], steps[i], ws[i + 1]);
    assert t !in ws[i].tainted;
    hide Inv, Unattended, Unscheduled, Apply, Valid, Refusal, Forward;
    LossLeavesUnattended(ws[i], steps[i], t);
    UnattendedStays(ws, steps, i + 1, j, t);
  }

  /**
   * If the delete arrives before the next restart, the task keeps that status for good, restarts included: a lost
   * terminal report of a command that ran leaves its task active for ever.
   */
  lemma LostReportForever(ws: seq<World>, steps: seq<Step>, i: nat, k: nat, j: nat, t: int)
    requires Behaviour(ws, steps) && i < k <= j <= |steps| && Loses(ws[i], steps[i], t) && t !in ws[j].tainted
    requires forall n | i < n < k :: !steps[n].Restart?
    requires t in ws[k].home && ws[k].home[t] !in ws[k].db.schedules
    ensures t in ws[i].db.tasks && t in ws[j].db.tasks && ws[j].db.tasks[t].status == ws[i].db.tasks[t].status
    ensures Unattended(ws[j], t) && Unscheduled(ws[j], t)
    ensures Refusal(ws[i].execs[steps[i].exec].sched).None? ==> IsScanRunActive(ws[j].db.tasks[t].status)
  {
    BehaviourForward(ws, steps, k, j);
    BehaviourInv(ws, steps, k);
    assert t !in ws[k].tainted;
    hide Inv, Unattended, Unscheduled, Behaviour, Refusal, Forward, Loses;
    LostReportStays(ws, steps, i, k, t);
    HomeGone(ws[k], t);
    UnattendedStays(ws, steps, k, j, t);
  }

  /** The delete that follows the lost report, if it arrives, is the one `LostReportForever` waits for. */
  lemma DeleteFollows(w: World, step: Step, t: int, now: int)
    requires Inv(w) && Loses(w, step, t) && t !in w.tainted
    ensures var w1 := Apply(w, step);
            var delete := Proceed(step.exec, None, true, now);
            && Valid(w1.db) && Enabled(w1, delete)
            && var w2 := Apply(w1, delete); t in w2.home && w2.home[t] !in w2.db.schedules
  {
    hide Inv, Valid, Refusal, TablesOk, Advanced, Apply;
    InvParts(w);
    StepInv(w, step);
    LoserIsOnce(w, step.exec, step.outcome);
    LossIsAdvance(w, step, t);
    InvParts(Apply(w, step));
    DeleteGoes(Apply(w, step), step.exec, w.execs[step.exec].sched, now);
  }

  lemma DeleteGoes(w: World, exec: int, c: Schedule, now: int)
    requires Valid(w.db) && exec in w.execs && w.execs[exec] == Exec(c, Deleting)
    ensures var delete := Proceed(exec, None, true, now);
            Enabled(w, delete) && Apply(w, delete) == w.(db := RemoveSchedule(w.db, c.id), execs := w.execs - {exec})
  {
    hide Valid, Refusal;
  }

  lemma LoserIsOnce(w: World, exec: int, outcome: Option<string>)
    requires Inv(w) && exec in w.execs && w.execs[exec].pc.SendFinal?
    requires w.execs[exec].sched.taskId != 0 && w.execs[exec].sched.taskId !in w.tainted
    ensures var c := w.execs[exec].sched;
            && c.Once() && c.taskId in w.home && w.home[c.taskId] == c.id
            && Advanced(w, exec, outcome) == w.(execs := w.execs[exec := Exec(c, Deleting)])
  {
    hide Inv, Valid, TablesOk, Refusal, Sound, Advanced, BookOk;
    InvParts(w);
    var c := w.execs[exec].sched;
    assert Sound(w, c);
    SoundHome(w, c);
    OnceDeletes(w, exec, outcome);
  }

  lemma OnceDeletes(w: World, exec: int, outcome: Option<string>)
    requires exec in w.execs && w.execs[exec].pc.SendFinal? && w.execs[exec].sched.Once()
    ensures Advanced(w, exec, outcome) == w.(execs := w.execs[exec := Exec(w.execs[exec].sched, Deleting)])
  {
    hide Refusal;
  }
}
