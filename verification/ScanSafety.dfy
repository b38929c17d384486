/** Safety of the scan execution protocol over whole runs. */
module ScanSafety {
  import opened Text
  import opened ScanStatus
  import opened ScanApi
  import opened Runner
  import opened ScanProtocol
  import opened ScanInvariant
  import opened ScanTablesInvariant

  // ---------------------------------------------------------------------------
  // Proceed: a running schedule takes its next step
  // ---------------------------------------------------------------------------

  function Advanced(w: World, exec: int, outcome: Option<string>): World
    requires exec in w.execs && !w.execs[exec].pc.Done?
  {
    var c := w.execs[exec].sched;
    var pc' := Advance(c, w.execs[exec].pc, outcome);
    w.(execs := if pc'.Done? then w.execs - {exec} else w.execs[exec := Exec(c, pc')])
  }

  lemma AdvancedInv(w: World, exec: int, outcome: Option<string>)
    requires Inv(w) && exec in w.execs && !w.execs[exec].pc.Done?
    ensures Inv(Advanced(w, exec, outcome))
  {
    var w' := Advanced(w, exec, outcome);
    SameTables(w, w');
    AdvancedParts(w, exec, outcome);
    AdvancedOpen(w, exec, outcome);
    AdvancedRefused(w, exec, outcome);
    hide TablesOk, Waiting, RunnerOk, AllSound, StartedOk, FiredOk, AllOpen, HomeOk, RefusedOk, Advanced;
  }

  lemma AdvancedParts(w: World, exec: int, outcome: Option<string>)
    requires RunnerOk(w) && AllSound(w) && StartedOk(w) && FiredOk(w) && exec in w.execs && !w.execs[exec].pc.Done?
    ensures var w' := Advanced(w, exec, outcome); RunnerOk(w') && AllSound(w') && StartedOk(w') && FiredOk(w')
  {
    hide Advance;
    var w' := Advanced(w, exec, outcome);
    assert forall e | e in w'.execs :: e in w.execs && w'.execs[e].sched == w.execs[e].sched;
    assert RunnerOk(w') && FiredOk(w');
    assert AllSound(w') by { assert forall s :: Sound(w, s) <==> Sound(w', s); }
    assert StartedOk(w') by { assert forall id :: Listed(w, id) <==> Listed(w', id); }
  }

  lemma AdvancedRefused(w: World, exec: int, outcome: Option<string>)
    requires RefusedOk(w) && exec in w.execs && !w.execs[exec].pc.Done?
    ensures RefusedOk(Advanced(w, exec, outcome))
  {
    var w' := Advanced(w, exec, outcome);
    AdvancedPc(w.execs[exec].sched, w.execs[exec].pc, outcome);
    hide Advance, PcOk, Spared;
    assert AllSame(w') by { assert forall s :: Same(w, s) <==> Same(w', s); hide Same; }
    SameRefused(w, w');
  }

  lemma AdvancedPc(s: Schedule, pc: Pc, outcome: Option<string>)
    requires !pc.Done? && PcOk(s, pc)
    ensures PcOk(s, Advance(s, pc, outcome))
  {
    hide Refusal;
  }

  lemma AdvancedOpen(w: World, exec: int, outcome: Option<string>)
    requires AllOpen(w) && exec in w.execs && !w.execs[exec].pc.Done?
    ensures AllOpen(Advanced(w, exec, outcome))
  {
    hide Advance;
    var w' := Advanced(w, exec, outcome);
    assert forall s :: Open(w, s) <==> Open(w', s);
    hide Open;
  }

  /** When a schedule sends its last report, it is the only agent its untainted task ever had. */
  lemma LastAgent(w: World, exec: int, outcome: Option<string>)
    requires Inv(w) && exec in w.execs && w.execs[exec].pc.SendFinal?
    ensures var t := w.execs[exec].sched.taskId;
            t != 0 && t !in w.tainted ==> NoAgent(Advanced(w, exec, outcome), t)
  {
    hide Inv, Valid, TablesOk, Sound, Open, Refusal, NoAgent, BookOk;
    InvParts(w);
    var t := w.execs[exec].sched.taskId;
    if t != 0 && t !in w.tainted {
      SoleAgent(w, exec);
      AdvancedAgent(w, exec, outcome);
    }
  }

  /** An execution whose last report is out is no agent of its task any more. */
  lemma AdvancedAgent(w: World, exec: int, outcome: Option<string>)
    requires exec in w.execs && w.execs[exec].pc.SendFinal?
    requires NoAgent(w.(execs := w.execs - {exec}), w.execs[exec].sched.taskId)
    ensures NoAgent(Advanced(w, exec, outcome), w.execs[exec].sched.taskId)
  {
    hide Refusal;
    var w', others := Advanced(w, exec, outcome), w.(execs := w.execs - {exec});
    forall e | e in w'.execs && w'.execs[e].pc.Left() > 1
      ensures e in others.execs && w'.execs[e] == others.execs[e]
    {
    }
  }

  lemma SoleAgent(w: World, exec: int)
    requires SchedulesOk(w.db) && RunnerOk(w) && AllSound(w) && FiredOk(w) && exec in w.execs
    requires w.execs[exec].sched.taskId != 0 && w.execs[exec].sched.taskId !in w.tainted
    ensures w.execs[exec].sched.Once()
    ensures NoAgent(w.(execs := w.execs - {exec}), w.execs[exec].sched.taskId)
  {
    hide BookOk, Sound;
    var c := w.execs[exec].sched;
    assert Sound(w, c);
    forall s | Sound(w, s) && s.taskId == c.taskId
      ensures s.id == c.id && s.Once()
    {
      SoundHome(w, s);
      SoundHome(w, c);
    }
    SoundHome(w, c);
    assert c.id in w.fired && c.id in w.started;
  }

  lemma SoundHome(w: World, s: Schedule)
    requires Sound(w, s) && s.taskId != 0 && s.taskId !in w.tainted
    ensures s.taskId in w.home && w.home[s.taskId] == s.id && s.Once()
  {
  }

  lemma ProceedInv(w: World, exec: int, outcome: Option<string>, delivered: bool, now: int)
    requires Inv(w) && exec in w.execs && !w.execs[exec].pc.Done?
    ensures Inv(ProceedStep(w, exec, outcome, delivered, now))
  {
    hide Inv, Valid, Advance, Refusal, TablesOk;
    InvParts(w);
    var c, pc := w.execs[exec].sched, w.execs[exec].pc;
    var w1 := Advanced(w, exec, outcome);
    AdvancedInv(w, exec, outcome);
    assert Sound(w, c) && Same(w, c) && PcOk(c, pc);
    assert Sound(w1, c) && Same(w1, c);
    if pc.SendFinal? {
      LastAgent(w, exec, outcome);
    }
    DeliverInv(w1, c, pc, now);
  }

  /** A schedule that is not refused is the only stored one of its untainted task. */
  lemma RunsUnrefused(w: World, c: Schedule)
    requires SchedulesOk(w.db) && AllSound(w) && Sound(w, c) && Same(w, c) && Refusal(c).None?
    requires c.taskId != 0 && c.taskId !in w.tainted
    ensures NoneRefused(w, c.taskId)
  {
    hide Refusal;
    forall id | id in w.db.schedules && w.db.schedules[id].taskId == c.taskId
      ensures w.db.schedules[id] == c
    {
      assert Sound(w, w.db.schedules[id]);
    }
  }

  lemma DeliverInv(w: World, c: Schedule, pc: Pc, now: int)
    requires Inv(w) && Sound(w, c) && Same(w, c) && PcOk(c, pc)
    requires pc.SendFinal? && c.taskId != 0 && c.taskId !in w.tainted ==> NoAgent(w, c.taskId)
    ensures Inv(w.(db := Deliver(w.db, Emit(c, pc), now)))
  {
    hide Inv, Valid, NoAgent, UpdateTask, RemoveSchedule, NoneRefused, Refusal, Same, Sound;
    InvParts(w);
    var t := c.taskId;
    match pc
    case SendRunning =>
      if t != 0 && t in w.db.tasks { DeliverReport(w, c, pc, Running, None, now); }
    case SendFinal(error) =>
      if t != 0 && t in w.db.tasks { DeliverReport(w, c, pc, FinalStatus(error), error, now); }
    case Deleting =>
      DeleteScheduleInv(w, c.id);
    case _ =>
  }

  lemma DeliverReport(w: World, c: Schedule, pc: Pc, status: Status, error: Option<string>, now: int)
    requires Inv(w) && Sound(w, c) && Same(w, c) && PcOk(c, pc) && c.taskId != 0 && c.taskId in w.db.tasks
    requires (pc.SendRunning? && status == Running) || (pc.SendFinal? && status == FinalStatus(pc.error))
    requires pc.SendFinal? && c.taskId !in w.tainted ==> NoAgent(w, c.taskId)
    ensures Inv(w.(db := UpdateTask(w.db, c.taskId, status, error, now)))
  {
    hide Inv, Valid, TablesOk, NoAgent, UpdateTask, NoneRefused, Refusal, Same, Sound;
    InvParts(w);
    if c.taskId !in w.tainted {
      SoundHome(w, c);
      if !status.Failed? {
        RunsUnrefused(w, c);
      }
    }
    ReportInv(w, c.taskId, status, error, now);
  }

  // ---------------------------------------------------------------------------
  // One step
  // ---------------------------------------------------------------------------

  /** The protocol invariant is inductive: it holds at the start and every enabled step keeps it. */
  lemma InitInv()
    ensures Inv(INIT)
  {
  }

  lemma StepInv(w: World, step: Step)
    requires Inv(w) && Enabled(w, step)
    ensures Inv(Apply(w, step))
  {
    hide Inv;
    match step
    case CreateTasks(plans) => CreateTasksInv(w, plans);
    case CreateSchedules(run) => CreateSchedulesInv(w, run);
    case AddUserSchedule(commandId, line, cron, taskId) => UserScheduleInv(w, commandId, line, cron, taskId);
    case DeleteSchedule(id) => DeleteScheduleInv(w, id);
    case ForeignReport(t, status, error, now) => ForeignReportInv(w, t, status, error, now);
    case Poll(page) => PollInv(w, page);
    case Entry(accepted) => EntryInv(w, accepted);
    case EndPass => EndPassInv(w);
    case Fire(job) => FireInv(w, job);
    case Proceed(exec, outcome, delivered, now) => ProceedInv(w, exec, outcome, delivered, now);
    case Restart => RestartInv(w);
  }

  /** No row of a run or of a task is lost, and an untainted task never moves back. */
  predicate Forward(w: World, w': World) {
    && w.tainted <= w'.tainted
    && (forall t | t in w.db.tasks ::
          t in w'.db.tasks && (t !in w'.tainted ==> NoLower(w.db.tasks[t].status, w'.db.tasks[t].status)))
    && (forall r | r in w.db.runs :: r in w'.db.runs && w'.db.runs[r].tasks == w.db.runs[r].tasks)
  }

  lemma ForwardUpdate(w: World, w': World, t: int)
    requires Updated(w.db, w'.db, t) && w.tainted <= w'.tainted
    requires t in w.db.tasks && t !in w'.tainted ==> NoLower(w.db.tasks[t].status, w'.db.tasks[t].status)
    ensures Forward(w, w')
  {
  }

  lemma ProceedForward(w: World, exec: int, outcome: Option<string>, delivered: bool, now: int)
    requires Inv(w) && exec in w.execs && !w.execs[exec].pc.Done?
    ensures Forward(w, ProceedStep(w, exec, outcome, delivered, now))
  {
    hide Inv, Valid, Updated, Deliver, Forward, Refusal, Advance;
    InvParts(w);
    var c, pc := w.execs[exec].sched, w.execs[exec].pc;
    var w' := ProceedStep(w, exec, outcome, delivered, now);
    ProceedOpen(w, exec);
    if delivered {
      DeliverForward(w.db, c, pc, now);
      DeliveredNoLower(w, c, pc, w'.db);
      TaskIdPositive(w.db);
      ForwardUpdate(w, w', c.taskId);
    } else {
      UpdatedNothing(w.db);
      TaskIdPositive(w.db);
      ForwardUpdate(w, w', 0);
    }
  }

  lemma TaskIdPositive(db: Db)
    requires TasksOk(db)
    ensures 0 !in db.tasks
  {
  }

  lemma DeliveredNoLower(w: World, c: Schedule, pc: Pc, db': Db)
    requires PcOk(c, pc) && (pc.Left() > 1 ==> Open(w, c)) && TasksOk(w.db)
    requires c.taskId in w.db.tasks ==>
               && c.taskId in db'.tasks
               && (|| db'.tasks[c.taskId].status == w.db.tasks[c.taskId].status
                   || (pc.SendRunning? && db'.tasks[c.taskId].status.Running?)
                   || (pc.SendFinal? && db'.tasks[c.taskId].status == FinalStatus(pc.error)))
    ensures c.taskId in w.db.tasks && c.taskId !in w.tainted ==>
              c.taskId in db'.tasks && NoLower(w.db.tasks[c.taskId].status, db'.tasks[c.taskId].status)
  {
    hide Refusal;
    TaskIdPositive(w.db);
  }

  lemma UpdatedNothing(db: Db)
    ensures Updated(db, db, 0)
  {
  }

  lemma ProceedOpen(w: World, exec: int)
    requires AllOpen(w) && RefusedOk(w) && exec in w.execs
    ensures w.execs[exec].pc.Left() > 1 ==> Open(w, w.execs[exec].sched)
    ensures PcOk(w.execs[exec].sched, w.execs[exec].pc)
  {
    hide Refusal;
  }

  lemma DeliverForward(db: Db, c: Schedule, pc: Pc, now: int)
    requires Valid(db)
    ensures var db', t := Deliver(db, Emit(c, pc), now), c.taskId;
            && Updated(db, db', t)
            && (t in db.tasks ==>
                  || db'.tasks[t].status == db.tasks[t].status
                  || (pc.SendRunning? && db'.tasks[t].status.Running?)
                  || (pc.SendFinal? && db'.tasks[t].status == FinalStatus(pc.error)))
  {
    var t := c.taskId;
    match pc
    case SendRunning =>
      if t != 0 && t in db.tasks { UpdateTaskUpdated(db, t, Running, None, now); }
    case SendFinal(error) =>
      if t != 0 && t in db.tasks { UpdateTaskUpdated(db, t, FinalStatus(error), error, now); }
    case _ =>
  }

  lemma SameRowsForward(w: World, w': World)
    requires w'.db.tasks == w.db.tasks && w'.db.runs == w.db.runs && w.tainted <= w'.tainted
    ensures Forward(w, w')
  {
  }

  lemma EnlargedForward(w: World, w': World, run: int)
    requires Enlarged(w, w', run)
    ensures Forward(w, w')
  {
  }

  lemma StepForward(w: World, step: Step)
    requires Inv(w) && Enabled(w, step)
    ensures Forward(w, Apply(w, step))
  {
    hide Inv, Valid, Forward, AddRun, UpdateTask, ProceedStep;
    InvParts(w);
    if step.CreateTasks? {
      CreateTasksForward(w, step.plans);
    } else if step.ForeignReport? {
      ForeignReportForward(w, step.taskId, step.status, step.error, step.now);
    } else if step.Proceed? {
      ProceedForward(w, step.exec, step.outcome, step.delivered, step.now);
    } else {
      BookkeepingForward(w, step);
    }
  }

  lemma CreateTasksForward(w: World, plans: seq<Recommendation>)
    requires Valid(w.db) && plans != []
    ensures Forward(w, CreateTasksStep(w, plans))
  {
    hide Valid, Forward, CreateTasksStep, Enlarged;
    CreateTasksEnlarged(w, plans);
    EnlargedForward(w, CreateTasksStep(w, plans), w.db.nextRun);
  }

  lemma ForeignReportForward(w: World, t: int, status: Status, error: Option<string>, now: int)
    requires Valid(w.db) && t in w.db.tasks
    ensures Forward(w, ForeignReportStep(w, t, status, error, now))
  {
    hide Valid, Forward, UpdateTask, Updated;
    UpdateTaskUpdated(w.db, t, status, error, now);
    ForwardUpdate(w, ForeignReportStep(w, t, status, error, now), t);
  }

  lemma BookkeepingForward(w: World, step: Step)
    requires Valid(w.db) && Enabled(w, step)
    requires !step.CreateTasks? && !step.ForeignReport? && !step.Proceed?
    ensures Forward(w, Apply(w, step))
  {
    hide Valid, Forward, Admit, DropStale, HomeOf, Refusal, Insert, OnceRows;
    SameRowsForward(w, Apply(w, step));
  }
}
