/**
 * Progress of scan execution: from which states a task, or a whole run, can still come to an end if from then on
 * everything succeeds. A state from which it cannot is one in which nobody attends to the task any more.
 */
module ScanProgress {
  import opened Collections
  import opened Text
  import opened ScanStatus
  import opened ScanApi
  import opened Runner
  import opened ScanProtocol
  import opened ScanInvariant
  import opened ScanTablesInvariant
  import opened ScanSafety
  import opened ScanRuns
  import opened ScanWindow
  import opened ScanLost

  // ---------------------------------------------------------------------------
  // Continuations
  // ---------------------------------------------------------------------------

  /** Nobody outside the protocol reports on scan tasks or stores schedules for them; the runner may restart or not. */
  predicate Quiet(step: Step, restarts: bool) {
    Undisturbed(step) || (restarts && step.Restart?)
  }

  predicate Leads(w: World, ws: seq<World>, steps: seq<Step>, w': World, restarts: bool) {
    && Chain(ws, steps) && ws[0] == w && ws[|steps|] == w'
    && forall i | 0 <= i < |steps| :: Quiet(steps[i], restarts)
  }

  ghost predicate Reaches(w: World, w': World, restarts: bool) {
    exists ws, steps :: Leads(w, ws, steps, w', restarts)
  }

  lemma ReachesItself(w: World, restarts: bool)
    ensures Reaches(w, w, restarts)
  {
    assert Leads(w, [w], [], w, restarts);
  }

  lemma ReachesNext(w: World, step: Step, w': World, restarts: bool)
    requires Next(w, step, w') && Quiet(step, restarts)
    ensures Reaches(w, w', restarts)
  {
    hide Next;
    assert Leads(w, [w, w'], [step], w', restarts);
  }

  lemma ReachesOn(a: World, b: World, c: World, restarts: bool)
    requires Reaches(a, b, restarts) && Reaches(b, c, restarts)
    ensures Reaches(a, c, restarts)
  {
    hide Next, Quiet;
    var us, first :| Leads(a, us, first, b, restarts);
    var vs, then' :| Leads(b, vs, then', c, restarts);
    var ws, steps := us[..|first|] + vs, first + then';
    forall i | 0 <= i < |steps|
      ensures Next(ws[i], steps[i], ws[i + 1]) && Quiet(steps[i], restarts)
    {
      if i < |first| {
        assert Next(us[i], first[i], us[i + 1]);
      } else {
        assert Next(vs[i - |first|], then'[i - |first|], vs[i - |first| + 1]);
      }
    }
    assert Leads(a, ws, steps, c, restarts);
  }

  lemma ReachesAnyway(w: World, w': World, restarts: bool)
    requires Reaches(w, w', false)
    ensures Reaches(w, w', restarts)
  {
    hide Chain;
    var ws, steps :| Leads(w, ws, steps, w', false);
    assert Leads(w, ws, steps, w', restarts);
  }

  // ---------------------------------------------------------------------------
  // Who attends to a task
  // ---------------------------------------------------------------------------

  predicate Over(w: World, t: int) {
    t in w.db.tasks && w.db.tasks[t].status.Terminal()
  }

  predicate Executed(w: World, t: int) {
    exists e :: e in w.execs && w.execs[e].pc.Left() > 1 && w.execs[e].sched.taskId == t
  }

  predicate Registered(w: World, t: int) {
    exists j :: j in w.book.jobs && w.book.jobs[j].taskId == t
  }

  predicate Pending(w: World, t: int) {
    && w.pass.Reconciling?
    && exists i :: 0 <= i < |w.pass.todo| && w.pass.todo[i].taskId == t && w.pass.todo[i].id !in w.started
  }

  predicate Stored(w: World, t: int) {
    exists s :: s in w.db.schedules && w.db.schedules[s].taskId == t && s !in w.started
  }

  predicate Attended(w: World, t: int) {
    Executed(w, t) || Registered(w, t) || Pending(w, t) || Stored(w, t)
  }

  lemma AttendedOrNot(w: World, t: int)
    requires t in w.db.tasks && t in w.home
    ensures Attended(w, t) <==> !Unattended(w, t)
  {
  }

  /** A task the protocol alone is in charge of, over or attended to. */
  predicate Ready(w: World, t: int) {
    t in w.db.tasks && t in w.home && t !in w.tainted && (Over(w, t) || Attended(w, t))
  }

  predicate AllReady(w: World, ts: set<int>) {
    forall t | t in ts :: Ready(w, t)
  }

  /** Entries of one list with the same id are the same row. */
  predicate PassOk(w: World) {
    w.pass.Reconciling? ==>
      forall i, j | 0 <= i < |w.pass.todo| && 0 <= j < |w.pass.todo| && w.pass.todo[i].id == w.pass.todo[j].id ::
        w.pass.todo[i] == w.pass.todo[j]
  }

  predicate Good(w: World) {
    Inv(w) && PassOk(w)
  }

  lemma StepPassOk(w: World, step: Step)
    requires Valid(w.db) && PassOk(w) && Enabled(w, step)
    ensures PassOk(Apply(w, step))
  {
    hide Valid, UpdateTask, AddRun, AddSchedules, AddSchedule, HomeOf, Deliver, DropStale, Admit, Advance, AtRisk;
  }

  lemma StepGood(w: World, step: Step)
    requires Good(w) && Enabled(w, step)
    ensures Good(Apply(w, step)) && Forward(w, Apply(w, step)) && RowsKept(w, Apply(w, step))
  {
    hide Inv, Forward, RowsKept, Apply, PassOk, Valid, TablesOk;
    InvParts(w);
    StepInv(w, step);
    StepForward(w, step);
    StepRowsKept(w, step);
    StepPassOk(w, step);
  }

  lemma InitPassOk()
    ensures PassOk(INIT)
  {
  }

  lemma {:induction false} BehaviourGood(ws: seq<World>, steps: seq<Step>, i: nat)
    requires Behaviour(ws, steps) && i <= |steps|
    ensures Good(ws[i])
  {
    hide Inv, Forward, RowsKept, Apply, Valid, Enabled, PassOk;
    if i == 0 {
      InitInv();
      InitPassOk();
    } else {
      BehaviourGood(ws, steps, i - 1);
      assert Next(ws[i - 1], steps[i - 1], ws[i]);
      StepGood(ws[i - 1], steps[i - 1]);
    }
  }

  // ---------------------------------------------------------------------------
  // One step on the way
  // ---------------------------------------------------------------------------

  /** Some steps later every task of the set is still over or attended to, and what was over is over. */
  ghost predicate Better(w: World, w': World, ts: set<int>) {
    Good(w') && Reaches(w, w', false) && AllReady(w', ts) && forall t | t in ts && Over(w, t) :: Over(w', t)
  }

  lemma BetterOn(a: World, b: World, c: World, ts: set<int>)
    requires Better(a, b, ts) && Better(b, c, ts)
    ensures Better(a, c, ts)
  {
    hide Good, Reaches, Over, AllReady;
    ReachesOn(a, b, c, false);
  }

  lemma StillReady(w: World, w': World, t: int)
    requires TasksOk(w.db) && Forward(w, w') && RowsKept(w, w') && w'.tainted <= w.tainted + {0}
    requires Ready(w, t) && (Attended(w, t) ==> Attended(w', t) || Over(w', t))
    ensures Ready(w', t) && (Over(w, t) ==> Over(w', t))
  {
    hide Attended;
    TaskIdPositive(w.db);
    assert NoLower(w.db.tasks[t].status, w'.db.tasks[t].status);
  }

  lemma TakeStep(w: World, step: Step, ts: set<int>) returns (w': World)
    requires Good(w) && Enabled(w, step) && Undisturbed(step) && AllReady(w, ts)
    requires forall t | t in ts && Attended(w, t) :: Attended(Apply(w, step), t) || Over(Apply(w, step), t)
    ensures w' == Apply(w, step) && Better(w, w', ts)
  {
    hide Inv, Valid, TablesOk, TasksOk, Forward, RowsKept, Attended, Over, Ready, PassOk, Apply, Enabled, Undisturbed;
    InvParts(w);
    w' := Apply(w, step);
    StepGood(w, step);
    UndisturbedStep(w, step);
    forall t | t in ts
      ensures Ready(w', t) && (Over(w, t) ==> Over(w', t))
    {
      StillReady(w, w', t);
    }
    ReachesNext(w, step, w', false);
  }

  // ---------------------------------------------------------------------------
  // Executions
  // ---------------------------------------------------------------------------

  lemma ProceedAttended(w: World, e: int, t: int)
    requires Valid(w.db) && e in w.execs && w.execs[e].pc.Left() > 1 && Attended(w, t)
    ensures var w' := ProceedStep(w, e, None, true, 0);
            Attended(w', t) || (w.execs[e].sched.taskId == t && w.execs[e].pc.SendFinal?)
  {
    hide Valid, Refusal, UpdateTask, Unattended;
    var w' := ProceedStep(w, e, None, true, 0);
    assert w'.db.schedules == w.db.schedules by { DeliverSchedules(w.db, w.execs[e].sched, w.execs[e].pc); }
    if Executed(w, t) {
      var x :| x in w.execs && w.execs[x].pc.Left() > 1 && w.execs[x].sched.taskId == t;
      if x != e || !w.execs[e].pc.SendFinal? {
        assert x in w'.execs && w'.execs[x].pc.Left() > 1 && w'.execs[x].sched.taskId == t;
      }
    } else if Stored(w, t) {
      assert Stored(w', t);
    }
  }

  lemma DeliverSchedules(db: Db, c: Schedule, pc: Pc)
    requires Valid(db) && pc.Left() > 1
    ensures Deliver(db, Emit(c, pc), 0).schedules == db.schedules
  {
    hide Valid, Refusal;
  }

  lemma LastReport(w: World, e: int)
    requires Valid(w.db) && e in w.execs && w.execs[e].pc.SendFinal?
    requires w.execs[e].sched.taskId in w.db.tasks && w.execs[e].sched.taskId != 0
    ensures Over(ProceedStep(w, e, None, true, 0), w.execs[e].sched.taskId)
  {
    hide Refusal;
    hide Valid;
    UpdateTaskUpdated(w.db, w.execs[e].sched.taskId, FinalStatus(w.execs[e].pc.error), w.execs[e].pc.error, 0);
  }

  lemma ProceedsOn(w: World, e: int)
    requires Valid(w.db) && e in w.execs && w.execs[e].pc.Left() > 2
    ensures var w' := ProceedStep(w, e, None, true, 0);
            && e in w'.execs && w'.execs[e].sched == w.execs[e].sched
            && 1 < w'.execs[e].pc.Left() < w.execs[e].pc.Left()
  {
    hide Valid, Refusal, Deliver;
  }

  /** An execution that goes through ends its task. */
  lemma {:induction false} FinishExecution(w: World, e: int, ts: set<int>) returns (w': World)
    requires Good(w) && AllReady(w, ts) && e in w.execs && w.execs[e].pc.Left() > 1 && w.execs[e].sched.taskId in ts
    ensures Better(w, w', ts) && Over(w', w.execs[e].sched.taskId)
    decreases w.execs[e].pc.Left()
  {
    hide Inv, Valid, TablesOk, Attended, Over, Better, PassOk, ProceedStep;
    InvParts(w);
    TaskIdPositive(w.db);
    var t := w.execs[e].sched.taskId;
    assert Ready(w, t);
    var last := w.execs[e].pc.SendFinal?;
    if last {
      LastReport(w, e);
    }
    forall u | u in ts && Attended(w, u)
      ensures var w1 := ProceedStep(w, e, None, true, 0); Attended(w1, u) || Over(w1, u)
    {
      ProceedAttended(w, e, u);
    }
    w' := TakeStep(w, Proceed(e, None, true, 0), ts);
    if !last {
      ProceedsOn(w, e);
      var w1 := w';
      assert Better(w, w1, ts);
      BetterParts(w, w1, ts);
      w' := FinishExecution(w1, e, ts);
      BetterOn(w, w1, w', ts);
    }
  }

  lemma BetterParts(w: World, w': World, ts: set<int>)
    requires Better(w, w', ts)
    ensures Good(w') && AllReady(w', ts)
  {
  }

  // ---------------------------------------------------------------------------
  // Jobs and lists
  // ---------------------------------------------------------------------------

  lemma FireAttended(w: World, job: int, t: int)
    requires job in w.book.jobs && w.nextExec !in w.execs && Attended(w, t)
    ensures Attended(FireStep(w, job), t)
  {
    var w' := FireStep(w, job);
    if Executed(w, t) {
      var e :| e in w.execs && w.execs[e].pc.Left() > 1 && w.execs[e].sched.taskId == t;
      assert w'.execs[e] == w.execs[e];
    } else if Registered(w, t) {
      var j :| j in w.book.jobs && w.book.jobs[j].taskId == t;
      if j == job {
        assert w'.execs[w.nextExec] == Exec(w.book.jobs[job], Begin);
      } else {
        assert w'.book.jobs[j] == w.book.jobs[j];
      }
    } else if Pending(w, t) {
      assert Pending(w', t);
    } else {
      assert Stored(w', t);
    }
  }

  /** A job that is run ends its task. */
  lemma FinishJob(w: World, job: int, ts: set<int>) returns (w': World)
    requires Good(w) && AllReady(w, ts) && job in w.book.jobs && w.book.jobs[job].taskId in ts
    ensures Better(w, w', ts) && Over(w', w.book.jobs[job].taskId)
  {
    hide Inv, Valid, TablesOk, Attended, Over, PassOk, FireStep, Better;
    InvParts(w);
    NextExecIsNew(w);
    forall u | u in ts && Attended(w, u)
      ensures Attended(FireStep(w, job), u)
    {
      FireAttended(w, job, u);
    }
    var w1 := TakeStep(w, Fire(job), ts);
    BetterParts(w, w1, ts);
    FireExec(w, job);
    w' := FinishExecution(w1, w.nextExec, ts);
    BetterOn(w, w1, w', ts);
  }

  lemma NextExecIsNew(w: World)
    requires RunnerOk(w)
    ensures w.nextExec !in w.execs
  {
  }

  lemma FireExec(w: World, job: int)
    requires job in w.book.jobs
    ensures var w' := FireStep(w, job); w.nextExec in w'.execs && w'.execs[w.nextExec] == Exec(w.book.jobs[job], Begin)
  {
  }

  /** The head of the list gets its job, and nobody else loses anything. */
  lemma EntryAttended(w: World, t: int)
    requires RunnerOk(w) && RefusedOk(w) && SchedulesOk(w.db) && PassOk(w) && Attended(w, t)
    requires w.pass.Reconciling? && w.pass.todo != []
    ensures Attended(EntryStep(w, true), t)
    ensures Executed(w, t) || Registered(w, t) || Pending(w, t) ==>
              var w' := EntryStep(w, true); Executed(w', t) || Registered(w', t) || Pending(w', t)
  {
    hide PcOk, Spared;
    var head, w' := w.pass.todo[0], EntryStep(w, true);
    if head.taskId == t && head.id !in w.started {
      assert w'.book.jobs[w.book.nextJob] == head;
      assert Registered(w', t);
    } else if Executed(w, t) {
      assert Executed(w', t);
    } else if Registered(w, t) {
      var j :| j in w.book.jobs && w.book.jobs[j].taskId == t;
      assert w'.book.jobs[j] == w.book.jobs[j];
    } else if Pending(w, t) {
      var i :| 0 <= i < |w.pass.todo| && w.pass.todo[i].taskId == t && w.pass.todo[i].id !in w.started;
      assert w.pass.todo[i].id != head.id;
      assert w'.pass.todo[i - 1] == w.pass.todo[i];
      assert Pending(w', t);
    } else {
      var s :| s in w.db.schedules && w.db.schedules[s].taskId == t && s !in w.started;
      assert Same(w, head);
      assert s !in w'.started;
      assert Stored(w', t);
    }
  }

  /** Ending a pass drops jobs, never a task that is only stored. */
  lemma EndPassAttended(w: World, t: int)
    requires w.pass.Reconciling? && w.pass.todo == [] && Attended(w, t) && !Registered(w, t)
    ensures Attended(EndPassStep(w), t)
  {
    hide DropStale;
    var w' := EndPassStep(w);
    if Executed(w, t) {
      assert Executed(w', t);
    } else {
      assert Stored(w', t);
    }
  }

  lemma PollAttended(w: World, page: seq<Schedule>, t: int)
    requires SchedulesOk(w.db) && w.pass.Idle? && Snapshot(page, w.db.schedules) && Attended(w, t)
    ensures Attended(PollStep(w, page), t)
    ensures Stored(w, t) ==> Pending(PollStep(w, page), t)
  {
    var w' := PollStep(w, page);
    if Stored(w, t) {
      var s :| s in w.db.schedules && w.db.schedules[s].taskId == t && s !in w.started;
      var i :| 0 <= i < |page| && page[i] == w.db.schedules[s];
      assert w'.pass.todo[i].id == s;
    } else if Executed(w, t) {
      assert Executed(w', t);
    } else {
      assert Registered(w', t);
    }
  }

  // ---------------------------------------------------------------------------
  // Working off
  // ---------------------------------------------------------------------------

  function Left(w: World, ts: set<int>): set<int> {
    set t | t in ts && !Over(w, t)
  }

  predicate Underway(w: World, t: int) {
    Executed(w, t) || Registered(w, t) || Pending(w, t)
  }

  /** How far the next poll is away: none is needed, it can be made at once, or a pass has to be ended first. */
  ghost function Rank(w: World, ts: set<int>): nat {
    if exists t :: t in Left(w, ts) && Underway(w, t) then 0 else if w.pass.Idle? then 1 else 2
  }

  function Listing(w: World): nat {
    if w.pass.Idle? then 0 else |w.pass.todo|
  }

  ghost predicate Closer(w: World, w': World, ts: set<int>) {
    || Left(w', ts) < Left(w, ts)
    || (Left(w', ts) <= Left(w, ts)
        && (Rank(w', ts) < Rank(w, ts) || (Rank(w', ts) == Rank(w, ts) && Listing(w') < Listing(w))))
  }

  lemma FewerLeft(w: World, w': World, ts: set<int>)
    requires Better(w, w', ts)
    ensures Left(w', ts) <= Left(w, ts)
    ensures forall t | t in Left(w, ts) && Over(w', t) :: Left(w', ts) < Left(w, ts)
  {
    hide Good, Reaches, Over;
    forall t | t in Left(w, ts) && Over(w', t)
      ensures Left(w', ts) < Left(w, ts)
    {
      assert t !in Left(w', ts);
    }
  }

  /** A task that is executed or has a job can be ended first. */
  lemma FinishOne(w: World, t: int, ts: set<int>) returns (w': World)
    requires Good(w) && AllReady(w, ts) && t in Left(w, ts) && (Executed(w, t) || Registered(w, t))
    ensures Better(w, w', ts) && Closer(w, w', ts)
  {
    hide Good, Better, AllReady, Over, Rank;
    if Executed(w, t) {
      var e :| e in w.execs && w.execs[e].pc.Left() > 1 && w.execs[e].sched.taskId == t;
      w' := FinishExecution(w, e, ts);
    } else {
      var j :| j in w.book.jobs && w.book.jobs[j].taskId == t;
      w' := FinishJob(w, j, ts);
    }
    FewerLeft(w, w', ts);
  }

  lemma LookAtEntry(w: World, ts: set<int>) returns (w': World)
    requires Good(w) && AllReady(w, ts) && w.pass.Reconciling? && w.pass.todo != []
    ensures Better(w, w', ts) && Closer(w, w', ts)
  {
    hide Inv, Valid, TablesOk, RunnerOk, RefusedOk, Attended, Executed, Registered, Pending, Over, Better, PassOk;
    InvParts(w);
    forall u | u in ts && Attended(w, u)
      ensures Attended(EntryStep(w, true), u)
    {
      EntryAttended(w, u);
    }
    w' := TakeStep(w, Entry(true), ts);
    FewerLeft(w, w', ts);
    assert w'.db == w.db;
    assert Left(w', ts) == Left(w, ts) by { SameLeft(w, w', ts); }
    forall u | u in Left(w, ts) && Underway(w, u)
      ensures Underway(w', u)
    {
      UnderwayIsAttended(w, u);
      EntryAttended(w, u);
    }
  }

  lemma UnderwayIsAttended(w: World, t: int)
    requires Underway(w, t)
    ensures Attended(w, t)
  {
  }

  lemma SameLeft(w: World, w': World, ts: set<int>)
    requires w'.db == w.db
    ensures Left(w', ts) == Left(w, ts)
  {
  }

  lemma LeavePass(w: World, ts: set<int>) returns (w': World)
    requires Good(w) && AllReady(w, Left(w, ts)) && AllReady(w, ts) && w.pass.Reconciling? && w.pass.todo == []
    requires forall t | t in Left(w, ts) :: !Underway(w, t)
    ensures Better(w, w', ts) && Closer(w, w', ts)
  {
    hide Inv, Valid, TablesOk, Attended, Executed, Registered, Pending, Better, PassOk;
    InvParts(w);
    forall u | u in ts && Attended(w, u)
      ensures Attended(EndPassStep(w), u) || Over(EndPassStep(w), u)
    {
      if u in Left(w, ts) {
        assert !Underway(w, u);
        EndPassAttended(w, u);
      }
    }
    w' := TakeStep(w, EndPass, ts);
    SameLeft(w, w', ts);
  }

  lemma AskAgain(w: World, ts: set<int>) returns (w': World)
    requires Good(w) && AllReady(w, ts) && w.pass.Idle? && Left(w, ts) != {}
    requires forall t | t in Left(w, ts) :: !Underway(w, t)
    ensures Better(w, w', ts) && Closer(w, w', ts)
  {
    hide Inv, Valid, TablesOk, Executed, Registered, Pending, Stored, Better, PassOk, Snapshot;
    InvParts(w);
    HasElement(Left(w, ts));
    var t :| t in Left(w, ts);
    assert Ready(w, t) && Stored(w, t);
    var page := ListOf(w.db.schedules, w.db.schedules.Keys);
    assert Snapshot(page, w.db.schedules) by { FullList(page, w.db.schedules); }
    forall u | u in ts && Attended(w, u)
      ensures Attended(PollStep(w, page), u)
    {
      PollAttended(w, page, u);
    }
    w' := TakeStep(w, Poll(page), ts);
    SameLeft(w, w', ts);
    PollAttended(w, page, t);
    assert Underway(w', t);
  }

  lemma FullList(page: seq<Schedule>, schedules: map<int, Schedule>)
    requires forall i | 0 <= i < |page| :: page[i].id in schedules && schedules[page[i].id] == page[i]
    requires forall id | id in schedules.Keys :: schedules[id] in page
    ensures Snapshot(page, schedules)
  {
  }

  lemma GetCloser(w: World, ts: set<int>) returns (w': World)
    requires Good(w) && AllReady(w, ts) && Left(w, ts) != {}
    ensures Better(w, w', ts) && Closer(w, w', ts)
  {
    hide Good, Better, Closer, AllReady, Over, Executed, Registered;
    if t :| t in Left(w, ts) && (Executed(w, t) || Registered(w, t)) {
      w' := FinishOne(w, t, ts);
    } else if w.pass.Reconciling? && w.pass.todo != [] {
      w' := LookAtEntry(w, ts);
    } else if w.pass.Reconciling? {
      LeftReady(w, ts);
      w' := LeavePass(w, ts);
    } else {
      w' := AskAgain(w, ts);
    }
  }

  lemma LeftReady(w: World, ts: set<int>)
    requires AllReady(w, ts)
    ensures AllReady(w, Left(w, ts))
  {
  }

  /** If from now on everything succeeds, all these tasks come to an end together. */
  lemma {:induction false} WorkOff(w: World, ts: set<int>) returns (w': World)
    requires Good(w) && AllReady(w, ts)
    ensures Better(w, w', ts) && forall t | t in ts :: Over(w', t)
    decreases Left(w, ts), Rank(w, ts), Listing(w)
  {
    hide Good, Better, AllReady, Over, Rank, Listing, Reaches;
    if Left(w, ts) == {} {
      w' := w;
      NothingLeft(w, ts);
    } else {
      var w1 := GetCloser(w, ts);
      BetterParts(w, w1, ts);
      w' := WorkOff(w1, ts);
      BetterOn(w, w1, w', ts);
    }
  }

  lemma NothingLeft(w: World, ts: set<int>)
    requires Good(w) && AllReady(w, ts) && Left(w, ts) == {}
    ensures Better(w, w, ts) && forall t | t in ts :: Over(w, t)
  {
    hide Good, Ready, Over;
    ReachesItself(w, false);
    forall t | t in ts
      ensures Over(w, t)
    {
      assert t !in Left(w, ts);
    }
  }

  // ---------------------------------------------------------------------------
  // Nobody is left
  // ---------------------------------------------------------------------------

  lemma StaysUntainted(w: World, step: Step, restarts: bool, t: int)
    requires Valid(w.db) && Enabled(w, step) && Quiet(step, restarts)
    requires t in w.db.tasks && t !in w.tainted && !Over(w, t)
    ensures t !in Apply(w, step).tainted
  {
    hide Valid, TasksOk, AtRisk;
    if step.Restart? {
      RestartUntainted(w, t);
    } else {
      ValidParts(w.db);
      TaskIdPositive(w.db);
      UndisturbedStep(w, step);
    }
  }

  lemma RestartUntainted(w: World, t: int)
    requires t in w.db.tasks && t !in w.tainted && !Over(w, t)
    ensures t !in RestartStep(w).tainted
  {
    hide Refusal;
  }

  /** A task that nobody attends to does not end, unless its schedule is still stored and the runner restarts. */
  lemma {:induction false} NeverOver(ws: seq<World>, steps: seq<Step>, restarts: bool, j: nat, t: int)
    requires Chain(ws, steps) && Inv(ws[0]) && j <= |steps|
    requires forall i | 0 <= i < |steps| :: Quiet(steps[i], restarts)
    requires Unattended(ws[0], t) && (restarts ==> Unscheduled(ws[0], t)) && t !in ws[0].tainted && !Over(ws[0], t)
    ensures Inv(ws[j]) && Unattended(ws[j], t) && (restarts ==> Unscheduled(ws[j], t))
    ensures t !in ws[j].tainted && t in ws[j].db.tasks && !Over(ws[j], t)
  {
    hide Inv, Valid, Apply, Enabled, Unscheduled;
    if j > 0 {
      NeverOver(ws, steps, restarts, j - 1, t);
      assert Next(ws[j - 1], steps[j - 1], ws[j]);
      StaysUntainted(ws[j - 1], steps[j - 1], restarts, t);
      StepInv(ws[j - 1], steps[j - 1]);
      StepStays(ws[j - 1], steps[j - 1], t);
    }
  }

  lemma ReachesNever(w: World, w': World, restarts: bool, t: int)
    requires Inv(w) && Reaches(w, w', restarts) && t !in w.tainted && t in w.db.tasks && !Over(w, t)
    requires Unattended(w, t) && (restarts ==> Unscheduled(w, t))
    ensures !Over(w', t)
  {
    hide Inv, Chain, Unattended, Unscheduled, Over, Quiet;
    var ws, steps :| Leads(w, ws, steps, w', restarts);
    NeverOver(ws, steps, restarts, |steps|, t);
  }

  // ---------------------------------------------------------------------------
  // Exactly when a task, or a run, can still come to an end
  // ---------------------------------------------------------------------------

  lemma RestartAttends(w: World, t: int) returns (w': World)
    requires Good(w) && t in w.db.tasks && t in w.home && t !in w.tainted && !Over(w, t) && !Unscheduled(w, t)
    ensures Good(w') && Ready(w', t) && Reaches(w, w', true)
  {
    hide Inv, Valid, TablesOk, Refusal, PassOk;
    InvParts(w);
    w' := RestartStep(w);
    StepGood(w, Restart);
    ReachesNext(w, Restart, w', true);
    var s :| s in w.db.schedules && w.db.schedules[s].taskId == t;
    assert s in w'.db.schedules && w'.db.schedules[s].taskId == t && s !in w'.started;
    assert Stored(w', t);
  }

  /**
   * In every run, an active task that has its own schedule and that the protocol alone is in charge of can still come
   * to an end exactly when somebody attends to it: an execution, a job, the list being looked through, or a stored
   * schedule that had no job yet. A restart to come adds the stored schedules that had one.
   */
  lemma TaskCanFinish(ws: seq<World>, steps: seq<Step>, i: nat, t: int, restarts: bool)
    requires Behaviour(ws, steps) && i <= |steps|
    requires t in ws[i].db.tasks && t in ws[i].home && t !in ws[i].tainted && !Over(ws[i], t)
    ensures (exists w' :: Reaches(ws[i], w', restarts) && Over(w', t))
       <==> !Unattended(ws[i], t) || (restarts && !Unscheduled(ws[i], t))
  {
    hide Next, Reaches, Unattended, Unscheduled, Inv, PassOk, Attended, Over;
    var w := ws[i];
    BehaviourGood(ws, steps, i);
    AttendedOrNot(w, t);
    if !Unattended(w, t) {
      var w' := WorkOff(w, {t});
      ReachesAnyway(w, w', restarts);
    } else if restarts && !Unscheduled(w, t) {
      var w1 := RestartAttends(w, t);
      var w' := WorkOff(w1, {t});
      ReachesAnyway(w1, w', true);
      ReachesOn(w, w1, w', true);
    } else {
      forall w' | Reaches(w, w', restarts)
        ensures !Over(w', t)
      {
        ReachesNever(w, w', restarts, t);
      }
    }
  }

  lemma NonePartial(db: Db, ids: seq<int>, a: seq<Status>)
    requires TasksOk(db) && AllIn(ids, db.tasks) && a == StatusesOf(db.tasks, ids)
    ensures forall i | 0 <= i < |a| :: !a[i].Partial?
  {
    hide TasksOk;
    forall i | 0 <= i < |a|
      ensures !a[i].Partial?
    {
      NotPartial(db, ids[i]);
    }
  }

  lemma NotPartial(db: Db, t: int)
    requires TasksOk(db) && t in db.tasks
    ensures !db.tasks[t].status.Partial?
  {
  }

  lemma RunOver(db: Db, r: int)
    requires TasksOk(db) && RunsOk(db) && Derived(db) && r in db.runs
    ensures AllIn(db.runs[r].tasks, db.tasks)
    ensures IsScanRunActive(db.runs[r].status) <==>
            exists i | 0 <= i < |db.runs[r].tasks| :: !db.tasks[db.runs[r].tasks[i]].status.Terminal()
  {
    hide TasksOk, RecomputeStatus;
    var ids := db.runs[r].tasks;
    var a := StatusesOf(db.tasks, ids);
    NonePartial(db, ids, a);
    RecomputeStatusMeaning(Queued, a);
  }

  lemma ReachesForward(w: World, w': World)
    requires Inv(w) && Reaches(w, w', false)
    ensures Inv(w') && Forward(w, w')
  {
    hide Inv, Next, Forward, Quiet;
    var ws, steps :| Leads(w, ws, steps, w', false);
    ChainForward(ws, steps, |steps|);
  }

  lemma {:induction false} ChainForward(ws: seq<World>, steps: seq<Step>, j: nat)
    requires Chain(ws, steps) && Inv(ws[0]) && j <= |steps|
    ensures Inv(ws[j]) && Forward(ws[0], ws[j])
  {
    hide Inv, Next, Forward;
    if j == 0 {
      SameRowsForward(ws[0], ws[0]);
    } else {
      ChainForward(ws, steps, j - 1);
      NextKeeps(ws[j - 1], steps[j - 1], ws[j]);
      ForwardTransitive(ws[0], ws[j - 1], ws[j]);
    }
  }

  lemma InvDerived(w: World)
    requires Inv(w)
    ensures TasksOk(w.db) && RunsOk(w.db) && Derived(w.db)
  {
  }

  /** A run is over when all its tasks are. */
  lemma RunOverAfter(w: World, w': World, r: int)
    requires Inv(w) && Reaches(w, w', false) && r in w.db.runs
    ensures r in w'.db.runs && w'.db.runs[r].tasks == w.db.runs[r].tasks
    ensures !IsScanRunActive(w'.db.runs[r].status) <==>
            forall i | 0 <= i < |w.db.runs[r].tasks| :: Over(w', w.db.runs[r].tasks[i])
  {
    hide Inv, Reaches, Derived, TasksOk;
    ReachesForward(w, w');
    InvDerived(w');
    RunOver(w'.db, r);
  }

  /**
   * The same for a whole run: without a restart it can still come to an end exactly when each of its tasks is over or
   * attended to. So a single lost terminal report keeps a run active until then.
   */
  lemma RunCanFinish(ws: seq<World>, steps: seq<Step>, i: nat, r: int)
    requires Behaviour(ws, steps) && i <= |steps| && r in ws[i].db.runs
    requires forall k | 0 <= k < |ws[i].db.runs[r].tasks| ::
               ws[i].db.runs[r].tasks[k] in ws[i].home && ws[i].db.runs[r].tasks[k] !in ws[i].tainted
    ensures (exists w' :: Reaches(ws[i], w', false) && r in w'.db.runs && !IsScanRunActive(w'.db.runs[r].status))
       <==> forall k | 0 <= k < |ws[i].db.runs[r].tasks| ::
              var t := ws[i].db.runs[r].tasks[k]; Over(ws[i], t) || !Unattended(ws[i], t)
  {
    hide Next, Reaches, Unattended, Unscheduled, Inv, PassOk, Attended, Over, Valid, TablesOk;
    var w := ws[i];
    BehaviourGood(ws, steps, i);
    InvParts(w);
    var ids := w.db.runs[r].tasks;
    forall k | 0 <= k < |ids|
      ensures ids[k] in w.db.tasks && (Attended(w, ids[k]) <==> !Unattended(w, ids[k]))
    {
      assert RunsOk(w.db);
      AttendedOrNot(w, ids[k]);
    }
    if k :| 0 <= k < |ids| && !Over(w, ids[k]) && Unattended(w, ids[k]) {
      forall w' | Reaches(w, w', false)
        ensures r in w'.db.runs && IsScanRunActive(w'.db.runs[r].status)
      {
        ReachesNever(w, w', false, ids[k]);
        RunOverAfter(w, w', r);
      }
    } else {
      var ts := set k | 0 <= k < |ids| :: ids[k];
      assert AllReady(w, ts);
      var w' := WorkOff(w, ts);
      assert forall k | 0 <= k < |ids| :: ids[k] in ts;
      RunOverAfter(w, w', r);
    }
  }
}
