/**
 * The scan execution protocol as a step system: the API's tables, one runner with
 * its scheduler, the poll in progress and the schedules being run. Steps interleave
 * freely; reports, deletes and `NewJob` may fail, and a failed report or delete may
 * or may not have reached the tables.
 */
module ScanProtocol {
  import opened Text
  import opened ScanStatus
  import opened ScanApi
  import opened Runner

  /** The list being reconciled: entries still to be looked at, and ids seen so far. */
  datatype Pass = Idle | Reconciling(todo: seq<Schedule>, seen: set<int>)

  datatype Exec = Exec(sched: Schedule, pc: Pc)

  /**
   * `home`, `started`, `fired` and `tainted` only record history. `home` gives each task the schedule
   * `CreateOne` stored for it. `started` and `fired` hold the schedules that got a job, and the "once" ones whose
   * job ran, in the lifetime of the current runner process. `tainted` holds the tasks for which nothing is promised:
   * those a user schedule points at, those somebody else reported on, and those with a terminal status whose
   * runnable schedule was still stored when the runner restarted.
   */
  datatype World = World(
    db: Db,
    unscheduled: set<int>,
    book: Book,
    pass: Pass,
    execs: map<int, Exec>,
    nextExec: int,
    home: map<int, int>,
    started: set<int>,
    fired: set<int>,
    tainted: set<int>)

  const INIT := World(EMPTY_DB, {}, EMPTY_BOOK, Idle, map[], 0, map[], {}, {}, {})

  datatype Step =
    | CreateTasks(plans: seq<Recommendation>)
    | CreateSchedules(run: int)
    | AddUserSchedule(commandId: string, commandLine: string, cron: string, taskId: int)
    | DeleteSchedule(id: int)
    | ForeignReport(taskId: int, status: Status, error: Option<string>, now: int)
    | Poll(page: seq<Schedule>)
    | Entry(accepted: bool)
    | EndPass
    | Fire(job: int)
    | Proceed(exec: int, outcome: Option<string>, delivered: bool, now: int)
    | Restart

  predicate Enabled(w: World, step: Step) {
    match step
    case CreateTasks(plans) => plans != []
    case CreateSchedules(run) => run in w.unscheduled && run in w.db.runs && AllIn(w.db.runs[run].tasks, w.db.tasks)
    case AddUserSchedule(_, _, _, _) => true
    case DeleteSchedule(id) => id in w.db.schedules
    case ForeignReport(t, status, _, _) => t in w.db.tasks && !status.Partial?
    case Poll(page) => w.pass.Idle? && Snapshot(page, w.db.schedules)
    case Entry(_) => w.pass.Reconciling? && w.pass.todo != []
    case EndPass => w.pass.Reconciling? && w.pass.todo == []
    case Fire(job) => job in w.book.jobs
    case Proceed(exec, _, _, _) => exec in w.execs && !w.execs[exec].pc.Done?
    case Restart => true
  }

  /** The request behind a message; an answer of "not found" changes nothing. */
  function Deliver(db: Db, messages: seq<Message>, now: int): Db
    requires Valid(db)
  {
    if messages == [] then db
    else match messages[0]
         case Report(t, status, error) => if t in db.tasks then UpdateTask(db, t, status, error, now) else db
         case Delete(id) => RemoveSchedule(db, id)
         case Execute(_, _) => db
  }

  function HomeOf(home: map<int, int>, ids: seq<int>, first: int): map<int, int> {
    if ids == [] then home
    else var n := |ids| - 1; HomeOf(home, ids[..n], first)[ids[n] := first + n]
  }

  /** Tasks that are over although their schedule is still stored and would not be refused. */
  function AtRisk(w: World): set<int> {
    set t |
      && t in w.home && w.home[t] in w.db.schedules && t in w.db.tasks && w.db.tasks[t].status.Terminal()
      && Refusal(w.db.schedules[w.home[t]]).None?
  }

  function CreateTasksStep(w: World, plans: seq<Recommendation>): World {
    w.(db := AddRun(w.db, plans), unscheduled := w.unscheduled + {w.db.nextRun})
  }

  function CreateSchedulesStep(w: World, run: int): World
    requires run in w.db.runs && AllIn(w.db.runs[run].tasks, w.db.tasks)
  {
    var ids := w.db.runs[run].tasks;
    w.(db := AddSchedules(w.db, ids), unscheduled := w.unscheduled - {run}, home := HomeOf(w.home, ids, w.db.nextSchedule))
  }

  function UserScheduleStep(w: World, commandId: string, commandLine: string, cron: string, taskId: int): World {
    w.(db := AddSchedule(w.db, commandId, commandLine, cron, taskId), tainted := w.tainted + {taskId})
  }

  function DeleteScheduleStep(w: World, id: int): World {
    w.(db := RemoveSchedule(w.db, id))
  }

  function ForeignReportStep(w: World, t: int, status: Status, error: Option<string>, now: int): World
    requires Valid(w.db) && t in w.db.tasks
  {
    w.(db := UpdateTask(w.db, t, status, error, now), tainted := w.tainted + {t})
  }

  function PollStep(w: World, page: seq<Schedule>): World {
    w.(pass := Reconciling(page, {}))
  }

  function EntryStep(w: World, accepted: bool): World
    requires w.pass.Reconciling? && w.pass.todo != []
  {
    var s := w.pass.todo[0];
    w.(
      book := Admit(w.book, s, accepted),
      pass := Reconciling(w.pass.todo[1..], w.pass.seen + {s.id}),
      started := if s.id in w.book.active || !accepted then w.started else w.started + {s.id})
  }

  function EndPassStep(w: World): World
    requires w.pass.Reconciling?
  {
    w.(book := DropStale(w.book, w.pass.seen), pass := Idle)
  }

  function FireStep(w: World, job: int): World
    requires job in w.book.jobs
  {
    var s := w.book.jobs[job];
    w.(
      book := if s.Once() then w.book.(jobs := w.book.jobs - {job}) else w.book,
      execs := w.execs[w.nextExec := Exec(s, Begin)],
      nextExec := w.nextExec + 1,
      fired := if s.Once() then w.fired + {s.id} else w.fired)
  }

  function ProceedStep(w: World, exec: int, outcome: Option<string>, delivered: bool, now: int): World
    requires Valid(w.db) && exec in w.execs && !w.execs[exec].pc.Done?
  {
    var c, pc := w.execs[exec].sched, w.execs[exec].pc;
    var pc' := Advance(c, pc, outcome);
    w.(
      db := if delivered then Deliver(w.db, Emit(c, pc), now) else w.db,
      execs := if pc'.Done? then w.execs - {exec} else w.execs[exec := Exec(c, pc')])
  }

  function RestartStep(w: World): World {
    w.(
      book := Book(map[], map[], w.book.nextJob),
      pass := Idle, execs := map[], started := {}, fired := {},
      tainted := w.tainted + AtRisk(w))
  }

  function Apply(w: World, step: Step): World
    requires Valid(w.db) && Enabled(w, step)
  {
    match step
    case CreateTasks(plans) => CreateTasksStep(w, plans)
    case CreateSchedules(run) => CreateSchedulesStep(w, run)
    case AddUserSchedule(commandId, line, cron, taskId) => UserScheduleStep(w, commandId, line, cron, taskId)
    case DeleteSchedule(id) => DeleteScheduleStep(w, id)
    case ForeignReport(t, status, error, now) => ForeignReportStep(w, t, status, error, now)
    case Poll(page) => PollStep(w, page)
    case Entry(accepted) => EntryStep(w, accepted)
    case EndPass => EndPassStep(w)
    case Fire(job) => FireStep(w, job)
    case Proceed(exec, outcome, delivered, now) => ProceedStep(w, exec, outcome, delivered, now)
    case Restart => RestartStep(w)
  }

  // ---------------------------------------------------------------------------
  // The invariant
  // ---------------------------------------------------------------------------

  /** The tasks of a run are numbered consecutively. */
  predicate Consecutive(db: Db) {
    forall r | r in db.runs :: forall i | 0 <= i < |db.runs[r].tasks| :: db.runs[r].tasks[i] == db.runs[r].tasks[0] + i
  }

  predicate TablesOk(w: World) {
    && Valid(w.db) && Consecutive(w.db)
    && (forall t | t in w.home :: t in w.db.tasks)
    && (forall r | r in w.unscheduled :: r in w.db.runs &&
          forall i | 0 <= i < |w.db.runs[r].tasks| :: w.db.runs[r].tasks[i] !in w.home)
  }

  /** A task without a schedule of its own is still queued. */
  predicate Waiting(w: World) {
    forall t | t in w.db.tasks && t !in w.home && t !in w.tainted :: w.db.tasks[t].status.Queued?
  }

  predicate RunnerOk(w: World) {
    && BookOk(w.book)
    && w.fired <= w.started && w.book.active.Keys <= w.started
    && (forall id | id in w.started :: id < w.db.nextSchedule)
    && (forall e | e in w.execs :: e < w.nextExec && w.execs[e].sched.id in w.started)
    && (w.pass.Reconciling? ==> forall i | 0 <= i < |w.pass.todo| :: w.pass.todo[i].id < w.db.nextSchedule)
  }

  /** An untainted task is only ever mentioned by its own "once" schedule. */
  predicate Sound(w: World, s: Schedule) {
    s.taskId != 0 && s.taskId !in w.tainted ==> s.taskId in w.home && w.home[s.taskId] == s.id && s.Once()
  }

  predicate AllSound(w: World) {
    && (forall id | id in w.db.schedules :: Sound(w, w.db.schedules[id]))
    && (w.pass.Reconciling? ==> forall i | 0 <= i < |w.pass.todo| :: Sound(w, w.pass.todo[i]))
    && (forall j | j in w.book.jobs :: Sound(w, w.book.jobs[j]))
    && (forall e | e in w.execs :: Sound(w, w.execs[e].sched))
  }

  predicate Listed(w: World, id: int) {
    w.pass.Reconciling? && exists i | 0 <= i < |w.pass.todo| :: w.pass.todo[i].id == id
  }

  /** A schedule that got a job is active until it is gone from the table and from the list in progress. */
  predicate StartedOk(w: World) {
    && (forall id | id in w.started :: id in w.book.active || (id !in w.db.schedules && !Listed(w, id)))
    && (w.pass.Reconciling? ==>
          forall id | id in w.book.active && id in w.db.schedules :: id in w.pass.seen || Listed(w, id))
  }

  /** A "once" schedule is run by one job, once. */
  predicate FiredOk(w: World) {
    && (forall j | j in w.book.jobs && w.book.jobs[j].Once() :: w.book.jobs[j].id !in w.fired)
    && (forall e | e in w.execs && w.execs[e].sched.Once() :: w.execs[e].sched.id in w.fired)
    && (forall x, y | x in w.execs && y in w.execs && w.execs[x].sched.Once() && w.execs[y].sched.Once()
          && w.execs[x].sched.id == w.execs[y].sched.id :: x == y)
  }

  /** The task a mention is about, if nothing tainted it, is not over, or failed and would fail again. */
  predicate Open(w: World, s: Schedule) {
    s.taskId != 0 && s.taskId !in w.tainted ==>
      && s.taskId in w.db.tasks
      && (w.db.tasks[s.taskId].status.Terminal() ==> w.db.tasks[s.taskId].status.Failed? && Refusal(s).Some?)
  }

  /** Whatever can still report on a task finds it open. */
  predicate AllOpen(w: World) {
    && (forall id | id in w.db.schedules && id !in w.started :: Open(w, w.db.schedules[id]))
    && (w.pass.Reconciling? ==>
          forall i | 0 <= i < |w.pass.todo| && w.pass.todo[i].id !in w.started :: Open(w, w.pass.todo[i]))
    && (forall j | j in w.book.jobs :: Open(w, w.book.jobs[j]))
    && (forall e | e in w.execs && w.execs[e].pc.Left() > 1 :: Open(w, w.execs[e].sched))
  }

  /** The schedule `CreateOne` stored for a task is about that task, and its id is not used again. */
  predicate HomeOk(w: World) {
    forall t | t in w.home ::
      && w.home[t] < w.db.nextSchedule
      && (w.home[t] in w.db.schedules ==> w.db.schedules[w.home[t]].taskId == t && w.db.schedules[w.home[t]].Once())
  }

  /** A mention of a stored schedule is a copy of its row. */
  predicate Same(w: World, s: Schedule) {
    s.id in w.db.schedules ==> w.db.schedules[s.id] == s
  }

  predicate AllSame(w: World) {
    && (w.pass.Reconciling? ==> forall i | 0 <= i < |w.pass.todo| :: Same(w, w.pass.todo[i]))
    && (forall j | j in w.book.jobs :: Same(w, w.book.jobs[j]))
    && (forall e | e in w.execs :: Same(w, w.execs[e].sched))
  }

  /** A refused schedule goes straight to reporting a failure. */
  predicate PcOk(s: Schedule, pc: Pc) {
    Refusal(s).Some? ==> pc.Begin? || (pc.SendFinal? && pc.error.Some?) || pc.Deleting? || pc.Done?
  }

  /** A refused schedule never took its task further than `failed`. */
  predicate Spared(w: World, s: Schedule) {
    s.taskId != 0 && s.taskId !in w.tainted && s.taskId in w.db.tasks && Refusal(s).Some? ==>
      w.db.tasks[s.taskId].status.Queued? || w.db.tasks[s.taskId].status.Failed?
  }

  predicate RefusedOk(w: World) {
    && AllSame(w)
    && (forall e | e in w.execs :: PcOk(w.execs[e].sched, w.execs[e].pc))
    && (forall id | id in w.db.schedules :: Spared(w, w.db.schedules[id]))
  }

  predicate Inv(w: World) {
    && TablesOk(w) && Waiting(w) && RunnerOk(w) && AllSound(w) && StartedOk(w) && FiredOk(w) && AllOpen(w)
    && HomeOk(w) && RefusedOk(w)
  }

  /** The invariant, piece by piece. */
  lemma InvParts(w: World)
    requires Inv(w)
    ensures Valid(w.db) && TasksOk(w.db) && RunsOk(w.db) && SchedulesOk(w.db)
    ensures TablesOk(w) && Waiting(w) && RunnerOk(w) && AllSound(w) && StartedOk(w) && FiredOk(w) && AllOpen(w)
    ensures HomeOk(w) && RefusedOk(w)
  {
  }
}
