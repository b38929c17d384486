/**
 * The server side of scan execution: the tables of runs, tasks and schedules,
 * and the requests that change them. Every method is specified by a function on
 * the tables; the execution protocol is stated over the same functions.
 */
module ScanApi {
  import opened Collections
  import opened Text
  import opened ScanStatus
  import CommandLine

  datatype Recommendation = Recommendation(commandId: string, executablePath: Option<string>, arguments: Option<string>)

  datatype Task = Task(
    run: int,
    plan: Recommendation,
    status: Status,
    error: Option<string>,
    startedAt: Option<int>,
    finishedAt: Option<int>)

  datatype ScanRun = ScanRun(tasks: seq<int>, status: Status)

  /** A row of `command_schedule`; a schedule of no scan task has task id 0. */
  datatype Schedule = Schedule(id: int, commandId: string, commandLine: string, cron: string, taskId: int)
  {
    predicate Once() { cron == "once" }
  }

  datatype Db = Db(
    runs: map<int, ScanRun>,
    tasks: map<int, Task>,
    schedules: map<int, Schedule>,
    nextRun: int,
    nextTask: int,
    nextSchedule: int)

  const EMPTY_DB := Db(map[], map[], map[], 1, 1, 1)

  /** `ServerError` is an exception from the database. */
  datatype Response = Created | NoContent | BadRequest | NotFound | Unprocessable | ServerError

  // ---------------------------------------------------------------------------
  // The table invariant
  // ---------------------------------------------------------------------------

  /** A started task has a start time, a finished one a finish time, and only a failed one an error. */
  predicate Stamped(task: Task) {
    && (task.status.Running? ==> task.startedAt.Some?)
    && (task.status.Terminal() ==> task.finishedAt.Some?)
    && (task.error.Some? ==> task.status.Failed?)
  }

  predicate TasksOk(db: Db) {
    forall t | t in db.tasks ::
      && 0 < t < db.nextTask && !db.tasks[t].status.Partial? && Stamped(db.tasks[t])
      && db.tasks[t].run in db.runs && t in db.runs[db.tasks[t].run].tasks
  }

  predicate RunsOk(db: Db) {
    forall r | r in db.runs ::
      && 0 < r < db.nextRun && db.runs[r].tasks != []
      && forall i | 0 <= i < |db.runs[r].tasks| ::
           db.runs[r].tasks[i] in db.tasks && db.tasks[db.runs[r].tasks[i]].run == r
  }

  predicate SchedulesOk(db: Db) {
    forall s | s in db.schedules :: 0 < s < db.nextSchedule && db.schedules[s].id == s
  }

  predicate CountersOk(db: Db) {
    0 < db.nextRun && 0 < db.nextTask && 0 < db.nextSchedule
  }

  predicate AllIn(ids: seq<int>, tasks: map<int, Task>) {
    forall i | 0 <= i < |ids| :: ids[i] in tasks
  }

  function StatusesOf(tasks: map<int, Task>, ids: seq<int>): (r: seq<Status>)
    requires AllIn(ids, tasks)
    ensures |r| == |ids| && forall i | 0 <= i < |ids| :: r[i] == tasks[ids[i]].status
  {
    if ids == [] then [] else [tasks[ids[0]].status] + StatusesOf(tasks, ids[1..])
  }

  /** Every stored run status is the one derived from the tasks of the run. */
  predicate Derived(db: Db)
    requires RunsOk(db)
  {
    forall r | r in db.runs ::
      db.runs[r].status == RecomputeStatus(Queued, StatusesOf(db.tasks, db.runs[r].tasks))
  }

  predicate Valid(db: Db) {
    CountersOk(db) && TasksOk(db) && RunsOk(db) && SchedulesOk(db) && Derived(db)
  }

  // ---------------------------------------------------------------------------
  // Column widths
  // ---------------------------------------------------------------------------

  /** PostgreSQL refuses a longer value, unless all that is too much is spaces. */
  predicate Fits(s: string, width: nat) {
    forall i | width <= i < |s| :: s[i] == ' '
  }

  /** The first save of `CreateOne` fits its columns. */
  predicate RunFits(target: string, plans: seq<Recommendation>) {
    && Fits(target, 500)
    && forall i | 0 <= i < |plans| ::
         && Fits(plans[i].commandId, 100) && Fits(CommandLine.OrEmpty(plans[i].executablePath), 500)
         && Fits(CommandLine.OrEmpty(plans[i].arguments), 1000)
  }

  /** The second save of `CreateOne` fits its columns: a composed line is longer than its parts. */
  predicate LinesFit(plans: seq<Recommendation>) {
    forall i | 0 <= i < |plans| :: Fits(CommandLine.Compose(plans[i].executablePath, plans[i].arguments), 1000)
  }

  /** What fits the first save need not fit the second. */
  lemma LineTooLong(commandId: string)
    requires |commandId| <= 100
    ensures var plan := Recommendation(commandId, Some("x"), Some(seq(1000, _ => 'x')));
            RunFits("x", [plan]) && !LinesFit([plan])
  {
    hide Trim, IsSpace;
    var a: string := seq(1000, _ => 'x');
    var line := "x" + " " + a;
    assert |line| == 1002 && line[0] == 'x' && line[1001] == 'x';
    NoBlankEnds(line);
    var plan := Recommendation(commandId, Some("x"), Some(a));
    assert CommandLine.Compose(plan.executablePath, plan.arguments) == line;
    assert !Fits(line, 1000);
    assert !LinesFit([plan]) by { assert [plan][0] == plan; }
  }

  lemma NoBlankEnds(line: string)
    requires line != "" && line[0] == line[|line| - 1] == 'x'
    ensures Trim(line) == line
  {
  }

  // ---------------------------------------------------------------------------
  // Requests as functions on the tables
  // ---------------------------------------------------------------------------

  /** The body of `UpdateTaskStatus` for an existing task. */
  function Stamp(task: Task, status: Status, error: Option<string>, now: int): Task {
    task.(
      status := status,
      error := if status.Failed? then error else None,
      startedAt := if status.Running? then Some(now) else task.startedAt,
      finishedAt := if status.Succeeded? || status.Failed? then Some(now) else task.finishedAt)
  }

  function UpdateTask(db: Db, t: int, status: Status, error: Option<string>, now: int): Db
    requires TasksOk(db) && RunsOk(db) && t in db.tasks
  {
    var tasks := db.tasks[t := Stamp(db.tasks[t], status, error, now)];
    var r := db.tasks[t].run;
    var derived := RecomputeStatus(db.runs[r].status, StatusesOf(tasks, db.runs[r].tasks));
    db.(tasks := tasks, runs := db.runs[r := db.runs[r].(status := derived)])
  }

  function NewTask(run: int, plan: Recommendation): Task {
    Task(run, plan, Queued, None, None, None)
  }

  function IdRange(first: int, n: nat): (ids: seq<int>)
    ensures |ids| == n && forall i | 0 <= i < n :: ids[i] == first + i
  {
    seq(n, i => first + i)
  }

  function AddTasks(tasks: map<int, Task>, run: int, first: int, plans: seq<Recommendation>): (r: map<int, Task>)
    ensures forall t :: t in r <==> t in tasks || first <= t < first + |plans|
    ensures forall t | t in r ::
              r[t] == if first <= t < first + |plans| then NewTask(run, plans[t - first]) else tasks[t]
  {
    if plans == [] then tasks
    else
      var n := |plans| - 1;
      AddTasks(tasks, run, first, plans[..n])[first + n := NewTask(run, plans[n])]
  }

  lemma AddTasksSnoc(tasks: map<int, Task>, run: int, first: int, plans: seq<Recommendation>, i: nat)
    requires i < |plans|
    ensures AddTasks(tasks, run, first, plans[..i + 1])
         == AddTasks(tasks, run, first, plans[..i])[first + i := NewTask(run, plans[i])]
    ensures IdRange(first, i + 1) == IdRange(first, i) + [first + i]
  {
    assert plans[..i + 1][..i] == plans[..i];
  }

  /** The first `SaveChanges` of `CreateOne`: the run and its queued tasks. */
  function AddRun(db: Db, plans: seq<Recommendation>): Db {
    db.(
      runs := db.runs[db.nextRun := ScanRun(IdRange(db.nextTask, |plans|), Queued)],
      tasks := AddTasks(db.tasks, db.nextRun, db.nextTask, plans),
      nextRun := db.nextRun + 1,
      nextTask := db.nextTask + |plans|)
  }

  function OnceSchedule(id: int, taskId: int, plan: Recommendation): Schedule {
    Schedule(id, plan.commandId, CommandLine.Compose(plan.executablePath, plan.arguments), "once", taskId)
  }

  function OnceRows(first: int, tasks: map<int, Task>, ids: seq<int>): (rows: seq<Schedule>)
    requires AllIn(ids, tasks)
    ensures |rows| == |ids|
    ensures forall i | 0 <= i < |ids| :: rows[i] == OnceSchedule(first + i, ids[i], tasks[ids[i]].plan)
  {
    seq(|ids|, i requires 0 <= i < |ids| => OnceSchedule(first + i, ids[i], tasks[ids[i]].plan))
  }

  function Insert(schedules: map<int, Schedule>, first: int, rows: seq<Schedule>): map<int, Schedule> {
    if rows == [] then schedules
    else
      var n := |rows| - 1;
      Insert(schedules, first, rows[..n])[first + n := rows[n]]
  }

  lemma {:induction false} InsertContents(schedules: map<int, Schedule>, first: int, rows: seq<Schedule>)
    ensures var r := Insert(schedules, first, rows);
            && (forall s :: s in r <==> s in schedules || first <= s < first + |rows|)
            && (forall s | s in r :: r[s] == if first <= s < first + |rows| then rows[s - first] else schedules[s])
  {
    if rows != [] {
      InsertContents(schedules, first, rows[..|rows| - 1]);
    }
  }

  lemma InsertSnoc(schedules: map<int, Schedule>, first: int, rows: seq<Schedule>, i: nat)
    requires i < |rows|
    ensures Insert(schedules, first, rows[..i + 1]) == Insert(schedules, first, rows[..i])[first + i := rows[i]]
  {
    assert rows[..i + 1][..i] == rows[..i];
  }

  /** The second `SaveChanges` of `CreateOne`: one "once" schedule per task. */
  function AddSchedules(db: Db, ids: seq<int>): Db
    requires AllIn(ids, db.tasks)
  {
    db.(
      schedules := Insert(db.schedules, db.nextSchedule, OnceRows(db.nextSchedule, db.tasks, ids)),
      nextSchedule := db.nextSchedule + |ids|)
  }

  /** A schedule stored by a user. */
  function AddSchedule(db: Db, commandId: string, commandLine: string, cron: string, taskId: int): Db {
    db.(
      schedules := db.schedules[db.nextSchedule := Schedule(db.nextSchedule, commandId, commandLine, cron, taskId)],
      nextSchedule := db.nextSchedule + 1)
  }

  function RemoveSchedule(db: Db, id: int): Db {
    db.(schedules := db.schedules - {id})
  }

  // ---------------------------------------------------------------------------
  // What the requests keep
  // ---------------------------------------------------------------------------

  lemma {:induction false} StatusesFrame(a: map<int, Task>, b: map<int, Task>, ids: seq<int>)
    requires forall i | 0 <= i < |ids| :: ids[i] in a && ids[i] in b && a[ids[i]].status == b[ids[i]].status
    ensures StatusesOf(a, ids) == StatusesOf(b, ids)
  {
    if ids != [] {
      StatusesFrame(a, b, ids[1..]);
    }
  }

  /** After every report the stored run status is the one derived from its tasks. */
  lemma UpdateTaskValid(db: Db, t: int, status: Status, error: Option<string>, now: int)
    requires Valid(db) && t in db.tasks && !status.Partial?
    ensures Valid(UpdateTask(db, t, status, error, now))
  {
    UpdateTaskRows(db, t, status, error, now);
    UpdateTaskDerived(db, t, status, error, now);
    hide TasksOk, RunsOk, Derived;
  }

  lemma UpdateTaskRows(db: Db, t: int, status: Status, error: Option<string>, now: int)
    requires TasksOk(db) && RunsOk(db) && t in db.tasks && !status.Partial?
    ensures TasksOk(UpdateTask(db, t, status, error, now)) && RunsOk(UpdateTask(db, t, status, error, now))
  {
    hide RecomputeStatus, StatusesOf;
    var db' := UpdateTask(db, t, status, error, now);
    assert forall r | r in db.runs :: db'.runs[r].tasks == db.runs[r].tasks;
    assert forall u | u in db.tasks :: db'.tasks[u].run == db.tasks[u].run;
  }

  lemma UpdateTaskDerived(db: Db, t: int, status: Status, error: Option<string>, now: int)
    requires TasksOk(db) && RunsOk(db) && Derived(db) && t in db.tasks
    requires RunsOk(UpdateTask(db, t, status, error, now))
    ensures Derived(UpdateTask(db, t, status, error, now))
  {
    hide StatusesOf;
    var db' := UpdateTask(db, t, status, error, now);
    forall r | r in db'.runs
      ensures db'.runs[r].status == RecomputeStatus(Queued, StatusesOf(db'.tasks, db'.runs[r].tasks))
    {
      if r != db.tasks[t].run {
        StatusesFrame(db.tasks, db'.tasks, db.runs[r].tasks);
      }
    }
  }

  lemma AddRunTasksOk(db: Db, plans: seq<Recommendation>)
    requires CountersOk(db) && TasksOk(db) && RunsOk(db)
    ensures TasksOk(AddRun(db, plans))
  {
    var db' := AddRun(db, plans);
    forall t | t in db'.tasks
      ensures && 0 < t < db'.nextTask && !db'.tasks[t].status.Partial? && Stamped(db'.tasks[t])
              && db'.tasks[t].run in db'.runs && t in db'.runs[db'.tasks[t].run].tasks
    {
      if db.nextTask <= t {
        assert db'.runs[db.nextRun].tasks[t - db.nextTask] == t;
      } else {
        assert db'.tasks[t] == db.tasks[t];
      }
    }
  }

  lemma AddRunRunsOk(db: Db, plans: seq<Recommendation>)
    requires CountersOk(db) && TasksOk(db) && RunsOk(db) && plans != []
    ensures RunsOk(AddRun(db, plans))
  {
    var db' := AddRun(db, plans);
    forall r, i | r in db'.runs && 0 <= i < |db'.runs[r].tasks|
      ensures db'.runs[r].tasks[i] in db'.tasks && db'.tasks[db'.runs[r].tasks[i]].run == r
    {
      if r != db.nextRun {
        var t := db.runs[r].tasks[i];
        assert t in db.tasks && t < db.nextTask;
        assert db'.tasks[t] == db.tasks[t];
      }
    }
  }

  lemma {:induction false} AllQueued(tasks: map<int, Task>, ids: seq<int>)
    requires AllIn(ids, tasks) && forall i | 0 <= i < |ids| :: tasks[ids[i]].status.Queued?
    ensures RecomputeStatus(Queued, StatusesOf(tasks, ids)) == Queued
  {
    var ss := StatusesOf(tasks, ids);
    if ids != [] {
      assert ss[0] in ss;
      assert forall s | s in ss :: s == Queued;
    }
  }

  lemma AddRunValid(db: Db, plans: seq<Recommendation>)
    requires Valid(db) && plans != []
    ensures Valid(AddRun(db, plans))
  {
    AddRunTasksOk(db, plans);
    AddRunRunsOk(db, plans);
    var db' := AddRun(db, plans);
    forall r | r in db'.runs
      ensures db'.runs[r].status == RecomputeStatus(Queued, StatusesOf(db'.tasks, db'.runs[r].tasks))
    {
      var ids := db'.runs[r].tasks;
      if r == db.nextRun {
        AllQueued(db'.tasks, ids);
      } else {
        assert ids == db.runs[r].tasks;
        forall i | 0 <= i < |ids|
          ensures ids[i] in db.tasks && db'.tasks[ids[i]] == db.tasks[ids[i]]
        {
          assert ids[i] < db.nextTask;
        }
        StatusesFrame(db.tasks, db'.tasks, ids);
      }
    }
  }

  lemma ValidParts(db: Db)
    requires Valid(db)
    ensures CountersOk(db) && TasksOk(db) && RunsOk(db) && SchedulesOk(db) && Derived(db)
  {
  }

  lemma SchedulesAlone(db: Db, db': Db)
    requires Valid(db) && SchedulesOk(db') && 0 < db'.nextSchedule
    requires db' == db.(schedules := db'.schedules, nextSchedule := db'.nextSchedule)
    ensures Valid(db')
  {
  }

  lemma AddSchedulesNumbered(db: Db, ids: seq<int>)
    requires SchedulesOk(db) && CountersOk(db) && AllIn(ids, db.tasks)
    ensures SchedulesOk(AddSchedules(db, ids))
  {
    hide Insert, OnceSchedule, OnceRows;
    var db' := AddSchedules(db, ids);
    var rows := OnceRows(db.nextSchedule, db.tasks, ids);
    assert db'.schedules == Insert(db.schedules, db.nextSchedule, rows);
    InsertContents(db.schedules, db.nextSchedule, rows);
    forall s | s in db'.schedules
      ensures 0 < s < db'.nextSchedule && db'.schedules[s].id == s
    {
      if db.nextSchedule <= s {
        OnceScheduleId(db, ids, s - db.nextSchedule);
      } else {
        assert s in db.schedules;
      }
    }
  }

  lemma AddSchedulesValid(db: Db, ids: seq<int>)
    requires Valid(db) && AllIn(ids, db.tasks)
    ensures Valid(AddSchedules(db, ids))
  {
    hide Insert, OnceRows, Valid, SchedulesOk;
    ValidParts(db);
    AddSchedulesNumbered(db, ids);
    SchedulesAlone(db, AddSchedules(db, ids));
  }

  lemma OnceScheduleId(db: Db, ids: seq<int>, i: nat)
    requires AllIn(ids, db.tasks) && i < |ids|
    ensures OnceRows(db.nextSchedule, db.tasks, ids)[i].id == db.nextSchedule + i
  {
    hide CommandLine.Compose;
  }

  // ---------------------------------------------------------------------------
  // What creating a run stores, and what a report stores
  // ---------------------------------------------------------------------------

  /** A new run with one new queued task per recommendation, in order; all other rows stay as they were. */
  predicate StoresRun(before: Db, after: Db, plans: seq<Recommendation>) {
    var r := before.nextRun;
    && r !in before.runs && after.runs.Keys == before.runs.Keys + {r}
    && (forall x | x in before.runs :: after.runs[x] == before.runs[x])
    && |after.runs[r].tasks| == |plans| && after.runs[r].status == Queued
    && (forall i | 0 <= i < |plans| :: StoresTask(before, after, r, i, plans[i]))
    && (forall i, j | 0 <= i < j < |plans| :: after.runs[r].tasks[i] != after.runs[r].tasks[j])
    && (forall t | t in after.tasks :: t in before.tasks || t in after.runs[r].tasks)
    && (forall t | t in before.tasks :: t in after.tasks && after.tasks[t] == before.tasks[t])
  }

  predicate StoresTask(before: Db, after: Db, r: int, i: nat, plan: Recommendation)
    requires r in after.runs && i < |after.runs[r].tasks|
  {
    var t := after.runs[r].tasks[i];
    t !in before.tasks && t in after.tasks && after.tasks[t] == Task(r, plan, Queued, None, None, None)
  }

  /** The words of the line are those of the executable and those of the arguments, under the exact condition. */
  predicate RunsPlan(line: string, plan: Recommendation) {
    var e, a := CommandLine.OrEmpty(plan.executablePath), CommandLine.OrEmpty(plan.arguments);
    && (CommandLine.Split(line) == CommandLine.Split(e) + CommandLine.Split(a) <==>
        if CommandLine.Balanced(e) then CommandLine.Balanced(a) || TrimEnd(a) == a else IsBlank(a) && TrimEnd(e) == e)
    && (CommandLine.PlainPath(e) && CommandLine.Balanced(a) ==> CommandLine.Split(line) == [e] + CommandLine.Split(a))
  }

  /** A schedule that runs the recommendation once, for this task. */
  predicate Plans(s: Schedule, t: int, plan: Recommendation) {
    s.taskId == t && s.cron == "once" && s.commandId == plan.commandId && RunsPlan(s.commandLine, plan)
  }

  /** Exactly one new schedule points at the task, and it runs the recommendation. */
  predicate RunByOne(was: map<int, Schedule>, now: map<int, Schedule>, t: int, plan: Recommendation) {
    exists s | s in now && s !in was ::
      Plans(now[s], t, plan) && forall s' | s' in now && s' !in was && now[s'].taskId == t :: s' == s
  }

  /** Earlier schedules stay, and the new ones run the recommendations of the new tasks, one each. */
  predicate StoresSchedules(was: map<int, Schedule>, now: map<int, Schedule>, ids: seq<int>, plans: seq<Recommendation>)
    requires |ids| == |plans|
  {
    && (forall s | s in was :: s in now && now[s] == was[s])
    && (forall s | s in now && s !in was :: now[s].taskId in ids)
    && (forall i | 0 <= i < |ids| :: RunByOne(was, now, ids[i], plans[i]))
  }

  lemma AddRunStores(db: Db, plans: seq<Recommendation>)
    requires Valid(db)
    ensures StoresRun(db, AddRun(db, plans), plans)
  {
    hide Valid, AddRun;
    NewKeys(db);
    var after := AddRun(db, plans);
    AddedRun(db, plans);
    forall i | 0 <= i < |plans|
      ensures StoresTask(db, after, db.nextRun, i, plans[i])
    {
      var t := after.runs[db.nextRun].tasks[i];
      assert t - db.nextTask == i;
    }
    forall t | t in after.tasks
      ensures t in db.tasks || t in after.runs[db.nextRun].tasks
    {
      if t !in db.tasks {
        assert after.runs[db.nextRun].tasks[t - db.nextTask] == t;
      }
    }
    hide StoresTask;
  }

  lemma NewKeys(db: Db)
    requires Valid(db)
    ensures db.nextRun !in db.runs && forall t | t in db.tasks :: t < db.nextTask
  {
    hide Derived, Stamped;
  }

  lemma AddedRun(db: Db, plans: seq<Recommendation>)
    ensures var after, first := AddRun(db, plans), db.nextTask;
            && after.runs == db.runs[db.nextRun := after.runs[db.nextRun]] && db.nextRun in after.runs
            && |after.runs[db.nextRun].tasks| == |plans| && after.runs[db.nextRun].status == Queued
            && (forall i | 0 <= i < |plans| :: after.runs[db.nextRun].tasks[i] == first + i)
            && (forall t :: t in after.tasks <==> t in db.tasks || first <= t < first + |plans|)
            && (forall t | first <= t < first + |plans| ::
                  after.tasks[t] == Task(db.nextRun, plans[t - first], Queued, None, None, None))
            && (forall t | t in db.tasks && t < first :: after.tasks[t] == db.tasks[t])
  {
  }

  lemma OnceRuns(id: int, t: int, plan: Recommendation)
    ensures Plans(OnceSchedule(id, t, plan), t, plan) && OnceSchedule(id, t, plan).id == id
  {
    hide CommandLine.Split, CommandLine.Balanced, CommandLine.Compose, TrimEnd, IsBlank;
    CommandLine.ComposedLine(plan.executablePath, plan.arguments);
    var e, a := CommandLine.OrEmpty(plan.executablePath), CommandLine.OrEmpty(plan.arguments);
    if CommandLine.PlainPath(e) && CommandLine.Balanced(a) {
      CommandLine.ComposedPlainPath(e, plan.arguments);
      assert CommandLine.Compose(Some(e), plan.arguments) == CommandLine.Compose(plan.executablePath, plan.arguments) by {
        CommandLine.ComposeOrEmpty(plan.executablePath, plan.arguments);
      }
    }
  }

  lemma SameRun(before: Db, a: Db, b: Db, plans: seq<Recommendation>)
    requires StoresRun(before, a, plans) && b.runs == a.runs && b.tasks == a.tasks
    ensures StoresRun(before, b, plans)
  {
    assert forall i | 0 <= i < |plans| :: StoresTask(before, a, before.nextRun, i, plans[i]);
  }

  /** New rows from `first` on, one for each id. */
  ghost predicate Appended(was: map<int, Schedule>, now: map<int, Schedule>, first: int, ids: seq<int>,
                           plans: seq<Recommendation>)
    requires |ids| == |plans|
  {
    && (forall s :: s in now <==> s in was || first <= s < first + |ids|)
    && (forall s | s in was :: s < first && now[s] == was[s])
    && (forall s | first <= s < first + |ids| :: now[s] == OnceSchedule(s, ids[s - first], plans[s - first]))
  }

  lemma AddedRows(db: Db, ids: seq<int>, plans: seq<Recommendation>)
    requires SchedulesOk(db) && AllIn(ids, db.tasks) && |ids| == |plans|
    requires forall i | 0 <= i < |ids| :: db.tasks[ids[i]].plan == plans[i]
    ensures Appended(db.schedules, AddSchedules(db, ids).schedules, db.nextSchedule, ids, plans)
  {
    hide Insert, OnceSchedule;
    var rows := OnceRows(db.nextSchedule, db.tasks, ids);
    hide OnceRows;
    InsertContents(db.schedules, db.nextSchedule, rows);
  }

  lemma AppendedOne(was: map<int, Schedule>, now: map<int, Schedule>, first: int, ids: seq<int>,
                    plans: seq<Recommendation>, i: nat)
    requires |ids| == |plans| && i < |ids| && Appended(was, now, first, ids, plans)
    requires forall i, j | 0 <= i < j < |ids| :: ids[i] != ids[j]
    ensures RunByOne(was, now, ids[i], plans[i])
  {
    hide OnceSchedule, Plans;
    var s := first + i;
    OnceRuns(s, ids[i], plans[i]);
    assert s in now && s !in was && Plans(now[s], ids[i], plans[i]);
    forall s' | s' in now && s' !in was && now[s'].taskId == ids[i]
      ensures s' == s
    {
      OnceRuns(s', ids[s' - first], plans[s' - first]);
      PlansTask(now[s'], ids[s' - first], plans[s' - first]);
    }
  }

  lemma AppendedStores(was: map<int, Schedule>, now: map<int, Schedule>, first: int, ids: seq<int>,
                       plans: seq<Recommendation>)
    requires |ids| == |plans| && Appended(was, now, first, ids, plans)
    requires forall i, j | 0 <= i < j < |ids| :: ids[i] != ids[j]
    ensures StoresSchedules(was, now, ids, plans)
  {
    hide OnceSchedule, Plans, RunByOne;
    forall i | 0 <= i < |ids|
      ensures RunByOne(was, now, ids[i], plans[i])
    {
      AppendedOne(was, now, first, ids, plans, i);
    }
    forall s | s in now && s !in was
      ensures now[s].taskId in ids
    {
      OnceRuns(s, ids[s - first], plans[s - first]);
      PlansTask(now[s], ids[s - first], plans[s - first]);
    }
  }

  lemma NewTasksStored(db: Db, saved: Db, plans: seq<Recommendation>)
    requires StoresRun(db, saved, plans)
    ensures db.nextRun in saved.runs
    ensures var ids := saved.runs[db.nextRun].tasks;
            && |ids| == |plans| && AllIn(ids, saved.tasks) && (forall i, j | 0 <= i < j < |ids| :: ids[i] != ids[j])
            && forall i | 0 <= i < |ids| :: saved.tasks[ids[i]].plan == plans[i]
  {
    var ids := saved.runs[db.nextRun].tasks;
    forall i | 0 <= i < |ids|
      ensures ids[i] in saved.tasks && saved.tasks[ids[i]].plan == plans[i]
    {
      assert StoresTask(db, saved, db.nextRun, i, plans[i]);
    }
  }

  lemma AddSchedulesStores(db: Db, saved: Db, plans: seq<Recommendation>)
    requires SchedulesOk(saved) && StoresRun(db, saved, plans)
    ensures db.nextRun in saved.runs
    ensures var ids := saved.runs[db.nextRun].tasks;
            && |ids| == |plans| && AllIn(ids, saved.tasks)
            && StoresRun(db, AddSchedules(saved, ids), plans)
            && AddSchedules(saved, ids).runs == saved.runs
            && StoresSchedules(saved.schedules, AddSchedules(saved, ids).schedules, ids, plans)
  {
    hide SchedulesOk, StoresRun, StoresSchedules, Appended, Insert, OnceRows;
    NewTasksStored(db, saved, plans);
    var ids := saved.runs[db.nextRun].tasks;
    AddedRows(saved, ids, plans);
    SameRun(db, saved, AddSchedules(saved, ids), plans);
    AppendedStores(saved.schedules, AddSchedules(saved, ids).schedules, saved.nextSchedule, ids, plans);
  }

  lemma PlansTask(s: Schedule, t: int, plan: Recommendation)
    requires Plans(s, t, plan)
    ensures s.taskId == t
  {
    hide RunsPlan;
  }

  /** What one report of a task leaves: its status, its error if it failed, the time it stands for; nothing else. */
  predicate StoresReport(before: Db, after: Db, t: int, status: Status, error: Option<string>, now: int)
    requires t in before.tasks
  {
    && after.tasks.Keys == before.tasks.Keys && (forall u | u in before.tasks && u != t :: after.tasks[u] == before.tasks[u])
    && after.schedules == before.schedules && after.runs.Keys == before.runs.Keys
    && (forall r | r in before.runs :: after.runs[r].tasks == before.runs[r].tasks)
    && after.nextRun == before.nextRun && after.nextTask == before.nextTask && after.nextSchedule == before.nextSchedule
    && var task, was := after.tasks[t], before.tasks[t];
       && task.status == status && task.run == was.run && task.plan == was.plan
       && (status == Failed ==> task.error == error && task.finishedAt == Some(now) && task.startedAt == was.startedAt)
       && (status != Failed ==> task.error == None)
       && (status == Running ==> task.startedAt == Some(now) && task.finishedAt == was.finishedAt)
       && (status == Succeeded ==> task.finishedAt == Some(now) && task.startedAt == was.startedAt)
       && (status == Queued ==> task.startedAt == was.startedAt && task.finishedAt == was.finishedAt)
  }

  lemma UpdateTaskStores(db: Db, t: int, status: Status, error: Option<string>, now: int)
    requires TasksOk(db) && RunsOk(db) && t in db.tasks
    ensures StoresReport(db, UpdateTask(db, t, status, error, now), t, status, error, now)
  {
    hide RecomputeStatus, StatusesOf;
  }

  /** The same, field by field. */
  lemma ReportStored(db: Db, t: int, status: Status, error: Option<string>, now: int)
    requires Valid(db) && t in db.tasks
    ensures var db' := UpdateTask(db, t, status, error, now);
            && db'.schedules == db.schedules && db'.tasks.Keys == db.tasks.Keys
            && (forall u | u in db.tasks && u != t :: db'.tasks[u] == db.tasks[u])
            && db'.tasks[t].plan == db.tasks[t].plan && db'.tasks[t].status == status
            && (status != Failed ==> db'.tasks[t].error == None)
            && (status == Failed ==> db'.tasks[t].error == error && db'.tasks[t].finishedAt == Some(now))
            && (status == Succeeded ==> db'.tasks[t].finishedAt == Some(now))
  {
    hide Valid, UpdateTask;
    ValidParts(db);
    UpdateTaskStores(db, t, status, error, now);
  }

  // ---------------------------------------------------------------------------
  // The controllers
  // ---------------------------------------------------------------------------

  /** A full list of the table, whatever its order. */
  predicate Snapshot(page: seq<Schedule>, schedules: map<int, Schedule>) {
    && (forall i | 0 <= i < |page| :: page[i].id in schedules && schedules[page[i].id] == page[i])
    && (forall s | s in schedules :: schedules[s] in page)
  }

  class ScanService {
    var runs: map<int, ScanRun>
    var tasks: map<int, Task>
    var schedules: map<int, Schedule>
    var nextRun: int
    var nextTask: int
    var nextSchedule: int

    function Tables(): Db
      reads this
    {
      Db(runs, tasks, schedules, nextRun, nextTask, nextSchedule)
    }

    constructor ()
      ensures Tables() == EMPTY_DB && Valid(Tables())
    {
      runs, tasks, schedules := map[], map[], map[];
      nextRun, nextTask, nextSchedule := 1, 1, 1;
    }

    /**
     * `ScanRunsController.CreateOne`; the recommendations are those of the recommendation service. If the second save
     * does not fit its columns, the run and its queued tasks stay, without schedules.
     */
    method CreateOne(target: string, projectExists: bool, plans: seq<Recommendation>) returns (response: Response)
      requires Valid(Tables())
      modifies this
      ensures Valid(Tables())
      ensures IsBlank(target) || !projectExists ==> response == BadRequest && Tables() == old(Tables())
      ensures !IsBlank(target) && projectExists && plans == [] ==> response == Unprocessable && Tables() == old(Tables())
      ensures !IsBlank(target) && projectExists && plans != [] ==>
                if !RunFits(Trim(target), plans) then response == ServerError && Tables() == old(Tables())
                else
                  var saved := AddRun(old(Tables()), plans);
                  var ids := saved.runs[old(nextRun)].tasks;
                  if LinesFit(plans)
                  then response == Created && AllIn(ids, saved.tasks) && Tables() == AddSchedules(saved, ids)
                  else response == ServerError && Tables() == saved
      ensures response == Created ==>
                && StoresRun(old(Tables()), Tables(), plans) && |runs[old(nextRun)].tasks| == |plans|
                && StoresSchedules(old(schedules), schedules, runs[old(nextRun)].tasks, plans)
    {
      hide Trim, Fits, CommandLine.Compose, StoresRun, StoresSchedules;
      if IsBlank(target) || !projectExists {
        return BadRequest;
      }
      if |plans| == 0 {
        return Unprocessable;
      }
      if !RunFits(Trim(target), plans) {
        return ServerError;
      }
      ghost var before := Tables();
      AddRunValid(before, plans);
      AddRunStores(before, plans);
      SaveRun(plans);
      if !LinesFit(plans) {
        return ServerError;
      }
      ghost var saved := Tables();
      var ids := runs[nextRun - 1].tasks;
      assert RunsOk(saved);
      AddSchedulesValid(saved, ids);
      AddSchedulesStores(before, saved, plans);
      SaveSchedules(ids);
      return Created;
    }

    /** The first half of `CreateOne`: a run, with one queued task per recommendation. */
    method SaveRun(plans: seq<Recommendation>)
      modifies this
      ensures Tables() == AddRun(old(Tables()), plans)
    {
      var run := ScanRun([], Queued);
      for i := 0 to |plans|
        invariant nextTask == old(nextTask) + i
        invariant run == ScanRun(IdRange(old(nextTask), i), Queued)
        invariant tasks == AddTasks(old(tasks), nextRun, old(nextTask), plans[..i])
        invariant unchanged(`runs) && unchanged(`schedules) && unchanged(`nextRun) && unchanged(`nextSchedule)
      {
        AddTasksSnoc(old(tasks), nextRun, old(nextTask), plans, i);
        tasks := tasks[nextTask := NewTask(nextRun, plans[i])];
        run := run.(tasks := run.tasks + [nextTask]);
        nextTask := nextTask + 1;
      }
      assert plans[..|plans|] == plans;
      runs := runs[nextRun := run];
      nextRun := nextRun + 1;
    }

    /** The second half of `CreateOne`: a "once" schedule pointing back at each task. */
    method SaveSchedules(ids: seq<int>)
      requires AllIn(ids, tasks)
      modifies this`schedules, this`nextSchedule
      ensures Tables() == AddSchedules(old(Tables()), ids)
    {
      hide CommandLine.Compose;
      ghost var rows := OnceRows(nextSchedule, tasks, ids);
      for i := 0 to |ids|
        invariant nextSchedule == old(nextSchedule) + i
        invariant schedules == Insert(old(schedules), old(nextSchedule), rows[..i])
      {
        InsertSnoc(old(schedules), old(nextSchedule), rows, i);
        var task := ids[i];
        schedules := schedules[nextSchedule := OnceSchedule(nextSchedule, task, tasks[task].plan)];
        nextSchedule := nextSchedule + 1;
      }
      assert rows[..|ids|] == rows;
    }

    /** `ScanRunsController.UpdateTaskStatus` */
    method UpdateTaskStatus(taskId: int, status: string, error: Option<string>, now: int) returns (response: Response)
      requires Valid(Tables())
      modifies this
      ensures Valid(Tables())
      ensures ParseTaskStatus(status).None? ==> response == BadRequest
      ensures ParseTaskStatus(status).Some? && taskId !in old(tasks) ==> response == NotFound
      ensures response != NoContent ==> Tables() == old(Tables())
      ensures ParseTaskStatus(status).Some? && taskId in old(tasks) ==>
                response == NoContent
                && Tables() == UpdateTask(old(Tables()), taskId, ParseTaskStatus(status).value, error, now)
                && StoresReport(old(Tables()), Tables(), taskId, ParseTaskStatus(status).value, error, now)
    {
      hide StoresReport;
      var parsed := ParseTaskStatus(status);
      if parsed.None? {
        return BadRequest;
      }
      if taskId !in tasks {
        return NotFound;
      }
      UpdateTaskValid(Tables(), taskId, parsed.value, error, now);
      UpdateTaskStores(Tables(), taskId, parsed.value, error, now);
      tasks := tasks[taskId := Stamp(tasks[taskId], parsed.value, error, now)];
      var run := runs[tasks[taskId].run];
      var statuses := StatusesOf(tasks, run.tasks);
      runs := runs[tasks[taskId].run := run.(status := RecomputeStatus(run.status, statuses))];
      return NoContent;
    }

    /** `CommandSchedulesController.GetAll` */
    method GetAll() returns (page: seq<Schedule>)
      requires Valid(Tables())
      ensures Snapshot(page, schedules)
      ensures |page| == |schedules|
    {
      page := [];
      var left := schedules.Keys;
      while left != {}
        invariant left <= schedules.Keys && |page| + |left| == |schedules.Keys|
        invariant forall i | 0 <= i < |page| :: page[i].id in schedules && schedules[page[i].id] == page[i]
        invariant forall s | s in schedules && s !in left :: schedules[s] in page
      {
        HasElement(left);
        var s :| s in left;
        page := page + [schedules[s]];
        left := left - {s};
      }
    }

    /** `CommandSchedulesController.DeleteOne` */
    method DeleteOne(commandId: string, id: int) returns (response: Response)
      requires Valid(Tables())
      modifies this`schedules
      ensures Valid(Tables())
      ensures var found := id in old(schedules) && old(schedules)[id].commandId == commandId;
              && response == (if found then NoContent else NotFound)
              && Tables() == (if found then RemoveSchedule(old(Tables()), id) else old(Tables()))
              && (forall s :: s in schedules <==> s in old(schedules) && !(found && s == id))
              && (forall s | s in schedules :: schedules[s] == old(schedules)[s])
    {
      if id in schedules && schedules[id].commandId == commandId {
        schedules := schedules - {id};
        return NoContent;
      }
      return NotFound;
    }
  }
}
