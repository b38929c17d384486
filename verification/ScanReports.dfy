/** What a task keeps of the reports about it: any sequence of accepted reports, one after the other. */
module ScanReports {
  import opened Text
  import opened ScanStatus
  import opened ScanApi

  datatype Told = Told(status: Status, error: Option<string>, now: int)

  predicate Accepted(told: seq<Told>) {
    forall i | 0 <= i < |told| :: !told[i].status.Partial?
  }

  /** The tables after all these reports about task `t`. */
  function AfterAll(db: Db, t: int, told: seq<Told>): (r: Db)
    requires Valid(db) && t in db.tasks && Accepted(told)
    ensures Valid(r) && t in r.tasks
  {
    hide Valid;
    if told == [] then db
    else
      var n := |told| - 1;
      var before := AfterAll(db, t, told[..n]);
      ValidParts(before);
      UpdateTaskValid(before, t, told[n].status, told[n].error, told[n].now);
      UpdateTaskStores(before, t, told[n].status, told[n].error, told[n].now);
      UpdateTask(before, t, told[n].status, told[n].error, told[n].now)
  }

  /** The last report with one of these statuses. */
  predicate LastMark(told: seq<Told>, k: nat, marks: set<Status>) {
    k < |told| && told[k].status in marks && forall j | k < j < |told| :: told[j].status !in marks
  }

  /** A time is that of the last report with one of these statuses, or what it was if there is none. */
  ghost predicate Marked(was: Option<int>, now: Option<int>, told: seq<Told>, marks: set<Status>) {
    if forall k | 0 <= k < |told| :: told[k].status !in marks then now == was
    else exists k: nat :: LastMark(told, k, marks) && now == Some(told[k].now)
  }

  /** Nothing but the reported task and the statuses of runs differs. */
  predicate OnlyTask(before: Db, after: Db, t: int) {
    && after.tasks.Keys == before.tasks.Keys && (forall u | u in before.tasks && u != t :: after.tasks[u] == before.tasks[u])
    && after.schedules == before.schedules && after.runs.Keys == before.runs.Keys
    && (forall r | r in before.runs :: after.runs[r].tasks == before.runs[r].tasks)
    && after.nextRun == before.nextRun && after.nextTask == before.nextTask && after.nextSchedule == before.nextSchedule
  }

  /**
   * Over any sequence of accepted reports: the stored status is that of the last one, the stored error is the one the
   * last report carried if it was `failed` and none otherwise, the times are those of the last start and the last end,
   * and run, plan and everything about other tasks stay as they were.
   */
  lemma {:induction false} LastReportStored(db: Db, t: int, told: seq<Told>)
    requires Valid(db) && t in db.tasks && Accepted(told)
    ensures var after := AfterAll(db, t, told);
            && OnlyTask(db, after, t) && t in after.tasks
            && after.tasks[t].run == db.tasks[t].run && after.tasks[t].plan == db.tasks[t].plan
            && Marked(db.tasks[t].startedAt, after.tasks[t].startedAt, told, {Running})
            && Marked(db.tasks[t].finishedAt, after.tasks[t].finishedAt, told, {Succeeded, Failed})
            && (told == [] ==> after == db)
            && (told != [] ==>
                  var last := told[|told| - 1];
                  && after.tasks[t].status == last.status
                  && after.tasks[t].error == if last.status == Failed then last.error else None)
  {
    hide Valid, UpdateTask, StoresReport, OnlyTask, Marked;
    if told == [] {
      NothingTold(db, t);
    } else {
      var n := |told| - 1;
      LastReportStored(db, t, told[..n]);
      var before, after := AfterAll(db, t, told[..n]), AfterAll(db, t, told);
      ValidParts(before);
      UpdateTaskStores(before, t, told[n].status, told[n].error, told[n].now);
      StoredFields(before, after, t, told[n]);
      OnlyTaskOn(db, before, after, t);
      OneMore(db.tasks[t].startedAt, before.tasks[t].startedAt, after.tasks[t].startedAt, told, {Running});
      OneMore(db.tasks[t].finishedAt, before.tasks[t].finishedAt, after.tasks[t].finishedAt, told, {Succeeded, Failed});
    }
  }

  lemma NothingTold(db: Db, t: int)
    requires t in db.tasks
    ensures OnlyTask(db, db, t) && forall time, marks :: Marked(time, time, [], marks)
  {
  }

  lemma StoredFields(before: Db, after: Db, t: int, report: Told)
    requires t in before.tasks && !report.status.Partial?
    requires StoresReport(before, after, t, report.status, report.error, report.now)
    ensures OnlyTask(before, after, t) && t in after.tasks
    ensures var was, now := before.tasks[t], after.tasks[t];
            && now.run == was.run && now.plan == was.plan && now.status == report.status
            && now.error == (if report.status == Failed then report.error else None)
            && now.startedAt == (if report.status in {Running} then Some(report.now) else was.startedAt)
            && now.finishedAt == (if report.status in {Succeeded, Failed} then Some(report.now) else was.finishedAt)
  {
  }

  lemma OnlyTaskOn(a: Db, b: Db, c: Db, t: int)
    requires OnlyTask(a, b, t) && OnlyTask(b, c, t)
    ensures OnlyTask(a, c, t)
  {
  }

  lemma OneMore(was: Option<int>, before: Option<int>, now: Option<int>, told: seq<Told>, marks: set<Status>)
    requires told != [] && Marked(was, before, told[..|told| - 1], marks)
    requires var last := told[|told| - 1]; now == if last.status in marks then Some(last.now) else before
    ensures Marked(was, now, told, marks)
  {
    var n := |told| - 1;
    var front := told[..n];
    assert forall k | 0 <= k < n :: front[k] == told[k];
    if told[n].status in marks {
      assert LastMark(told, n, marks);
    } else if k: nat :| LastMark(front, k, marks) && before == Some(front[k].now) {
      assert LastMark(told, k, marks);
    }
  }
}
