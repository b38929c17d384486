/** What holds over every run of the scan execution protocol. */
module ScanRuns {
  import opened Text
  import opened ScanStatus
  import opened ScanApi
  import opened Runner
  import opened ScanProtocol
  import ScanInvariant
  import opened ScanTablesInvariant
  import opened ScanSafety

  predicate Next(w: World, step: Step, w': World) {
    Valid(w.db) && Enabled(w, step) && w' == Apply(w, step)
  }

  lemma NextKeeps(w: World, step: Step, w': World)
    requires Inv(w) && Next(w, step, w')
    ensures Inv(w') && Forward(w, w')
  {
    StepInv(w, step);
    StepForward(w, step);
    hide Inv, Forward;
  }

  predicate Chain(ws: seq<World>, steps: seq<Step>) {
    |ws| == |steps| + 1 && forall i | 0 <= i < |steps| :: Next(ws[i], steps[i], ws[i + 1])
  }

  /** A run: it starts with empty tables and takes any enabled steps. */
  predicate Behaviour(ws: seq<World>, steps: seq<Step>) {
    Chain(ws, steps) && ws[0] == INIT
  }

  lemma {:induction false} BehaviourInv(ws: seq<World>, steps: seq<Step>, i: nat)
    requires Behaviour(ws, steps) && i <= |steps|
    ensures Inv(ws[i])
  {
    hide Inv, Next, Forward;
    if i == 0 {
      InitInv();
    } else {
      BehaviourInv(ws, steps, i - 1);
      NextKeeps(ws[i - 1], steps[i - 1], ws[i]);
    }
  }

  /**
   * A task whose schedule was never stored, as when the second save of `CreateOne` fails, stays queued for good unless
   * somebody else reports on it.
   */
  lemma UnscheduledStaysQueued(ws: seq<World>, steps: seq<Step>, i: nat, t: int)
    requires Behaviour(ws, steps) && i <= |steps|
    requires t in ws[i].db.tasks && t !in ws[i].home && t !in ws[i].tainted
    ensures ws[i].db.tasks[t].status == Queued
  {
    hide Inv, Valid, TablesOk, Next;
    BehaviourInv(ws, steps, i);
    InvParts(ws[i]);
  }

  lemma ForwardTransitive(a: World, b: World, c: World)
    requires Forward(a, b) && Forward(b, c)
    ensures Forward(a, c)
  {
  }

  lemma {:induction false} BehaviourForward(ws: seq<World>, steps: seq<Step>, i: nat, j: nat)
    requires Behaviour(ws, steps) && i <= j <= |steps|
    ensures Forward(ws[i], ws[j])
    decreases j - i
  {
    hide Inv, Next, Forward;
    if i == j {
      SameRowsForward(ws[i], ws[i]);
    } else {
      BehaviourForward(ws, steps, i, j - 1);
      BehaviourInv(ws, steps, j - 1);
      NextKeeps(ws[j - 1], steps[j - 1], ws[j]);
      ForwardTransitive(ws[i], ws[j - 1], ws[j]);
    }
  }

  /**
   * In every run, over any interleaving of polls, executions, lost reports and failed deletes, the stored status of
   * an untainted task never moves down the order queued, running, terminal, and a terminal status never changes.
   */
  lemma TaskNeverMovesBack(ws: seq<World>, steps: seq<Step>, i: nat, j: nat, t: int)
    requires Behaviour(ws, steps) && i <= j <= |steps|
    requires t in ws[i].db.tasks && t !in ws[j].tainted
    ensures t in ws[j].db.tasks
    ensures var before, after := ws[i].db.tasks[t].status, ws[j].db.tasks[t].status;
            && before.Rank() <= after.Rank()
            && (before.Terminal() ==> after == before)
  {
    BehaviourForward(ws, steps, i, j);
    hide Next;
    assert NoLower(ws[i].db.tasks[t].status, ws[j].db.tasks[t].status);
  }

  /** One runner process, and nobody else reports on scan tasks or stores schedules for them. */
  predicate Undisturbed(step: Step) {
    !step.Restart? && !step.ForeignReport? && (step.AddUserSchedule? ==> step.taskId == 0)
  }

  lemma UndisturbedStep(w: World, step: Step)
    requires Valid(w.db) && Enabled(w, step) && Undisturbed(step)
    ensures Apply(w, step).tainted <= w.tainted + {0}
  {
    hide Valid, AddRun, AddSchedules, HomeOf, Deliver, DropStale, Admit, Advance;
  }

  lemma {:induction false} NothingTainted(ws: seq<World>, steps: seq<Step>, i: nat)
    requires Behaviour(ws, steps) && i <= |steps| && forall k | 0 <= k < i :: Undisturbed(steps[k])
    ensures ws[i].tainted <= {0}
  {
    hide Apply, Enabled, Valid;
    if i > 0 {
      NothingTainted(ws, steps, i - 1);
      assert Next(ws[i - 1], steps[i - 1], ws[i]);
      UndisturbedStep(ws[i - 1], steps[i - 1]);
    }
  }

  /** So without restarts, schedules by users for scan tasks, and reports by others, no task ever moves back. */
  lemma UndisturbedTaskNeverMovesBack(ws: seq<World>, steps: seq<Step>, i: nat, j: nat, t: int)
    requires Behaviour(ws, steps) && i <= j <= |steps| && t in ws[i].db.tasks
    requires forall k | 0 <= k < j :: Undisturbed(steps[k])
    ensures t in ws[j].db.tasks
    ensures var before, after := ws[i].db.tasks[t].status, ws[j].db.tasks[t].status;
            before.Rank() <= after.Rank() && (before.Terminal() ==> after == before)
  {
    hide Inv, Valid, TablesOk, Next;
    NothingTainted(ws, steps, j);
    BehaviourInv(ws, steps, i);
    InvParts(ws[i]);
    TaskNeverMovesBack(ws, steps, i, j, t);
  }

  lemma {:induction false} StatusesForward(w: World, w': World, ids: seq<int>)
    requires TasksOk(w.db) && TasksOk(w'.db) && Forward(w, w') && AllIn(ids, w.db.tasks)
    requires forall i | 0 <= i < |ids| :: ids[i] !in w'.tainted
    ensures AllIn(ids, w'.db.tasks)
    ensures var a, b := StatusesOf(w.db.tasks, ids), StatusesOf(w'.db.tasks, ids);
            NoneLower(a, b) && forall i | 0 <= i < |ids| :: !a[i].Partial? && !b[i].Partial?
  {
    forall i | 0 <= i < |ids|
      ensures ids[i] in w'.db.tasks
      ensures NoLower(w.db.tasks[ids[i]].status, w'.db.tasks[ids[i]].status)
      ensures !w.db.tasks[ids[i]].status.Partial? && !w'.db.tasks[ids[i]].status.Partial?
    {
      ForwardTask(w, w', ids[i]);
    }
  }

  lemma ForwardTask(w: World, w': World, t: int)
    requires Forward(w, w') && TasksOk(w.db) && TasksOk(w'.db) && t in w.db.tasks && t !in w'.tainted
    ensures t in w'.db.tasks && NoLower(w.db.tasks[t].status, w'.db.tasks[t].status)
    ensures !w.db.tasks[t].status.Partial? && !w'.db.tasks[t].status.Partial?
  {
  }

  lemma RunMovesForward(w: World, w': World, r: int)
    requires Valid(w.db) && Valid(w'.db) && Forward(w, w') && r in w.db.runs
    requires forall i | 0 <= i < |w.db.runs[r].tasks| :: w.db.runs[r].tasks[i] !in w'.tainted
    ensures r in w'.db.runs && NoLower(w.db.runs[r].status, w'.db.runs[r].status)
  {
    var ids := w.db.runs[r].tasks;
    assert w'.db.runs[r].tasks == ids;
    assert AllIn(ids, w.db.tasks);
    StatusesForward(w, w', ids);
    RunNeverMovesBack(Queued, StatusesOf(w.db.tasks, ids), Queued, StatusesOf(w'.db.tasks, ids));
    assert Derived(w.db) && Derived(w'.db);
    hide Forward, TasksOk, NoneLower, NoLower, RecomputeStatus, StatusesOf;
  }

  /**
   * In every run the stored status of a scan run is the one derived from its tasks, it never moves back while its
   * tasks are untainted, and once the run is finished it stays as it is. Reports are served one at a time here;
   * `ScanRace` says what two overlapping ones do.
   */
  lemma ScanRunNeverMovesBack(ws: seq<World>, steps: seq<Step>, i: nat, j: nat, r: int)
    requires Behaviour(ws, steps) && i <= j <= |steps| && r in ws[i].db.runs
    requires forall k | 0 <= k < |ws[i].db.runs[r].tasks| :: ws[i].db.runs[r].tasks[k] !in ws[j].tainted
    ensures Valid(ws[i].db)
    ensures r in ws[j].db.runs
    ensures var before, after := ws[i].db.runs[r].status, ws[j].db.runs[r].status;
            && before.Rank() <= after.Rank()
            && (!IsScanRunActive(before) ==> after == before)
  {
    hide Inv, Valid, Forward, TablesOk, Next;
    BehaviourForward(ws, steps, i, j);
    BehaviourInv(ws, steps, i);
    BehaviourInv(ws, steps, j);
    InvParts(ws[i]);
    InvParts(ws[j]);
    RunMovesForward(ws[i], ws[j], r);
  }

  // ---------------------------------------------------------------------------
  // One job and one execution per schedule
  // ---------------------------------------------------------------------------

  /** The step asks the scheduler for a job for this schedule, and gets it. */
  predicate Starts(w: World, step: Step, id: int) {
    step == Entry(true) && Enabled(w, step) && w.pass.todo[0].id == id && id !in w.book.active
  }

  /** The step runs the job of this "once" schedule. */
  predicate Fires(w: World, step: Step, id: int) {
    step.Fire? && Enabled(w, step) && w.book.jobs[step.job].id == id && w.book.jobs[step.job].Once()
  }

  lemma StartsAndFires(w: World, step: Step, id: int)
    requires Inv(w) && Enabled(w, step)
    ensures var w' := Apply(w, step);
            && (Starts(w, step, id) ==> id !in w.started && id in w'.started)
            && (Fires(w, step, id) ==> id !in w.fired && id in w'.fired)
            && (!step.Restart? ==> w.started <= w'.started && w.fired <= w'.fired)
  {
    if Starts(w, step, id) {
      ScanInvariant.EntryIsNew(w);
    }
    assert FiredOk(w);
    hide Inv, Valid;
  }

  lemma NextHistory(w: World, step: Step, w': World)
    requires Inv(w) && Next(w, step, w') && !step.Restart?
    ensures w.started <= w'.started && w.fired <= w'.fired
  {
    StartsAndFires(w, step, 0);
  }

  lemma {:induction false} HistoryGrows(ws: seq<World>, steps: seq<Step>, i: nat, j: nat)
    requires Behaviour(ws, steps) && i <= j <= |steps|
    requires forall k | i <= k < j :: !steps[k].Restart?
    ensures ws[i].started <= ws[j].started && ws[i].fired <= ws[j].fired
    decreases j - i
  {
    hide Inv, Next;
    if i < j {
      HistoryGrows(ws, steps, i, j - 1);
      BehaviourInv(ws, steps, j - 1);
      NextHistory(ws[j - 1], steps[j - 1], ws[j]);
    }
  }

  /**
   * In one runner's lifetime a schedule gets one job at most, and a "once" schedule is run once at most, even when its
   * delete fails or `NewJob` failed on earlier polls: two of a kind have a restart between them.
   */
  lemma OnceIsOnce(ws: seq<World>, steps: seq<Step>, i: nat, j: nat, id: int)
    requires Behaviour(ws, steps) && i < j < |steps|
    requires
      || (Starts(ws[i], steps[i], id) && Starts(ws[j], steps[j], id))
      || (Fires(ws[i], steps[i], id) && Fires(ws[j], steps[j], id))
    ensures exists k | i < k < j :: steps[k].Restart?
  {
    BehaviourInv(ws, steps, i);
    BehaviourInv(ws, steps, j);
    hide Inv, Valid, Apply, Enabled;
    assert Next(ws[i], steps[i], ws[i + 1]) && Next(ws[j], steps[j], ws[j + 1]);
    StartsAndFires(ws[i], steps[i], id);
    StartsAndFires(ws[j], steps[j], id);
    if forall k | i + 1 <= k < j :: !steps[k].Restart? {
      HistoryGrows(ws, steps, i + 1, j);
    }
  }
}
