/** Statuses of scan tasks and scan runs, and the rule that derives the one from the others. */
module ScanStatus {
  import opened Text

  datatype Status = Queued | Running | Succeeded | Failed | Partial
  {
    predicate Terminal() { Succeeded? || Failed? || Partial? }

    /** Position in the order queued, running, terminal. */
    function Rank(): nat { if Queued? then 0 else if Running? then 1 else 2 }
  }

  function StatusName(s: Status): string {
    match s
    case Queued => "queued"
    case Running => "running"
    case Succeeded => "succeeded"
    case Failed => "failed"
    case Partial => "partial"
  }

  /** The names of `ScanStatus.TaskStatuses`; a run alone can be partial. */
  function ParseTaskStatus(name: string): (r: Option<Status>)
    ensures forall s: Status :: r == Some(s) <==> s != Partial && name == StatusName(s)
    ensures r.None? <==> name !in ["queued", "running", "succeeded", "failed"]
    ensures (r == Some(Running) ==> name == "running") && (r == Some(Failed) ==> name == "failed")
    ensures r == Some(Succeeded) ==> name == "succeeded"
  {
    if name == "queued" then Some(Queued)
    else if name == "running" then Some(Running)
    else if name == "succeeded" then Some(Succeeded)
    else if name == "failed" then Some(Failed)
    else None
  }

  function CountFailed(tasks: seq<Status>): nat {
    if tasks == [] then 0 else (if tasks[0].Failed? then 1 else 0) + CountFailed(tasks[1..])
  }

  /** `ScanRun.RecomputeStatus`: a run without tasks keeps the status it has. */
  function RecomputeStatus(current: Status, tasks: seq<Status>): Status {
    if |tasks| == 0 then current
    else if Queued in tasks || Running in tasks then
      if Running in tasks || Succeeded in tasks || Failed in tasks || Partial in tasks then Running else Queued
    else
      var failed := CountFailed(tasks);
      if failed == 0 then Succeeded else if failed == |tasks| then Failed else Partial
  }

  /** `isScanRunActive` of the dashboard */
  predicate IsScanRunActive(run: Status) {
    run.Queued? || run.Running?
  }

  lemma {:induction false} CountFailedBounds(tasks: seq<Status>)
    ensures CountFailed(tasks) <= |tasks|
    ensures CountFailed(tasks) == 0 <==> forall i | 0 <= i < |tasks| :: !tasks[i].Failed?
    ensures CountFailed(tasks) == |tasks| <==> forall i | 0 <= i < |tasks| :: tasks[i].Failed?
  {
    if tasks != [] {
      CountFailedBounds(tasks[1..]);
      assert forall i | 1 <= i < |tasks| :: tasks[i] == tasks[1..][i - 1];
      if CountFailed(tasks) == 0 {
        assert forall i | 1 <= i < |tasks| :: !tasks[i].Failed?;
      }
    }
  }

  /** What each derived status says about the tasks of a run that has some. */
  lemma RecomputeStatusMeaning(current: Status, tasks: seq<Status>)
    requires tasks != [] && forall i | 0 <= i < |tasks| :: !tasks[i].Partial?
    ensures var s := RecomputeStatus(current, tasks);
            && (s.Queued? <==> forall i | 0 <= i < |tasks| :: tasks[i].Queued?)
            && (IsScanRunActive(s) <==> exists i | 0 <= i < |tasks| :: !tasks[i].Terminal())
            && (s.Succeeded? <==> forall i | 0 <= i < |tasks| :: tasks[i].Succeeded?)
            && (s.Failed? <==> forall i | 0 <= i < |tasks| :: tasks[i].Failed?)
            && (s.Partial? <==> (forall i | 0 <= i < |tasks| :: tasks[i].Terminal())
                                && (exists i | 0 <= i < |tasks| :: tasks[i].Succeeded?)
                                && (exists i | 0 <= i < |tasks| :: tasks[i].Failed?))
  {
    CountFailedBounds(tasks);
    assert tasks[0] in tasks;
  }

  /** The order of the tasks is irrelevant. */
  lemma RecomputeStatusOfMultiset(current: Status, a: seq<Status>, b: seq<Status>)
    requires multiset(a) == multiset(b)
    ensures RecomputeStatus(current, a) == RecomputeStatus(current, b)
  {
    assert |a| == |multiset(a)| == |multiset(b)| == |b|;
    CountFailedOfMultiset(a);
    CountFailedOfMultiset(b);
    assert forall s: Status :: s in a <==> s in multiset(a);
    assert forall s: Status :: s in b <==> s in multiset(b);
  }

  lemma {:induction false} CountFailedOfMultiset(a: seq<Status>)
    ensures CountFailed(a) == multiset(a)[Failed]
  {
    if a != [] {
      CountFailedOfMultiset(a[1..]);
      assert a == [a[0]] + a[1..];
      assert multiset(a) == multiset{a[0]} + multiset(a[1..]);
    }
  }

  /** `run_status` of the demo data generator, which mirrors the rule of the server. */
  function RunStatus(tasks: seq<Status>): Status {
    if tasks == [] then Queued
    else if exists i | 0 <= i < |tasks| :: tasks[i] == Queued || tasks[i] == Running then
      if exists i | 0 <= i < |tasks| :: tasks[i] != Queued then Running else Queued
    else
      var failed := multiset(tasks)[Failed];
      if failed == 0 then Succeeded else if failed == |tasks| then Failed else Partial
  }

  /** The mirror agrees with the server exactly when there are tasks or the run is still queued. */
  lemma MirrorAgrees(current: Status, tasks: seq<Status>)
    ensures RunStatus(tasks) == RecomputeStatus(current, tasks) <==> tasks != [] || current == Queued
  {
    CountFailedOfMultiset(tasks);
  }

  /** A later status of the same task: the same one, or one further along. */
  predicate NoLower(before: Status, after: Status) {
    before == after || before.Rank() < after.Rank()
  }

  predicate NoneLower(a: seq<Status>, b: seq<Status>) {
    |a| == |b| && forall i | 0 <= i < |a| :: NoLower(a[i], b[i])
  }

  /** While tasks only move forward, a run never moves back and never leaves a finished state. */
  lemma RunNeverMovesBack(current: Status, a: seq<Status>, current': Status, b: seq<Status>)
    requires a != [] && NoneLower(a, b)
    requires forall i | 0 <= i < |a| :: !a[i].Partial? && !b[i].Partial?
    ensures NoLower(RecomputeStatus(current, a), RecomputeStatus(current', b))
  {
    RecomputeStatusMeaning(current, a);
    RecomputeStatusMeaning(current', b);
    if !IsScanRunActive(RecomputeStatus(current, a)) {
      assert forall i | 0 <= i < |a| :: a[i].Terminal();
      assert forall i | 0 <= i < |a| :: NoLower(a[i], b[i]) && a[i] == b[i];
      assert a == b;
    } else if RecomputeStatus(current, a).Running? {
      var k :| 0 <= k < |a| && !a[k].Queued?;
      assert NoLower(a[k], b[k]) && !b[k].Queued?;
    }
  }
}
