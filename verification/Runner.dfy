/**
 * The runner: reconciling the scheduler with a list of schedules, and running one
 * schedule. The methods keep the source's loops; the functions they are proved
 * against are the ones the execution protocol takes its steps from.
 */
module Runner {
  import opened Collections
  import opened Text
  import opened ScanStatus
  import opened ScanApi
  import CommandLine

  // ---------------------------------------------------------------------------
  // Reconciliation
  // ---------------------------------------------------------------------------

  /** The map of active schedules, and the scheduler's registered jobs and next job id. */
  datatype Book = Book(active: map<int, int>, jobs: map<int, Schedule>, nextJob: int)

  const EMPTY_BOOK := Book(map[], map[], 0)

  /** Active ids have distinct, already issued jobs; a registered job belongs to the active id of its schedule. */
  predicate BookOk(b: Book) {
    && (forall id | id in b.active :: b.active[id] < b.nextJob)
    && (forall j | j in b.jobs :: b.jobs[j].id in b.active && b.active[b.jobs[j].id] == j)
    && (forall x, y | x in b.active && y in b.active && b.active[x] == b.active[y] :: x == y)
  }

  /** One turn of the first loop; `accepted` is the outcome of `NewJob`, should it be called. */
  function Admit(b: Book, s: Schedule, accepted: bool): Book {
    if s.id in b.active || !accepted then b
    else Book(b.active[s.id := b.nextJob], b.jobs[b.nextJob := s], b.nextJob + 1)
  }

  function AdmitAll(b: Book, list: seq<Schedule>, verdicts: seq<bool>): Book
    requires |list| == |verdicts|
    decreases |list|
  {
    if list == [] then b else AdmitAll(Admit(b, list[0], verdicts[0]), list[1..], verdicts[1..])
  }

  function Ids(list: seq<Schedule>): set<int> {
    set s | s in list :: s.id
  }

  function Stale(b: Book, seen: set<int>): set<int> {
    set id | id in b.active && id !in seen
  }

  function JobsOf(b: Book, ids: set<int>): set<int>
    requires ids <= b.active.Keys
  {
    set id | id in ids :: b.active[id]
  }

  function Drop(b: Book, ids: set<int>): Book
    requires ids <= b.active.Keys
  {
    b.(active := b.active - ids, jobs := b.jobs - JobsOf(b, ids))
  }

  /** The second loop. */
  function DropStale(b: Book, seen: set<int>): Book {
    Drop(b, Stale(b, seen))
  }

  function Reconcile(b: Book, list: seq<Schedule>, verdicts: seq<bool>): Book
    requires |list| == |verdicts|
  {
    DropStale(AdmitAll(b, list, verdicts), Ids(list))
  }

  /** The ids for which `NewJob` is called, in order. */
  function NewJobCalls(b: Book, list: seq<Schedule>, verdicts: seq<bool>): seq<int>
    requires |list| == |verdicts|
    decreases |list|
  {
    if list == [] then []
    else (if list[0].id in b.active then [] else [list[0].id])
         + NewJobCalls(Admit(b, list[0], verdicts[0]), list[1..], verdicts[1..])
  }

  /** The ids for which a job is started, in order. */
  function Starts(b: Book, list: seq<Schedule>, verdicts: seq<bool>): seq<int>
    requires |list| == |verdicts|
    decreases |list|
  {
    if list == [] then []
    else (if list[0].id in b.active || !verdicts[0] then [] else [list[0].id])
         + Starts(Admit(b, list[0], verdicts[0]), list[1..], verdicts[1..])
  }

  lemma {:induction false} AdmitAllOk(b: Book, list: seq<Schedule>, verdicts: seq<bool>)
    requires |list| == |verdicts| && BookOk(b)
    ensures BookOk(AdmitAll(b, list, verdicts))
    decreases |list|
  {
    if list != [] {
      AdmitAllOk(Admit(b, list[0], verdicts[0]), list[1..], verdicts[1..]);
    }
  }

  lemma ReconcileOk(b: Book, list: seq<Schedule>, verdicts: seq<bool>)
    requires |list| == |verdicts| && BookOk(b)
    ensures BookOk(Reconcile(b, list, verdicts))
  {
    AdmitAllOk(b, list, verdicts);
  }

  /** The listed entries of an id for which `NewJob` would succeed. */
  predicate Accepted(list: seq<Schedule>, verdicts: seq<bool>, id: int)
    requires |list| == |verdicts|
  {
    exists i | 0 <= i < |list| :: list[i].id == id && verdicts[i]
  }

  lemma {:induction false} AdmitAllActive(b: Book, list: seq<Schedule>, verdicts: seq<bool>, id: int)
    requires |list| == |verdicts|
    ensures var b' := AdmitAll(b, list, verdicts);
            && (id in b'.active <==> id in b.active || Accepted(list, verdicts, id))
            && (id in b.active ==> b'.active[id] == b.active[id])
            && (id in b'.active && id !in b.active ==> b.nextJob <= b'.active[id] < b'.nextJob)
            && b.nextJob <= b'.nextJob
    decreases |list|
  {
    if list != [] {
      AdmitAllActive(Admit(b, list[0], verdicts[0]), list[1..], verdicts[1..], id);
      if Accepted(list[1..], verdicts[1..], id) {
        var i :| 0 <= i < |list[1..]| && list[1..][i].id == id && verdicts[1..][i];
        assert list[i + 1].id == id && verdicts[i + 1];
      }
      if Accepted(list, verdicts, id) {
        var i :| 0 <= i < |list| && list[i].id == id && verdicts[i];
        assert i == 0 || (list[1..][i - 1].id == id && verdicts[1..][i - 1]);
      }
    }
  }

  /**
   * After a pass the active ids are exactly the listed ones that were active already or whose `NewJob`
   * succeeded. Ids that stay active keep their job, and new ones get a job never issued before.
   */
  lemma ReconcileActive(b: Book, list: seq<Schedule>, verdicts: seq<bool>, id: int)
    requires |list| == |verdicts|
    ensures var b' := Reconcile(b, list, verdicts);
            && (id in b'.active <==> id in Ids(list) && (id in b.active || Accepted(list, verdicts, id)))
            && (id in b'.active && id in b.active ==> b'.active[id] == b.active[id])
            && (id in b'.active && id !in b.active ==> b.nextJob <= b'.active[id])
  {
    AdmitAllActive(b, list, verdicts, id);
  }

  /** `j` runs a listed entry of `id` for which `NewJob` succeeded. */
  predicate RunsListed(list: seq<Schedule>, verdicts: seq<bool>, id: int, jobs: map<int, Schedule>, j: int)
    requires |list| == |verdicts|
  {
    j in jobs && exists i | 0 <= i < |list| :: list[i].id == id && verdicts[i] && jobs[j] == list[i]
  }

  lemma {:induction false} AdmitAllJobs(b: Book, list: seq<Schedule>, verdicts: seq<bool>, id: int)
    requires |list| == |verdicts|
    ensures var b' := AdmitAll(b, list, verdicts);
            && (forall j | j < b.nextJob :: (j in b'.jobs <==> j in b.jobs) && (j in b.jobs ==> b'.jobs[j] == b.jobs[j]))
            && (id in b.active ==> id in b'.active && b'.active[id] == b.active[id])
            && (id in b'.active && id !in b.active ==> RunsListed(list, verdicts, id, b'.jobs, b'.active[id]))
    decreases |list|
  {
    if list != [] {
      var b1, b' := Admit(b, list[0], verdicts[0]), AdmitAll(b, list, verdicts);
      AdmitAllJobs(b1, list[1..], verdicts[1..], id);
      if id in b'.active && id !in b.active {
        if id in b1.active {
          assert list[0].id == id && verdicts[0] && b'.jobs[b'.active[id]] == list[0];
        } else {
          var i :| 0 <= i < |list[1..]| && list[1..][i].id == id && verdicts[1..][i]
                   && b'.jobs[b'.active[id]] == list[1..][i];
          assert list[i + 1].id == id && verdicts[i + 1] && b'.jobs[b'.active[id]] == list[i + 1];
        }
      }
    }
  }

  /** After a pass the job of a new active id runs a listed entry, and the job of an old one is the one it was. */
  lemma ReconcileJobs(b: Book, list: seq<Schedule>, verdicts: seq<bool>, id: int)
    requires |list| == |verdicts| && BookOk(b) && id in Reconcile(b, list, verdicts).active
    ensures var b' := Reconcile(b, list, verdicts);
            var j := b'.active[id];
            && (id !in b.active ==> RunsListed(list, verdicts, id, b'.jobs, j))
            && (id in b.active ==> (j in b'.jobs <==> j in b.jobs) && (j in b.jobs ==> b'.jobs[j] == b.jobs[j]))
  {
    hide AdmitAll;
    AdmitAllOk(b, list, verdicts);
    AdmitAllJobs(b, list, verdicts, id);
    AdmitAllActive(b, list, verdicts, id);
  }

  /** However often a list repeats an id, it starts one job at most, and none for an active id. */
  lemma {:induction false} StartsOnce(b: Book, list: seq<Schedule>, verdicts: seq<bool>)
    requires |list| == |verdicts|
    ensures var started := Starts(b, list, verdicts);
            && (forall i, j | 0 <= i < j < |started| :: started[i] != started[j])
            && (forall i | 0 <= i < |started| :: started[i] !in b.active && started[i] in Ids(list))
            && AdmitAll(b, list, verdicts).nextJob == b.nextJob + |started|
    decreases |list|
  {
    if list != [] {
      var b1 := Admit(b, list[0], verdicts[0]);
      var rest := Starts(b1, list[1..], verdicts[1..]);
      StartsOnce(b1, list[1..], verdicts[1..]);
      forall i | 0 <= i < |rest|
        ensures rest[i] in Ids(list)
      {
        assert rest[i] in Ids(list[1..]);
      }
      assert list[0] in list;
    }
  }

  /** A pass over a list asks for no job exactly when every listed id is active, and then only drops. */
  lemma {:induction false} QuietPass(b: Book, list: seq<Schedule>, verdicts: seq<bool>)
    requires |list| == |verdicts|
    ensures NewJobCalls(b, list, verdicts) == [] <==> Ids(list) <= b.active.Keys
    ensures Ids(list) <= b.active.Keys ==> AdmitAll(b, list, verdicts) == b
    decreases |list|
  {
    if list != [] {
      QuietPass(b, list[1..], verdicts[1..]);
      assert Ids(list) == {list[0].id} + Ids(list[1..]) by {
        assert list == [list[0]] + list[1..];
      }
    }
  }

  /**
   * A second pass over the same list makes no scheduler call and changes nothing, exactly when the first
   * pass left every listed id active - in particular when no `NewJob` failed.
   */
  lemma SecondPass(b: Book, list: seq<Schedule>, verdicts: seq<bool>, verdicts': seq<bool>)
    requires |list| == |verdicts| == |verdicts'|
    ensures var b' := Reconcile(b, list, verdicts);
            && (NewJobCalls(b', list, verdicts') == [] <==>
                forall id | id in Ids(list) :: id in b.active || Accepted(list, verdicts, id))
            && (NewJobCalls(b', list, verdicts') == [] ==> Reconcile(b', list, verdicts') == b')
            && Stale(AdmitAll(b', list, verdicts'), Ids(list)) == {}
    ensures (forall i | 0 <= i < |verdicts| :: verdicts[i]) ==>
              NewJobCalls(Reconcile(b, list, verdicts), list, verdicts') == []
  {
    var b' := Reconcile(b, list, verdicts);
    QuietPass(b', list, verdicts');
    forall id
      ensures id in b'.active <==> id in Ids(list) && (id in b.active || Accepted(list, verdicts, id))
    {
      ReconcileActive(b, list, verdicts, id);
    }
    forall id | id in AdmitAll(b', list, verdicts').active
      ensures id in Ids(list)
    {
      AdmitAllActive(b', list, verdicts', id);
    }
    if Ids(list) <= b'.active.Keys {
      assert Stale(b', Ids(list)) == {};
      assert b'.active - {} == b'.active && b'.jobs - {} == b'.jobs;
    }
    if forall i | 0 <= i < |verdicts| :: verdicts[i] {
      forall id | id in Ids(list)
        ensures Accepted(list, verdicts, id)
      {
        var s :| s in list && s.id == id;
        var i :| 0 <= i < |list| && list[i] == s;
        assert list[i].id == id && verdicts[i];
      }
    }
  }

  // ---------------------------------------------------------------------------
  // Running one schedule
  // ---------------------------------------------------------------------------

  /** What a running schedule sends, in order: reports and the delete to the API, the command to the executor. */
  datatype Message =
    | Report(taskId: int, status: Status, error: Option<string>)
    | Execute(name: string, args: seq<string>)
    | Delete(id: int)

  const UNRESOLVED := "command line has unresolved placeholders"
  const NO_COMMAND := "schedule has no command to run"

  /** Why a schedule is refused before anything runs, if it is. */
  function Refusal(c: Schedule): Option<string> {
    if Contains(c.commandLine, "{{{") then Some(UNRESOLVED)
    else if CommandLine.Split(c.commandLine) == [] then Some(NO_COMMAND)
    else None
  }

  /** Which lines are refused: those with a placeholder left anywhere, and blank ones. */
  lemma RefusedExactly(c: Schedule)
    ensures Refusal(c) == Some(UNRESOLVED) <==> exists i: nat :: StandsAt(c.commandLine, "{{{", i)
    ensures Refusal(c).None? <==> !IsBlank(c.commandLine) && forall i: nat :: !StandsAt(c.commandLine, "{{{", i)
    ensures Refusal(c).Some? ==> Refusal(c) == Some(UNRESOLVED) || Refusal(c) == Some(NO_COMMAND)
  {
    hide Contains, StandsAt, CommandLine.Split;
    ContainsMeaning(c.commandLine, "{{{");
    CommandLine.SplitNothing(c.commandLine);
    assert UNRESOLVED[1] != NO_COMMAND[1];
  }

  function ReportOf(c: Schedule, status: Status, error: Option<string>): seq<Message> {
    if c.taskId == 0 then [] else [Report(c.taskId, status, error)]
  }

  function FinalStatus(error: Option<string>): Status {
    if error.Some? then Failed else Succeeded
  }

  /** All that a schedule sends; `outcome` is the error of executing or uploading, if any. */
  function Script(c: Schedule, outcome: Option<string>): seq<Message> {
    var refusal := Refusal(c);
    (if refusal.Some? then ReportOf(c, Failed, refusal)
     else
       var parts := CommandLine.Split(c.commandLine);
       ReportOf(c, Running, None) + [Execute(parts[0], parts[1..])] + ReportOf(c, FinalStatus(outcome), outcome))
    + (if c.Once() then [Delete(c.id)] else [])
  }

  function ReportsOf(messages: seq<Message>): seq<Message> {
    if messages == [] then []
    else (if messages[0].Report? then [messages[0]] else []) + ReportsOf(messages[1..])
  }

  /**
   * What a scan task hears: a refused schedule reports `failed` and why; any other reports `running` and then
   * `succeeded` exactly when there was no error, else `failed` with the error. Only then is the schedule deleted.
   */
  lemma ScriptReports(c: Schedule, outcome: Option<string>)
    requires c.taskId != 0
    ensures Refusal(c).Some? ==> ReportsOf(Script(c, outcome)) == [Report(c.taskId, Failed, Refusal(c))]
    ensures Refusal(c).None? && outcome == None ==>
              ReportsOf(Script(c, outcome)) == [Report(c.taskId, Running, None), Report(c.taskId, Succeeded, None)]
    ensures Refusal(c).None? && outcome != None ==>
              ReportsOf(Script(c, outcome)) == [Report(c.taskId, Running, None), Report(c.taskId, Failed, outcome)]
    ensures var script, parts := Script(c, outcome), CommandLine.Split(c.commandLine);
            && (forall i | 0 <= i < |script| :: script[i].Delete? <==> c.Once() && i == |script| - 1)
            && (c.Once() ==> script != [] && script[|script| - 1] == Delete(c.id))
            && (Refusal(c).Some? ==> forall i | 0 <= i < |script| :: !script[i].Execute?)
            && (Refusal(c).None? ==>
                  && |script| > 2 && parts != [] && script[1] == Execute(parts[0], parts[1..])
                  && forall i | 0 <= i < |script| && i != 1 :: !script[i].Execute?)
  {
    hide CommandLine.Split;
    hide Contains;
    var script := Script(c, outcome);
    var tail: seq<Message> := if c.Once() then [Delete(c.id)] else [];
    assert tail != [] ==> tail[1..] == [];
    assert ReportsOf(tail) == [];
    if Refusal(c).Some? {
      var first := Report(c.taskId, Failed, Refusal(c));
      assert script == [first] + tail;
      assert script[1..] == tail;
    } else {
      var parts := CommandLine.Split(c.commandLine);
      var first, last := Report(c.taskId, Running, None), Report(c.taskId, FinalStatus(outcome), outcome);
      var exec := Execute(parts[0], parts[1..]);
      assert script == [first, exec, last] + tail;
      assert script[1..] == [exec, last] + tail;
      assert script[1..][1..] == [last] + tail;
      assert script[1..][1..][1..] == tail;
      assert ReportsOf([last] + tail) == [last];
      assert ReportsOf([exec, last] + tail) == [last];
    }
  }

  /** A schedule of no scan task reports nothing: it is executed unless refused, and deleted if it runs once. */
  lemma ScriptOfNoTask(c: Schedule, outcome: Option<string>)
    requires c.taskId == 0
    ensures Refusal(c).Some? ==> Script(c, outcome) == if c.Once() then [Delete(c.id)] else []
    ensures Refusal(c).None? ==>
              var parts := CommandLine.Split(c.commandLine);
              && parts != []
              && Script(c, outcome) == [Execute(parts[0], parts[1..])] + if c.Once() then [Delete(c.id)] else []
  {
    hide CommandLine.Split, Contains;
  }

  /** The program counter of one running schedule. */
  datatype Pc = Begin | SendRunning | Executing | SendFinal(error: Option<string>) | Deleting | Done
  {
    function Left(): nat {
      match this
      case Begin => 5 case SendRunning => 4 case Executing => 3 case SendFinal(_) => 2 case Deleting => 1 case Done => 0
    }
  }

  function Advance(c: Schedule, pc: Pc, outcome: Option<string>): (pc': Pc)
    requires !pc.Done?
    ensures pc'.Left() < pc.Left()
  {
    match pc
    case Begin => if Refusal(c).Some? then SendFinal(Refusal(c)) else SendRunning
    case SendRunning => Executing
    case Executing => SendFinal(outcome)
    case SendFinal(_) => if c.Once() then Deleting else Done
    case Deleting => Done
  }

  function Emit(c: Schedule, pc: Pc): seq<Message> {
    match pc
    case SendRunning => ReportOf(c, Running, None)
    case Executing =>
      var parts := CommandLine.Split(c.commandLine);
      if parts == [] then [] else [Execute(parts[0], parts[1..])]
    case SendFinal(error) => ReportOf(c, FinalStatus(error), error)
    case Deleting => [Delete(c.id)]
    case _ => []
  }

  function Walk(c: Schedule, pc: Pc, outcome: Option<string>): seq<Message>
    decreases pc.Left()
  {
    if pc.Done? then [] else Emit(c, pc) + Walk(c, Advance(c, pc, outcome), outcome)
  }

  function Closing(c: Schedule, error: Option<string>): seq<Message> {
    ReportOf(c, FinalStatus(error), error) + if c.Once() then [Delete(c.id)] else []
  }

  lemma WalkClosing(c: Schedule, error: Option<string>, outcome: Option<string>)
    ensures Walk(c, SendFinal(error), outcome) == Closing(c, error)
  {
    assert Walk(c, Done, outcome) == [];
    assert Walk(c, Deleting, outcome) == [Delete(c.id)] + [];
  }

  /** The program counter sends exactly the script. */
  lemma WalkIsScript(c: Schedule, outcome: Option<string>)
    ensures Walk(c, Begin, outcome) == Script(c, outcome)
  {
    hide CommandLine.Split;
    hide Contains;
    if Refusal(c).Some? {
      WalkClosing(c, Refusal(c), outcome);
      assert Walk(c, Begin, outcome) == [] + Walk(c, SendFinal(Refusal(c)), outcome);
    } else {
      WalkClosing(c, outcome, outcome);
      var parts := CommandLine.Split(c.commandLine);
      var running, exec := ReportOf(c, Running, None), [Execute(parts[0], parts[1..])];
      assert Walk(c, Executing, outcome) == exec + Closing(c, outcome);
      assert Walk(c, SendRunning, outcome) == running + Walk(c, Executing, outcome);
      assert Walk(c, Begin, outcome) == [] + Walk(c, SendRunning, outcome);
      assert Script(c, outcome) == running + (exec + Closing(c, outcome));
    }
  }

  // ---------------------------------------------------------------------------
  // The objects
  // ---------------------------------------------------------------------------

  lemma DropNone(b: Book)
    ensures Drop(b, {}) == b && JobsOf(b, {}) == {}
  {
    assert b.active - {} == b.active;
    assert b.jobs - {} == b.jobs;
  }

  lemma DropOne(b: Book, gone: set<int>, id: int)
    requires BookOk(b) && gone <= b.active.Keys && id in b.active && id !in gone
    ensures var b1, b2 := Drop(b, gone), Drop(b, gone + {id});
            && id in b1.active && b1.active[id] == b.active[id]
            && b2 == b1.(active := b1.active - {id}, jobs := b1.jobs - {b.active[id]})
    ensures multiset(JobsOf(b, gone + {id})) == multiset(JobsOf(b, gone)) + multiset{b.active[id]}
  {
    var job := b.active[id];
    assert job !in JobsOf(b, gone);
    assert JobsOf(b, gone + {id}) == JobsOf(b, gone) + {job};
    assert b.active - (gone + {id}) == (b.active - gone) - {id};
    assert b.jobs - (JobsOf(b, gone) + {job}) == (b.jobs - JobsOf(b, gone)) - {job};
  }

  /** One entry of a list, seen from the loop that has reached it. */
  lemma AdmitStep(b: Book, list: seq<Schedule>, verdicts: seq<bool>, i: nat)
    requires i < |list| == |verdicts|
    ensures Ids(list[..i + 1]) == Ids(list[..i]) + {list[i].id}
    ensures var b' := Admit(b, list[i], verdicts[i]);
            && AdmitAll(b, list[i..], verdicts[i..]) == AdmitAll(b', list[i + 1..], verdicts[i + 1..])
            && NewJobCalls(b, list[i..], verdicts[i..])
               == (if list[i].id in b.active then [] else [list[i].id])
                  + NewJobCalls(b', list[i + 1..], verdicts[i + 1..])
  {
    assert list[i..][1..] == list[i + 1..] && verdicts[i..][1..] == verdicts[i + 1..];
    assert list[..i + 1] == list[..i] + [list[i]];
  }

  lemma AdmitEnds(list: seq<Schedule>, verdicts: seq<bool>)
    requires |list| == |verdicts|
    ensures Ids(list[..0]) == {} && list[..|list|] == list
    ensures list[0..] == list && verdicts[0..] == verdicts
    ensures forall b: Book ::
              && AdmitAll(b, list[|list|..], verdicts[|list|..]) == b
              && NewJobCalls(b, list[|list|..], verdicts[|list|..]) == []
  {
  }

  /** gocron, as far as the runner uses it: registered jobs, fresh ids, and the calls made so far. */
  class Scheduler {
    var jobs: map<int, Schedule>
    var nextJob: int
    var newJobCalls: seq<int>
    var removeCalls: multiset<int>

    method NewJob(s: Schedule, accepted: bool) returns (job: Option<int>)
      modifies this
      ensures newJobCalls == old(newJobCalls) + [s.id] && removeCalls == old(removeCalls)
      ensures accepted ==> job == Some(old(nextJob)) && jobs == old(jobs)[old(nextJob) := s] && nextJob == old(nextJob) + 1
      ensures !accepted ==> job == None && jobs == old(jobs) && nextJob == old(nextJob)
    {
      newJobCalls := newJobCalls + [s.id];
      if !accepted {
        return None;
      }
      job := Some(nextJob);
      jobs := jobs[nextJob := s];
      nextJob := nextJob + 1;
    }

    method RemoveJob(job: int) returns (found: bool)
      modifies this`jobs, this`removeCalls
      ensures found == (job in old(jobs)) && jobs == old(jobs) - {job}
      ensures removeCalls == old(removeCalls) + multiset{job}
    {
      found := job in jobs;
      jobs := jobs - {job};
      removeCalls := removeCalls + multiset{job};
    }
  }

  class App {
    var activeScheduleIds: map<int, int>
    var sent: seq<Message>

    function BookOf(s: Scheduler): Book
      reads this, s
    {
      Book(activeScheduleIds, s.jobs, s.nextJob)
    }

    /** `reconcileSchedules`; `verdicts[i]` is the outcome of `NewJob` for the i-th entry, should it be called. */
    method ReconcileSchedules(s: Scheduler, schedules: seq<Schedule>, verdicts: seq<bool>)
      requires |schedules| == |verdicts| && BookOk(BookOf(s))
      modifies this`activeScheduleIds, s
      ensures BookOf(s) == Reconcile(old(BookOf(s)), schedules, verdicts) && BookOk(BookOf(s))
      ensures s.newJobCalls == old(s.newJobCalls) + NewJobCalls(old(BookOf(s)), schedules, verdicts)
      ensures var admitted := AdmitAll(old(BookOf(s)), schedules, verdicts);
              s.removeCalls == old(s.removeCalls) + multiset(JobsOf(admitted, Stale(admitted, Ids(schedules))))
    {
      AdmitAllOk(BookOf(s), schedules, verdicts);
      ReconcileOk(BookOf(s), schedules, verdicts);
      var seenIds := AdmitListed(s, schedules, verdicts);
      RemoveStale(s, seenIds);
    }

    /** The first loop of `reconcileSchedules`. */
    method AdmitListed(s: Scheduler, schedules: seq<Schedule>, verdicts: seq<bool>) returns (seenIds: set<int>)
      requires |schedules| == |verdicts|
      modifies this`activeScheduleIds, s
      ensures seenIds == Ids(schedules)
      ensures BookOf(s) == AdmitAll(old(BookOf(s)), schedules, verdicts)
      ensures s.newJobCalls == old(s.newJobCalls) + NewJobCalls(old(BookOf(s)), schedules, verdicts)
      ensures s.removeCalls == old(s.removeCalls)
    {
      hide AdmitAll, NewJobCalls, Ids;
      seenIds := {};
      AdmitEnds(schedules, verdicts);
      for i := 0 to |schedules|
        invariant seenIds == Ids(schedules[..i])
        invariant AdmitAll(BookOf(s), schedules[i..], verdicts[i..]) == AdmitAll(old(BookOf(s)), schedules, verdicts)
        invariant s.newJobCalls + NewJobCalls(BookOf(s), schedules[i..], verdicts[i..])
               == old(s.newJobCalls) + NewJobCalls(old(BookOf(s)), schedules, verdicts)
        invariant s.removeCalls == old(s.removeCalls)
      {
        var commandSchedule := schedules[i];
        AdmitStep(BookOf(s), schedules, verdicts, i);
        seenIds := seenIds + {commandSchedule.id};
        if commandSchedule.id in activeScheduleIds {
          continue;
        }
        var j := s.NewJob(commandSchedule, verdicts[i]);
        if j.None? {
          continue;
        }
        activeScheduleIds := activeScheduleIds[commandSchedule.id := j.value];
      }
    }

    /** The second loop: ids that are no longer listed are removed once each, in any order. */
    method RemoveStale(s: Scheduler, seenIds: set<int>)
      requires BookOk(BookOf(s))
      modifies this`activeScheduleIds, s`jobs, s`removeCalls
      ensures BookOf(s) == DropStale(old(BookOf(s)), seenIds)
      ensures s.removeCalls
           == old(s.removeCalls) + multiset(JobsOf(old(BookOf(s)), Stale(old(BookOf(s)), seenIds)))
    {
      hide Drop;
      hide JobsOf;
      ghost var book := BookOf(s);
      ghost var stale := Stale(book, seenIds);
      var todo := activeScheduleIds.Keys - seenIds;
      assert todo == stale;
      hide Stale;
      ghost var gone: set<int> := {};
      DropNone(book);
      while todo != {}
        invariant gone <= stale && todo == stale - gone
        invariant BookOf(s) == Drop(book, gone)
        invariant s.removeCalls == old(s.removeCalls) + multiset(JobsOf(book, gone))
      {
        HasElement(todo);
        var id :| id in todo;
        DropOne(book, gone, id);
        var found := s.RemoveJob(activeScheduleIds[id]);
        activeScheduleIds := activeScheduleIds - {id};
        todo, gone := todo - {id}, gone + {id};
      }
      assert gone == stale;
    }

    method ReportStatus(c: Schedule, status: Status, error: Option<string>)
      modifies this`sent
      ensures sent == old(sent) + ReportOf(c, status, error)
    {
      if c.taskId == 0 {
        return;
      }
      sent := sent + [Report(c.taskId, status, error)];
    }

    /** `executeSchedule`; `outcome` is the error of the executor or of the upload, if any. */
    method ExecuteSchedule(c: Schedule, outcome: Option<string>) returns (error: Option<string>)
      modifies this`sent
      ensures error == if Refusal(c).Some? then Refusal(c) else outcome
      ensures Refusal(c).Some? ==> sent == old(sent)
      ensures Refusal(c).None? ==>
                var parts := CommandLine.Split(c.commandLine);
                sent == old(sent) + ReportOf(c, Running, None) + [Execute(parts[0], parts[1..])]
    {
      if Contains(c.commandLine, "{{{") {
        return Some(UNRESOLVED);
      }
      var parts := CommandLine.SplitCommandLine(c.commandLine);
      if |parts| == 0 {
        return Some(NO_COMMAND);
      }
      ReportStatus(c, Running, None);
      sent := sent + [Execute(parts[0], parts[1..])];
      return outcome;
    }

    /** `runSchedule` */
    method RunSchedule(c: Schedule, outcome: Option<string>)
      modifies this`sent
      ensures sent == old(sent) + Script(c, outcome)
      ensures c.taskId != 0 && Refusal(c).None? ==>
                ReportsOf(sent[|old(sent)|..]) ==
                  [Report(c.taskId, Running, None),
                   if outcome == None then Report(c.taskId, Succeeded, None) else Report(c.taskId, Failed, outcome)]
    {
      if c.taskId != 0 {
        ScriptReports(c, outcome);
      }
      var error := ExecuteSchedule(c, outcome);
      if error.Some? {
        ReportStatus(c, Failed, error);
      } else {
        ReportStatus(c, Succeeded, None);
      }
      if c.Once() {
        sent := sent + [Delete(c.id)];
      }
    }
  }
}
