/** Every step of the protocol keeps the invariant, conjunct by conjunct. */
module ScanInvariant {
  import opened Text
  import opened ScanStatus
  import opened ScanApi
  import opened Runner
  import opened ScanProtocol

  lemma SchedulesNumbered(w: World)
    requires TablesOk(w)
    ensures SchedulesOk(w.db)
  {
  }

  /** Steps of the runner's own bookkeeping leave the tables and their history alone. */
  lemma SameTables(w: World, w': World)
    requires TablesOk(w) && Waiting(w) && HomeOk(w)
    requires w'.db == w.db && w'.home == w.home && w'.unscheduled == w.unscheduled && w'.tainted == w.tainted
    ensures TablesOk(w') && Waiting(w') && HomeOk(w')
  {
    hide Valid, Consecutive;
  }

  /** Mentions come and go; nothing else about refused schedules changes. */
  lemma SameRefused(w: World, w': World)
    requires RefusedOk(w) && w'.db == w.db && w.tainted <= w'.tainted && AllSame(w')
    requires forall e | e in w'.execs :: PcOk(w'.execs[e].sched, w'.execs[e].pc)
    ensures RefusedOk(w')
  {
    hide AllSame, PcOk, Refusal;
    assert forall s :: Spared(w, s) ==> Spared(w', s);
  }

  // ---------------------------------------------------------------------------
  // Poll: a full list of the table
  // ---------------------------------------------------------------------------

  lemma PollSound(w: World, page: seq<Schedule>)
    requires AllSound(w) && Snapshot(page, w.db.schedules)
    ensures AllSound(PollStep(w, page))
  {
    var w' := PollStep(w, page);
    forall i | 0 <= i < |page|
      ensures Sound(w', page[i])
    {
      assert Sound(w, w.db.schedules[page[i].id]);
    }
  }

  lemma PollStarted(w: World, page: seq<Schedule>)
    requires StartedOk(w) && SchedulesOk(w.db) && Snapshot(page, w.db.schedules)
    ensures StartedOk(PollStep(w, page))
  {
    var w' := PollStep(w, page);
    forall id | id in w.book.active && id in w.db.schedules
      ensures Listed(w', id)
    {
      var i :| 0 <= i < |page| && page[i] == w.db.schedules[id];
      assert w'.pass.todo[i].id == id;
    }
  }

  lemma PollOpen(w: World, page: seq<Schedule>)
    requires AllOpen(w) && Snapshot(page, w.db.schedules)
    ensures AllOpen(PollStep(w, page))
  {
    var w' := PollStep(w, page);
    forall i | 0 <= i < |page| && page[i].id !in w.started
      ensures Open(w', page[i])
    {
      assert Open(w, w.db.schedules[page[i].id]);
    }
  }

  lemma PollRefused(w: World, page: seq<Schedule>)
    requires RefusedOk(w) && Snapshot(page, w.db.schedules)
    ensures RefusedOk(PollStep(w, page))
  {
    var w' := PollStep(w, page);
    assert forall s :: Same(w, s) <==> Same(w', s);
    hide PcOk, Spared;
    assert AllSame(w') by {
      forall i | 0 <= i < |page|
        ensures Same(w', page[i])
      {
        assert page[i] == w.db.schedules[page[i].id];
      }
      hide Same;
    }
    SameRefused(w, w');
  }

  lemma PollInv(w: World, page: seq<Schedule>)
    requires Inv(w) && w.pass.Idle? && Snapshot(page, w.db.schedules)
    ensures Inv(PollStep(w, page))
  {
    var w' := PollStep(w, page);
    SchedulesNumbered(w);
    PollSound(w, page);
    PollStarted(w, page);
    PollOpen(w, page);
    PollRefused(w, page);
    SameTables(w, w');
    hide TablesOk, Waiting, AllSound, StartedOk, AllOpen, HomeOk, RefusedOk;
    assert RunnerOk(w');
    assert FiredOk(w');
  }

  // ---------------------------------------------------------------------------
  // Entry: one turn of the reconciliation loop
  // ---------------------------------------------------------------------------

  /** An entry that is not active has never had a job in this lifetime. */
  lemma EntryIsNew(w: World)
    requires StartedOk(w) && w.pass.Reconciling? && w.pass.todo != []
    ensures w.pass.todo[0].id in w.started ==> w.pass.todo[0].id in w.book.active
  {
    assert Listed(w, w.pass.todo[0].id);
  }

  lemma EntryRunner(w: World, accepted: bool)
    requires RunnerOk(w) && w.pass.Reconciling? && w.pass.todo != []
    ensures RunnerOk(EntryStep(w, accepted))
  {
  }

  lemma EntrySound(w: World, accepted: bool)
    requires AllSound(w) && w.pass.Reconciling? && w.pass.todo != []
    ensures AllSound(EntryStep(w, accepted))
  {
    var w' := EntryStep(w, accepted);
    assert forall s :: Sound(w, s) <==> Sound(w', s);
    hide Sound;
  }

  lemma EntryStarted(w: World, accepted: bool)
    requires StartedOk(w) && w.pass.Reconciling? && w.pass.todo != []
    ensures StartedOk(EntryStep(w, accepted))
  {
    var w' := EntryStep(w, accepted);
    forall id
      ensures Listed(w', id) ==> Listed(w, id)
      ensures Listed(w, id) ==> Listed(w', id) || id in w'.pass.seen
    {
      if Listed(w', id) {
        var i :| 0 <= i < |w'.pass.todo| && w'.pass.todo[i].id == id;
        assert w.pass.todo[i + 1].id == id;
      }
      if Listed(w, id) {
        var i :| 0 <= i < |w.pass.todo| && w.pass.todo[i].id == id;
        assert i == 0 || w'.pass.todo[i - 1].id == id;
      }
    }
    hide Listed;
  }

  lemma EntryFired(w: World, accepted: bool)
    requires FiredOk(w) && RunnerOk(w) && w.pass.Reconciling? && w.pass.todo != []
    requires w.pass.todo[0].id in w.started ==> w.pass.todo[0].id in w.book.active
    ensures FiredOk(EntryStep(w, accepted))
  {
  }

  lemma EntryOpen(w: World, accepted: bool)
    requires AllOpen(w) && w.pass.Reconciling? && w.pass.todo != []
    requires w.pass.todo[0].id in w.started ==> w.pass.todo[0].id in w.book.active
    ensures AllOpen(EntryStep(w, accepted))
  {
    var w' := EntryStep(w, accepted);
    assert forall s :: Open(w, s) <==> Open(w', s);
    hide Open;
  }

  lemma EntryRefused(w: World, accepted: bool)
    requires RefusedOk(w) && w.pass.Reconciling? && w.pass.todo != []
    ensures RefusedOk(EntryStep(w, accepted))
  {
    var w' := EntryStep(w, accepted);
    assert forall s :: Same(w, s) <==> Same(w', s);
    hide Same, PcOk, Spared;
    assert AllSame(w');
    SameRefused(w, w');
  }

  lemma EntryInv(w: World, accepted: bool)
    requires Inv(w) && w.pass.Reconciling? && w.pass.todo != []
    ensures Inv(EntryStep(w, accepted))
  {
    EntryIsNew(w);
    EntryRunner(w, accepted);
    EntrySound(w, accepted);
    EntryStarted(w, accepted);
    EntryFired(w, accepted);
    EntryOpen(w, accepted);
    EntryRefused(w, accepted);
    SameTables(w, EntryStep(w, accepted));
    hide TablesOk, Waiting, RunnerOk, AllSound, StartedOk, FiredOk, AllOpen, HomeOk, RefusedOk;
  }

  // ---------------------------------------------------------------------------
  // EndPass: dropping what is no longer listed
  // ---------------------------------------------------------------------------

  lemma EndPassBook(w: World)
    requires BookOk(w.book) && w.pass.Reconciling?
    ensures var b := EndPassStep(w).book;
            && BookOk(b) && b.active.Keys <= w.book.active.Keys
            && (forall id | id in w.book.active :: id in b.active <==> id in w.pass.seen)
            && (forall j | j in b.jobs :: j in w.book.jobs && b.jobs[j] == w.book.jobs[j])
  {
  }

  lemma EndPassInv(w: World)
    requires Inv(w) && w.pass.Reconciling? && w.pass.todo == []
    ensures Inv(EndPassStep(w))
  {
    EndPassBook(w);
    EndPassParts(w);
    EndPassRefused(w);
    SameTables(w, EndPassStep(w));
    hide TablesOk, Waiting, RunnerOk, AllSound, StartedOk, FiredOk, AllOpen, HomeOk, RefusedOk;
  }

  lemma EndPassRefused(w: World)
    requires RefusedOk(w) && BookOk(w.book) && w.pass.Reconciling?
    ensures RefusedOk(EndPassStep(w))
  {
    EndPassBook(w);
    var w' := EndPassStep(w);
    assert forall s :: Same(w, s) <==> Same(w', s);
    hide Same, PcOk, Spared, DropStale, BookOk;
    assert AllSame(w');
    SameRefused(w, w');
  }

  lemma EndPassParts(w: World)
    requires RunnerOk(w) && AllSound(w) && StartedOk(w) && FiredOk(w) && AllOpen(w)
    requires w.pass.Reconciling? && w.pass.todo == []
    ensures var w' := EndPassStep(w); RunnerOk(w') && AllSound(w') && StartedOk(w') && FiredOk(w') && AllOpen(w')
  {
    EndPassBook(w);
    hide DropStale, BookOk;
    var w' := EndPassStep(w);
    assert RunnerOk(w');
    assert AllSound(w') by {
      assert forall s :: Sound(w, s) <==> Sound(w', s);
    }
    assert StartedOk(w');
    assert FiredOk(w');
    assert AllOpen(w') by {
      assert forall s :: Open(w, s) <==> Open(w', s);
    }
  }

  // ---------------------------------------------------------------------------
  // Fire: the scheduler runs a job
  // ---------------------------------------------------------------------------

  lemma FireRunner(w: World, job: int)
    requires RunnerOk(w) && job in w.book.jobs
    ensures RunnerOk(FireStep(w, job))
  {
  }

  lemma FireSound(w: World, job: int)
    requires AllSound(w) && job in w.book.jobs
    ensures AllSound(FireStep(w, job))
  {
    var w' := FireStep(w, job);
    assert forall s :: Sound(w, s) <==> Sound(w', s);
    hide Sound;
  }

  lemma FireFired(w: World, job: int)
    requires FiredOk(w) && RunnerOk(w) && job in w.book.jobs
    ensures FiredOk(FireStep(w, job))
  {
    var w' := FireStep(w, job);
    var s := w.book.jobs[job];
    forall j | j in w'.book.jobs && w'.book.jobs[j].Once()
      ensures w'.book.jobs[j].id !in w'.fired
    {
      assert w.book.jobs[j].id == s.id ==> j == job;
    }
  }

  lemma FireOpen(w: World, job: int)
    requires AllOpen(w) && job in w.book.jobs
    ensures AllOpen(FireStep(w, job))
  {
    var w' := FireStep(w, job);
    assert forall s :: Open(w, s) <==> Open(w', s);
    hide Open;
  }

  lemma FireStarted(w: World, job: int)
    requires StartedOk(w) && job in w.book.jobs
    ensures StartedOk(FireStep(w, job))
  {
    var w' := FireStep(w, job);
    assert forall id :: Listed(w, id) <==> Listed(w', id);
    hide Listed;
  }

  lemma FireRefused(w: World, job: int)
    requires RefusedOk(w) && job in w.book.jobs
    ensures RefusedOk(FireStep(w, job))
  {
    var w' := FireStep(w, job);
    assert forall s :: Same(w, s) <==> Same(w', s);
    hide Same, Spared, Refusal;
    assert AllSame(w');
    SameRefused(w, w');
  }

  lemma FireInv(w: World, job: int)
    requires Inv(w) && job in w.book.jobs
    ensures Inv(FireStep(w, job))
  {
    FireRunner(w, job);
    FireSound(w, job);
    FireFired(w, job);
    FireOpen(w, job);
    FireStarted(w, job);
    FireRefused(w, job);
    SameTables(w, FireStep(w, job));
    hide TablesOk, Waiting, RunnerOk, AllSound, StartedOk, FiredOk, AllOpen, HomeOk, RefusedOk;
  }

  // ---------------------------------------------------------------------------
  // Restart: the runner forgets everything
  // ---------------------------------------------------------------------------

  lemma RestartInv(w: World)
    requires Inv(w)
    ensures Inv(RestartStep(w))
  {
    var w' := RestartStep(w);
    RestartTables(w);
    RestartRows(w);
    SameRefused(w, w');
    hide TablesOk, Waiting, RefusedOk;
    assert RunnerOk(w');
    assert StartedOk(w');
    assert FiredOk(w');
  }

  lemma RestartTables(w: World)
    requires TablesOk(w) && Waiting(w)
    ensures TablesOk(RestartStep(w)) && Waiting(RestartStep(w))
  {
    hide Valid, Consecutive;
  }

  lemma RestartRows(w: World)
    requires AllSound(w) && TablesOk(w) && RefusedOk(w)
    ensures AllSound(RestartStep(w)) && AllOpen(RestartStep(w))
  {
    SchedulesNumbered(w);
    hide Valid, Consecutive, AllSame, PcOk, Refusal;
    var w' := RestartStep(w);
    forall id | id in w.db.schedules
      ensures Sound(w', w.db.schedules[id]) && Open(w', w.db.schedules[id])
    {
      var s := w.db.schedules[id];
      assert Sound(w, s) && Spared(w, s) && s.id == id;
      if s.taskId != 0 && s.taskId !in w'.tainted {
        assert w.home[s.taskId] == id && s.taskId !in AtRisk(w);
      }
    }
  }
}
