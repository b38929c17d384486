/** A pass taken one entry at a time, with nothing in between, is the pass of the runner. */
module ScanPass {
  import opened Text
  import opened ScanApi
  import opened Runner
  import opened ScanProtocol

  /** The entries that are left, one after the other. */
  function AfterEntries(w: World, verdicts: seq<bool>): (w': World)
    requires w.pass.Reconciling? && |w.pass.todo| == |verdicts|
    ensures w'.pass.Reconciling? && w'.pass.todo == []
    decreases |verdicts|
  {
    if verdicts == [] then w else AfterEntries(EntryStep(w, verdicts[0]), verdicts[1..])
  }

  lemma {:induction false} EntriesAdmit(w: World, verdicts: seq<bool>)
    requires w.pass.Reconciling? && |w.pass.todo| == |verdicts|
    ensures var w' := AfterEntries(w, verdicts);
            && w'.book == AdmitAll(w.book, w.pass.todo, verdicts)
            && w'.pass.seen == w.pass.seen + Ids(w.pass.todo)
            && w' == w.(book := w'.book, pass := w'.pass, started := w'.started)
    decreases |verdicts|
  {
    if verdicts != [] {
      EntriesAdmit(EntryStep(w, verdicts[0]), verdicts[1..]);
      assert Ids(w.pass.todo) == {w.pass.todo[0].id} + Ids(w.pass.todo[1..]) by {
        assert w.pass.todo == [w.pass.todo[0]] + w.pass.todo[1..];
      }
    }
  }

  /** Poll, entries and end of pass leave the map and the jobs that `reconcileSchedules` leaves, and nothing else changed. */
  lemma PassIsReconcile(w: World, page: seq<Schedule>, verdicts: seq<bool>)
    requires |page| == |verdicts|
    ensures var w' := EndPassStep(AfterEntries(PollStep(w, page), verdicts));
            && w'.book == Reconcile(w.book, page, verdicts) && w'.pass == Idle
            && w' == w.(book := w'.book, pass := Idle, started := w'.started)
  {
    hide DropStale;
    EntriesAdmit(PollStep(w, page), verdicts);
    assert {} + Ids(page) == Ids(page);
  }
}
