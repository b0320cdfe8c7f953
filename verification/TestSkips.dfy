/** Tests that a parallel run reports both as skipped by fail-fast and as failed. */
module TestSkips {
  // The design wants each test in one of the two; the exception handler of `lane_worker` knows the recorded tests
  // but not the skipped ones.

  import opened Options
  import opened TestInterleavings
  import opened TestLanes
  import opened TestScheduler

  predicate Stuck(phase: Phase) {
    phase.Failing? || phase.Dead?
  }

  /** The handler dealt with a batch that had already reported the test as skipped. */
  predicate Dropped(closed: seq<Closed>, id: string) {
    exists entry :: entry in closed && entry.GaveUp? && id in entry.dropped
  }

  predicate DeadDropped(threads: seq<Thread>, id: string) {
    exists t :: 0 <= t < |threads| && threads[t].phase.Dead? && id in threads[t].phase.dropped
  }

  predicate Both(s: Shared, id: string) {
    id in s.recorded && id in s.skipped
  }

  predicate Tracks(phase: Phase, s: Shared, id: string) {
    Stuck(phase) ==> (id in phase.dropped <==> id in phase.batch.ids && id in s.skipped)
  }

  predicate Drops(y: System, id: string) {
    && (forall t :: 0 <= t < |y.threads| ==> Tracks(y.threads[t].phase, y.shared, id))
    && (Both(y.shared, id) ==> Dropped(y.closed, id) || DeadDropped(y.threads, id))
    && (Dropped(y.closed, id) ==> Both(y.shared, id))
  }

  /** While a test is not in any result yet, no broken-off batch has it. */
  lemma FreshIsUnstuck(threads: seq<Thread>, id: string, i: nat)
    requires Held(threads, id, true) == 0 && i < |threads| && Stuck(threads[i].phase)
    ensures id !in threads[i].phase.batch.ids
  {
    HoldsIsHeld(threads, i, id);
  }

  lemma ConclusionDrops(y: System, t: nat, execution: Execution, report: Report, fault: Option<nat>, id: string, planned: nat)
    requires t < |y.threads| && y.threads[t].phase.Working? && planned <= 1
    requires Accounts(y, id, planned) && Drops(y, id)
    requires Sends(y.threads[t].phase.batch.ids, report, fault, id)
    ensures Drops(Conclusion(y, t, execution, report, fault), id)
  {
    var batch, z := y.threads[t].phase.batch, Conclusion(y, t, execution, report, fault);
    assert id in batch.ids <==> Times(batch, id) > 0;
    WorkingIsHeld(y.threads, t, id);
    forall i | 0 <= i < |z.threads|
      ensures Tracks(z.threads[i].phase, z.shared, id)
    {
      if i != t && id in batch.ids && Stuck(y.threads[i].phase) {
        FreshIsUnstuck(y.threads, id, i);
      }
      assert Tracks(y.threads[i].phase, y.shared, id);
    }
    SameDead(y.threads, t, z.threads[t], id);
    assert Dropped(z.closed, id) <==> Dropped(y.closed, id) by {
      assert forall entry :: entry in y.closed ==> entry in z.closed;
    }
  }

  lemma SameDead(threads: seq<Thread>, t: nat, thread: Thread, id: string)
    requires t < |threads| && !threads[t].phase.Dead?
    ensures DeadDropped(threads[t := thread], id)
      <==> DeadDropped(threads, id) || (thread.phase.Dead? && id in thread.phase.dropped)
  {
    if DeadDropped(threads, id) {
      var i :| 0 <= i < |threads| && threads[i].phase.Dead? && id in threads[i].phase.dropped;
      assert threads[t := thread][i] == threads[i];
    }
    assert threads[t := thread][t] == thread;
  }

  lemma HandleDrops(y: System, t: nat, fault: Option<nat>, id: string)
    requires t < |y.threads| && y.threads[t].phase.Failing? && Drops(y, id)
    ensures Drops(NextHandle(y, t, fault), id)
  {
    var Failing(batch, dropped) := y.threads[t].phase;
    var z := NextHandle(y, t, fault);
    HandleSends(y.shared, batch, fault, id);
    assert Tracks(y.threads[t].phase, y.shared, id);
    SameDead(y.threads, t, z.threads[t], id);
    forall i | 0 <= i < |z.threads|
      ensures Tracks(z.threads[i].phase, z.shared, id)
    {
      assert Tracks(y.threads[i].phase, y.shared, id);
    }
    if !Raises(Unrecorded(y.shared, batch), fault) {
      DroppedAppend(y.closed, GaveUp(batch, dropped), id);
    }
  }

  lemma DroppedAppend(closed: seq<Closed>, entry: Closed, id: string)
    ensures Dropped(closed + [entry], id) <==> Dropped(closed, id) || (entry.GaveUp? && id in entry.dropped)
  {
    assert forall e :: e in closed + [entry] <==> e in closed || e == entry;
  }

  lemma TakeDrops(y: System, t: nat, id: string)
    requires t < |y.threads| && y.threads[t].phase.Ready? && Drops(y, id)
    ensures Drops(NextTake(y, t), id)
  {
    var z := NextTake(y, t);
    SameDead(y.threads, t, z.threads[t], id);
    forall i | 0 <= i < |z.threads|
      ensures Tracks(z.threads[i].phase, z.shared, id)
    {
      assert Tracks(y.threads[i].phase, y.shared, id);
    }
  }

  lemma FinishDrops(y: System, t: nat, execution: Execution, fault: Option<nat>, id: string, planned: nat)
    requires t < |y.threads| && y.threads[t].phase.Working? && planned <= 1
    requires Accounts(y, id, planned) && Drops(y, id)
    ensures Drops(NextFinish(y, t, execution, fault), id)
  {
    var ids := y.threads[t].phase.batch.ids;
    FinishSends(ids, execution, y.failfast, fault, id);
    ConclusionDrops(y, t, execution, Reconciled(ids, execution, y.failfast), fault, id, planned);
  }

  lemma NextDrops(y: System, e: Event, id: string, planned: nat)
    requires planned <= 1 && Accounts(y, id, planned) && Drops(y, id)
    ensures Drops(Next(y, e), id)
  {
    if e.thread < |y.threads| {
      var phase := y.threads[e.thread].phase;
      match e
      case TakeNext(t) =>
        if phase.Ready? { TakeDrops(y, t, id); }
      case Finish(t, execution, fault) =>
        if phase.Working? { FinishDrops(y, t, execution, fault, id, planned); }
      case Upset(t) =>
        if phase.Working? { UpsetDrops(y, t, id, planned); }
      case Handle(t, fault) =>
        if phase.Failing? { HandleDrops(y, t, fault, id); }
    }
  }

  lemma UpsetDrops(y: System, t: nat, id: string, planned: nat)
    requires t < |y.threads| && y.threads[t].phase.Working? && planned <= 1 && Accounts(y, id, planned) && Drops(y, id)
    ensures Drops(NextUpset(y, t), id)
  {
    var z := NextUpset(y, t);
    assert id in y.threads[t].phase.batch.ids <==> Times(y.threads[t].phase.batch, id) > 0;
    WorkingIsHeld(y.threads, t, id);
    SameDead(y.threads, t, z.threads[t], id);
    forall i | 0 <= i < |z.threads|
      ensures Tracks(z.threads[i].phase, z.shared, id)
    {
      assert Tracks(y.threads[i].phase, y.shared, id);
    }
  }

  lemma {:induction false} AlwaysDrops(headless: seq<Batch>, graphical: seq<Batch>, workers: nat, failfast: bool, events: seq<Event>, id: string)
    requires Planned(headless, graphical, id) <= 1
    ensures Drops(After(Start(headless, graphical, workers, failfast), events), id)
    decreases |events|
  {
    if events == [] {
      ThreadLanes(workers, graphical != []);
    } else {
      AlwaysDrops(headless, graphical, workers, failfast, events[..|events| - 1], id);
      AlwaysAccounts(headless, graphical, workers, failfast, events[..|events| - 1], id);
      NextDrops(After(Start(headless, graphical, workers, failfast), events[..|events| - 1]), events[|events| - 1], id,
                Planned(headless, graphical, id));
    }
  }

  /** While no thread has died, a test planned once is both recorded and skipped exactly when the handler dealt with a
      batch that had skipped it. */
  lemma BothExactly(headless: seq<Batch>, graphical: seq<Batch>, workers: nat, failfast: bool, events: seq<Event>, id: string)
    requires Planned(headless, graphical, id) <= 1
    requires var threads := After(Start(headless, graphical, workers, failfast), events).threads;
      forall t :: 0 <= t < |threads| ==> !threads[t].phase.Dead?
    ensures var y := After(Start(headless, graphical, workers, failfast), events);
      Both(y.shared, id) <==> Dropped(y.closed, id)
  {
    AlwaysDrops(headless, graphical, workers, failfast, events, id);
  }

  // ----- Such a run

  /** A worker that stopped after the failure of its first test. */
  function Stopped(failed: Row, summary: Row): Execution {
    Finished(1, [failed, summary], 0)
  }

  lemma KeptAppend(rows: seq<Row>, row: Row, expected: set<string>)
    ensures var front := Kept(rows, expected);
      && Kept(rows + [row], expected) == (if Stray(row, expected, front) then front else front + [row])
      && Strays(rows + [row], expected) == Strays(rows, expected) + if Stray(row, expected, front) then 1 else 0
  {
    assert (rows + [row])[..|rows|] == rows;
  }

  lemma SuitesAppend(rows: seq<Row>, row: Row)
    ensures Suites(rows + [row]) == Suites(rows) + if row.SuiteRow? then [row] else []
  {
    assert (rows + [row])[..|rows|] == rows;
  }

  lemma MissingAppend(ids: seq<string>, id: string, results: set<string>)
    ensures Missing(ids + [id], results) == Missing(ids, results) + if id in results then [] else [id]
  {
    assert (ids + [id])[..|ids|] == ids;
  }

  lemma StoppedKeeps(failed: Row, summary: Row, second: string)
    requires failed.TestRow? && failed.id != second && summary.SuiteRow?
    ensures var rows, expected := [failed, summary], ToSet([failed.id, second]);
      Kept(rows, expected) == rows && Strays(rows, expected) == 0 && IdsOf(rows) == {failed.id}
  {
    var none: seq<Row> := [];
    var expected := ToSet([failed.id, second]);
    assert failed.id in [failed.id, second];
    KeptAppend(none, failed, expected);
    KeptAppend(none + [failed], summary, expected);
    assert none + [failed] + [summary] == [failed, summary];
    IdsOfAppend(none, failed);
    IdsOfAppend([failed], summary);
  }

  lemma StoppedLeaves(failed: Row, summary: Row, second: string)
    requires failed.TestRow? && failed.id != second && summary.SuiteRow?
    ensures Suites([failed, summary]) == [summary] && Missing([failed.id, second], {failed.id}) == [second]
  {
    var none: seq<Row>, empty: seq<string> := [], [];
    SuitesAppend(none, failed);
    SuitesAppend(none + [failed], summary);
    MissingAppend(empty, failed.id, {failed.id});
    MissingAppend(empty + [failed.id], second, {failed.id});
    assert none + [failed] + [summary] == [failed, summary] && empty + [failed.id] + [second] == [failed.id, second];
  }

  lemma StoppedSkips(failed: Row, summary: Row, second: string)
    requires failed.TestRow? && failed.id != second && summary.SuiteRow?
    ensures var report := Reconciled([failed.id, second], Stopped(failed, summary), true);
      report.kept == [failed, summary] && report.skipped == [second]
  {
    StoppedKeeps(failed, summary, second);
    StoppedLeaves(failed, summary, second);
    Concluded([failed.id, second], Stopped(failed, summary), [failed, summary], second);
  }

  lemma Concluded(ids: seq<string>, execution: Execution, own: seq<Row>, second: string)
    requires execution.Finished? && execution.returncode == 1 && execution.malformed == 0 && Suites(own) != []
    requires Missing(ids, IdsOf(own)) == [second]
    ensures var report := Conclude(ids, execution, true, own, 0);
      report.kept == own && report.skipped == [second]
  {
    assert own + ErrorRows([]) == own;
  }

  lemma StoppedPublishes(failed: Row, summary: Row)
    requires failed.TestRow? && summary.SuiteRow?
    ensures Published([failed, summary]) == [failed]
  {
    var rows := [failed, summary];
    assert rows[..1] == [failed] && rows[..1][..0] == [];
    assert Published(rows[..1]) == [failed];
  }

  lemma BrokenOff(taken: System, batch: Batch, execution: Execution, report: Report, failed: Row, second: string)
    requires |taken.threads| == 1 && taken.threads[0].phase == Working(batch) && second in batch.ids
    requires Published(report.kept) == [failed] && report.skipped == [second]
    ensures var y := Conclusion(taken, 0, execution, report, Some(0));
      var z := NextHandle(y, 0, None);
      y.threads[0].phase.Failing? && Both(z.shared, second) && Dropped(z.closed, second)
  {
    var y := Conclusion(taken, 0, execution, report, Some(0));
    HandleSends(y.shared, batch, None, second);
    assert y.threads[0].phase == Failing(batch, [second]) && second in y.shared.skipped;
    var z := NextHandle(y, 0, None);
    assert z.closed[|z.closed| - 1] == GaveUp(batch, [second]);
  }

  /** One worker, one batch of two tests: the sink raises at the record of the failed first test, and the handler then
      records an error for the second test, which is already among the skipped ones. */
  lemma SkippedAndRecorded(failed: Row, summary: Row, second: string)
    requires failed.TestRow? && failed.id != second && summary.SuiteRow?
    ensures var taken := NextTake(Start([Batch([failed.id, second], false)], [], 1, true), 0);
      && taken.threads[0].phase.Working?
      && var broken := NextFinish(taken, 0, Stopped(failed, summary), Some(0));
      && broken.threads[0].phase.Failing?
      && var handled := NextHandle(broken, 0, None);
      Both(handled.shared, second) && Dropped(handled.closed, second)
  {
    var batch := Batch([failed.id, second], false);
    ThreadLanes(1, false);
    var taken := NextTake(Start([batch], [], 1, true), 0);
    assert taken.threads[0].phase == Working(batch);
    StoppedSkips(failed, summary, second);
    StoppedPublishes(failed, summary);
    BrokenOff(taken, batch, Stopped(failed, summary), Reconciled(batch.ids, Stopped(failed, summary), true), failed, second);
  }
}
