/** The verdict of a parallel run (`run` in scripts/parallel_tests.py), and exactly when it is a success. */
module TestVerdict {
  import opened Options
  import opened TestInterleavings
  import opened TestLanes
  import opened TestScheduler

  function IdsIn(batches: seq<Batch>): seq<string> {
    if batches == [] then [] else batches[0].ids + IdsIn(batches[1..])
  }

  /** `scheduler.unstarted`. */
  function Unstarted(s: Shared): seq<string> {
    s.skipped + IdsIn(s.headless) + IdsIn(s.graphical)
  }

  predicate Quiet(s: Shared) {
    s.problems == 0 && s.skipped == [] && forall c :: c in s.counts ==> !Bad(c)
  }

  /** No failing count or record, nothing unstarted, no problem, and exactly one record for each planned test and no
      other. `local` are the failures and errors of the tests that the runner runs itself. */
  predicate Successful(s: Shared, planned: seq<string>, local: Counts) {
    && !Bad(local) && (forall c :: c in s.counts ==> !Bad(c)) && !AnyFailing(s.records)
    && Unstarted(s) == [] && s.problems == 0
    && (forall id :: id in planned ==> RowCount(s.records, id) > 0)
    && (forall id :: id in IdsOf(s.records) ==> id in planned && RowCount(s.records, id) == 1)
  }

  function Total(counts: seq<Counts>): Counts {
    if counts == [] then ZERO else Add(Total(counts[..|counts| - 1]), counts[|counts| - 1])
  }

  lemma {:induction false} TotalBad(counts: seq<Counts>)
    ensures Bad(Total(counts)) <==> exists c :: c in counts && Bad(c)
    decreases |counts|
  {
    if counts != [] {
      var front, last := counts[..|counts| - 1], counts[|counts| - 1];
      TotalBad(front);
      assert counts == front + [last];
      assert Bad(Total(counts)) <==> Bad(Total(front)) || Bad(last);
      assert last in counts;
    }
  }

  method Sum(local: Counts, counts: seq<Counts>) returns (total: Counts)
    ensures Bad(total) <==> Bad(local) || exists c :: c in counts && Bad(c)
  {
    total := local;
    for i := 0 to |counts|
      invariant total == Add(local, Total(counts[..i]))
    {
      assert counts[..i + 1][..i] == counts[..i];
      total := Add(total, counts[i]);
    }
    assert counts[..|counts|] == counts;
    TotalBad(counts);
  }

  /** `Counter(row["test_id"] for row in outcomes)`, and whether any record fails. */
  method Account(records: seq<Row>) returns (accounted: multiset<string>, failing: bool)
    ensures forall id :: accounted[id] == RowCount(records, id)
    ensures failing <==> AnyFailing(records)
  {
    accounted, failing := multiset{}, false;
    for i := 0 to |records|
      invariant forall id :: accounted[id] == RowCount(records[..i], id)
      invariant failing <==> AnyFailing(records[..i])
    {
      var row := records[i];
      assert records[..i + 1][..i] == records[..i];
      assert forall r :: r in records[..i + 1] <==> r in records[..i] || r == row;
      if row.TestRow? {
        accounted := accounted + multiset{row.id};
        failing := failing || row.outcome in FAILING_OUTCOMES;
      }
    }
    assert records[..|records|] == records;
  }

  /** The end of `run`. */
  method Verdict(s: Shared, planned: seq<string>, local: Counts) returns (successful: bool)
    ensures successful <==> Successful(s, planned, local)
  {
    var counts := Sum(local, s.counts);
    var accounted, failing := Account(s.records);
    var unstarted := Unstarted(s);
    var unaccounted := set id | id in planned && id !in accounted && id !in unstarted;
    var extra := set id | id in accounted && (accounted[id] > 1 || id !in planned);
    var problems := s.problems + (if unaccounted != {} then 1 else 0) + (if extra != {} then 1 else 0);
    counts := counts.(errors := counts.errors + problems);
    successful := !(counts.failures > 0 || counts.errors > 0 || counts.unexpectedSuccesses > 0
                    || failing || unstarted != [] || problems > 0);
    forall id
      ensures id in IdsOf(s.records) <==> id in accounted
    {
      IsCounted(s.records, id);
    }
    if unaccounted == {} {
      forall id | id in planned
        ensures id in accounted || id in unstarted
      {
        assert id !in unaccounted;
      }
    }
    if extra == {} {
      forall id | id in accounted
        ensures accounted[id] == 1 && id in planned
      {
        assert id !in extra;
      }
    }
  }

  // ----- What a run without exceptions has recorded

  predicate CleanEntry(entry: Closed) {
    entry.Ran? && Clean(entry.batch.ids, entry.execution)
  }

  predicate AllClean(closed: seq<Closed>) {
    forall entry :: entry in closed ==> CleanEntry(entry)
  }

  /** In how many closed batches a test is. */
  function Holders(closed: seq<Closed>, id: string): nat {
    if closed == [] then 0
    else Holders(closed[..|closed| - 1], id) + if id in closed[|closed| - 1].batch.ids then 1 else 0
  }

  /** No test is in two of the batches. */
  ghost predicate Apart(closed: seq<Closed>) {
    forall id :: Holders(closed, id) <= 1
  }

  predicate SomeFailing(threads: seq<Thread>) {
    exists t :: 0 <= t < |threads| && threads[t].phase.Failing?
  }

  ghost predicate Recorded(s: Shared, closed: seq<Closed>) {
    !s.stopped && !AnyFailing(s.records) && forall id :: RowCount(s.records, id) == Holders(closed, id)
  }

  /** An exception leaves a problem, or a thread that is about to report one. Without exceptions, the state is free of
      complaints exactly when all workers were clean, and then it holds just their records. */
  ghost predicate Judged(y: System) {
    && (y.upset ==> y.shared.problems > 0 || SomeFailing(y.threads))
    && (!y.upset ==> forall t :: 0 <= t < |y.threads| ==> !y.threads[t].phase.Failing? && !y.threads[t].phase.Dead?)
    && (!y.upset ==> (Quiet(y.shared) <==> AllClean(y.closed)))
    && (!y.upset && AllClean(y.closed) ==> Recorded(y.shared, y.closed))
  }

  lemma QuietPublish(s: Shared, report: Report, fault: Option<nat>, failfast: bool)
    ensures Quiet(AfterPublish(s, report, fault, failfast)) <==> Quiet(s) && Passing(report)
  {
    var z := AfterPublish(s, report, fault, failfast);
    assert forall c :: c in z.counts <==> c in s.counts || c == report.counts;
    assert z.skipped == [] <==> s.skipped == [] && report.skipped == [];
  }

  lemma CleanAppend(closed: seq<Closed>, entry: Closed)
    ensures AllClean(closed + [entry]) <==> AllClean(closed) && CleanEntry(entry)
  {
    assert forall e :: e in closed + [entry] <==> e in closed || e == entry;
  }

  lemma HoldersAppend(closed: seq<Closed>, entry: Closed, id: string)
    ensures Holders(closed + [entry], id) == Holders(closed, id) + if id in entry.batch.ids then 1 else 0
  {
    assert (closed + [entry])[..|closed|] == closed;
  }

  lemma {:induction false} PublishedIn(kept: seq<Row>)
    ensures forall row :: row in Published(kept) ==> row in kept
    decreases |kept|
  {
    if kept != [] {
      PublishedIn(kept[..|kept| - 1]);
    }
  }

  lemma CleanRecords(s: Shared, closed: seq<Closed>, batch: Batch, execution: Execution, report: Report, failfast: bool)
    requires Recorded(s, closed) && Clean(batch.ids, execution) && report.kept == execution.rows && !report.failed
    requires IdsOf(execution.rows) == ToSet(batch.ids)
    ensures Recorded(AfterPublish(s, report, None, failfast), closed + [Ran(batch, execution)])
  {
    var rows := Published(report.kept);
    PublishedIn(report.kept);
    forall id
      ensures RowCount(s.records + rows, id) == Holders(closed + [Ran(batch, execution)], id)
    {
      RowCountConcat(s.records, rows, id);
      PublishedCounts(report.kept, id);
      HoldersAppend(closed, Ran(batch, execution), id);
      IsCounted(execution.rows, id);
      assert id in ToSet(batch.ids) <==> id in batch.ids;
    }
    forall row | row in s.records + rows && row.TestRow?
      ensures row.outcome !in FAILING_OUTCOMES
    {
      assert row in s.records || GoodTest(row, batch.ids);
    }
  }

  lemma FinishJudged(y: System, t: nat, execution: Execution, fault: Option<nat>)
    requires t < |y.threads| && y.threads[t].phase.Working? && Judged(y)
    ensures Judged(NextFinish(y, t, execution, fault))
  {
    var batch := y.threads[t].phase.batch;
    var report := Reconciled(batch.ids, execution, y.failfast);
    PassingExactly(batch.ids, execution, y.failfast);
    if Clean(batch.ids, execution) {
      CleanIsPassing(batch.ids, execution, y.failfast);
    }
    ConclusionJudged(y, t, execution, report, fault);
  }

  lemma ConclusionJudged(y: System, t: nat, execution: Execution, report: Report, fault: Option<nat>)
    requires t < |y.threads| && y.threads[t].phase.Working? && Judged(y)
    requires var ids := y.threads[t].phase.batch.ids;
      && (Passing(report) <==> Clean(ids, execution))
      && (Clean(ids, execution) ==> report.kept == execution.rows && !report.failed && IdsOf(execution.rows) == ToSet(ids))
    ensures Judged(Conclusion(y, t, execution, report, fault))
  {
    var batch, z := y.threads[t].phase.batch, Conclusion(y, t, execution, report, fault);
    if Raises(Published(report.kept), fault) {
      assert z.threads[t].phase.Failing?;
    } else if y.upset {
      StillFailing(y.threads, t, z.threads[t]);
    } else {
      QuietPublish(y.shared, report, fault, y.failfast);
      CleanAppend(y.closed, Ran(batch, execution));
      if AllClean(z.closed) {
        CleanRecords(y.shared, y.closed, batch, execution, report, y.failfast);
        assert z.shared == AfterPublish(y.shared, report, None, y.failfast);
      }
    }
  }

  /** Moving another thread leaves a failing thread failing. */
  lemma StillFailing(threads: seq<Thread>, t: nat, thread: Thread)
    requires t < |threads| && !threads[t].phase.Failing?
    ensures SomeFailing(threads) ==> SomeFailing(threads[t := thread])
  {
    if SomeFailing(threads) {
      var i :| 0 <= i < |threads| && threads[i].phase.Failing?;
      assert threads[t := thread][i].phase.Failing?;
    }
  }

  lemma NextJudged(y: System, e: Event)
    requires Judged(y)
    ensures Judged(Next(y, e))
  {
    if e.thread < |y.threads| {
      var phase := y.threads[e.thread].phase;
      match e
      case TakeNext(t) =>
        if phase.Ready? { StillFailing(y.threads, t, NextTake(y, t).threads[t]); }
      case Finish(t, execution, fault) =>
        if phase.Working? { FinishJudged(y, t, execution, fault); }
      case Upset(t) =>
        if phase.Working? { assert NextUpset(y, t).threads[t].phase.Failing?; }
      case Handle(t, fault) =>
    }
  }

  lemma {:induction false} AlwaysJudged(headless: seq<Batch>, graphical: seq<Batch>, workers: nat, failfast: bool, events: seq<Event>)
    ensures Judged(After(Start(headless, graphical, workers, failfast), events))
    decreases |events|
  {
    if events == [] {
      ThreadLanes(workers, graphical != []);
    } else {
      AlwaysJudged(headless, graphical, workers, failfast, events[..|events| - 1]);
      NextJudged(After(Start(headless, graphical, workers, failfast), events[..|events| - 1]), events[|events| - 1]);
    }
  }

  // ----- A thread leaves only when its lane is done

  predicate Drained(y: System) {
    forall t :: 0 <= t < |y.threads| && y.threads[t].phase.Exited? ==> !CanTake(y.shared, y.threads[t].lane)
  }

  lemma NextDrained(y: System, e: Event)
    requires Drained(y)
    ensures Drained(Next(y, e))
  {
    if e.thread < |y.threads| {
      NextMoves(y, e);
      var z := Next(y, e);
      forall t | 0 <= t < |z.threads| && z.threads[t].phase.Exited?
        ensures !CanTake(z.shared, z.threads[t].lane)
      {
        NextCannot(y, e, z.threads[t].lane);
        if t != e.thread {
          assert z.threads[t] == y.threads[t];
        }
      }
    }
  }

  /** A lane that offers nothing never offers anything again. */
  lemma NextCannot(y: System, e: Event, lane: Lane)
    ensures CanTake(Next(y, e).shared, lane) ==> CanTake(y.shared, lane)
  {
    NextQueues(y, e);
    NextStopped(y, e);
    var queue := Queue(Next(y, e).shared, lane);
    if queue != [] {
      assert queue[0] in Queue(Next(y, e).shared, lane);
    }
  }

  /** The run never resumes. */
  lemma NextStopped(y: System, e: Event)
    ensures y.shared.stopped ==> Next(y, e).shared.stopped
  {
  }

  lemma {:induction false} AlwaysDrained(headless: seq<Batch>, graphical: seq<Batch>, workers: nat, failfast: bool, events: seq<Event>)
    ensures Drained(After(Start(headless, graphical, workers, failfast), events))
    decreases |events|
  {
    if events == [] {
      ThreadLanes(workers, graphical != []);
    } else {
      AlwaysDrained(headless, graphical, workers, failfast, events[..|events| - 1]);
      NextDrained(After(Start(headless, graphical, workers, failfast), events[..|events| - 1]), events[|events| - 1]);
    }
  }

  // ----- The verdict

  /** All threads have ended, so `run` has joined them. */
  predicate Complete(y: System) {
    forall t :: 0 <= t < |y.threads| ==> y.threads[t].phase.Exited? || y.threads[t].phase.Dead?
  }

  lemma {:induction false} QueuedIds(batches: seq<Batch>, id: string)
    ensures multiset(IdsIn(batches))[id] == Queued(batches, id)
    decreases |batches|
  {
    if batches != [] {
      QueuedIds(batches[1..], id);
    }
  }

  lemma {:induction false} HoldersDone(closed: seq<Closed>, id: string)
    ensures Holders(closed, id) <= Done(closed, id)
    ensures Holders(closed, id) > 0 <==> Done(closed, id) > 0
    decreases |closed|
  {
    if closed != [] {
      HoldersDone(closed[..|closed| - 1], id);
    }
  }

  lemma FrontIsIn(batches: seq<Batch>)
    ensures batches != [] ==> exists b :: b in batches
  {
    if batches != [] {
      assert batches[0] in batches;
    }
  }

  /** With all threads ended, nothing raised and all workers clean, the queues are empty. */
  lemma QueuesEmpty(headless: seq<Batch>, graphical: seq<Batch>, workers: nat, failfast: bool, events: seq<Event>)
    requires workers > 0
    requires var y := After(Start(headless, graphical, workers, failfast), events);
      Complete(y) && !y.upset && AllClean(y.closed)
    ensures var s := After(Start(headless, graphical, workers, failfast), events).shared;
      s.headless == [] && s.graphical == []
  {
    var y := After(Start(headless, graphical, workers, failfast), events);
    AlwaysJudged(headless, graphical, workers, failfast, events);
    AlwaysDrained(headless, graphical, workers, failfast, events);
    AlwaysLaned(headless, graphical, workers, failfast, events);
    ThreadLanes(workers, graphical != []);
    assert InLane(y.threads[0], 0 < workers, headless, graphical);
    if graphical != [] {
      assert InLane(y.threads[workers], workers < workers, headless, graphical);
    } else {
      FrontIsIn(y.shared.graphical);
    }
  }

  function PlannedIds(headless: seq<Batch>, graphical: seq<Batch>): seq<string> {
    IdsIn(headless) + IdsIn(graphical)
  }

  /** With the threads ended and nothing held or queued, the closed batches are the planned ones. */
  lemma ClosedIsPlanned(headless: seq<Batch>, graphical: seq<Batch>, workers: nat, failfast: bool, events: seq<Event>, id: string)
    requires workers > 0
    requires var y := After(Start(headless, graphical, workers, failfast), events);
      Complete(y) && !y.upset && AllClean(y.closed)
    ensures var y := After(Start(headless, graphical, workers, failfast), events);
      && Done(y.closed, id) == Planned(headless, graphical, id)
      && (id in PlannedIds(headless, graphical) <==> RowCount(y.shared.records, id) > 0)
  {
    var y := After(Start(headless, graphical, workers, failfast), events);
    AlwaysAccounts(headless, graphical, workers, failfast, events, id);
    AlwaysJudged(headless, graphical, workers, failfast, events);
    QueuesEmpty(headless, graphical, workers, failfast, events);
    NoneHeld(y.threads, id);
    HoldersDone(y.closed, id);
    QueuedIds(headless, id);
    QueuedIds(graphical, id);
    assert id in PlannedIds(headless, graphical) <==> id in IdsIn(headless) || id in IdsIn(graphical);
  }

  lemma {:induction false} NoneHeld(threads: seq<Thread>, id: string)
    requires forall t :: 0 <= t < |threads| ==> threads[t].phase.Exited?
    ensures Held(threads, id, false) == 0
    decreases |threads|
  {
    if threads != [] {
      NoneHeld(threads[1..], id);
    }
  }

  /** Whatever the workers and the sink did and however the threads interleaved: the run succeeds exactly when nothing
      raised, every worker was clean, and no test is in two batches. */
  lemma SuccessExactly(headless: seq<Batch>, graphical: seq<Batch>, workers: nat, failfast: bool, events: seq<Event>, local: Counts)
    requires workers > 0 && !Bad(local)
    requires Complete(After(Start(headless, graphical, workers, failfast), events))
    ensures var y := After(Start(headless, graphical, workers, failfast), events);
      Successful(y.shared, PlannedIds(headless, graphical), local)
      <==> !y.upset && AllClean(y.closed) && Apart(y.closed)
  {
    var y := After(Start(headless, graphical, workers, failfast), events);
    var planned := PlannedIds(headless, graphical);
    AlwaysJudged(headless, graphical, workers, failfast, events);
    if Successful(y.shared, planned, local) {
      SuccessIsClean(y, planned, local);
    }
    if !y.upset && AllClean(y.closed) && Apart(y.closed) {
      QueuesEmpty(headless, graphical, workers, failfast, events);
      forall id
        ensures id in planned <==> RowCount(y.shared.records, id) > 0
      {
        ClosedIsPlanned(headless, graphical, workers, failfast, events, id);
      }
      CleanIsSuccess(y, planned, local);
    }
  }

  lemma CleanIsSuccess(y: System, planned: seq<string>, local: Counts)
    requires Judged(y) && !Bad(local) && !y.upset && AllClean(y.closed) && Apart(y.closed)
    requires y.shared.headless == [] && y.shared.graphical == []
    requires forall id :: id in planned <==> RowCount(y.shared.records, id) > 0
    ensures Successful(y.shared, planned, local)
  {
    assert Quiet(y.shared) && Recorded(y.shared, y.closed);
    forall id | id in IdsOf(y.shared.records)
      ensures id in planned && RowCount(y.shared.records, id) == 1
    {
      IsCounted(y.shared.records, id);
      assert Holders(y.closed, id) <= 1;
    }
  }

  lemma SuccessIsClean(y: System, planned: seq<string>, local: Counts)
    requires Judged(y) && Complete(y) && Successful(y.shared, planned, local)
    ensures !y.upset && AllClean(y.closed) && Apart(y.closed)
  {
    assert y.shared.skipped == [];
    forall id
      ensures RowCount(y.shared.records, id) <= 1
    {
      IsCounted(y.shared.records, id);
    }
  }

  /** For a plan without repeated tests, success means exactly that nothing raised and every worker was clean. */
  lemma SuccessForDistinctPlan(headless: seq<Batch>, graphical: seq<Batch>, workers: nat, failfast: bool, events: seq<Event>, local: Counts)
    requires workers > 0 && !Bad(local)
    requires forall id :: Planned(headless, graphical, id) <= 1
    requires Complete(After(Start(headless, graphical, workers, failfast), events))
    ensures var y := After(Start(headless, graphical, workers, failfast), events);
      Successful(y.shared, PlannedIds(headless, graphical), local) <==> !y.upset && AllClean(y.closed)
  {
    var y := After(Start(headless, graphical, workers, failfast), events);
    SuccessExactly(headless, graphical, workers, failfast, events, local);
    forall id
      ensures Holders(y.closed, id) <= 1
    {
      AlwaysAccounts(headless, graphical, workers, failfast, events, id);
      HoldersDone(y.closed, id);
    }
  }
}
