/** Every interleaving of the lane threads of scripts/parallel_tests.py, whatever their workers and the sink do. */
module TestInterleavings {
  import opened Options
  import opened TestLanes
  import opened TestScheduler

  /** Where a thread is in `lane_worker`. `dropped` are the tests its batch had already reported as skipped by
      fail-fast when the sink raised. A thread dies when the sink raises again in the handler. */
  datatype Phase =
    | Ready | Working(batch: Batch) | Failing(batch: Batch, dropped: seq<string>)
    | Exited | Dead(batch: Batch, dropped: seq<string>)

  datatype Thread = Thread(lane: Lane, phase: Phase)

  datatype Closed = Ran(batch: Batch, execution: Execution) | GaveUp(batch: Batch, dropped: seq<string>)

  /** `closed` and `upset` only observe the run: the batches dealt with, and whether anything ever raised. */
  datatype System = System(shared: Shared, threads: seq<Thread>, closed: seq<Closed>, failfast: bool, upset: bool)

  /** `Finish` is the locked section of `run_batch`, for whatever the worker did and wherever the sink raises; `Upset`
      is an exception before that section changed anything; `Handle` is the exception handler. */
  datatype Event =
    | TakeNext(thread: nat)
    | Finish(thread: nat, execution: Execution, fault: Option<nat>)
    | Upset(thread: nat)
    | Handle(thread: nat, fault: Option<nat>)

  function Threads(workers: nat, graphical: bool): seq<Thread> {
    if workers == 0 then if graphical then [Thread(Graphical, Ready)] else []
    else [Thread(Headless, Ready)] + Threads(workers - 1, graphical)
  }

  function Start(headless: seq<Batch>, graphical: seq<Batch>, workers: nat, failfast: bool): System {
    System(Shared(headless, graphical, [], {}, [], 0, [], false, 0), Threads(workers, graphical != []), [], failfast, false)
  }

  function Moved(y: System, t: nat, phase: Phase): seq<Thread>
    requires t < |y.threads|
  {
    y.threads[t := y.threads[t].(phase := phase)]
  }

  function NextTake(y: System, t: nat): System
    requires t < |y.threads| && y.threads[t].phase.Ready?
  {
    var lane := y.threads[t].lane;
    if CanTake(y.shared, lane)
    then y.(shared := AfterTake(y.shared, lane), threads := Moved(y, t, Working(Queue(y.shared, lane)[0])))
    else y.(threads := Moved(y, t, Exited))
  }

  /** The step that publishes `report`. */
  function Conclusion(y: System, t: nat, execution: Execution, report: Report, fault: Option<nat>): System
    requires t < |y.threads| && y.threads[t].phase.Working?
  {
    var batch := y.threads[t].phase.batch;
    var shared := AfterPublish(y.shared, report, fault, y.failfast);
    if Raises(Published(report.kept), fault)
    then y.(shared := shared, threads := Moved(y, t, Failing(batch, report.skipped)), upset := true)
    else y.(shared := shared, threads := Moved(y, t, Ready), closed := y.closed + [Ran(batch, execution)])
  }

  function NextFinish(y: System, t: nat, execution: Execution, fault: Option<nat>): System
    requires t < |y.threads| && y.threads[t].phase.Working?
  {
    Conclusion(y, t, execution, Reconciled(y.threads[t].phase.batch.ids, execution, y.failfast), fault)
  }

  function NextUpset(y: System, t: nat): System
    requires t < |y.threads| && y.threads[t].phase.Working?
  {
    y.(threads := Moved(y, t, Failing(y.threads[t].phase.batch, [])), upset := true)
  }

  function NextHandle(y: System, t: nat, fault: Option<nat>): System
    requires t < |y.threads| && y.threads[t].phase.Failing?
  {
    var Failing(batch, dropped) := y.threads[t].phase;
    var shared := AfterFail(y.shared, batch, fault, y.failfast);
    if Raises(Unrecorded(y.shared, batch), fault)
    then y.(shared := shared, threads := Moved(y, t, Dead(batch, dropped)))
    else y.(shared := shared, threads := Moved(y, t, Ready), closed := y.closed + [GaveUp(batch, dropped)])
  }

  /** An event of a thread that is elsewhere does nothing. */
  function Next(y: System, e: Event): System {
    if e.thread >= |y.threads| then y
    else
      var phase := y.threads[e.thread].phase;
      match e
      case TakeNext(t) => if phase.Ready? then NextTake(y, t) else y
      case Finish(t, execution, fault) => if phase.Working? then NextFinish(y, t, execution, fault) else y
      case Upset(t) => if phase.Working? then NextUpset(y, t) else y
      case Handle(t, fault) => if phase.Failing? then NextHandle(y, t, fault) else y
  }

  function After(y: System, events: seq<Event>): System {
    if events == [] then y else Next(After(y, events[..|events| - 1]), events[|events| - 1])
  }

  // ----- Where a test is

  function Times(batch: Batch, id: string): nat {
    multiset(batch.ids)[id]
  }

  function Queued(batches: seq<Batch>, id: string): nat {
    if batches == [] then 0 else Times(batches[0], id) + Queued(batches[1..], id)
  }

  function Holds(thread: Thread, id: string, stuck: bool): nat {
    match thread.phase
    case Working(batch) => if stuck then 0 else Times(batch, id)
    case Failing(batch, _) => Times(batch, id)
    case Dead(batch, _) => Times(batch, id)
    case _ => 0
  }

  /** How often the batches in the threads' hands list a test; with `stuck`, only those whose section was broken off. */
  function Held(threads: seq<Thread>, id: string, stuck: bool): nat {
    if threads == [] then 0 else Holds(threads[0], id, stuck) + Held(threads[1..], id, stuck)
  }

  function Done(closed: seq<Closed>, id: string): nat {
    if closed == [] then 0 else Done(closed[..|closed| - 1], id) + Times(closed[|closed| - 1].batch, id)
  }

  /** The bookkeeping of one test that the plan lists `planned` times: in how many queued, held, broken-off and closed
      batches it is, whether it is recorded or skipped, and how many records it has. */
  predicate Balanced(queued: nat, held: nat, stuck: nat, done: nat, recorded: bool, skipped: bool, records: nat, planned: nat) {
    && queued + held + done == planned
    && (done > 0 ==> recorded || skipped)
    && (recorded || skipped ==> done + stuck > 0)
    && (planned <= 1 ==> records == if recorded then 1 else 0)
  }

  predicate Accounts(y: System, id: string, planned: nat) {
    Balanced(Queued(y.shared.headless, id) + Queued(y.shared.graphical, id), Held(y.threads, id, false),
             Held(y.threads, id, true), Done(y.closed, id), id in y.shared.recorded, id in y.shared.skipped,
             RowCount(y.shared.records, id), planned)
  }

  lemma {:induction false} HeldMoved(threads: seq<Thread>, t: nat, thread: Thread, id: string, stuck: bool)
    requires t < |threads|
    ensures Held(threads[t := thread], id, stuck) + Holds(threads[t], id, stuck) == Held(threads, id, stuck) + Holds(thread, id, stuck)
    decreases |threads|
  {
    if t > 0 {
      HeldMoved(threads[1..], t - 1, thread, id, stuck);
      assert threads[t := thread][1..] == threads[1..][t - 1 := thread];
    } else {
      assert threads[t := thread][1..] == threads[1..];
    }
  }

  lemma {:induction false} StuckIsHeld(threads: seq<Thread>, id: string)
    ensures Held(threads, id, true) <= Held(threads, id, false)
    decreases |threads|
  {
    if threads != [] {
      StuckIsHeld(threads[1..], id);
    }
  }

  lemma HoldsIsHeld(threads: seq<Thread>, t: nat, id: string)
    requires t < |threads|
    ensures Holds(threads[t], id, true) <= Held(threads, id, true)
  {
    HeldMoved(threads, t, threads[t].(phase := Ready), id, true);
  }

  /** A batch being worked on is held besides all stuck ones. */
  lemma WorkingIsHeld(threads: seq<Thread>, t: nat, id: string)
    requires t < |threads| && threads[t].phase.Working?
    ensures Held(threads, id, true) + Times(threads[t].phase.batch, id) <= Held(threads, id, false)
  {
    var idle := threads[t].(phase := Ready);
    HeldMoved(threads, t, idle, id, true);
    HeldMoved(threads, t, idle, id, false);
    StuckIsHeld(threads[t := idle], id);
  }

  lemma DoneAppend(closed: seq<Closed>, entry: Closed, id: string)
    ensures Done(closed + [entry], id) == Done(closed, id) + Times(entry.batch, id)
  {
    assert (closed + [entry])[..|closed|] == closed;
  }

  // ----- The rows that a section sends

  lemma RowCountAppend(rows: seq<Row>, row: Row, id: string)
    ensures RowCount(rows + [row], id) == RowCount(rows, id) + if row.TestRow? && row.id == id then 1 else 0
  {
    assert (rows + [row])[..|rows|] == rows;
  }

  lemma {:induction false} PublishedCounts(kept: seq<Row>, id: string)
    ensures RowCount(Published(kept), id) == RowCount(kept, id)
    decreases |kept|
  {
    if kept != [] {
      var front, last := kept[..|kept| - 1], kept[|kept| - 1];
      PublishedCounts(front, id);
      RowCountAppend(Published(front), last, id);
      if !Publishes(last) {
        assert Published(front) + [] == Published(front);
      }
    }
  }

  lemma SentCounts(rows: seq<Row>, fault: Option<nat>, id: string)
    ensures RowCount(Sent(rows, fault), id) <= RowCount(rows, id)
    ensures id in IdsOf(Sent(rows, fault)) <==> RowCount(Sent(rows, fault), id) > 0
  {
    IsCounted(Sent(rows, fault), id);
    if Raises(rows, fault) {
      var k := fault.value + 1;
      assert rows == rows[..k] + rows[k..];
      RowCountConcat(rows[..k], rows[k..], id);
    }
  }

  /** What a finished batch sends: records of its own tests only, none of them skipped, at most one for a test listed
      once, and every test of the batch is sent or skipped unless the sink raised. */
  predicate Sends(ids: seq<string>, report: Report, fault: Option<nat>, id: string) {
    var rows := Sent(Published(report.kept), fault);
    && (id in IdsOf(rows) || id in report.skipped ==> id in ids)
    && !(id in IdsOf(rows) && id in report.skipped)
    && (!Raises(Published(report.kept), fault) && id in ids ==> id in IdsOf(rows) || id in report.skipped)
    && (multiset(ids)[id] <= 1 ==> RowCount(rows, id) == if id in IdsOf(rows) then 1 else 0)
  }

  lemma FinishSends(ids: seq<string>, execution: Execution, failfast: bool, fault: Option<nat>, id: string)
    ensures Sends(ids, Reconciled(ids, execution, failfast), fault, id)
  {
    var report := Reconciled(ids, execution, failfast);
    ReconciledAccounts(ids, execution, failfast);
    if multiset(ids)[id] <= 1 {
      ReconciledOnce(ids, execution, failfast, id);
    }
    ReportSends(ids, report, fault, id);
  }

  lemma ReportSends(ids: seq<string>, report: Report, fault: Option<nat>, id: string)
    requires IdsOf(report.kept) + ToSet(report.skipped) == ToSet(ids) && IdsOf(report.kept) !! ToSet(report.skipped)
    requires multiset(ids)[id] <= 1 ==> RowCount(report.kept, id) == if id in IdsOf(report.kept) then 1 else 0
    ensures Sends(ids, report, fault, id)
  {
    assert id in ids <==> id in ToSet(ids);
    assert id in report.skipped <==> id in ToSet(report.skipped);
    IsCounted(report.kept, id);
    PublishedCounts(report.kept, id);
    SentCounts(Published(report.kept), fault, id);
  }

  lemma {:induction false} UnseenIs(ids: seq<string>, seen: set<string>, id: string)
    ensures id in Unseen(ids, seen) <==> id in ids && id !in seen
    ensures multiset(Unseen(ids, seen))[id] <= 1
    decreases |ids|
  {
    if ids != [] {
      var front, last := ids[..|ids| - 1], ids[|ids| - 1];
      UnseenIs(front, seen, id);
      assert ids == front + [last];
    }
  }

  lemma HandleSends(s: Shared, batch: Batch, fault: Option<nat>, id: string)
    ensures var rows := Sent(Unrecorded(s, batch), fault);
      && (id in IdsOf(rows) ==> id in batch.ids && id !in s.recorded)
      && (!Raises(Unrecorded(s, batch), fault) && id in batch.ids ==> id in s.recorded || id in IdsOf(rows))
      && RowCount(rows, id) == if id in IdsOf(rows) then 1 else 0
  {
    var unseen := Unseen(batch.ids, s.recorded);
    UnseenIs(batch.ids, s.recorded, id);
    ErrorRowsAre(unseen);
    assert id in ToSet(unseen) <==> id in unseen;
    SentCounts(Unrecorded(s, batch), fault, id);
  }

  // ----- Conservation

  lemma PhaseHeld(y: System, t: nat, phase: Phase, id: string, stuck: bool)
    requires t < |y.threads|
    ensures Held(Moved(y, t, phase), id, stuck) + Holds(y.threads[t], id, stuck)
         == Held(y.threads, id, stuck) + Holds(Thread(y.threads[t].lane, phase), id, stuck)
  {
    HeldMoved(y.threads, t, y.threads[t].(phase := phase), id, stuck);
  }

  lemma TakenQueue(s: Shared, lane: Lane, id: string)
    requires CanTake(s, lane)
    ensures var z := AfterTake(s, lane);
      Queued(z.headless, id) + Queued(z.graphical, id) + Times(Queue(s, lane)[0], id) == Queued(s.headless, id) + Queued(s.graphical, id)
  {
  }

  lemma TakeAccounts(y: System, t: nat, id: string, planned: nat)
    requires t < |y.threads| && y.threads[t].phase.Ready? && Accounts(y, id, planned)
    ensures Accounts(NextTake(y, t), id, planned)
  {
    if CanTake(y.shared, y.threads[t].lane) {
      TakenAccounts(y, t, id, planned);
    } else {
      PhaseHeld(y, t, Exited, id, false);
      PhaseHeld(y, t, Exited, id, true);
    }
  }

  lemma TakenAccounts(y: System, t: nat, id: string, planned: nat)
    requires t < |y.threads| && y.threads[t].phase.Ready? && Accounts(y, id, planned) && CanTake(y.shared, y.threads[t].lane)
    ensures Accounts(NextTake(y, t), id, planned)
  {
    var phase := Working(Queue(y.shared, y.threads[t].lane)[0]);
    PhaseHeld(y, t, phase, id, false);
    PhaseHeld(y, t, phase, id, true);
    TakenQueue(y.shared, y.threads[t].lane, id);
  }

  /** Sending rows to the shared records. */
  lemma RowsSent(records: seq<Row>, recorded: set<string>, rows: seq<Row>, id: string)
    ensures RowCount(records + rows, id) == RowCount(records, id) + RowCount(rows, id)
    ensures id in recorded + IdsOf(rows) <==> id in recorded || id in IdsOf(rows)
  {
    RowCountConcat(records, rows, id);
  }

  lemma ConclusionThreads(y: System, t: nat, phase: Phase, id: string)
    requires t < |y.threads| && y.threads[t].phase.Working?
    requires phase == Ready || (phase.Failing? && phase.batch == y.threads[t].phase.batch)
    ensures var times := Times(y.threads[t].phase.batch, id);
      var after := if phase == Ready then 0 else times;
      && Held(Moved(y, t, phase), id, false) + times == Held(y.threads, id, false) + after
      && Held(Moved(y, t, phase), id, true) == Held(y.threads, id, true) + after
      && Held(y.threads, id, true) + times <= Held(y.threads, id, false)
  {
    WorkingIsHeld(y.threads, t, id);
    PhaseHeld(y, t, phase, id, false);
    PhaseHeld(y, t, phase, id, true);
  }

  lemma WholeAccounts(y: System, t: nat, execution: Execution, report: Report, fault: Option<nat>, id: string, planned: nat)
    requires t < |y.threads| && y.threads[t].phase.Working? && Accounts(y, id, planned)
    requires Sends(y.threads[t].phase.batch.ids, report, fault, id) && !Raises(Published(report.kept), fault)
    ensures Accounts(Conclusion(y, t, execution, report, fault), id, planned)
  {
    var batch, rows := y.threads[t].phase.batch, Published(report.kept);
    assert id in batch.ids <==> Times(batch, id) > 0;
    ConclusionThreads(y, t, Ready, id);
    DoneAppend(y.closed, Ran(batch, execution), id);
    RowsSent(y.shared.records, y.shared.recorded, rows, id);
    SkippedAppend(y.shared.skipped, report.skipped, id);
  }

  lemma PartAccounts(y: System, t: nat, execution: Execution, report: Report, fault: Option<nat>, id: string, planned: nat)
    requires t < |y.threads| && y.threads[t].phase.Working? && Accounts(y, id, planned)
    requires Sends(y.threads[t].phase.batch.ids, report, fault, id) && Raises(Published(report.kept), fault)
    ensures Accounts(Conclusion(y, t, execution, report, fault), id, planned)
  {
    var batch, rows := y.threads[t].phase.batch, Sent(Published(report.kept), fault);
    assert id in batch.ids <==> Times(batch, id) > 0;
    ConclusionThreads(y, t, Failing(batch, report.skipped), id);
    RowsSent(y.shared.records, y.shared.recorded, rows, id);
    SkippedAppend(y.shared.skipped, report.skipped, id);
  }

  lemma SkippedAppend(skipped: seq<string>, more: seq<string>, id: string)
    ensures id in skipped + more <==> id in skipped || id in more
  {
  }

  lemma ConclusionAccounts(y: System, t: nat, execution: Execution, report: Report, fault: Option<nat>, id: string, planned: nat)
    requires t < |y.threads| && y.threads[t].phase.Working? && Accounts(y, id, planned)
    requires Sends(y.threads[t].phase.batch.ids, report, fault, id)
    ensures Accounts(Conclusion(y, t, execution, report, fault), id, planned)
  {
    if Raises(Published(report.kept), fault) {
      PartAccounts(y, t, execution, report, fault, id, planned);
    } else {
      WholeAccounts(y, t, execution, report, fault, id, planned);
    }
  }

  lemma FinishAccounts(y: System, t: nat, execution: Execution, fault: Option<nat>, id: string, planned: nat)
    requires t < |y.threads| && y.threads[t].phase.Working? && Accounts(y, id, planned)
    ensures Accounts(NextFinish(y, t, execution, fault), id, planned)
  {
    FinishSends(y.threads[t].phase.batch.ids, execution, y.failfast, fault, id);
    ConclusionAccounts(y, t, execution, Reconciled(y.threads[t].phase.batch.ids, execution, y.failfast), fault, id, planned);
  }

  lemma HandleThreads(y: System, t: nat, phase: Phase, id: string)
    requires t < |y.threads| && y.threads[t].phase.Failing?
    requires phase == Ready || (phase.Dead? && phase.batch == y.threads[t].phase.batch)
    ensures var times := Times(y.threads[t].phase.batch, id);
      var after := if phase == Ready then 0 else times;
      && Held(Moved(y, t, phase), id, false) + times == Held(y.threads, id, false) + after
      && Held(Moved(y, t, phase), id, true) + times == Held(y.threads, id, true) + after
      && times <= Held(y.threads, id, true)
  {
    HoldsIsHeld(y.threads, t, id);
    PhaseHeld(y, t, phase, id, false);
    PhaseHeld(y, t, phase, id, true);
  }

  lemma HandleAccounts(y: System, t: nat, fault: Option<nat>, id: string, planned: nat)
    requires t < |y.threads| && y.threads[t].phase.Failing? && Accounts(y, id, planned)
    ensures Accounts(NextHandle(y, t, fault), id, planned)
  {
    var batch := y.threads[t].phase.batch;
    if Raises(Unrecorded(y.shared, batch), fault) {
      DiedAccounts(y, t, fault, id, planned);
    } else {
      GaveUpAccounts(y, t, fault, id, planned);
    }
  }

  lemma GaveUpAccounts(y: System, t: nat, fault: Option<nat>, id: string, planned: nat)
    requires t < |y.threads| && y.threads[t].phase.Failing? && Accounts(y, id, planned)
    requires !Raises(Unrecorded(y.shared, y.threads[t].phase.batch), fault)
    ensures Accounts(NextHandle(y, t, fault), id, planned)
  {
    var Failing(batch, dropped) := y.threads[t].phase;
    assert id in batch.ids <==> Times(batch, id) > 0;
    HandleThreads(y, t, Ready, id);
    DoneAppend(y.closed, GaveUp(batch, dropped), id);
    HandleSends(y.shared, batch, fault, id);
    RowsSent(y.shared.records, y.shared.recorded, Sent(Unrecorded(y.shared, batch), fault), id);
  }

  lemma DiedAccounts(y: System, t: nat, fault: Option<nat>, id: string, planned: nat)
    requires t < |y.threads| && y.threads[t].phase.Failing? && Accounts(y, id, planned)
    requires Raises(Unrecorded(y.shared, y.threads[t].phase.batch), fault)
    ensures Accounts(NextHandle(y, t, fault), id, planned)
  {
    var Failing(batch, dropped) := y.threads[t].phase;
    assert id in batch.ids <==> Times(batch, id) > 0;
    HandleThreads(y, t, Dead(batch, dropped), id);
    HandleSends(y.shared, batch, fault, id);
    RowsSent(y.shared.records, y.shared.recorded, Sent(Unrecorded(y.shared, batch), fault), id);
  }

  lemma {:induction false} NextAccounts(y: System, e: Event, id: string, planned: nat)
    requires Accounts(y, id, planned)
    ensures Accounts(Next(y, e), id, planned)
  {
    if e.thread < |y.threads| {
      var phase := y.threads[e.thread].phase;
      match e
      case TakeNext(t) =>
        if phase.Ready? { TakeAccounts(y, t, id, planned); }
      case Finish(t, execution, fault) =>
        if phase.Working? { FinishAccounts(y, t, execution, fault, id, planned); }
      case Upset(t) =>
        if phase.Working? {
          PhaseHeld(y, t, Failing(phase.batch, []), id, false);
          PhaseHeld(y, t, Failing(phase.batch, []), id, true);
        }
      case Handle(t, fault) =>
        if phase.Failing? { HandleAccounts(y, t, fault, id, planned); }
    }
  }

  lemma {:induction false} NothingHeld(workers: nat, graphical: bool, id: string, stuck: bool)
    ensures Held(Threads(workers, graphical), id, stuck) == 0
    decreases workers
  {
    if workers > 0 {
      NothingHeld(workers - 1, graphical, id, stuck);
      assert Threads(workers, graphical)[1..] == Threads(workers - 1, graphical);
    }
  }

  function Planned(headless: seq<Batch>, graphical: seq<Batch>, id: string): nat {
    Queued(headless, id) + Queued(graphical, id)
  }

  /** Nothing is lost or invented, after every sequence of events. */
  lemma {:induction false} AlwaysAccounts(headless: seq<Batch>, graphical: seq<Batch>, workers: nat, failfast: bool, events: seq<Event>, id: string)
    ensures Accounts(After(Start(headless, graphical, workers, failfast), events), id, Planned(headless, graphical, id))
    decreases |events|
  {
    if events == [] {
      NothingHeld(workers, graphical != [], id, false);
      NothingHeld(workers, graphical != [], id, true);
    } else {
      AlwaysAccounts(headless, graphical, workers, failfast, events[..|events| - 1], id);
      NextAccounts(After(Start(headless, graphical, workers, failfast), events[..|events| - 1]), events[|events| - 1],
                   id, Planned(headless, graphical, id));
    }
  }

  /** A test planned once is at every moment in exactly one place: in a queued batch, in a batch in a thread's hands, or
      in a closed batch. Before its batch reports, it has no result; once its batch is closed, it is recorded exactly
      once or skipped by fail-fast. */
  lemma InOnePlace(headless: seq<Batch>, graphical: seq<Batch>, workers: nat, failfast: bool, events: seq<Event>, id: string)
    requires Planned(headless, graphical, id) == 1
    ensures var y := After(Start(headless, graphical, workers, failfast), events);
      var queued := Queued(y.shared.headless, id) + Queued(y.shared.graphical, id);
      && queued + Held(y.threads, id, false) + Done(y.closed, id) == 1
      && (queued == 1 || (Held(y.threads, id, false) == 1 && Held(y.threads, id, true) == 0) ==>
           id !in y.shared.recorded && id !in y.shared.skipped)
      && (Done(y.closed, id) == 1 ==> id in y.shared.recorded || id in y.shared.skipped)
      && RowCount(y.shared.records, id) == if id in y.shared.recorded then 1 else 0
  {
    AlwaysAccounts(headless, graphical, workers, failfast, events, id);
    StuckIsHeld(After(Start(headless, graphical, workers, failfast), events).threads, id);
  }

  /** A test that was not planned never gets a result. */
  lemma NothingForeign(headless: seq<Batch>, graphical: seq<Batch>, workers: nat, failfast: bool, events: seq<Event>, id: string)
    requires Planned(headless, graphical, id) == 0
    ensures var s := After(Start(headless, graphical, workers, failfast), events).shared;
      id !in s.recorded && id !in s.skipped && RowCount(s.records, id) == 0
  {
    AlwaysAccounts(headless, graphical, workers, failfast, events, id);
    StuckIsHeld(After(Start(headless, graphical, workers, failfast), events).threads, id);
  }

  // ----- Graphical batches run one at a time

  predicate InHand(phase: Phase) {
    phase.Working? || phase.Failing? || phase.Dead?
  }

  predicate Laned(y: System, headless: seq<Batch>, graphical: seq<Batch>, workers: nat) {
    && (forall b :: b in y.shared.headless ==> b in headless) && (forall b :: b in y.shared.graphical ==> b in graphical)
    && |y.threads| == |Threads(workers, graphical != [])|
    && (forall t :: 0 <= t < |y.threads| ==> InLane(y.threads[t], t < workers, headless, graphical))
  }

  predicate InLane(thread: Thread, early: bool, headless: seq<Batch>, graphical: seq<Batch>) {
    && thread.lane == (if early then Headless else Graphical)
    && (InHand(thread.phase) ==> thread.phase.batch in if early then headless else graphical)
  }

  lemma {:induction false} ThreadLanes(workers: nat, graphical: bool)
    ensures |Threads(workers, graphical)| == workers + if graphical then 1 else 0
    ensures forall t {:trigger Threads(workers, graphical)[t]} :: 0 <= t < |Threads(workers, graphical)| ==>
              Threads(workers, graphical)[t] == Thread(if t < workers then Headless else Graphical, Ready)
    decreases workers
  {
    if workers > 0 {
      ThreadLanes(workers - 1, graphical);
      forall t | 0 <= t < |Threads(workers, graphical)|
        ensures Threads(workers, graphical)[t] == Thread(if t < workers then Headless else Graphical, Ready)
      {
        if t > 0 {
          assert Threads(workers, graphical)[t] == Threads(workers - 1, graphical)[t - 1];
        }
      }
    }
  }

  /** A thread with batch `b` in hand either had it before or took it from the front of its lane. */
  predicate Obtained(before: Phase, queue: seq<Batch>, after: Phase) {
    InHand(after) ==>
      || (InHand(before) && after.batch == before.batch)
      || (queue != [] && after.batch == queue[0])
  }

  /** A step changes the phase of one thread, which keeps its batch or takes one from the front of its lane. */
  lemma NextMoves(y: System, e: Event)
    requires e.thread < |y.threads|
    ensures var t, z := e.thread, Next(y, e);
      && |z.threads| == |y.threads| && z.threads == Moved(y, t, z.threads[t].phase)
      && Obtained(y.threads[t].phase, Queue(y.shared, y.threads[t].lane), z.threads[t].phase)
  {
    var phase := y.threads[e.thread].phase;
    assert Moved(y, e.thread, phase) == y.threads;
    match e
    case TakeNext(t) =>
      if phase.Ready? { assert NextTake(y, t).threads == Moved(y, t, NextTake(y, t).threads[t].phase); }
    case Finish(t, execution, fault) =>
      if phase.Working? { ConclusionMoves(y, t, execution, Reconciled(phase.batch.ids, execution, y.failfast), fault); }
    case Upset(t) =>
      if phase.Working? { assert NextUpset(y, t).threads == Moved(y, t, Failing(phase.batch, [])); }
    case Handle(t, fault) =>
      if phase.Failing? { assert NextHandle(y, t, fault).threads == Moved(y, t, NextHandle(y, t, fault).threads[t].phase); }
  }

  lemma ConclusionMoves(y: System, t: nat, execution: Execution, report: Report, fault: Option<nat>)
    requires t < |y.threads| && y.threads[t].phase.Working?
    ensures var z := Conclusion(y, t, execution, report, fault);
      && |z.threads| == |y.threads| && z.threads == Moved(y, t, z.threads[t].phase)
      && Obtained(y.threads[t].phase, [], z.threads[t].phase)
  {
  }

  lemma NextQueues(y: System, e: Event)
    ensures forall lane, b :: b in Queue(Next(y, e).shared, lane) ==> b in Queue(y.shared, lane)
  {
  }

  lemma NextLaned(y: System, e: Event, headless: seq<Batch>, graphical: seq<Batch>, workers: nat)
    requires Laned(y, headless, graphical, workers)
    ensures Laned(Next(y, e), headless, graphical, workers)
  {
    if e.thread < |y.threads| {
      var t, z := e.thread, Next(y, e);
      assert InLane(y.threads[t], t < workers, headless, graphical);
      NextMoves(y, e);
      NextQueues(y, e);
      assert forall b :: b in z.shared.headless ==> b in Queue(z.shared, Headless);
      assert forall b :: b in z.shared.graphical ==> b in Queue(z.shared, Graphical);
      MovedLaned(y, t, z.threads[t].phase, headless, graphical, workers);
    }
  }

  lemma MovedLaned(y: System, t: nat, phase: Phase, headless: seq<Batch>, graphical: seq<Batch>, workers: nat)
    requires Laned(y, headless, graphical, workers) && t < |y.threads|
    requires InHand(phase) ==>
               || (InHand(y.threads[t].phase) && phase.batch == y.threads[t].phase.batch)
               || phase.batch in Queue(y.shared, y.threads[t].lane)
    ensures forall i :: 0 <= i < |y.threads| ==> InLane(Moved(y, t, phase)[i], i < workers, headless, graphical)
  {
    assert InLane(y.threads[t], t < workers, headless, graphical);
    forall i | 0 <= i < |y.threads|
      ensures InLane(Moved(y, t, phase)[i], i < workers, headless, graphical)
    {
      assert InLane(y.threads[i], i < workers, headless, graphical);
    }
  }

  lemma {:induction false} AlwaysLaned(headless: seq<Batch>, graphical: seq<Batch>, workers: nat, failfast: bool, events: seq<Event>)
    ensures Laned(After(Start(headless, graphical, workers, failfast), events), headless, graphical, workers)
    decreases |events|
  {
    if events == [] {
      ThreadLanes(workers, graphical != []);
    } else {
      AlwaysLaned(headless, graphical, workers, failfast, events[..|events| - 1]);
      NextLaned(After(Start(headless, graphical, workers, failfast), events[..|events| - 1]), events[|events| - 1], headless, graphical, workers);
    }
  }

  /** Two threads never hold graphical batches at the same time. */
  lemma OneGraphicalAtATime(headless: seq<Batch>, graphical: seq<Batch>, workers: nat, failfast: bool, events: seq<Event>, i: nat, j: nat)
    requires forall b :: b in headless ==> !b.graphical
    requires var threads := After(Start(headless, graphical, workers, failfast), events).threads;
      && i < |threads| && InHand(threads[i].phase) && threads[i].phase.batch.graphical
      && j < |threads| && InHand(threads[j].phase) && threads[j].phase.batch.graphical
    ensures i == j
  {
    AlwaysLaned(headless, graphical, workers, failfast, events);
    ThreadLanes(workers, graphical != []);
    var threads := After(Start(headless, graphical, workers, failfast), events).threads;
    assert InLane(threads[i], i < workers, headless, graphical);
    assert InLane(threads[j], j < workers, headless, graphical);
  }

  // ----- Fail-fast

  lemma StopsNext(y: System, e: Event)
    requires y.shared.stopped
    ensures var z := Next(y, e);
      z.shared.stopped && z.shared.headless == y.shared.headless && z.shared.graphical == y.shared.graphical
  {
  }

  /** Once stopped, no lane gives out a batch again. */
  lemma {:induction false} StaysStopped(y: System, events: seq<Event>)
    requires y.shared.stopped
    ensures var z := After(y, events);
      z.shared.stopped && z.shared.headless == y.shared.headless && z.shared.graphical == y.shared.graphical
    decreases |events|
  {
    if events != [] {
      StaysStopped(y, events[..|events| - 1]);
      StopsNext(After(y, events[..|events| - 1]), events[|events| - 1]);
    }
  }

  /** Under fail-fast, a batch whose worker did not agree with its own report stops both lanes for good. */
  lemma FailureStops(y: System, t: nat, execution: Execution, events: seq<Event>)
    requires t < |y.threads| && y.threads[t].phase.Working? && y.failfast
    requires !Agreeing(y.threads[t].phase.batch.ids, execution)
    ensures var z := After(Next(y, Finish(t, execution, None)), events);
      z.shared.headless == y.shared.headless && z.shared.graphical == y.shared.graphical && !CanTake(z.shared, Headless) && !CanTake(z.shared, Graphical)
  {
    FailedExactly(y.threads[t].phase.batch.ids, execution, true);
    StaysStopped(Next(y, Finish(t, execution, None)), events);
  }

  /** So does one that the exception handler dealt with. */
  lemma HandlerStops(y: System, t: nat, events: seq<Event>)
    requires t < |y.threads| && y.threads[t].phase.Failing? && y.failfast
    ensures var z := After(Next(y, Handle(t, None)), events);
      z.shared.headless == y.shared.headless && z.shared.graphical == y.shared.graphical && !CanTake(z.shared, Headless) && !CanTake(z.shared, Graphical)
  {
    StaysStopped(Next(y, Handle(t, None)), events);
  }

  /** Without fail-fast nothing stops the lanes. */
  lemma {:induction false} NeverStops(headless: seq<Batch>, graphical: seq<Batch>, workers: nat, events: seq<Event>)
    ensures var y := After(Start(headless, graphical, workers, false), events); !y.failfast && !y.shared.stopped
    decreases |events|
  {
    if events != [] {
      NeverStops(headless, graphical, workers, events[..|events| - 1]);
    }
  }
}
