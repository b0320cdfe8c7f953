/** What the lanes of scripts/parallel_tests.py share, and the sections that their threads run under one lock. */
module TestLanes {
  // A sink may raise at any record; the sections that follow are then those of the exception handler.

  import opened Options
  import opened TestScheduler

  datatype Lane = Headless | Graphical

  datatype Item = Item(number: nat, batch: Batch)

  /** What the lock protects. */
  datatype Shared = Shared(headless: seq<Batch>, graphical: seq<Batch>, records: seq<Row>, recorded: set<string>,
                           counts: seq<Counts>, problems: nat, skipped: seq<string>, stopped: bool, counter: nat)

  const ERROR_COUNTS := Counts(0, 1, 0, 0, 0)

  function Queue(s: Shared, lane: Lane): seq<Batch> {
    if lane == Headless then s.headless else s.graphical
  }

  predicate Publishes(row: Row) {
    row.TestRow? || (row.OtherRow? && !row.kind.Selection? && !row.kind.Waiver?)
  }

  /** The rows of a batch that go to the shared records: its own summary and selection rows do not. */
  function Published(kept: seq<Row>): seq<Row> {
    if kept == [] then []
    else Published(kept[..|kept| - 1]) + if Publishes(kept[|kept| - 1]) then [kept[|kept| - 1]] else []
  }

  function Repeat(counts: Counts, times: nat): seq<Counts> {
    if times == 0 then [] else Repeat(counts, times - 1) + [counts]
  }

  /** The sink raises at row number `fault`, after that row was recorded. */
  predicate Raises(rows: seq<Row>, fault: Option<nat>) {
    fault.Some? && fault.value < |rows|
  }

  function Sent(rows: seq<Row>, fault: Option<nat>): seq<Row> {
    if Raises(rows, fault) then rows[..fault.value + 1] else rows
  }

  // ----- The locked sections

  predicate CanTake(s: Shared, lane: Lane) {
    !s.stopped && Queue(s, lane) != []
  }

  function AfterTake(s: Shared, lane: Lane): Shared
    requires CanTake(s, lane)
  {
    if lane == Headless then s.(headless := s.headless[1..], counter := s.counter + 1)
    else s.(graphical := s.graphical[1..], counter := s.counter + 1)
  }

  function AfterPublish(s: Shared, report: Report, fault: Option<nat>, failfast: bool): Shared {
    var rows := Published(report.kept);
    s.(records := s.records + Sent(rows, fault), recorded := s.recorded + IdsOf(Sent(rows, fault)),
       counts := s.counts + [report.counts], problems := s.problems + report.problems,
       skipped := s.skipped + report.skipped,
       stopped := s.stopped || (!Raises(rows, fault) && report.failed && failfast))
  }

  /** The error records that the handler adds for the tests of a batch without a record. */
  function Unrecorded(s: Shared, batch: Batch): seq<Row> {
    ErrorRows(Unseen(batch.ids, s.recorded))
  }

  function AfterFail(s: Shared, batch: Batch, fault: Option<nat>, failfast: bool): Shared {
    var rows := Unrecorded(s, batch);
    s.(records := s.records + Sent(rows, fault), recorded := s.recorded + IdsOf(Sent(rows, fault)),
       counts := s.counts + Repeat(ERROR_COUNTS, |Sent(rows, fault)|), problems := s.problems + 1,
       stopped := s.stopped || (!Raises(rows, fault) && failfast))
  }

  lemma {:induction false} PublishedPrefix(kept: seq<Row>, i: nat)
    requires i <= |kept|
    ensures Published(kept[..i]) <= Published(kept)
    decreases |kept| - i
  {
    if i < |kept| {
      assert kept[..i + 1][..i] == kept[..i];
      PublishedPrefix(kept, i + 1);
    } else {
      assert kept[..i] == kept;
    }
  }

  lemma ErrorRowsAppend(ids: seq<string>, id: string)
    ensures ErrorRows(ids + [id]) == ErrorRows(ids) + [ErrorRow(id)]
  {
  }

  lemma {:induction false} UnseenPrefix(ids: seq<string>, seen: set<string>, i: nat)
    requires i <= |ids|
    ensures Unseen(ids[..i], seen) <= Unseen(ids, seen)
    decreases |ids| - i
  {
    if i < |ids| {
      assert ids[..i + 1][..i] == ids[..i];
      UnseenPrefix(ids, seen, i + 1);
    } else {
      assert ids[..i] == ids;
    }
  }

  class Scheduler {
    var headless: seq<Batch>
    var graphical: seq<Batch>
    var records: seq<Row>
    var recorded: set<string>
    var counts: seq<Counts>
    var problems: nat
    var skipped: seq<string>
    var stopped: bool
    var counter: nat
    const failfast: bool

    constructor (headless: seq<Batch>, graphical: seq<Batch>, failfast: bool)
      ensures State() == Shared(headless, graphical, [], {}, [], 0, [], false, 0) && this.failfast == failfast
    {
      this.headless, this.graphical, this.failfast := headless, graphical, failfast;
      records, recorded, counts, problems, skipped, stopped, counter := [], {}, [], 0, [], false, 0;
    }

    function State(): Shared
      reads this
    {
      Shared(headless, graphical, records, recorded, counts, problems, skipped, stopped, counter)
    }

    method Take(lane: Lane) returns (item: Option<Item>)
      modifies this
      ensures item.Some? <==> CanTake(old(State()), lane)
      ensures item.None? ==> State() == old(State())
      ensures item.Some? ==> State() == AfterTake(old(State()), lane) && [item.value.batch] + Queue(State(), lane) == old(Queue(State(), lane))
      ensures item.Some? ==> item.value.number == State().counter
    {
      if stopped || (if lane == Headless then headless else graphical) == [] {
        return None;
      }
      counter := counter + 1;
      if lane == Headless {
        item := Some(Item(counter, headless[0]));
        headless := headless[1..];
      } else {
        item := Some(Item(counter, graphical[0]));
        graphical := graphical[1..];
      }
    }

    /** `run_batch` for what its worker did; `raised` when the sink raised. */
    method RunBatch(batch: Batch, execution: Execution, fault: Option<nat>) returns (raised: bool)
      modifies this
      ensures State() == AfterPublish(old(State()), Reconciled(batch.ids, execution, failfast), fault, failfast)
      ensures raised <==> Raises(Published(Reconciled(batch.ids, execution, failfast).kept), fault)
    {
      var report := TestScheduler.RunBatch(batch.ids, execution, failfast);
      raised := Publish(report, fault);
    }

    /** The locked section of `run_batch`. */
    method Publish(report: Report, fault: Option<nat>) returns (raised: bool)
      modifies this
      ensures State() == AfterPublish(old(State()), report, fault, failfast)
      ensures raised <==> Raises(Published(report.kept), fault)
    {
      problems := problems + report.problems;
      skipped := skipped + report.skipped;
      counts := counts + [report.counts];
      raised := Record(report.kept, fault);
      if !raised && report.failed && failfast {
        stopped := true;
      }
    }

    method Record(kept: seq<Row>, fault: Option<nat>) returns (raised: bool)
      modifies this`records, this`recorded
      ensures raised <==> Raises(Published(kept), fault)
      ensures records == old(records) + Sent(Published(kept), fault)
      ensures recorded == old(recorded) + IdsOf(Sent(Published(kept), fault))
    {
      ghost var sent := [];
      var calls := 0;
      for i := 0 to |kept|
        invariant sent == Published(kept[..i]) && !Raises(sent, fault) && calls == |sent|
        invariant records == old(records) + sent && recorded == old(recorded) + IdsOf(sent)
      {
        var row := kept[i];
        assert kept[..i + 1][..i] == kept[..i];
        if row.SuiteRow? || (row.OtherRow? && row.kind.Selection?) {
          continue;
        }
        if row.OtherRow? && row.kind.Waiver? {
          continue;
        }
        if row.TestRow? {
          recorded := recorded + {row.id};
        }
        records := records + [row];
        IdsOfAppend(sent, row);
        sent := sent + [row];
        PublishedPrefix(kept, i + 1);
        calls := calls + 1;
        if fault == Some(calls - 1) {
          assert Sent(Published(kept), fault) == sent;
          return true;
        }
      }
      assert kept[..|kept|] == kept;
      return false;
    }

    method FailBatch(batch: Batch, fault: Option<nat>) returns (raised: bool)
      modifies this
      ensures State() == AfterFail(old(State()), batch, fault, failfast)
      ensures raised <==> Raises(Unrecorded(old(State()), batch), fault)
    {
      problems := problems + 1;
      raised := RecordErrors(batch.ids, fault);
      if !raised && failfast {
        stopped := true;
      }
    }

    method RecordError(id: string)
      modifies this`records, this`recorded, this`counts
      ensures records == old(records) + [ErrorRow(id)] && recorded == old(recorded) + {id}
      ensures counts == old(counts) + [ERROR_COUNTS]
    {
      recorded := recorded + {id};
      var row := ErrorRow(id);
      records := records + [row];
      var single := [row];
      counts := counts + [CombinedCounts(None, single)];
      ErrorCounts(single, id);
    }

    method RecordErrors(ids: seq<string>, fault: Option<nat>) returns (raised: bool)
      modifies this`records, this`recorded, this`counts
      ensures var rows := ErrorRows(Unseen(ids, old(recorded)));
        && (raised <==> Raises(rows, fault))
        && records == old(records) + Sent(rows, fault)
        && recorded == old(recorded) + IdsOf(Sent(rows, fault))
        && counts == old(counts) + Repeat(ERROR_COUNTS, |Sent(rows, fault)|)
    {
      ghost var failing: seq<string> := [];
      var calls := 0;
      for i := 0 to |ids|
        invariant failing == Unseen(ids[..i], old(recorded)) && !Raises(ErrorRows(failing), fault) && calls == |failing|
        invariant records == old(records) + ErrorRows(failing) && recorded == old(recorded) + ToSet(failing)
        invariant counts == old(counts) + Repeat(ERROR_COUNTS, |failing|)
      {
        assert ids[..i + 1][..i] == ids[..i];
        if ids[i] in recorded {
          continue;
        }
        RecordError(ids[i]);
        ErrorRowsAppend(failing, ids[i]);
        failing := failing + [ids[i]];
        calls := calls + 1;
        if fault == Some(calls - 1) {
          StoppedErrors(ids, old(recorded), i + 1, failing, fault);
          return true;
        }
      }
      assert ids[..|ids|] == ids;
      ErrorRowsAre(failing);
      return false;
    }
  }

  lemma ErrorCounts(rows: seq<Row>, id: string)
    requires |rows| == 1 && rows[0] == ErrorRow(id)
    ensures CombinedCounts(None, rows) == ERROR_COUNTS
  {
    calc {
      CombinedCounts(None, rows);
      { UnsummedCounts(rows); }
      Derived(rows);
      { SingleCounts(rows); }
      Add(ZERO, RowCounts(ErrorRow(id)));
      { AddZero(RowCounts(ErrorRow(id))); }
      RowCounts(ErrorRow(id));
      { ErrorRowCounts(id); }
      ERROR_COUNTS;
    }
  }

  lemma AddZero(counts: Counts)
    ensures Add(ZERO, counts) == counts
  {
  }

  lemma ErrorRowCounts(id: string)
    ensures RowCounts(ErrorRow(id)) == ERROR_COUNTS
  {
  }

  lemma SingleCounts(rows: seq<Row>)
    requires |rows| == 1
    ensures Derived(rows) == Add(ZERO, RowCounts(rows[0]))
  {
    assert rows[..0] == [];
  }

  lemma UnsummedCounts(rows: seq<Row>)
    ensures CombinedCounts(None, rows) == Derived(rows)
  {
  }

  /** The sink raised at the last error record so far. */
  lemma StoppedErrors(ids: seq<string>, seen: set<string>, i: nat, failing: seq<string>, fault: Option<nat>)
    requires i <= |ids| && failing == Unseen(ids[..i], seen) && failing != [] && fault == Some(|failing| - 1)
    ensures var rows := ErrorRows(Unseen(ids, seen));
      Raises(rows, fault) && Sent(rows, fault) == ErrorRows(failing) && IdsOf(Sent(rows, fault)) == ToSet(failing)
  {
    UnseenPrefix(ids, seen, i);
    SentErrors(failing, Unseen(ids, seen), fault);
    ErrorRowsAre(failing);
  }

  lemma SentErrors(prefix: seq<string>, ids: seq<string>, fault: Option<nat>)
    requires prefix <= ids && prefix != [] && fault == Some(|prefix| - 1)
    ensures Sent(ErrorRows(ids), fault) == ErrorRows(prefix)
  {
  }
}
