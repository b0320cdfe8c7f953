/** What a worker reports for one batch, and how scripts/parallel_tests.py reconciles and accounts it. */
module TestScheduler {
  import opened Options

  datatype Outcome =
    | Passed | Failure | Error | Interrupted | Skip | ExpectedFailure | UnexpectedSuccess
    | OtherOutcome(name: string)

  datatype Kind = Selection | Waiver | OtherKind(name: string)

  /** Counts that are not nonnegative integers in the worker's record stand here as negative numbers. */
  datatype Row =
    | TestRow(id: string, outcome: Outcome, failures: int, errors: int, subtestsSkipped: int)
    | SuiteRow(testsRun: int, successful: Option<bool>, failures: int, errors: int, skipped: int,
               expectedFailures: int, unexpectedSuccesses: int)
    | OtherRow(kind: Kind)

  datatype Counts = Counts(failures: nat, errors: nat, skipped: nat, expectedFailures: nat, unexpectedSuccesses: nat)

  datatype Batch = Batch(ids: seq<string>, graphical: bool)

  /** What starting a worker yields: nothing at all, or an exit status, the well-formed records in order and the number
      of malformed ones. */
  datatype Execution = Raised | Finished(returncode: int, rows: seq<Row>, malformed: nat)

  /** The reconciled result of one batch; problems are counted, not worded. */
  datatype Report = Report(kept: seq<Row>, problems: nat, skipped: seq<string>, counts: Counts, failed: bool)

  const FAILING_OUTCOMES := {Failure, Error, Interrupted, UnexpectedSuccess}
  const ZERO := Counts(0, 0, 0, 0, 0)

  // ----- Accounting of one batch

  function Nonnegative(value: int): nat {
    if value >= 0 then value else 0
  }

  function Max(a: nat, b: nat): nat {
    if a >= b then a else b
  }

  function Add(a: Counts, b: Counts): Counts {
    Counts(a.failures + b.failures, a.errors + b.errors, a.skipped + b.skipped,
           a.expectedFailures + b.expectedFailures, a.unexpectedSuccesses + b.unexpectedSuccesses)
  }

  /** What one test record shows by itself. */
  function RowCounts(row: Row): Counts {
    match row
    case TestRow(_, outcome, failures, errors, subtestsSkipped) =>
      Counts(Max(Nonnegative(failures), if outcome == Failure then 1 else 0),
             Max(Nonnegative(errors), if outcome == Error || outcome == Interrupted then 1 else 0),
             Nonnegative(subtestsSkipped) + (if outcome == Skip then 1 else 0),
             if outcome == ExpectedFailure then 1 else 0,
             if outcome == UnexpectedSuccess then 1 else 0)
    case _ => ZERO
  }

  function Derived(rows: seq<Row>): Counts {
    if rows == [] then ZERO else Add(Derived(rows[..|rows| - 1]), RowCounts(rows[|rows| - 1]))
  }

  /** `combined_counts`: the summary's totals, but never below what the records show. */
  function CombinedCounts(summary: Option<Row>, rows: seq<Row>): Counts {
    var derived := Derived(rows);
    if summary.Some? && summary.value.SuiteRow? then
      var s := summary.value;
      Counts(Max(derived.failures, Nonnegative(s.failures)), Max(derived.errors, Nonnegative(s.errors)),
             Max(derived.skipped, Nonnegative(s.skipped)), Max(derived.expectedFailures, Nonnegative(s.expectedFailures)),
             Max(derived.unexpectedSuccesses, Nonnegative(s.unexpectedSuccesses)))
    else derived
  }

  predicate Bad(counts: Counts) {
    counts.failures > 0 || counts.errors > 0 || counts.unexpectedSuccesses > 0
  }

  lemma {:induction false} DerivedShows(rows: seq<Row>)
    ensures Bad(Derived(rows)) <==> exists row :: row in rows && Bad(RowCounts(row))
    decreases |rows|
  {
    if rows != [] {
      var front, last := rows[..|rows| - 1], rows[|rows| - 1];
      DerivedShows(front);
      assert forall row :: row in rows <==> row in front || row == last;
    }
  }

  /** No summary can hide a recorded failure. */
  lemma FailureShows(summary: Option<Row>, rows: seq<Row>, row: Row)
    requires row in rows && row.TestRow?
    requires row.outcome in FAILING_OUTCOMES || row.failures > 0 || row.errors > 0
    ensures Bad(CombinedCounts(summary, rows))
  {
    DerivedShows(rows);
    assert Bad(RowCounts(row));
  }

  function IdsOf(rows: seq<Row>): set<string> {
    set row | row in rows && row.TestRow? :: row.id
  }

  /** How many test records there are for an id. */
  function RowCount(rows: seq<Row>, id: string): nat {
    if rows == [] then 0
    else RowCount(rows[..|rows| - 1], id) + (var last := rows[|rows| - 1]; if last.TestRow? && last.id == id then 1 else 0)
  }

  predicate Stray(row: Row, expected: set<string>, kept: seq<Row>) {
    row.TestRow? && (row.id !in expected || row.id in IdsOf(kept))
  }

  /** The records that count: all but results for foreign tests and second results. */
  function Kept(rows: seq<Row>, expected: set<string>): seq<Row> {
    if rows == [] then []
    else
      var front, last := Kept(rows[..|rows| - 1], expected), rows[|rows| - 1];
      if Stray(last, expected, front) then front else front + [last]
  }

  function Strays(rows: seq<Row>, expected: set<string>): nat {
    if rows == [] then 0
    else Strays(rows[..|rows| - 1], expected) +
         if Stray(rows[|rows| - 1], expected, Kept(rows[..|rows| - 1], expected)) then 1 else 0
  }

  /** The ids not among `seen`, in order, without repetition. */
  function Unseen(ids: seq<string>, seen: set<string>): seq<string> {
    if ids == [] then []
    else
      var front, last := Unseen(ids[..|ids| - 1], seen), ids[|ids| - 1];
      if last in seen || last in front then front else front + [last]
  }

  function ToSet(ids: seq<string>): set<string> {
    set id | id in ids
  }

  function ErrorRow(id: string): Row {
    TestRow(id, Error, 0, 1, 0)
  }

  function ErrorRows(ids: seq<string>): (rows: seq<Row>)
    ensures |rows| == |ids| && forall i {:trigger rows[i]} :: 0 <= i < |ids| ==> rows[i] == ErrorRow(ids[i])
  {
    seq(|ids|, i requires 0 <= i < |ids| => ErrorRow(ids[i]))
  }

  function Missing(ids: seq<string>, results: set<string>): seq<string> {
    if ids == [] then []
    else Missing(ids[..|ids| - 1], results) + if ids[|ids| - 1] in results then [] else [ids[|ids| - 1]]
  }

  function Suites(rows: seq<Row>): (suites: seq<Row>)
    ensures forall row :: row in suites ==> row.SuiteRow? && row in rows
  {
    if rows == [] then []
    else Suites(rows[..|rows| - 1]) + if rows[|rows| - 1].SuiteRow? then [rows[|rows| - 1]] else []
  }

  function Tests(rows: seq<Row>): (tests: seq<Row>)
    ensures forall row :: row in tests <==> row.TestRow? && row in rows
  {
    if rows == [] then []
    else Tests(rows[..|rows| - 1]) + if rows[|rows| - 1].TestRow? then [rows[|rows| - 1]] else []
  }

  predicate AnyFailing(rows: seq<Row>) {
    exists row :: row in rows && row.TestRow? && row.outcome in FAILING_OUTCOMES
  }

  /** The loop of `run_batch` over the worker's records. */
  method SelectRows(rows: seq<Row>, expected: set<string>) returns (kept: seq<Row>, results: set<string>, strays: nat)
    ensures kept == Kept(rows, expected) && results == IdsOf(kept) && strays == Strays(rows, expected)
  {
    kept, results, strays := [], {}, 0;
    for i := 0 to |rows|
      invariant kept == Kept(rows[..i], expected) && results == IdsOf(kept) && strays == Strays(rows[..i], expected)
    {
      var row := rows[i];
      assert rows[..i + 1][..i] == rows[..i];
      if row.TestRow? {
        if row.id !in expected || row.id in results {
          strays := strays + 1;
          continue;
        }
        results := results + {row.id};
      }
      IdsOfAppend(kept, row);
      kept := kept + [row];
    }
    assert rows[..|rows|] == rows;
  }

  /** `run_batch` up to the lock: reconcile the worker's records with exactly the tests it was given. */
  method RunBatch(ids: seq<string>, execution: Execution, failfast: bool) returns (report: Report)
    ensures report == Reconciled(ids, execution, failfast)
  {
    var own, _, strays := SelectRows(RowsOf(execution), ToSet(ids));
    report := Conclude(ids, execution, failfast, own, strays);
  }

  function RowsOf(execution: Execution): seq<Row> {
    if execution.Finished? then execution.rows else []
  }

  function Reconciled(ids: seq<string>, execution: Execution, failfast: bool): Report {
    Conclude(ids, execution, failfast, Kept(RowsOf(execution), ToSet(ids)), Strays(RowsOf(execution), ToSet(ids)))
  }

  /** A worker that recorded every test ends with one summary that agrees with its records and exit status. */
  function SummaryProblems(suites: seq<Row>, recorded: nat, zero: bool): nat
    requires forall row :: row in suites ==> row.SuiteRow?
  {
    if |suites| != 1 then 1
    else (if suites[0].testsRun != recorded then 1 else 0) + (if suites[0].successful != Some(zero) then 1 else 0)
  }

  lemma IdsOfAppend(rows: seq<Row>, row: Row)
    ensures IdsOf(rows + [row]) == IdsOf(rows) + if row.TestRow? then {row.id} else {}
  {
    assert forall r :: r in rows + [row] <==> r in rows || r == row;
  }

  /** The tests a batch did not record because the worker stopped at its first failure. */
  function SkippedByFailfast(ids: seq<string>, execution: Execution, failfast: bool, own: seq<Row>, strays: nat): seq<string> {
    if failfast && execution.Finished? && execution.returncode == 1 && execution.malformed + strays == 0 && Suites(own) != []
    then Missing(ids, IdsOf(own)) else []
  }

  function Conclude(ids: seq<string>, execution: Execution, failfast: bool, own: seq<Row>, strays: nat): Report {
    var before := strays + if execution.Finished? then execution.malformed else 1;
    var skipped := SkippedByFailfast(ids, execution, failfast, own, strays);
    var missing := if skipped == [] then Missing(ids, IdsOf(own)) else [];
    var zero := execution.Finished? && execution.returncode == 0;
    var kept := own + ErrorRows(missing);
    var suites := Suites(kept);
    var problems := before
      + (if !zero && missing == [] && skipped == [] && !AnyFailing(own) then 1 else 0)
      + (if execution.Finished? && missing == [] then SummaryProblems(suites, |IdsOf(own)|, zero) else 0);
    Report(kept, problems, skipped, CombinedCounts(if |suites| == 1 then Some(suites[0]) else None, Tests(kept)),
           !zero || missing != [] || problems > 0)
  }

  // ----- What a reconciled batch always satisfies

  lemma {:induction false} MissingIs(ids: seq<string>, results: set<string>)
    ensures forall id :: id in Missing(ids, results) <==> id in ids && id !in results
    ensures multiset(Missing(ids, results)) <= multiset(ids)
    decreases |ids|
  {
    if ids != [] {
      assert ids == ids[..|ids| - 1] + [ids[|ids| - 1]];
      MissingIs(ids[..|ids| - 1], results);
    }
  }

  lemma {:induction false} KeptIs(rows: seq<Row>, expected: set<string>)
    ensures IdsOf(Kept(rows, expected)) <= expected
    ensures forall id :: RowCount(Kept(rows, expected), id) == if id in IdsOf(Kept(rows, expected)) then 1 else 0
    decreases |rows|
  {
    if rows != [] {
      var front, last := Kept(rows[..|rows| - 1], expected), rows[|rows| - 1];
      KeptIs(rows[..|rows| - 1], expected);
      IdsOfAppend(front, last);
      assert (front + [last])[..|front|] == front;
    }
  }

  lemma {:induction false} RowCountConcat(a: seq<Row>, b: seq<Row>, id: string)
    ensures RowCount(a + b, id) == RowCount(a, id) + RowCount(b, id)
    decreases |b|
  {
    if b == [] {
      assert a + b == a;
    } else {
      assert (a + b)[..|a + b| - 1] == a + b[..|b| - 1];
      RowCountConcat(a, b[..|b| - 1], id);
    }
  }

  lemma IdsOfConcat(a: seq<Row>, b: seq<Row>)
    ensures IdsOf(a + b) == IdsOf(a) + IdsOf(b)
  {
    assert forall r :: r in a + b <==> r in a || r in b;
  }

  lemma {:induction false} ErrorRowsAre(ids: seq<string>)
    ensures IdsOf(ErrorRows(ids)) == ToSet(ids)
    ensures forall id :: RowCount(ErrorRows(ids), id) == multiset(ids)[id]
    decreases |ids|
  {
    if ids != [] {
      var front, last := ids[..|ids| - 1], ids[|ids| - 1];
      ErrorRowsAre(front);
      assert ids == front + [last];
      assert ErrorRows(ids) == ErrorRows(front) + [ErrorRow(last)];
      IdsOfAppend(ErrorRows(front), ErrorRow(last));
      assert ErrorRows(ids)[..|ids| - 1] == ErrorRows(front);
    }
  }

  lemma {:induction false} MissingCount(ids: seq<string>, results: set<string>, id: string)
    ensures multiset(Missing(ids, results))[id] == if id in results then 0 else multiset(ids)[id]
    decreases |ids|
  {
    if ids != [] {
      assert ids == ids[..|ids| - 1] + [ids[|ids| - 1]];
      MissingCount(ids[..|ids| - 1], results, id);
    }
  }

  /** The records a batch keeps: those of its own tests, then an error for each test that is neither recorded nor skipped. */
  function Absent(ids: seq<string>, execution: Execution, failfast: bool): seq<string> {
    var own, strays := Kept(RowsOf(execution), ToSet(ids)), Strays(RowsOf(execution), ToSet(ids));
    if SkippedByFailfast(ids, execution, failfast, own, strays) == [] then Missing(ids, IdsOf(own)) else []
  }

  /** Every test of the batch is recorded or skipped, never both and nothing else. */
  lemma ReconciledAccounts(ids: seq<string>, execution: Execution, failfast: bool)
    ensures var report := Reconciled(ids, execution, failfast);
      && IdsOf(report.kept) + ToSet(report.skipped) == ToSet(ids)
      && IdsOf(report.kept) !! ToSet(report.skipped)
  {
    var own := Kept(RowsOf(execution), ToSet(ids));
    var absent := Absent(ids, execution, failfast);
    MissingIs(ids, IdsOf(own));
    KeptIs(RowsOf(execution), ToSet(ids));
    ErrorRowsAre(absent);
    IdsOfConcat(own, ErrorRows(absent));
  }

  /** A recorded test has one record, and an unrecorded test none, unless the batch lists the test twice. */
  lemma ReconciledOnce(ids: seq<string>, execution: Execution, failfast: bool, id: string)
    requires multiset(ids)[id] <= 1
    ensures var kept := Reconciled(ids, execution, failfast).kept;
      RowCount(kept, id) == if id in IdsOf(kept) then 1 else 0
  {
    var own := Kept(RowsOf(execution), ToSet(ids));
    var absent := Absent(ids, execution, failfast);
    KeptIs(RowsOf(execution), ToSet(ids));
    MissingCount(ids, IdsOf(own), id);
    ErrorRowsAre(absent);
    IdsOfConcat(own, ErrorRows(absent));
    RowCountConcat(own, ErrorRows(absent), id);
    assert id in absent <==> multiset(absent)[id] > 0;
    assert id in IdsOf(ErrorRows(absent)) <==> id in ToSet(absent);
  }

  // ----- Which workers pass

  /** A report that gives a run no reason to fail. */
  predicate Passing(report: Report) {
    report.problems == 0 && report.skipped == [] && !Bad(report.counts)
  }

  predicate GoodTest(row: Row, ids: seq<string>) {
    row.TestRow? ==> row.id in ids && row.outcome !in FAILING_OUTCOMES && row.failures <= 0 && row.errors <= 0
  }

  predicate GoodSummary(suite: Row, tests: nat) {
    && suite.SuiteRow? && suite.testsRun == tests && suite.successful == Some(true)
    && suite.failures <= 0 && suite.errors <= 0 && suite.unexpectedSuccesses <= 0
  }

  /** A worker that ended normally and reported each of its tests once, none of them failing, and one true summary. */
  predicate Clean(ids: seq<string>, execution: Execution) {
    && execution.Finished? && execution.returncode == 0 && execution.malformed == 0
    && (forall row :: row in execution.rows ==> GoodTest(row, ids))
    && (forall id :: id in ids ==> RowCount(execution.rows, id) == 1)
    && |Suites(execution.rows)| == 1 && GoodSummary(Suites(execution.rows)[0], |ToSet(ids)|)
  }

  lemma {:induction false} NoStrays(rows: seq<Row>, expected: set<string>)
    requires Strays(rows, expected) == 0
    ensures Kept(rows, expected) == rows
    decreases |rows|
  {
    if rows != [] {
      NoStrays(rows[..|rows| - 1], expected);
    }
  }

  lemma {:induction false} NoneStray(rows: seq<Row>, expected: set<string>)
    requires forall row :: row in rows && row.TestRow? ==> row.id in expected
    requires forall id :: RowCount(rows, id) <= 1
    ensures Strays(rows, expected) == 0
    decreases |rows|
  {
    if rows != [] {
      var front, last := rows[..|rows| - 1], rows[|rows| - 1];
      forall id
        ensures RowCount(front, id) <= RowCount(rows, id) <= 1
      {
      }
      NoneStray(front, expected);
      NoStrays(front, expected);
      if last.TestRow? {
        IsCounted(front, last.id);
      }
    }
  }

  lemma {:induction false} IsCounted(rows: seq<Row>, id: string)
    ensures id in IdsOf(rows) <==> RowCount(rows, id) > 0
    decreases |rows|
  {
    if rows != [] {
      var front, last := rows[..|rows| - 1], rows[|rows| - 1];
      IsCounted(front, id);
      IdsOfAppend(front, last);
      assert rows == front + [last];
    }
  }

  /** A test that a worker left out turns up as an error. */
  lemma AbsenceShows(ids: seq<string>, execution: Execution, failfast: bool)
    ensures Absent(ids, execution, failfast) != [] ==> Bad(Reconciled(ids, execution, failfast).counts)
  {
    var absent := Absent(ids, execution, failfast);
    if absent != [] {
      var kept := Reconciled(ids, execution, failfast).kept;
      var row := ErrorRow(absent[0]);
      assert row == ErrorRows(absent)[0];
      assert row in Tests(kept);
      FailureShows(if |Suites(kept)| == 1 then Some(Suites(kept)[0]) else None, Tests(kept), row);
    }
  }

  lemma PassingIsClean(ids: seq<string>, execution: Execution, failfast: bool)
    requires Passing(Reconciled(ids, execution, failfast))
    ensures Clean(ids, execution)
  {
    var report := Reconciled(ids, execution, failfast);
    var rows := RowsOf(execution);
    var absent := Absent(ids, execution, failfast);
    NoStrays(rows, ToSet(ids));
    AbsenceShows(ids, execution, failfast);
    assert report.kept == rows;
    PassingRows(ids, execution, failfast);
  }

  lemma PassingRows(ids: seq<string>, execution: Execution, failfast: bool)
    requires Passing(Reconciled(ids, execution, failfast))
    requires Absent(ids, execution, failfast) == [] && Kept(RowsOf(execution), ToSet(ids)) == RowsOf(execution)
    ensures Clean(ids, execution)
  {
    var rows := RowsOf(execution);
    var report := Reconciled(ids, execution, failfast);
    assert report.kept == rows;
    KeptIs(rows, ToSet(ids));
    MissingIs(ids, IdsOf(rows));
    var summary := if |Suites(rows)| == 1 then Some(Suites(rows)[0]) else None;
    forall row | row in rows
      ensures GoodTest(row, ids)
    {
      if row.TestRow? && (row.outcome in FAILING_OUTCOMES || row.failures > 0 || row.errors > 0) {
        FailureShows(summary, Tests(rows), row);
      } else if row.TestRow? {
        assert row.id in IdsOf(rows);
      }
    }
    assert IdsOf(rows) == ToSet(ids);
  }

  lemma CleanRows(ids: seq<string>, execution: Execution)
    requires Clean(ids, execution)
    ensures Kept(execution.rows, ToSet(ids)) == execution.rows && Strays(execution.rows, ToSet(ids)) == 0
    ensures IdsOf(execution.rows) == ToSet(ids) && Missing(ids, IdsOf(execution.rows)) == []
  {
    var rows := execution.rows;
    forall id
      ensures RowCount(rows, id) <= 1 && (id in IdsOf(rows) <==> id in ids)
    {
      IsCounted(rows, id);
    }
    NoneStray(rows, ToSet(ids));
    NoStrays(rows, ToSet(ids));
    NothingMissing(ids, IdsOf(rows));
  }

  lemma {:induction false} NothingMissing(ids: seq<string>, results: set<string>)
    requires forall id :: id in ids ==> id in results
    ensures Missing(ids, results) == []
    decreases |ids|
  {
    if ids != [] {
      NothingMissing(ids[..|ids| - 1], results);
    }
  }

  lemma GoodCounts(rows: seq<Row>, suite: Row, tests: nat)
    requires forall row :: row in rows ==> !Bad(RowCounts(row))
    requires GoodSummary(suite, tests)
    ensures !Bad(CombinedCounts(Some(suite), rows))
  {
    DerivedShows(rows);
  }

  lemma CleanIsPassing(ids: seq<string>, execution: Execution, failfast: bool)
    requires Clean(ids, execution)
    ensures Passing(Reconciled(ids, execution, failfast))
    ensures Reconciled(ids, execution, failfast).kept == execution.rows && !Reconciled(ids, execution, failfast).failed
    ensures IdsOf(execution.rows) == ToSet(ids)
  {
    var rows := execution.rows;
    CleanRows(ids, execution);
    assert rows + ErrorRows([]) == rows;
    GoodCounts(Tests(rows), Suites(rows)[0], |ToSet(ids)|);
  }

  /** A worker's report passes exactly when the worker was clean, whatever it wrote. */
  lemma PassingExactly(ids: seq<string>, execution: Execution, failfast: bool)
    ensures Passing(Reconciled(ids, execution, failfast)) <==> Clean(ids, execution)
  {
    if Passing(Reconciled(ids, execution, failfast)) {
      PassingIsClean(ids, execution, failfast);
    }
    if Clean(ids, execution) {
      CleanIsPassing(ids, execution, failfast);
    }
  }

  // ----- What becomes of tests without a result

  /** The first result of a test of the batch. */
  predicate IsFirst(rows: seq<Row>, ids: seq<string>, j: nat) {
    && j < |rows| && rows[j].TestRow? && rows[j].id in ids
    && forall i :: 0 <= i < j && rows[i].TestRow? ==> rows[i].id != rows[j].id
  }

  predicate OnlyFirst(rows: seq<Row>, ids: seq<string>) {
    forall j :: 0 <= j < |rows| && rows[j].TestRow? ==> IsFirst(rows, ids, j)
  }

  predicate HasSuite(rows: seq<Row>) {
    exists row :: row in rows && row.SuiteRow?
  }

  predicate HasResult(execution: Execution, id: string) {
    execution.Finished? && exists row :: row in execution.rows && row.TestRow? && row.id == id
  }

  /** A fail-fast worker that stopped at its first failure and said so: status one, nothing malformed, foreign or repeated,
      and a summary. */
  predicate Orderly(ids: seq<string>, execution: Execution, failfast: bool) {
    && failfast && execution.Finished? && execution.returncode == 1 && execution.malformed == 0
    && OnlyFirst(execution.rows, ids) && HasSuite(execution.rows)
  }

  lemma FirstAppend(rows: seq<Row>, row: Row, ids: seq<string>, j: nat)
    requires j < |rows|
    ensures IsFirst(rows + [row], ids, j) <==> IsFirst(rows, ids, j)
  {
    assert forall i :: 0 <= i < |rows| ==> (rows + [row])[i] == rows[i];
  }

  lemma OnlyFirstAppend(rows: seq<Row>, row: Row, ids: seq<string>)
    ensures OnlyFirst(rows + [row], ids) <==>
      OnlyFirst(rows, ids) && (row.TestRow? ==> row.id in ids && row.id !in IdsOf(rows))
  {
    var all := rows + [row];
    forall j | 0 <= j < |rows|
      ensures IsFirst(all, ids, j) <==> IsFirst(rows, ids, j)
    {
      FirstAppend(rows, row, ids, j);
    }
    if row.TestRow? {
      assert (forall i :: 0 <= i < |rows| && all[i].TestRow? ==> all[i].id != row.id) <==> row.id !in IdsOf(rows) by {
        if row.id in IdsOf(rows) {
          var r :| r in rows && r.TestRow? && r.id == row.id;
          var i :| 0 <= i < |rows| && rows[i] == r;
          assert all[i] == r;
        } else {
          forall i | 0 <= i < |rows| && all[i].TestRow?
            ensures all[i].id != row.id
          {
            assert rows[i] in rows;
          }
        }
      }
      assert IsFirst(all, ids, |rows|) <==> row.id in ids && row.id !in IdsOf(rows);
    }
    if OnlyFirst(all, ids) {
      forall j | 0 <= j < |rows| && rows[j].TestRow?
        ensures IsFirst(rows, ids, j)
      {
        assert all[j] == rows[j];
      }
    }
  }

  /** Nothing is stray exactly when every result is the first one of an own test. */
  lemma {:induction false} StraysExactly(rows: seq<Row>, ids: seq<string>)
    ensures Strays(rows, ToSet(ids)) == 0 <==> OnlyFirst(rows, ids)
    decreases |rows|
  {
    if rows != [] {
      var front, last := rows[..|rows| - 1], rows[|rows| - 1];
      assert rows == front + [last];
      StraysExactly(front, ids);
      OnlyFirstAppend(front, last, ids);
      if Strays(front, ToSet(ids)) == 0 {
        NoStrays(front, ToSet(ids));
      }
    }
  }

  lemma {:induction false} SuitesExactly(rows: seq<Row>)
    ensures Suites(rows) != [] <==> HasSuite(rows)
    decreases |rows|
  {
    if rows != [] {
      var front, last := rows[..|rows| - 1], rows[|rows| - 1];
      assert rows == front + [last];
      SuitesExactly(front);
    }
  }

  lemma {:induction false} KeptIds(rows: seq<Row>, ids: seq<string>)
    ensures IdsOf(Kept(rows, ToSet(ids))) == IdsOf(rows) * ToSet(ids)
    decreases |rows|
  {
    if rows != [] {
      var front, last := rows[..|rows| - 1], rows[|rows| - 1];
      assert rows == front + [last];
      KeptIds(front, ids);
      IdsOfAppend(front, last);
      IdsOfAppend(Kept(front, ToSet(ids)), last);
    }
  }

  lemma LastIsFirst(rows: seq<Row>, row: Row, ids: seq<string>)
    ensures IsFirst(rows + [row], ids, |rows|) <==> row.TestRow? && row.id in ids && row.id !in IdsOf(rows)
  {
    var all := rows + [row];
    if row.TestRow? && row.id in IdsOf(rows) {
      var r :| r in rows && r.TestRow? && r.id == row.id;
      var i :| 0 <= i < |rows| && rows[i] == r;
      assert all[i] == r;
    }
    if row.TestRow? && row.id !in IdsOf(rows) {
      forall i | 0 <= i < |rows| && all[i].TestRow?
        ensures all[i].id != row.id
      {
        assert rows[i] in rows;
      }
    }
  }

  ghost predicate FirstRow(rows: seq<Row>, ids: seq<string>, row: Row) {
    exists j: nat :: j < |rows| && rows[j] == row && IsFirst(rows, ids, j)
  }

  lemma FirstRowAppend(rows: seq<Row>, more: Row, ids: seq<string>, row: Row)
    ensures FirstRow(rows + [more], ids, row) <==>
      FirstRow(rows, ids, row) || (more == row && row.TestRow? && row.id in ids && row.id !in IdsOf(rows))
  {
    var all := rows + [more];
    LastIsFirst(rows, more, ids);
    forall j | 0 <= j < |rows|
      ensures all[j] == rows[j] && (IsFirst(all, ids, j) <==> IsFirst(rows, ids, j))
    {
      FirstAppend(rows, more, ids, j);
    }
    if FirstRow(rows, ids, row) {
      var j: nat :| j < |rows| && rows[j] == row && IsFirst(rows, ids, j);
      assert all[j] == row && IsFirst(all, ids, j);
    }
    assert all[|rows|] == more;
  }

  /** Of the results exactly the first ones of own tests are kept. */
  lemma {:induction false} KeptExactly(rows: seq<Row>, ids: seq<string>, row: Row)
    requires row.TestRow?
    ensures row in Kept(rows, ToSet(ids)) <==> FirstRow(rows, ids, row)
    decreases |rows|
  {
    if rows != [] {
      var front, last := rows[..|rows| - 1], rows[|rows| - 1];
      assert rows == front + [last];
      KeptExactly(front, ids, row);
      KeptIds(front, ids);
      FirstRowAppend(front, last, ids, row);
    }
  }

  /** What a batch makes of a worker's results, and of tests without one. */
  ghost predicate IsReconciled(ids: seq<string>, execution: Execution, failfast: bool, report: Report) {
    && (forall id :: id in report.skipped <==> Orderly(ids, execution, failfast) && id in ids && !HasResult(execution, id))
    && (forall row :: row in report.kept && row.TestRow? <==>
          || FirstRow(RowsOf(execution), ids, row) || (!Orderly(ids, execution, failfast) && IsError(ids, execution, row)))
  }

  /** The error record of a test without a result. */
  predicate IsError(ids: seq<string>, execution: Execution, row: Row) {
    row.TestRow? && row.id in ids && !HasResult(execution, row.id) && row == TestRow(row.id, Error, 0, 1, 0)
  }

  lemma SkippedExactly(ids: seq<string>, execution: Execution, failfast: bool)
    ensures var own := Kept(RowsOf(execution), ToSet(ids));
      var skipped := SkippedByFailfast(ids, execution, failfast, own, Strays(RowsOf(execution), ToSet(ids)));
      && skipped == (if Orderly(ids, execution, failfast) then Missing(ids, IdsOf(own)) else [])
      && forall id :: id in Missing(ids, IdsOf(own)) <==> id in ids && !HasResult(execution, id)
  {
    var rows := RowsOf(execution);
    var own := Kept(rows, ToSet(ids));
    StraysExactly(rows, ids);
    if Strays(rows, ToSet(ids)) == 0 {
      NoStrays(rows, ToSet(ids));
    }
    SuitesExactly(own);
    MissingIs(ids, IdsOf(own));
    KeptIds(rows, ids);
    forall id
      ensures id in IdsOf(rows) <==> HasResult(execution, id)
    {
    }
  }

  /** Every result kept is the first one of an own test. A test without a result is skipped if the worker was orderly under
      fail-fast, and otherwise gets an error. */
  lemma ReconciledExactly(ids: seq<string>, execution: Execution, failfast: bool)
    ensures IsReconciled(ids, execution, failfast, Reconciled(ids, execution, failfast))
  {
    var rows := RowsOf(execution);
    var absent := Absent(ids, execution, failfast);
    SkippedExactly(ids, execution, failfast);
    ErrorRowsMembers(absent);
    forall row: Row | row.TestRow?
      ensures row in Reconciled(ids, execution, failfast).kept
        <==> FirstRow(rows, ids, row) || (!Orderly(ids, execution, failfast) && IsError(ids, execution, row))
    {
      KeptExactly(rows, ids, row);
      AbsentExactly(ids, execution, failfast, row.id);
    }
    assert forall row :: FirstRow(rows, ids, row) ==> row.TestRow?;
  }

  lemma AbsentExactly(ids: seq<string>, execution: Execution, failfast: bool, id: string)
    ensures id in Absent(ids, execution, failfast) <==> !Orderly(ids, execution, failfast) && id in ids && !HasResult(execution, id)
  {
    SkippedExactly(ids, execution, failfast);
    var missing := Missing(ids, IdsOf(Kept(RowsOf(execution), ToSet(ids))));
    if Orderly(ids, execution, failfast) && missing == [] {
      assert id !in missing;
    }
  }

  lemma ErrorRowsMembers(ids: seq<string>)
    ensures forall row :: row in ErrorRows(ids) <==> row.TestRow? && row.id in ids && row == TestRow(row.id, Error, 0, 1, 0)
  {
    forall row: Row | row.TestRow? && row.id in ids && row == TestRow(row.id, Error, 0, 1, 0)
      ensures row in ErrorRows(ids)
    {
      var i :| 0 <= i < |ids| && ids[i] == row.id;
      assert ErrorRows(ids)[i] == row;
    }
  }

  // ----- Which batches fail

  /** The worker ended normally with one result for each of its tests and no other, and one summary that agrees. */
  predicate Agreeing(ids: seq<string>, execution: Execution) {
    && execution.Finished? && execution.returncode == 0 && execution.malformed == 0
    && OnlyFirst(execution.rows, ids) && (forall id :: id in ids ==> HasResult(execution, id))
    && |Suites(execution.rows)| == 1
    && Suites(execution.rows)[0].testsRun == |ToSet(ids)| && Suites(execution.rows)[0].successful == Some(true)
  }

  /** A batch fails exactly if its worker was not like that. */
  lemma FailedExactly(ids: seq<string>, execution: Execution, failfast: bool)
    ensures Reconciled(ids, execution, failfast).failed <==> !Agreeing(ids, execution)
  {
    var rows := RowsOf(execution);
    var own := Kept(rows, ToSet(ids));
    SkippedExactly(ids, execution, failfast);
    StraysExactly(rows, ids);
    assert Missing(ids, IdsOf(own)) != [] ==> Missing(ids, IdsOf(own))[0] in Missing(ids, IdsOf(own));
    if execution.Finished? && execution.returncode == 0 && Strays(rows, ToSet(ids)) == 0 && Missing(ids, IdsOf(own)) == [] {
      NoStrays(rows, ToSet(ids));
      KeptIds(rows, ids);
      AllRecorded(ids, execution);
      assert own + ErrorRows([]) == rows;
    }
  }

  lemma AllRecorded(ids: seq<string>, execution: Execution)
    requires execution.Finished? && Missing(ids, IdsOf(Kept(execution.rows, ToSet(ids)))) == []
    ensures IdsOf(Kept(execution.rows, ToSet(ids))) == ToSet(ids) && forall id :: id in ids ==> HasResult(execution, id)
  {
    SkippedExactly(ids, execution, false);
    MissingIs(ids, IdsOf(Kept(execution.rows, ToSet(ids))));
    KeptIds(execution.rows, ids);
  }
}
