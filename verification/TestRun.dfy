/** A whole parallel run of selected tests: from the plan to the verdict (`run` in scripts/parallel_tests.py). */
module TestRun {
  // What a thread needs of a planned batch are the ids of its tests and whether it is graphical.

  import TestPlan
  import opened Permutations
  import opened TestInterleavings
  import opened TestScheduler
  import opened TestVerdict

  type Test = TestPlan.Test

  function Ids(tests: seq<Test>, id: Test -> string): (ids: seq<string>)
    ensures |ids| == |tests| && forall i {:trigger ids[i]} :: 0 <= i < |tests| ==> ids[i] == id(tests[i])
  {
    if tests == [] then [] else Ids(tests[..|tests| - 1], id) + [id(tests[|tests| - 1])]
  }

  function Lane(batches: seq<TestPlan.Batch>, id: Test -> string): seq<Batch> {
    if batches == [] then [] else [Batch(Ids(batches[0].tests, id), batches[0].graphical)] + Lane(batches[1..], id)
  }

  predicate Distinct(tests: seq<Test>, id: Test -> string) {
    forall i, j :: 0 <= i < j < |tests| ==> id(tests[i]) != id(tests[j])
  }

  lemma {:induction false} FlatTests(batches: seq<TestPlan.Batch>)
    ensures multiset(TestPlan.Flat(batches)) == TestPlan.TestsOf(batches)
    decreases |batches|
  {
    if batches != [] {
      FlatTests(batches[1..]);
    }
  }

  lemma IdsConcat(a: seq<Test>, b: seq<Test>, id: Test -> string)
    ensures Ids(a + b, id) == Ids(a, id) + Ids(b, id)
  {
    forall i | 0 <= i < |a + b|
      ensures Ids(a + b, id)[i] == (Ids(a, id) + Ids(b, id))[i]
    {
      assert Ids(a + b, id)[i] == id((a + b)[i]);
    }
  }

  lemma {:induction false} FlatIds(batches: seq<TestPlan.Batch>, id: Test -> string)
    ensures IdsIn(Lane(batches, id)) == Ids(TestPlan.Flat(batches), id)
    decreases |batches|
  {
    if batches != [] {
      FlatIds(batches[1..], id);
      IdsConcat(batches[0].tests, TestPlan.Flat(batches[1..]), id);
      var lane := Lane(batches, id);
      assert lane[1..] == Lane(batches[1..], id);
    }
  }

  /** The same tests in another order have the same ids. */
  lemma {:induction false} IdsPermuted(a: seq<Test>, b: seq<Test>, id: Test -> string)
    requires multiset(a) == multiset(b)
    ensures multiset(Ids(a, id)) == multiset(Ids(b, id))
    decreases |a|
  {
    if a == [] {
      SameLength(a, b);
    } else {
      var i := WithoutLast(a, b);
      IdsPermuted(a[..|a| - 1], b[..i] + b[i + 1..], id);
      IdsConcat(b[..i], b[i + 1..], id);
      IdsConcat(b[..i], [b[i]], id);
      IdsConcat(b[..i] + [b[i]], b[i + 1..], id);
      assert Ids([b[i]], id) == [id(b[i])];
    }
  }

  /** Both lanes together plan the ids of the selected tests. */
  lemma PlannedExactly(headless: seq<TestPlan.Batch>, visible: seq<TestPlan.Batch>, tests: seq<Test>, id: Test -> string)
    requires TestPlan.TestsOf(headless) + TestPlan.TestsOf(visible) == multiset(tests)
    ensures multiset(PlannedIds(Lane(headless, id), Lane(visible, id))) == multiset(Ids(tests, id))
  {
    var all := TestPlan.Flat(headless) + TestPlan.Flat(visible);
    FlatTests(headless);
    FlatTests(visible);
    IdsPermuted(all, tests, id);
    IdsConcat(TestPlan.Flat(headless), TestPlan.Flat(visible), id);
    FlatIds(headless, id);
    FlatIds(visible, id);
  }

  lemma {:induction false} OnceEach(tests: seq<Test>, id: Test -> string, x: string)
    requires Distinct(tests, id)
    ensures multiset(Ids(tests, id))[x] <= 1
    decreases |tests|
  {
    if tests != [] {
      var front, last := tests[..|tests| - 1], tests[|tests| - 1];
      OnceEach(front, id, x);
      forall i | 0 <= i < |front|
        ensures Ids(front, id)[i] != id(last)
      {
        assert id(tests[i]) != id(tests[|tests| - 1]);
      }
      assert multiset(Ids(tests, id)) == multiset(Ids(front, id)) + multiset{id(last)};
    }
  }

  lemma PlannedOnce(headless: seq<Batch>, graphical: seq<Batch>, x: string)
    ensures Planned(headless, graphical, x) == multiset(PlannedIds(headless, graphical))[x]
  {
    QueuedIds(headless, x);
    QueuedIds(graphical, x);
  }

  /** Every selected test has exactly one record, none of them is failing, and there is no other test record. */
  predicate EachRecordedOnce(records: seq<Row>, tests: seq<Test>, id: Test -> string) {
    && !AnyFailing(records)
    && (forall t :: t in tests ==> RowCount(records, id(t)) == 1)
    && forall x :: x in IdsOf(records) ==> x in Ids(tests, id)
  }

  lemma Selected(tests: seq<Test>, id: Test -> string, planned: seq<string>)
    requires multiset(planned) == multiset(Ids(tests, id))
    ensures forall x :: x in planned <==> x in Ids(tests, id)
    ensures forall t :: t in tests ==> id(t) in planned
  {
    forall x
      ensures x in planned <==> x in Ids(tests, id)
    {
      assert x in planned <==> x in multiset(planned);
      assert x in Ids(tests, id) <==> x in multiset(Ids(tests, id));
    }
    forall t | t in tests
      ensures id(t) in planned
    {
      var i :| 0 <= i < |tests| && tests[i] == t;
      assert Ids(tests, id)[i] == id(t);
    }
  }

  /** For distinct selected tests, any plan that partitions them, and every interleaving of the threads that run it with
      any workers and sink: the run succeeds exactly when nothing raised and every worker was clean, and then each
      selected test has exactly one record, none of them failing. */
  lemma RunSucceedsExactly(headless: seq<TestPlan.Batch>, visible: seq<TestPlan.Batch>, tests: seq<Test>, id: Test -> string,
                           workers: nat, failfast: bool, events: seq<Event>, local: Counts)
    requires TestPlan.TestsOf(headless) + TestPlan.TestsOf(visible) == multiset(tests) && Distinct(tests, id)
    requires workers > 0 && !Bad(local)
    requires Complete(After(Start(Lane(headless, id), Lane(visible, id), workers, failfast), events))
    ensures var y := After(Start(Lane(headless, id), Lane(visible, id), workers, failfast), events);
      var planned := PlannedIds(Lane(headless, id), Lane(visible, id));
      && (Successful(y.shared, planned, local) <==> !y.upset && AllClean(y.closed))
      && (Successful(y.shared, planned, local) ==> EachRecordedOnce(y.shared.records, tests, id))
  {
    var h, g := Lane(headless, id), Lane(visible, id);
    var y := After(Start(h, g, workers, failfast), events);
    PlannedExactly(headless, visible, tests, id);
    forall x
      ensures Planned(h, g, x) <= 1
    {
      PlannedOnce(h, g, x);
      OnceEach(tests, id, x);
    }
    SuccessForDistinctPlan(h, g, workers, failfast, events, local);
    Selected(tests, id, PlannedIds(h, g));
    if Successful(y.shared, PlannedIds(h, g), local) {
      forall t | t in tests
        ensures RowCount(y.shared.records, id(t)) == 1
      {
        IsCounted(y.shared.records, id(t));
      }
    }
  }
}
