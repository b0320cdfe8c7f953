/** Grouping and packing of selected tests into batches: `plan` of scripts/parallel_tests.py. */
module TestPlan {

  /** A test's dotted id names its module, class and method. */
  datatype Test = Test(moduleName: string, className: string, methodName: string)

  datatype Batch = Batch(tests: seq<Test>, graphical: bool, priority: bool, seconds: real)

  /** What `plan` is told about the tests: class attributes, the changed modules, and recorded durations. */
  datatype Facts = Facts(hasOwnFixture: (string, string) -> bool, isGraphical: (string, string) -> bool,
                         isPriority: string -> bool, estimate: Test -> real)

  const BATCH_SECONDS: real := 20.0

  // ----- Grouping

  /** Tests of a class with fixtures of its own stay together; any other test is a group by itself. */
  datatype Key = ClassKey(moduleName: string, className: string) | TestKey(test: Test)

  function KeyOf(facts: Facts, test: Test): Key {
    if facts.hasOwnFixture(test.moduleName, test.className) then ClassKey(test.moduleName, test.className) else TestKey(test)
  }

  function TestsOf(batches: seq<Batch>): multiset<Test> {
    if batches == [] then multiset{} else multiset(batches[0].tests) + TestsOf(batches[1..])
  }

  /** The tests in the order in which the batches run them. */
  function Flat(batches: seq<Batch>): seq<Test> {
    if batches == [] then [] else batches[0].tests + Flat(batches[1..])
  }

  function Seconds(facts: Facts, tests: seq<Test>): real {
    if tests == [] then 0.0 else Seconds(facts, tests[..|tests| - 1]) + facts.estimate(tests[|tests| - 1])
  }

  function Total(batches: seq<Batch>): real {
    if batches == [] then 0.0 else batches[0].seconds + Total(batches[1..])
  }

  /** The batch holds every occurrence of every test that shares a group with one of its tests. */
  ghost predicate Whole(facts: Facts, all: multiset<Test>, batch: Batch) {
    forall t, u :: t in batch.tests && KeyOf(facts, t) == KeyOf(facts, u) ==> multiset(batch.tests)[u] == all[u]
  }

  /** The batch's flags are those of every test in it. */
  ghost predicate Uniform(facts: Facts, batch: Batch) {
    && batch.tests != []
    && forall t :: t in batch.tests ==>
        facts.isGraphical(t.moduleName, t.className) == batch.graphical && facts.isPriority(t.moduleName) == batch.priority
  }

  // ----- Lemmas about sequences of batches

  lemma {:induction false} TestsOfAppend(batches: seq<Batch>, b: Batch)
    ensures TestsOf(batches + [b]) == TestsOf(batches) + multiset(b.tests)
    decreases |batches|
  {
    if batches == [] {
      assert [b][1..] == [];
    } else {
      assert (batches + [b])[1..] == batches[1..] + [b];
      TestsOfAppend(batches[1..], b);
    }
  }

  lemma {:induction false} FlatAppend(batches: seq<Batch>, b: Batch)
    ensures Flat(batches + [b]) == Flat(batches) + b.tests
    decreases |batches|
  {
    if batches == [] {
      assert [b][1..] == [];
    } else {
      assert (batches + [b])[1..] == batches[1..] + [b];
      FlatAppend(batches[1..], b);
    }
  }

  lemma {:induction false} TotalAppend(batches: seq<Batch>, b: Batch)
    ensures Total(batches + [b]) == Total(batches) + b.seconds
    decreases |batches|
  {
    if batches == [] {
      assert [b][1..] == [];
    } else {
      assert (batches + [b])[1..] == batches[1..] + [b];
      TotalAppend(batches[1..], b);
    }
  }

  lemma {:induction false} TestsOfConcat(a: seq<Batch>, b: seq<Batch>)
    ensures TestsOf(a + b) == TestsOf(a) + TestsOf(b)
    decreases |a|
  {
    if a == [] {
      assert a + b == b;
    } else {
      assert (a + b)[1..] == a[1..] + b;
      TestsOfConcat(a[1..], b);
    }
  }

  lemma {:induction false} TestsOfIn(batches: seq<Batch>, t: Test)
    ensures t in TestsOf(batches) <==> exists b :: b in batches && t in b.tests
    decreases |batches|
  {
    if batches != [] {
      TestsOfIn(batches[1..], t);
      assert batches == [batches[0]] + batches[1..];
      assert forall b :: b in batches <==> b == batches[0] || b in batches[1..];
    }
  }

  // ----- Stable sorting

  /** Longer batches start first, batches of priority modules before all others. */
  predicate StartsNoLater(a: Batch, b: Batch) {
    if a.priority == b.priority then a.seconds >= b.seconds else a.priority
  }

  function Insert(le: (Batch, Batch) -> bool, b: Batch, batches: seq<Batch>): seq<Batch> {
    if batches == [] || le(b, batches[0]) then [b] + batches else [batches[0]] + Insert(le, b, batches[1..])
  }

  /** Python's sorted(): each element goes before the first later one that does not precede it. */
  function SortBy(le: (Batch, Batch) -> bool, batches: seq<Batch>): seq<Batch> {
    if batches == [] then [] else Insert(le, batches[0], SortBy(le, batches[1..]))
  }

  lemma {:induction false} InsertKeeps(le: (Batch, Batch) -> bool, b: Batch, batches: seq<Batch>)
    ensures multiset(Insert(le, b, batches)) == multiset{b} + multiset(batches)
    decreases |batches|
  {
    if batches != [] {
      assert batches == [batches[0]] + batches[1..];
      InsertKeeps(le, b, batches[1..]);
    }
  }

  lemma {:induction false} InsertAdds(le: (Batch, Batch) -> bool, b: Batch, batches: seq<Batch>)
    ensures TestsOf(Insert(le, b, batches)) == multiset(b.tests) + TestsOf(batches)
    ensures Total(Insert(le, b, batches)) == b.seconds + Total(batches)
    decreases |batches|
  {
    if batches == [] || le(b, batches[0]) {
      assert ([b] + batches)[1..] == batches;
    } else {
      var rest := Insert(le, b, batches[1..]);
      assert ([batches[0]] + rest)[1..] == rest;
      InsertAdds(le, b, batches[1..]);
    }
  }

  lemma {:induction false} SortKeeps(le: (Batch, Batch) -> bool, batches: seq<Batch>)
    ensures multiset(SortBy(le, batches)) == multiset(batches)
    decreases |batches|
  {
    if batches != [] {
      SortKeeps(le, batches[1..]);
      InsertKeeps(le, batches[0], SortBy(le, batches[1..]));
      assert batches == [batches[0]] + batches[1..];
    }
  }

  lemma {:induction false} SortAdds(le: (Batch, Batch) -> bool, batches: seq<Batch>)
    ensures TestsOf(SortBy(le, batches)) == TestsOf(batches)
    ensures Total(SortBy(le, batches)) == Total(batches)
    decreases |batches|
  {
    if batches != [] {
      SortAdds(le, batches[1..]);
      InsertAdds(le, batches[0], SortBy(le, batches[1..]));
    }
  }

  lemma SortMembers(le: (Batch, Batch) -> bool, batches: seq<Batch>)
    ensures forall b :: b in SortBy(le, batches) <==> b in batches
  {
    SortKeeps(le, batches);
    assert forall b :: b in SortBy(le, batches) <==> b in multiset(SortBy(le, batches));
    assert forall b :: b in batches <==> b in multiset(batches);
  }

  ghost predicate SortedBy(le: (Batch, Batch) -> bool, batches: seq<Batch>) {
    batches != [] ==> SortedBy(le, batches[1..]) && forall b :: b in batches[1..] ==> le(batches[0], b)
  }

  ghost predicate TotalPreorder(le: (Batch, Batch) -> bool) {
    && (forall a, b :: le(a, b) || le(b, a))
    && (forall a, b, c :: le(a, b) && le(b, c) ==> le(a, c))
  }

  lemma {:induction false} InsertSorted(le: (Batch, Batch) -> bool, b: Batch, batches: seq<Batch>)
    requires TotalPreorder(le) && SortedBy(le, batches)
    ensures SortedBy(le, Insert(le, b, batches))
    ensures forall a :: a in Insert(le, b, batches) <==> a == b || a in batches
    decreases |batches|
  {
    if batches == [] || le(b, batches[0]) {
      assert ([b] + batches)[1..] == batches;
      if batches != [] {
        assert batches == [batches[0]] + batches[1..];
      }
    } else {
      var rest := Insert(le, b, batches[1..]);
      InsertSorted(le, b, batches[1..]);
      assert ([batches[0]] + rest)[1..] == rest;
      assert batches == [batches[0]] + batches[1..];
    }
  }

  lemma {:induction false} SortSorts(le: (Batch, Batch) -> bool, batches: seq<Batch>)
    requires TotalPreorder(le)
    ensures SortedBy(le, SortBy(le, batches))
    decreases |batches|
  {
    if batches != [] {
      SortSorts(le, batches[1..]);
      InsertSorted(le, batches[0], SortBy(le, batches[1..]));
    }
  }

  // ----- The order of the ids of short tests

  predicate StringLeq(a: string, b: string) {
    a == "" || (b != "" && (a[0] < b[0] || (a[0] == b[0] && StringLeq(a[1..], b[1..]))))
  }

  lemma {:induction false} StringLeqTotal(a: string, b: string)
    ensures StringLeq(a, b) || StringLeq(b, a)
  {
    if a != "" && b != "" {
      StringLeqTotal(a[1..], b[1..]);
    }
  }

  lemma {:induction false} StringLeqTransitive(a: string, b: string, c: string)
    requires StringLeq(a, b) && StringLeq(b, c)
    ensures StringLeq(a, c)
  {
    if a != "" {
      if a[0] == b[0] == c[0] {
        StringLeqTransitive(a[1..], b[1..], c[1..]);
      }
    }
  }

  function Id(test: Test): string {
    test.moduleName + "." + test.className + "." + test.methodName
  }

  function FirstId(batch: Batch): string {
    if batch.tests == [] then "" else Id(batch.tests[0])
  }

  /** Short units of priority modules first, each kind in the order of the ids. */
  predicate PacksNoLater(a: Batch, b: Batch) {
    if a.priority == b.priority then StringLeq(FirstId(a), FirstId(b)) else a.priority
  }

  lemma OrdersArePreorders()
    ensures TotalPreorder(StartsNoLater) && TotalPreorder(PacksNoLater)
  {
    forall a, b
      ensures PacksNoLater(a, b) || PacksNoLater(b, a)
    {
      StringLeqTotal(FirstId(a), FirstId(b));
    }
    forall a, b, c | PacksNoLater(a, b) && PacksNoLater(b, c)
      ensures PacksNoLater(a, c)
    {
      if a.priority == b.priority == c.priority {
        StringLeqTransitive(FirstId(a), FirstId(b), FirstId(c));
      }
    }
  }

  // ----- Grouping

  function GroupTests(keys: seq<Key>, groups: map<Key, seq<Test>>): multiset<Test>
    requires forall k :: k in keys ==> k in groups
  {
    if keys == [] then multiset{} else multiset(groups[keys[0]]) + GroupTests(keys[1..], groups)
  }

  predicate DistinctKeys(keys: seq<Key>) {
    forall i, j :: 0 <= i < j < |keys| ==> keys[i] != keys[j]
  }

  /** Adding a test to one group adds it once to the tests of all groups. */
  lemma {:induction false} GroupTestsGrow(keys: seq<Key>, groups: map<Key, seq<Test>>, key: Key, test: Test)
    requires (forall k :: k in keys ==> k in groups) && DistinctKeys(keys) && key in groups
    ensures GroupTests(keys, groups[key := groups[key] + [test]]) ==
            GroupTests(keys, groups) + if key in keys then multiset{test} else multiset{}
    decreases |keys|
  {
    if keys != [] {
      GroupTestsGrow(keys[1..], groups, key, test);
      assert keys == [keys[0]] + keys[1..];
    }
  }

  lemma {:induction false} GroupTestsNewKey(keys: seq<Key>, groups: map<Key, seq<Test>>, key: Key, tests: seq<Test>)
    requires (forall k :: k in keys ==> k in groups) && key !in keys
    ensures GroupTests(keys + [key], groups[key := tests]) == GroupTests(keys, groups) + multiset(tests)
    decreases |keys|
  {
    if keys == [] {
      assert [key][1..] == [];
    } else {
      assert (keys + [key])[1..] == keys[1..] + [key];
      GroupTestsNewKey(keys[1..], groups, key, tests);
    }
  }

  ghost predicate IsUnit(facts: Facts, all: multiset<Test>, unit: Batch) {
    && Uniform(facts, unit) && Whole(facts, all, unit) && unit.seconds == Seconds(facts, unit.tests)
    && forall t, u :: t in unit.tests && u in unit.tests ==> KeyOf(facts, t) == KeyOf(facts, u)
  }

  ghost predicate IsGrouping(facts: Facts, keys: seq<Key>, groups: map<Key, seq<Test>>, tests: seq<Test>) {
    && DistinctKeys(keys) && (forall k :: k in keys <==> k in groups)
    && (forall k :: k in groups ==> groups[k] != [] && HasKey(facts, groups[k], k))
    && GroupTests(keys, groups) == multiset(tests)
  }

  ghost predicate HasKey(facts: Facts, tests: seq<Test>, key: Key) {
    forall t :: t in tests ==> KeyOf(facts, t) == key
  }

  lemma GroupMore(facts: Facts, keys: seq<Key>, groups: map<Key, seq<Test>>, tests: seq<Test>, test: Test)
    requires IsGrouping(facts, keys, groups, tests) && KeyOf(facts, test) in groups
    ensures var key := KeyOf(facts, test);
      IsGrouping(facts, keys, groups[key := groups[key] + [test]], tests + [test])
  {
    var key := KeyOf(facts, test);
    var members := groups[key] + [test];
    GroupTestsGrow(keys, groups, key, test);
    assert key in keys && HasKey(facts, groups[key], key);
    assert HasKey(facts, members, key);
    assert multiset(tests + [test]) == multiset(tests) + multiset{test};
  }

  lemma GroupNew(facts: Facts, keys: seq<Key>, groups: map<Key, seq<Test>>, tests: seq<Test>, test: Test)
    requires IsGrouping(facts, keys, groups, tests) && KeyOf(facts, test) !in groups
    ensures var key := KeyOf(facts, test);
      IsGrouping(facts, keys + [key], groups[key := [test]], tests + [test])
  {
    GroupTestsNewKey(keys, groups, KeyOf(facts, test), [test]);
  }

  lemma GroupOne(facts: Facts, keys: seq<Key>, groups: map<Key, seq<Test>>, tests: seq<Test>, test: Test)
    requires IsGrouping(facts, keys, groups, tests)
    ensures var key := KeyOf(facts, test);
      if key in groups then IsGrouping(facts, keys, groups[key := groups[key] + [test]], tests + [test])
      else IsGrouping(facts, keys + [key], groups[key := [test]], tests + [test])
  {
    if KeyOf(facts, test) in groups {
      GroupMore(facts, keys, groups, tests, test);
    } else {
      GroupNew(facts, keys, groups, tests, test);
    }
  }

  /** The loop that collects the members of every group, in order of first appearance. */
  method Group(facts: Facts, tests: seq<Test>) returns (keys: seq<Key>, groups: map<Key, seq<Test>>)
    ensures IsGrouping(facts, keys, groups, tests)
  {
    keys, groups := [], map[];
    for i := 0 to |tests|
      invariant IsGrouping(facts, keys, groups, tests[..i])
    {
      var key := KeyOf(facts, tests[i]);
      GroupOne(facts, keys, groups, tests[..i], tests[i]);
      assert tests[..i + 1] == tests[..i] + [tests[i]];
      if key !in groups {
        keys, groups := keys + [key], groups[key := [tests[i]]];
      } else {
        groups := groups[key := groups[key] + [tests[i]]];
      }
    }
    assert tests[..|tests|] == tests;
  }

  function UnitOf(facts: Facts, members: seq<Test>): Batch
    requires members != []
  {
    Batch(members, facts.isGraphical(members[0].moduleName, members[0].className),
          facts.isPriority(members[0].moduleName), Seconds(facts, members))
  }

  /** Every occurrence of a test is in the group of its key. */
  lemma {:induction false} GroupHasAll(facts: Facts, keys: seq<Key>, groups: map<Key, seq<Test>>, test: Test)
    requires DistinctKeys(keys) && forall k :: k in keys ==> k in groups && HasKey(facts, groups[k], k)
    ensures GroupTests(keys, groups)[test] ==
      if KeyOf(facts, test) in keys then multiset(groups[KeyOf(facts, test)])[test] else 0
    decreases |keys|
  {
    if keys != [] {
      GroupHasAll(facts, keys[1..], groups, test);
      assert keys == [keys[0]] + keys[1..] && keys[0] in keys;
      if keys[0] != KeyOf(facts, test) {
        assert test !in groups[keys[0]];
      }
    }
  }

  lemma UnitOfGroup(facts: Facts, keys: seq<Key>, groups: map<Key, seq<Test>>, tests: seq<Test>, key: Key)
    requires IsGrouping(facts, keys, groups, tests) && key in keys
    ensures IsUnit(facts, multiset(tests), UnitOf(facts, groups[key]))
  {
    var members := groups[key];
    assert HasKey(facts, members, key);
    forall t | t in members
      ensures t.moduleName == members[0].moduleName && t.className == members[0].className
    {
      assert KeyOf(facts, t) == KeyOf(facts, members[0]);
    }
    forall t, u | t in members && KeyOf(facts, t) == KeyOf(facts, u)
      ensures multiset(members)[u] == multiset(tests)[u]
    {
      GroupHasAll(facts, keys, groups, u);
    }
  }

  /** The loop that turns every group into a unit. */
  method MakeUnits(facts: Facts, keys: seq<Key>, groups: map<Key, seq<Test>>, ghost tests: seq<Test>) returns (units: seq<Batch>)
    requires IsGrouping(facts, keys, groups, tests)
    ensures TestsOf(units) == multiset(tests)
    ensures forall b :: b in units ==> IsUnit(facts, multiset(tests), b)
  {
    units := [];
    assert keys[0..] == keys;
    for i := 0 to |keys|
      invariant TestsOf(units) + GroupTests(keys[i..], groups) == multiset(tests)
      invariant forall b :: b in units ==> IsUnit(facts, multiset(tests), b)
    {
      UnitOfGroup(facts, keys, groups, tests, keys[i]);
      assert keys[i..][1..] == keys[i + 1..];
      TestsOfAppend(units, UnitOf(facts, groups[keys[i]]));
      units := units + [UnitOf(facts, groups[keys[i]])];
    }
  }

  // ----- Packing

  /** Within the target, or a single unit. */
  ghost predicate Fits(target: real, small: seq<Batch>, b: Batch) {
    b.seconds <= target || exists u :: u in small && b.tests == u.tests && b.seconds == u.seconds
  }

  /** Consecutive batches of one priority do not fit together. */
  ghost predicate Greedy(target: real, shorts: seq<Batch>) {
    |shorts| > 1 ==>
      && Greedy(target, shorts[..|shorts| - 1])
      && var previous, last := shorts[|shorts| - 2], shorts[|shorts| - 1];
      (previous.priority == last.priority ==> previous.seconds + last.seconds > target)
  }

  ghost predicate PriorityFirst(batches: seq<Batch>) {
    forall i, j :: 0 <= i < j < |batches| ==> batches[i].priority || !batches[j].priority
  }

  ghost predicate Nonnegative(batches: seq<Batch>) {
    forall b :: b in batches ==> b.seconds >= 0.0
  }

  function Kinds(batches: seq<Batch>): nat {
    if |batches| <= 1 then |batches|
    else Kinds(batches[..|batches| - 1]) + if batches[|batches| - 2].priority == batches[|batches| - 1].priority then 0 else 1
  }

  lemma {:induction false} AtMostTwoKinds(batches: seq<Batch>)
    requires PriorityFirst(batches)
    ensures Kinds(batches) <= 2
    ensures batches != [] && batches[|batches| - 1].priority ==> Kinds(batches) <= 1
    decreases |batches|
  {
    if |batches| > 1 {
      AtMostTwoKinds(batches[..|batches| - 1]);
    }
  }

  /** t added up n times. */
  function Scale(n: nat, t: real): real {
    if n == 0 then 0.0 else Scale(n - 1, t) + t
  }

  lemma {:induction false} ScaleIs(n: nat, t: real)
    ensures Scale(n, t) == n as real * t
    decreases n
  {
    if n > 0 {
      ScaleIs(n - 1, t);
      OneMore((n - 1) as real, t);
    }
  }

  lemma OneMore(n: real, t: real)
    ensures (n + 1.0) * t == n * t + t
  {
  }

  lemma {:induction false} ScaleGrows(m: nat, n: nat, t: real)
    requires m <= n && t >= 0.0
    ensures Scale(m, t) <= Scale(n, t)
    decreases n
  {
    if m < n {
      ScaleGrows(m, n - 1, t);
    }
  }

  lemma KindsBounded(batches: seq<Batch>)
    ensures Kinds(batches) <= |batches|
  {
  }

  lemma GreedyFront(target: real, front: seq<Batch>, last: Batch)
    requires front != [] && Greedy(target, front + [last]) && Nonnegative(front + [last])
    ensures Greedy(target, front) && Nonnegative(front) && last.seconds >= 0.0 && front[|front| - 1].seconds >= 0.0
    ensures Kinds(front + [last]) == Kinds(front) + if front[|front| - 1].priority == last.priority then 0 else 1
    ensures front[|front| - 1].priority == last.priority ==> front[|front| - 1].seconds + last.seconds > target
  {
    var whole := front + [last];
    assert whole[..|whole| - 1] == front && last in whole;
    assert forall b :: b in front ==> b in whole;
    assert forall i :: 0 <= i < |front| ==> whole[i] == front[i];
    assert front[|front| - 1] in front;
  }

  lemma {:induction false} GreedySum(target: real, shorts: seq<Batch>, spare: nat)
    requires shorts != [] && Greedy(target, shorts) && Nonnegative(shorts) && spare + Kinds(shorts) == |shorts|
    ensures Scale(spare, target) <= Total(shorts) + Total(shorts) - shorts[|shorts| - 1].seconds
    decreases |shorts|
  {
    var front, last := shorts[..|shorts| - 1], shorts[|shorts| - 1];
    assert shorts == front + [last];
    TotalAppend(front, last);
    if front == [] {
      assert Total(front) == 0.0 && last in shorts;
    } else {
      GreedyFront(target, front, last);
      KindsBounded(front);
      if front[|front| - 1].priority == last.priority {
        GreedySum(target, front, spare - 1);
        assert Scale(spare, target) == Scale(spare - 1, target) + target;
      } else {
        GreedySum(target, front, spare);
      }
    }
  }

  /** At most 2 S / target + 2 short batches for a total short time S. */
  lemma FewShortBatches(target: real, shorts: seq<Batch>)
    requires target >= 0.0 && Greedy(target, shorts) && Nonnegative(shorts) && PriorityFirst(shorts)
    ensures |shorts| >= 2 ==> Scale(|shorts| - 2, target) <= Total(shorts) + Total(shorts)
  {
    if |shorts| >= 2 {
      AtMostTwoKinds(shorts);
      KindsBounded(shorts);
      GreedySum(target, shorts, |shorts| - Kinds(shorts));
      assert shorts[|shorts| - 1] in shorts;
      ScaleGrows(|shorts| - 2, |shorts| - Kinds(shorts), target);
    }
  }

  // ----- The loops of pack

  /** Batches of one lane: uniform flags and no group split. */
  ghost predicate IsLane(facts: Facts, all: multiset<Test>, graphical: bool, batches: seq<Batch>) {
    forall b :: b in batches ==> Uniform(facts, b) && b.graphical == graphical && Whole(facts, all, b)
  }

  /** The units that fill a batch by themselves, or the others, in order. */
  function Sized(units: seq<Batch>, long: bool): seq<Batch> {
    if units == [] then []
    else Sized(units[..|units| - 1], long) + if (Last(units).seconds >= BATCH_SECONDS) == long then [Last(units)] else []
  }

  lemma {:induction false} SizedMembers(units: seq<Batch>, long: bool)
    ensures forall b :: b in Sized(units, long) <==> b in units && (b.seconds >= BATCH_SECONDS) == long
    decreases |units|
  {
    if units != [] {
      SizedMembers(units[..|units| - 1], long);
      assert units == units[..|units| - 1] + [Last(units)];
    }
  }

  lemma {:induction false} SizedTests(units: seq<Batch>)
    ensures TestsOf(units) == TestsOf(Sized(units, true)) + TestsOf(Sized(units, false))
    decreases |units|
  {
    if units != [] {
      var front, last := units[..|units| - 1], Last(units);
      SizedTests(front);
      var long, small := Sized(front, true), Sized(front, false);
      assert units == front + [last];
      TestsOfAppend(front, last);
      if last.seconds >= BATCH_SECONDS {
        SizedIs(units, long + [last], small);
        TestsOfAppend(long, last);
      } else {
        SizedIs(units, long, small + [last]);
        TestsOfAppend(small, last);
      }
    }
  }

  lemma SizedIs(units: seq<Batch>, long: seq<Batch>, small: seq<Batch>)
    requires units != []
    requires var front, last := units[..|units| - 1], Last(units);
      if last.seconds >= BATCH_SECONDS then long == Sized(front, true) + [last] && small == Sized(front, false)
      else long == Sized(front, true) && small == Sized(front, false) + [last]
    ensures Sized(units, true) == long && Sized(units, false) == small
  {
  }

  method Split(units: seq<Batch>) returns (long: seq<Batch>, small: seq<Batch>)
    ensures long == Sized(units, true) && small == Sized(units, false)
  {
    long, small := [], [];
    for i := 0 to |units|
      invariant long == Sized(units[..i], true) && small == Sized(units[..i], false)
    {
      assert units[..i + 1][..i] == units[..i];
      if units[i].seconds >= BATCH_SECONDS {
        long := long + [units[i]];
      } else {
        small := small + [units[i]];
      }
    }
    assert units[..|units|] == units;
  }

  function Extend(batch: Batch, unit: Batch): Batch {
    Batch(batch.tests + unit.tests, batch.graphical, batch.priority, batch.seconds + unit.seconds)
  }

  function Last(batches: seq<Batch>): Batch
    requires batches != []
  {
    batches[|batches| - 1]
  }

  /** Joining two batches with no more tests than there are joins different groups. */
  lemma ExtendWhole(facts: Facts, all: multiset<Test>, batch: Batch, unit: Batch)
    requires Whole(facts, all, batch) && Whole(facts, all, unit)
    requires multiset(batch.tests) + multiset(unit.tests) <= all
    ensures Whole(facts, all, Extend(batch, unit))
  {
    forall t, u | t in batch.tests && u in unit.tests
      ensures KeyOf(facts, t) != KeyOf(facts, u)
    {
      assert (multiset(batch.tests) + multiset(unit.tests))[t] <= all[t];
    }
    assert multiset(Extend(batch, unit).tests) == multiset(batch.tests) + multiset(unit.tests);
  }

  /** What the batches hold, whichever order the short units come in. */
  ghost predicate SameContents(done: seq<Batch>, shorts: seq<Batch>) {
    TestsOf(shorts) == TestsOf(done) && Total(shorts) == Total(done) && Flat(shorts) == Flat(done)
  }

  /** How full they are. */
  ghost predicate WellFilled(target: real, done: seq<Batch>, shorts: seq<Batch>) {
    && (forall b :: b in shorts ==> Fits(target, done, b))
    && (Nonnegative(done) ==> Nonnegative(shorts) && Greedy(target, shorts))
  }

  /** Their priorities follow those of the units. */
  ghost predicate InStep(done: seq<Batch>, shorts: seq<Batch>) {
    && (done == [] <==> shorts == [])
    && (done != [] ==> Last(shorts).priority == Last(done).priority)
    && (PriorityFirst(done) ==> PriorityFirst(shorts))
  }

  lemma FitsMore(target: real, done: seq<Batch>, unit: Batch, b: Batch)
    requires Fits(target, done, b)
    ensures Fits(target, done + [unit], b)
  {
    if b.seconds > target {
      var u :| u in done && b.tests == u.tests && b.seconds == u.seconds;
      assert u in done + [unit];
    }
  }

  lemma NonnegativeAppend(batches: seq<Batch>, b: Batch)
    ensures Nonnegative(batches + [b]) <==> Nonnegative(batches) && b.seconds >= 0.0
  {
    assert forall a :: a in batches + [b] <==> a in batches || a == b;
  }

  lemma StartFills(target: real, done: seq<Batch>, shorts: seq<Batch>, unit: Batch)
    requires WellFilled(target, done, shorts)
    requires shorts != [] ==> Last(shorts).priority != unit.priority || Last(shorts).seconds + unit.seconds > target
    ensures WellFilled(target, done + [unit], shorts + [unit])
  {
    forall b | b in shorts + [unit]
      ensures Fits(target, done + [unit], b)
    {
      if b in shorts {
        FitsMore(target, done, unit, b);
      } else {
        assert unit in done + [unit];
      }
    }
    NonnegativeAppend(done, unit);
    NonnegativeAppend(shorts, unit);
    assert (shorts + [unit])[..|shorts|] == shorts;
  }

  lemma ExtendFills(target: real, done: seq<Batch>, front: seq<Batch>, last: Batch, unit: Batch)
    requires WellFilled(target, done, front + [last]) && last.seconds + unit.seconds <= target
    ensures WellFilled(target, done + [unit], front + [Extend(last, unit)])
  {
    forall b | b in front + [Extend(last, unit)]
      ensures Fits(target, done + [unit], b)
    {
      if b in front {
        assert b in front + [last];
        FitsMore(target, done, unit, b);
      }
    }
    NonnegativeAppend(done, unit);
    NonnegativeAppend(front, last);
    NonnegativeAppend(front, Extend(last, unit));
    assert (front + [last])[..|front|] == front && (front + [Extend(last, unit)])[..|front|] == front;
  }

  lemma StartInStep(done: seq<Batch>, shorts: seq<Batch>, unit: Batch)
    requires InStep(done, shorts)
    ensures InStep(done + [unit], shorts + [unit])
  {
    if PriorityFirst(done + [unit]) {
      assert forall i :: 0 <= i < |done| ==> (done + [unit])[i] == done[i];
      assert PriorityFirst(done);
      if done != [] && unit.priority {
        assert (done + [unit])[|done|] == unit && (done + [unit])[|done| - 1] == Last(done);
      }
    }
  }

  lemma ExtendInStep(done: seq<Batch>, front: seq<Batch>, last: Batch, unit: Batch)
    requires InStep(done, front + [last]) && last.priority == unit.priority
    ensures InStep(done + [unit], front + [Extend(last, unit)])
  {
    if PriorityFirst(done + [unit]) {
      assert forall i :: 0 <= i < |done| ==> (done + [unit])[i] == done[i];
      assert PriorityFirst(done);
      var shorts, next := front + [last], front + [Extend(last, unit)];
      assert forall i :: 0 <= i < |next| ==> next[i].priority == shorts[i].priority;
    }
  }

  lemma ExtendContents(done: seq<Batch>, front: seq<Batch>, last: Batch, unit: Batch)
    requires SameContents(done, front + [last])
    ensures SameContents(done + [unit], front + [Extend(last, unit)])
  {
    TestsOfAppend(done, unit);
    TestsOfAppend(front, last);
    TestsOfAppend(front, Extend(last, unit));
    TotalAppend(done, unit);
    TotalAppend(front, last);
    TotalAppend(front, Extend(last, unit));
    assert multiset(Extend(last, unit).tests) == multiset(last.tests) + multiset(unit.tests);
    ExtendFlat(done, front, last, unit);
  }

  lemma ExtendFlat(done: seq<Batch>, front: seq<Batch>, last: Batch, unit: Batch)
    requires Flat(front + [last]) == Flat(done)
    ensures Flat(front + [Extend(last, unit)]) == Flat(done + [unit])
  {
    FlatAppend(done, unit);
    FlatAppend(front, last);
    FlatAppend(front, Extend(last, unit));
    assert Flat(front) + (last.tests + unit.tests) == (Flat(front) + last.tests) + unit.tests;
  }

  lemma {:induction false} TestsOfPrefix(batches: seq<Batch>, i: nat)
    requires i <= |batches|
    ensures TestsOf(batches[..i]) <= TestsOf(batches)
  {
    assert batches == batches[..i] + batches[i..];
    TestsOfConcat(batches[..i], batches[i..]);
  }

  lemma ExtendLane(facts: Facts, all: multiset<Test>, graphical: bool, front: seq<Batch>, last: Batch, unit: Batch)
    requires IsLane(facts, all, graphical, front + [last]) && IsLane(facts, all, graphical, [unit])
    requires last.priority == unit.priority && TestsOf(front + [last]) + multiset(unit.tests) <= all
    ensures IsLane(facts, all, graphical, front + [Extend(last, unit)])
  {
    assert last in front + [last] && unit in [unit] && forall b :: b in front ==> b in front + [last];
    TestsOfAppend(front, last);
    ExtendWhole(facts, all, last, unit);
  }

  ghost predicate IsPacked(facts: Facts, all: multiset<Test>, graphical: bool, target: real, done: seq<Batch>, shorts: seq<Batch>) {
    SameContents(done, shorts) && IsLane(facts, all, graphical, shorts) && WellFilled(target, done, shorts) && InStep(done, shorts)
  }

  lemma StartPacked(facts: Facts, all: multiset<Test>, graphical: bool, target: real, done: seq<Batch>, shorts: seq<Batch>, unit: Batch)
    requires IsPacked(facts, all, graphical, target, done, shorts) && IsLane(facts, all, graphical, [unit])
    requires shorts != [] ==> Last(shorts).priority != unit.priority || Last(shorts).seconds + unit.seconds > target
    ensures IsPacked(facts, all, graphical, target, done + [unit], shorts + [unit])
  {
    StartFills(target, done, shorts, unit);
    StartInStep(done, shorts, unit);
    TestsOfAppend(done, unit);
    TestsOfAppend(shorts, unit);
    TotalAppend(done, unit);
    TotalAppend(shorts, unit);
    FlatAppend(done, unit);
    FlatAppend(shorts, unit);
    assert unit in [unit];
  }

  lemma ExtendPacked(facts: Facts, all: multiset<Test>, graphical: bool, target: real, done: seq<Batch>, front: seq<Batch>, last: Batch, unit: Batch)
    requires IsPacked(facts, all, graphical, target, done, front + [last]) && IsLane(facts, all, graphical, [unit])
    requires last.priority == unit.priority && last.seconds + unit.seconds <= target && TestsOf(done + [unit]) <= all
    ensures IsPacked(facts, all, graphical, target, done + [unit], front + [Extend(last, unit)])
  {
    TestsOfAppend(done, unit);
    ExtendContents(done, front, last, unit);
    ExtendLane(facts, all, graphical, front, last, unit);
    ExtendFills(target, done, front, last, unit);
    ExtendInStep(done, front, last, unit);
  }

  /** The loop that packs short units, in their order, up to the target. */
  method PackShort(facts: Facts, small: seq<Batch>, graphical: bool, target: real, ghost all: multiset<Test>)
    returns (shorts: seq<Batch>)
    requires IsLane(facts, all, graphical, small) && TestsOf(small) <= all
    ensures IsPacked(facts, all, graphical, target, small, shorts)
  {
    shorts := [];
    ghost var done: seq<Batch> := [];
    for i := 0 to |small|
      invariant done == small[..i] && IsPacked(facts, all, graphical, target, done, shorts)
    {
      NextUnit(facts, all, graphical, small, i);
      shorts := AddUnit(facts, graphical, target, all, done, shorts, small[i]);
      done := done + [small[i]];
    }
    assert small[..|small|] == small;
  }

  lemma NextUnit(facts: Facts, all: multiset<Test>, graphical: bool, small: seq<Batch>, i: nat)
    requires i < |small| && IsLane(facts, all, graphical, small) && TestsOf(small) <= all
    ensures small[..i] + [small[i]] == small[..i + 1] && TestsOf(small[..i] + [small[i]]) <= all
    ensures IsLane(facts, all, graphical, [small[i]])
  {
    TestsOfPrefix(small, i + 1);
    assert small[..i] + [small[i]] == small[..i + 1];
    LaneOfOne(facts, all, graphical, small, i);
  }

  lemma LaneOfOne(facts: Facts, all: multiset<Test>, graphical: bool, small: seq<Batch>, i: nat)
    requires i < |small| && IsLane(facts, all, graphical, small)
    ensures IsLane(facts, all, graphical, [small[i]])
  {
    assert small[i] in small;
  }

  /** The next short unit goes into the current batch, or starts a new one. */
  method AddUnit(facts: Facts, graphical: bool, target: real, ghost all: multiset<Test>, ghost done: seq<Batch>, before: seq<Batch>, unit: Batch)
    returns (shorts: seq<Batch>)
    requires IsPacked(facts, all, graphical, target, done, before) && IsLane(facts, all, graphical, [unit])
    requires TestsOf(done + [unit]) <= all
    ensures IsPacked(facts, all, graphical, target, done + [unit], shorts)
  {
    if before == [] || Last(before).priority != unit.priority || Last(before).seconds + unit.seconds > target {
      StartPacked(facts, all, graphical, target, done, before, unit);
      var current := Extend(Batch([], unit.graphical, unit.priority, 0.0), unit);
      assert current == unit;
      shorts := before + [current];
    } else {
      var front, last := before[..|before| - 1], Last(before);
      assert before == front + [last];
      ExtendPacked(facts, all, graphical, target, done, front, last, unit);
      shorts := front + [Extend(last, unit)];
    }
  }

  /** What `pack` promises for the units of one lane. */
  ghost predicate IsPacking(facts: Facts, all: multiset<Test>, graphical: bool, workers: nat, units: seq<Batch>, batches: seq<Batch>)
    requires workers > 0
  {
    && TestsOf(batches) == TestsOf(units) && IsLane(facts, all, graphical, batches)
    && SortedBy(StartsNoLater, batches)
    && exists shorts: seq<Batch> :: HasShorts(workers, SortBy(StartsNoLater, units), batches, shorts)
  }

  /** The batches are the long units and `shorts`, which pack the short units. */
  ghost predicate HasShorts(workers: nat, units: seq<Batch>, batches: seq<Batch>, shorts: seq<Batch>)
    requires workers > 0
  {
    var small := Sized(units, false);
    && multiset(batches) == multiset(Sized(units, true)) + multiset(shorts)
    && TestsOf(shorts) == TestsOf(small) && Total(shorts) == Total(small)
    && Flat(shorts) == Flat(SortBy(PacksNoLater, small))
    && WellFilled(Target(workers, small), small, shorts)
    && PriorityFirst(shorts)
  }

  function Target(workers: nat, small: seq<Batch>): (target: real)
    requires workers > 0
    ensures 1.0 <= target <= BATCH_SECONDS
  {
    var share := Total(small) / (4 * workers) as real;
    var target := if share > 1.0 then share else 1.0;
    if target < BATCH_SECONDS then target else BATCH_SECONDS
  }

  lemma {:induction false} SortedPriorities(batches: seq<Batch>)
    requires SortedBy(PacksNoLater, batches)
    ensures PriorityFirst(batches)
    decreases |batches|
  {
    if batches != [] {
      SortedPriorities(batches[1..]);
      forall i, j | 0 <= i < j < |batches|
        ensures batches[i].priority || !batches[j].priority
      {
        if i == 0 {
          assert batches[j] == batches[1..][j - 1] && batches[j] in batches[1..];
        } else {
          assert batches[i] == batches[1..][i - 1] && batches[j] == batches[1..][j - 1];
        }
      }
    }
  }

  /** Sorted copies of the same batches hold the same tests, in the same lane. */
  lemma SortLane(facts: Facts, all: multiset<Test>, graphical: bool, le: (Batch, Batch) -> bool, batches: seq<Batch>)
    requires IsLane(facts, all, graphical, batches)
    ensures IsLane(facts, all, graphical, SortBy(le, batches)) && TestsOf(SortBy(le, batches)) == TestsOf(batches)
    ensures Total(SortBy(le, batches)) == Total(batches) && multiset(SortBy(le, batches)) == multiset(batches)
    ensures forall b :: b in SortBy(le, batches) <==> b in batches
  {
    SortKeeps(le, batches);
    SortAdds(le, batches);
    SortMembers(le, batches);
  }

  lemma WellFilledPermuted(target: real, small: seq<Batch>, other: seq<Batch>, shorts: seq<Batch>)
    requires WellFilled(target, other, shorts) && forall b :: b in other <==> b in small
    ensures WellFilled(target, small, shorts)
  {
    forall b | b in shorts
      ensures Fits(target, small, b)
    {
      assert Fits(target, other, b);
    }
  }

  method Pack(facts: Facts, units: seq<Batch>, graphical: bool, workers: nat, ghost all: multiset<Test>)
    returns (batches: seq<Batch>)
    requires workers > 0 && IsLane(facts, all, graphical, units) && TestsOf(units) <= all
    ensures IsPacking(facts, all, graphical, workers, units, batches)
  {
    OrdersArePreorders();
    ghost var ordered := SortBy(StartsNoLater, units);
    SortLane(facts, all, graphical, StartsNoLater, units);
    SizedMembers(ordered, true);
    SizedMembers(ordered, false);
    SizedTests(ordered);
    var long, small := Split(SortBy(StartsNoLater, units));
    var inOrder := SortBy(PacksNoLater, small);
    SortLane(facts, all, graphical, PacksNoLater, small);
    SortSorts(PacksNoLater, small);
    SortedPriorities(inOrder);
    var shorts := PackShort(facts, inOrder, graphical, Target(workers, small), all);
    WellFilledPermuted(Target(workers, small), small, inOrder, shorts);
    TestsOfConcat(long, shorts);
    assert IsLane(facts, all, graphical, long + shorts);
    SortLane(facts, all, graphical, StartsNoLater, long + shorts);
    SortSorts(StartsNoLater, long + shorts);
    batches := SortBy(StartsNoLater, long + shorts);
    assert HasShorts(workers, ordered, batches, shorts);
  }

  method Plan(facts: Facts, tests: seq<Test>, workers: nat) returns (headless: seq<Batch>, visible: seq<Batch>)
    requires workers > 0
    ensures TestsOf(headless) + TestsOf(visible) == multiset(tests)
    ensures exists units :: (
              && AreUnits(facts, multiset(tests), units)
              && IsPacking(facts, multiset(tests), false, workers, Lane(units, false), headless)
              && IsPacking(facts, multiset(tests), true, workers, Lane(units, true), visible))
  {
    var keys, groups := Group(facts, tests);
    var units := MakeUnits(facts, keys, groups, tests);
    LanePartition(units);
    LaneMembers(units, false);
    LaneMembers(units, true);
    headless := Pack(facts, Lane(units, false), false, workers, multiset(tests));
    visible := Pack(facts, Lane(units, true), true, workers, multiset(tests));
    assert AreUnits(facts, multiset(tests), units);
  }

  ghost predicate AreUnits(facts: Facts, all: multiset<Test>, units: seq<Batch>) {
    TestsOf(units) == all && forall b :: b in units ==> IsUnit(facts, all, b)
  }

  function Lane(units: seq<Batch>, graphical: bool): seq<Batch> {
    if units == [] then []
    else if units[0].graphical == graphical then [units[0]] + Lane(units[1..], graphical)
    else Lane(units[1..], graphical)
  }

  lemma {:induction false} LaneMembers(units: seq<Batch>, graphical: bool)
    ensures forall b :: b in Lane(units, graphical) ==> b in units && b.graphical == graphical
    decreases |units|
  {
    if units != [] {
      LaneMembers(units[1..], graphical);
    }
  }

  lemma {:induction false} LanePartition(units: seq<Batch>)
    ensures TestsOf(units) == TestsOf(Lane(units, false)) + TestsOf(Lane(units, true))
    decreases |units|
  {
    if units != [] {
      LanePartition(units[1..]);
      var same := Lane(units[1..], units[0].graphical);
      assert ([units[0]] + same)[1..] == same;
    }
  }

  /** Batch limit per lane: a total short time S gives at most 2 S / target + 2 short batches. */
  lemma ShortBatchLimit(workers: nat, units: seq<Batch>, batches: seq<Batch>, shorts: seq<Batch>)
    requires workers > 0 && HasShorts(workers, units, batches, shorts) && Nonnegative(units)
    ensures var small := Sized(units, false);
      |shorts| >= 2 ==> Scale(|shorts| - 2, Target(workers, small)) <= Total(small) + Total(small)
  {
    SizedMembers(units, false);
    FewShortBatches(Target(workers, Sized(units, false)), shorts);
  }

  /** The target is the short time for each of four batches a worker, within one and twenty seconds. */
  lemma TargetExactly(workers: nat, small: seq<Batch>)
    requires workers > 0
    ensures IsClamped(Total(small), (4 * workers) as real, Target(workers, small))
  {
    Clamped(Total(small), (4 * workers) as real, Target(workers, small));
  }

  /** A share of the total, or the bound that it exceeds. */
  predicate IsClamped(total: real, shares: real, target: real) {
    && (shares <= total <= 20.0 * shares ==> target * shares == total)
    && (total <= shares ==> target == 1.0)
    && (total >= 20.0 * shares ==> target == 20.0)
  }

  lemma Clamped(total: real, shares: real, target: real)
    requires shares > 0.0
    requires var each := total / shares;
      target == if each > 1.0 then (if each < 20.0 then each else 20.0) else 1.0
    ensures IsClamped(total, shares, target)
  {
    Shared(total, shares);
  }

  lemma Shared(total: real, share: real)
    requires share > 0.0
    ensures (total / share) * share == total
    ensures total / share > 20.0 <==> total > 20.0 * share
    ensures total / share > 1.0 <==> total > share
  {
    var each := total / share;
    assert each * share == total;
    Compare(each, 20.0, share);
    Compare(each, 1.0, share);
  }

  lemma Compare(a: real, b: real, share: real)
    requires share > 0.0
    ensures a > b <==> a * share > b * share
  {
    if a > b {
      assert (a - b) * share > 0.0;
    } else {
      assert (b - a) * share >= 0.0;
    }
  }

  /** When the short time is worth a second or more for each of four batches a worker, and no more than twenty, a lane has
      at most eight short batches a worker and two. */
  lemma BatchesPerWorker(workers: nat, units: seq<Batch>, batches: seq<Batch>, shorts: seq<Batch>)
    requires workers > 0 && HasShorts(workers, units, batches, shorts) && Nonnegative(units)
    requires (4 * workers) as real <= Total(Sized(units, false)) <= 20.0 * (4 * workers) as real
    ensures |shorts| <= 8 * workers + 2
  {
    ShortBatchLimit(workers, units, batches, shorts);
    FewFor(workers, Sized(units, false), |shorts|);
  }

  lemma FewFor(workers: nat, small: seq<Batch>, n: nat)
    requires workers > 0 && (4 * workers) as real <= Total(small) <= 20.0 * (4 * workers) as real
    requires n >= 2 ==> Scale(n - 2, Target(workers, small)) <= Total(small) + Total(small)
    ensures n <= 8 * workers + 2
  {
    TargetExactly(workers, small);
    FewEnough(n, workers, Target(workers, small), Total(small));
  }

  lemma FewEnough(n: nat, workers: nat, target: real, total: real)
    requires workers > 0 && target > 0.0 && target * (4 * workers) as real == total
    requires n >= 2 ==> Scale(n - 2, target) <= total + total
    ensures n <= 8 * workers + 2
  {
    if n > 8 * workers + 2 {
      ScaleIs(n - 2, target);
      TooMany((n - 2) as real, target, (4 * workers) as real, total);
    }
  }

  lemma TooMany(n: real, target: real, shares: real, total: real)
    requires n > 2.0 * shares && target > 0.0 && target * shares == total
    ensures n * target > total + total
  {
    assert (n - 2.0 * shares) * target > 0.0;
  }

  lemma {:induction false} SortedAt(le: (Batch, Batch) -> bool, batches: seq<Batch>, i: nat, j: nat)
    requires SortedBy(le, batches) && i < j < |batches|
    ensures le(batches[i], batches[j])
    decreases i
  {
    if i == 0 {
      assert batches[j] == batches[1..][j - 1] && batches[j] in batches[1..];
    } else {
      SortedAt(le, batches[1..], i - 1, j - 1);
    }
  }

  /** Short units of priority modules come first, and among equals those whose first test has the lesser id. */
  lemma PackOrder(units: seq<Batch>, i: nat, j: nat)
    requires i < j < |units|
    ensures var sorted := SortBy(PacksNoLater, units);
      && |sorted| == |units|
      && (sorted[i].priority || !sorted[j].priority)
      && (sorted[i].priority == sorted[j].priority ==> IsNoGreater(FirstId(sorted[i]), FirstId(sorted[j])))
  {
    var sorted := SortBy(PacksNoLater, units);
    OrdersArePreorders();
    SortSorts(PacksNoLater, units);
    SortKeeps(PacksNoLater, units);
    assert |sorted| == |multiset(sorted)| == |multiset(units)| == |units|;
    SortedAt(PacksNoLater, sorted, i, j);
    LeqExactly(FirstId(sorted[i]), FirstId(sorted[j]));
  }

  /** The text is a prefix of the other or less at the first difference. */
  ghost predicate IsNoGreater(a: string, b: string) {
    a <= b || IsLess(a, b)
  }

  ghost predicate IsLess(a: string, b: string) {
    exists k :: 0 <= k < |a| && k < |b| && a[..k] == b[..k] && a[k] < b[k]
  }

  lemma LessTail(a: string, b: string)
    requires a != "" && b != ""
    ensures IsLess(a, b) <==> a[0] < b[0] || (a[0] == b[0] && IsLess(a[1..], b[1..]))
  {
    if k :| 0 <= k < |a| && k < |b| && a[..k] == b[..k] && a[k] < b[k] {
      if k > 0 {
        assert a[..k][0] == b[..k][0];
        assert a[1..][..k - 1] == a[..k][1..] == b[..k][1..] == b[1..][..k - 1] && a[1..][k - 1] < b[1..][k - 1];
      }
    }
    if a[0] < b[0] {
      assert a[..0] == b[..0];
    }
    if a[0] == b[0] && IsLess(a[1..], b[1..]) {
      var k :| 0 <= k < |a[1..]| && k < |b[1..]| && a[1..][..k] == b[1..][..k] && a[1..][k] < b[1..][k];
      assert a[..k + 1] == [a[0]] + a[1..][..k] == [b[0]] + b[1..][..k] == b[..k + 1];
    }
  }

  lemma {:induction false} LeqExactly(a: string, b: string)
    ensures StringLeq(a, b) <==> IsNoGreater(a, b)
    decreases |a|
  {
    if a != "" && b != "" {
      LeqExactly(a[1..], b[1..]);
      LessTail(a, b);
      assert a == [a[0]] + a[1..] && b == [b[0]] + b[1..];
    }
  }

  /** Batches of priority modules start first, and among equals the longer ones. */
  lemma StartOrder(batches: seq<Batch>, i: nat, j: nat)
    requires SortedBy(StartsNoLater, batches) && i < j < |batches|
    ensures batches[i].priority || !batches[j].priority
    ensures batches[i].priority == batches[j].priority ==> batches[i].seconds >= batches[j].seconds
  {
    SortedAt(StartsNoLater, batches, i, j);
  }

  /** No group is in two batches: every occurrence of its tests is in the first one. */
  lemma NoGroupIsSplit(facts: Facts, all: multiset<Test>, batches: seq<Batch>, i: nat, j: nat, t: Test, u: Test)
    requires i < j < |batches| && TestsOf(batches) <= all
    requires Whole(facts, all, batches[i]) && Whole(facts, all, batches[j])
    requires t in batches[i].tests && u in batches[j].tests
    ensures KeyOf(facts, t) != KeyOf(facts, u)
  {
    TestsOfTwo(batches, i, j);
    assert (multiset(batches[i].tests) + multiset(batches[j].tests))[t] <= all[t];
  }

  lemma {:induction false} TestsOfTwo(batches: seq<Batch>, i: nat, j: nat)
    requires i < j < |batches|
    ensures multiset(batches[i].tests) + multiset(batches[j].tests) <= TestsOf(batches)
  {
    TestsOfConcat(batches[..i], batches[i..]);
    assert batches == batches[..i] + batches[i..];
    var rest := batches[i..][1..];
    var k := j - i - 1;
    assert rest[k] == batches[j] && rest == rest[..k] + rest[k..];
    TestsOfConcat(rest[..k], rest[k..]);
  }
}
