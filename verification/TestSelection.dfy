/** Selecting tests for changed paths (`select` in scripts/ci_test_contracts.py).
    The ownership tables are parameters. A path that no table owns, or that the tables refuse, demands the full run;
    otherwise the lanes are the union of what the paths demand. */
module TestSelection {
  import opened Options
  import opened ScriptDependencies

  /** `process` tests need the built applications. */
  datatype Test = Test(id: string, module_: Name, process: bool)

  datatype Lanes = Lanes(linux: set<Test>, windows: set<Test>, release: set<Test>, contracts: set<string>,
                         rust: bool, apps: bool, consumer3d: bool)

  /** A changed path: one that demands the full run, a script (`machinery` for the runtime fixture classes), or one whose
      reviewed owner adds fixed lanes. A refused path may still be named like a script. */
  datatype Change = Refused(stem: Option<Name>) | ScriptChange(name: Name, machinery: bool) | Owned(adds: Lanes)

  /** `usable` says that the discovered inventory passed its checks; `base` are the lanes that always run. */
  datatype Policy = Policy(usable: bool, tests: set<Test>, base: Lanes, family: Test -> string,
                           extended: set<string>, appContracts: set<string>)

  datatype Plan = Plan(full: bool, lanes: Lanes)

  const SERVICE := "service_contract_tests"
  const NOTHING := Lanes({}, {}, {}, {}, false, false, false)

  function Join(a: Lanes, b: Lanes): Lanes {
    Lanes(a.linux + b.linux, a.windows + b.windows, a.release + b.release, a.contracts + b.contracts,
          a.rust || b.rust, a.apps || b.apps, a.consumer3d || b.consumer3d)
  }

  predicate Below(a: Lanes, b: Lanes) {
    && a.linux <= b.linux && a.windows <= b.windows && a.release <= b.release && a.contracts <= b.contracts
    && (a.rust ==> b.rust) && (a.apps ==> b.apps) && (a.consumer3d ==> b.consumer3d)
  }

  function Process(policy: Policy): set<Test> {
    set t | t in policy.tests && t.process
  }

  /** Without built applications, the process tests and their contracts are left out. */
  function Trim(policy: Policy, lanes: Lanes): Lanes {
    if lanes.apps then lanes
    else lanes.(linux := lanes.linux - Process(policy), windows := lanes.windows - Process(policy), release := {},
                contracts := lanes.contracts - policy.appContracts)
  }

  // ----- What a change demands

  /** The tests whose module depends on a script. */
  ghost function SelectedBy(src: Sources, policy: Policy, name: Name): set<Test> {
    set t | t in policy.tests && DependsOn(src, name, t.module_)
  }

  function ForScript(policy: Policy, selected: set<Test>, service: bool, machinery: bool): Lanes {
    var more := if machinery then Process(policy) else {};
    Lanes(selected + more, selected + more, {},
          (set t | t in selected :: policy.family(t)) + (if service then {"service"} else {})
            + (if machinery then policy.extended else {}),
          service, service || exists t :: t in selected && t.process, false)
  }

  ghost function Adds(src: Sources, policy: Policy, change: Change): Lanes {
    match change
    case Refused(_) => NOTHING
    case ScriptChange(name, machinery) => ForScript(policy, SelectedBy(src, policy, name), DependsOn(src, name, SERVICE), machinery)
    case Owned(adds) => adds
  }

  ghost function Gathered(src: Sources, policy: Policy, changes: seq<Change>): Lanes {
    if changes == [] then policy.base
    else Join(Gathered(src, policy, changes[..|changes| - 1]), Adds(src, policy, changes[|changes| - 1]))
  }

  /** The names of all changed paths that look like scripts. */
  function StemsOf(changes: seq<Change>): seq<Name> {
    if changes == [] then []
    else
      StemsOf(changes[..|changes| - 1]) +
        match changes[|changes| - 1]
        case Refused(stem) => (if stem.Some? then [stem.value] else [])
        case ScriptChange(name, _) => [name]
        case Owned(_) => []
  }

  /** A changed script without a test, or near an unreviewed reference. */
  ghost predicate Unowned(src: Sources, policy: Policy, stems: seq<Name>, change: Change) {
    change.ScriptChange? && (Blocked(src, stems) || SelectedBy(src, policy, change.name) == {})
  }

  ghost predicate NeedsFull(src: Sources, policy: Policy, changes: seq<Change>) {
    || !policy.usable || changes == []
    || exists change :: change in changes && (change.Refused? || Unowned(src, policy, StemsOf(changes), change))
  }

  /** The effect of one changed script. */
  method AddScript(src: Sources, policy: Policy, reverse: Graph, name: Name, machinery: bool) returns (adds: Option<Lanes>)
    requires IsReverse(src, reverse)
    ensures adds.None? <==> SelectedBy(src, policy, name) == {}
    ensures adds.Some? ==> adds.value == Adds(src, policy, ScriptChange(name, machinery))
  {
    var closure := Dependents(name, reverse);
    forall caller
      ensures caller in closure <==> DependsOn(src, name, caller)
    {
      SameChains(src, reverse, name, caller);
    }
    var selected := set t | t in policy.tests && t.module_ in closure;
    assert selected == SelectedBy(src, policy, name);
    if selected == {} {
      return None;
    }
    return Some(ForScript(policy, selected, SERVICE in closure, machinery));
  }

  /** `select`. */
  method Select(src: Sources, policy: Policy, changes: seq<Change>) returns (plan: Plan)
    ensures plan.full <==> NeedsFull(src, policy, changes)
    ensures !plan.full ==> plan.lanes == Trim(policy, Gathered(src, policy, changes))
  {
    if !policy.usable || changes == [] {
      return Plan(true, NOTHING);
    }
    var full, lanes := false, policy.base;
    var stems := StemsOf(changes);
    var reverse := Callers(src, stems);
    for i := 0 to |changes|
      invariant full <==> exists change :: change in changes[..i] && (change.Refused? || Unowned(src, policy, stems, change))
      invariant !full ==> lanes == Gathered(src, policy, changes[..i])
    {
      var change := changes[i];
      assert changes[..i + 1][..i] == changes[..i];
      assert forall c :: c in changes[..i + 1] <==> c in changes[..i] || c == change;
      ghost var demanded := change.Refused? || Unowned(src, policy, stems, change);
      ghost var before := full;
      match change
      case Refused(_) => full := true;
      case ScriptChange(name, machinery) =>
        if reverse.None? {
          full := true;
        } else {
          var adds := AddScript(src, policy, reverse.value, name, machinery);
          if adds.None? {
            full := true;
          } else {
            lanes := Join(lanes, adds.value);
          }
        }
      case Owned(adds) => lanes := Join(lanes, adds);
      assert full <==> before || demanded;
      assert demanded ==> change in changes[..i + 1];
    }
    assert changes[..|changes|] == changes;
    return Plan(full, Trim(policy, lanes));
  }

  // ----- Safety

  lemma {:induction false} GatheredIncludes(src: Sources, policy: Policy, changes: seq<Change>, change: Change)
    requires change in changes
    ensures Below(Adds(src, policy, change), Gathered(src, policy, changes))
    decreases |changes|
  {
    if change != changes[|changes| - 1] {
      assert change in changes[..|changes| - 1];
      GatheredIncludes(src, policy, changes[..|changes| - 1], change);
    }
  }

  lemma {:induction false} GatheredBelow(src: Sources, policy: Policy, changes: seq<Change>, bound: Lanes)
    requires Below(policy.base, bound) && forall change :: change in changes ==> Below(Adds(src, policy, change), bound)
    ensures Below(Gathered(src, policy, changes), bound)
    decreases |changes|
  {
    if changes != [] {
      GatheredBelow(src, policy, changes[..|changes| - 1], bound);
    }
  }

  lemma {:induction false} StemsInclude(changes: seq<Change>, name: Name, machinery: bool)
    requires ScriptChange(name, machinery) in changes
    ensures name in StemsOf(changes)
    decreases |changes|
  {
    if ScriptChange(name, machinery) != changes[|changes| - 1] {
      assert ScriptChange(name, machinery) in changes[..|changes| - 1];
      StemsInclude(changes[..|changes| - 1], name, machinery);
    }
  }

  /** Without the full run, every discovered test whose module depends on a changed script, through imports, reviewed
      runtime edges or any literal reference, runs on Linux and on Windows. */
  lemma NothingMissed(src: Sources, policy: Policy, changes: seq<Change>, chain: seq<Name>, machinery: bool, t: Test)
    requires !NeedsFull(src, policy, changes) && IsAnyChain(src, chain) && ScriptChange(chain[0], machinery) in changes
    requires t in policy.tests && t.module_ == chain[|chain| - 1]
    ensures var lanes := Trim(policy, Gathered(src, policy, changes)); t in lanes.linux && t in lanes.windows
  {
    var change := ScriptChange(chain[0], machinery);
    StemsInclude(changes, chain[0], machinery);
    assert !Unowned(src, policy, StemsOf(changes), change);
    ReferencesCovered(src, StemsOf(changes), chain);
    assert t in SelectedBy(src, policy, chain[0]);
    GatheredIncludes(src, policy, changes, change);
    assert t.process ==> Adds(src, policy, change).apps;
  }

  lemma {:induction false} StemsGrow(changes: seq<Change>, others: seq<Change>)
    requires forall change :: change in changes ==> change in others
    ensures forall name :: name in StemsOf(changes) ==> name in StemsOf(others)
    decreases |changes|
  {
    if changes != [] {
      var front, last := changes[..|changes| - 1], changes[|changes| - 1];
      StemsGrow(front, others);
      StemIn(others, last);
    }
  }

  lemma {:induction false} StemIn(changes: seq<Change>, change: Change)
    requires change in changes
    ensures forall name :: name in StemsOf([change]) ==> name in StemsOf(changes)
    decreases |changes|
  {
    var front, last := changes[..|changes| - 1], changes[|changes| - 1];
    assert [change][..0] == [];
    if change != last {
      assert change in front;
      StemIn(front, change);
    }
  }

  lemma TrimGrows(policy: Policy, a: Lanes, b: Lanes)
    requires Below(a, b)
    ensures Below(Trim(policy, a), Trim(policy, b))
  {
  }

  /** More changed paths only enlarge the lanes, or force the full run. */
  lemma SelectionGrows(src: Sources, policy: Policy, changes: seq<Change>, others: seq<Change>)
    requires changes != [] && forall change :: change in changes ==> change in others
    requires !NeedsFull(src, policy, others)
    ensures !NeedsFull(src, policy, changes)
    ensures Below(Trim(policy, Gathered(src, policy, changes)), Trim(policy, Gathered(src, policy, others)))
  {
    StemsGrow(changes, others);
    forall change | change in changes
      ensures !change.Refused? && !Unowned(src, policy, StemsOf(changes), change)
      ensures Below(Adds(src, policy, change), Gathered(src, policy, others))
    {
      assert !change.Refused? && !Unowned(src, policy, StemsOf(others), change);
      GatheredIncludes(src, policy, others, change);
    }
    BaseBelow(src, policy, others);
    GatheredBelow(src, policy, changes, Gathered(src, policy, others));
    TrimGrows(policy, Gathered(src, policy, changes), Gathered(src, policy, others));
  }

  lemma {:induction false} BaseBelow(src: Sources, policy: Policy, changes: seq<Change>)
    ensures Below(policy.base, Gathered(src, policy, changes))
    decreases |changes|
  {
    if changes != [] {
      BaseBelow(src, policy, changes[..|changes| - 1]);
    }
  }

  // ----- What a changed script demands

  /** The contracts of every selected test are among the plan's, unless they need applications that are not built, and
      then the test needs none; a selected process test has them built. */
  lemma FamiliesSelected(src: Sources, policy: Policy, changes: seq<Change>, chain: seq<Name>, machinery: bool, t: Test)
    requires !NeedsFull(src, policy, changes) && IsAnyChain(src, chain) && ScriptChange(chain[0], machinery) in changes
    requires t in policy.tests && t.module_ == chain[|chain| - 1]
    ensures var lanes := Trim(policy, Gathered(src, policy, changes));
      && (policy.family(t) in lanes.contracts || (!lanes.apps && policy.family(t) in policy.appContracts && !t.process))
      && (t.process ==> lanes.apps)
  {
    var change := ScriptChange(chain[0], machinery);
    StemsInclude(changes, chain[0], machinery);
    assert !Unowned(src, policy, StemsOf(changes), change);
    ReferencesCovered(src, StemsOf(changes), chain);
    assert t in SelectedBy(src, policy, chain[0]);
    GatheredIncludes(src, policy, changes, change);
    var demanded := Adds(src, policy, change);
    assert policy.family(t) in demanded.contracts;
    assert t.process ==> demanded.apps;
  }

  /** A changed script on which the service tests depend has Rust and applications built and the service contracts kept. */
  lemma ServiceSelected(src: Sources, policy: Policy, changes: seq<Change>, name: Name, machinery: bool)
    requires ScriptChange(name, machinery) in changes && DependsOn(src, name, "service_contract_tests")
    ensures var lanes := Trim(policy, Gathered(src, policy, changes)); lanes.rust && lanes.apps && "service" in lanes.contracts
  {
    GatheredIncludes(src, policy, changes, ScriptChange(name, machinery));
  }

  /** Changed runtime machinery has every process test run and every extended contract kept, once applications are built. */
  lemma MachinerySelected(src: Sources, policy: Policy, changes: seq<Change>, name: Name, t: Test)
    requires ScriptChange(name, true) in changes && t in policy.tests && t.process
    ensures var lanes := Trim(policy, Gathered(src, policy, changes));
      lanes.apps ==> t in lanes.linux && t in lanes.windows && policy.extended <= lanes.contracts
  {
    GatheredIncludes(src, policy, changes, ScriptChange(name, true));
  }

  /** Without built applications no process test runs, nothing runs in release, and no contract that needs them is kept; all
      else that was demanded is. */
  lemma TrimmedExactly(policy: Policy, lanes: Lanes)
    ensures var trimmed := Trim(policy, lanes);
      && trimmed.apps == lanes.apps && trimmed.rust == lanes.rust && trimmed.consumer3d == lanes.consumer3d
      && (forall t :: t in trimmed.linux <==> t in lanes.linux && (lanes.apps || t !in policy.tests || !t.process))
      && (forall t :: t in trimmed.windows <==> t in lanes.windows && (lanes.apps || t !in policy.tests || !t.process))
      && (forall t :: t in trimmed.release <==> t in lanes.release && lanes.apps)
      && (forall c :: c in trimmed.contracts <==> c in lanes.contracts && (lanes.apps || c !in policy.appContracts))
  {
  }
}
