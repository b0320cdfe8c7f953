/** Parameter definitions of scripts/arena_search_parameters.py: which targets they may have, and applying them. */
module ParameterSpec {
  import opened Options
  import opened Permutations
  import opened TreeEdits

  /** `Elsewhere` stands for every name that is no manifest, rules or direct region file. */
  datatype File = Scenario | Rules | Region(name: string) | Elsewhere(name: string)

  datatype Target = Target(file: File, path: Path)

  datatype Parameter = Parameter(name: string, targets: seq<Target>)

  /** One target and the parameter whose value it takes. */
  datatype Assignment = Assignment(target: Target, name: string)

  const MAXIMUM_ENTITY := 0xffff_ffff_ffff_ffff
  const MAXIMUM_KEY := 10000

  // ----- Permitted targets

  predicate Named(key: Key, names: set<string>) {
    key.Name? && key.name in names
  }

  predicate IsPath(path: Path, names: seq<string>) {
    |path| == |names| && forall i :: 0 <= i < |path| ==> path[i] == Name(names[i])
  }

  predicate PermittedStrike(path: Path) {
    || IsPath(path, ["check", "against", "defense"])
    || IsPath(path, ["check", "against", "formula", "base"])
    || (&& |path| >= 3 && Named(path[0], {"on_success", "on_failure"}) && path[1].Index?
        && Named(path[|path| - 1], {"duration", "impact_bonus", "amount", "count", "sides", "bonus"})
        && forall i :: 2 <= i < |path| ==> path[i].Index? || Named(path[i],
             {"damage", "components", "amount", "dice", "duration", "impact_bonus", "count", "sides", "bonus"}))
  }

  predicate PermittedAbility(path: Path)
    requires |path| >= 3
  {
    || IsPath(path[2..], ["cost", "start"]) || IsPath(path[2..], ["cost", "resolution"])
    || IsPath(path[2..], ["timing", "source", "prepare"]) || IsPath(path[2..], ["timing", "source", "recover"])
    || IsPath(path[2..], ["timing", "scaled_by"]) || IsPath(path[2..], ["reach", "range"])
    || IsPath(path[2..], ["ai", "priority"]) || IsPath(path[2..], ["ai", "minimum_resource_percent"])
    || (|path| >= 6 && IsPath(path[2..4], ["strikes", "strikes"]) && path[4].Index? && PermittedStrike(path[5..]))
  }

  predicate PermittedRule(path: Path) {
    if |path| == 2 && path[0] == Name("health_recovery") then
      Named(path[1], {"base_period", "reduction_per_hd", "minimum_period"})
    else if |path| == 2 && path[0] == Name("constants") then
      Named(path[1], {"base_defense", "attribute_cap", "derived_attribute_cap", "attribute_opportunity_interval",
                      "duration_scale_numerator", "duration_scale_offset"})
    else if |path| == 4 && path[0] == Name("constants") && path[1] == Name("racial_point_grants") then
      path[2].Name? && path[3] == Name("points")
    else if |path| == 5 && path[0] == Name("classes") && path[2] == Name("point_grants") then
      path[1].Name? && path[3].Name? && path[4] == Name("points")
    else if |path| < 3 || !path[1].Name? then
      false
    else if path[0] == Name("resources") then
      IsPath(path[2..], ["recovery_period"]) || IsPath(path[2..], ["capacity", "base"])
    else if path[0] == Name("abilities") then
      PermittedAbility(path)
    else
      && Named(path[0], {"talents", "creature_types", "subtypes", "classes", "conditions", "flags"})
      && |path| == 6 && path[2] == Name("modifiers") && path[3].Index?
      && path[4] == Name("op") && Named(path[5], {"value", "amount"})
  }

  const BUILD_FIELDS := {"attributes", "binding", "species", "templates", "starting_skills", "hit_dice"}

  predicate InCreature(path: Path) {
    |path| >= 4 && path[2] == Name("creature") && Named(path[3], BUILD_FIELDS)
  }

  predicate Permitted(file: File, path: Path) {
    match file
    case Rules => PermittedRule(path)
    case Scenario =>
      || (|path| >= 4 && path[0] == Name("creatures") && Named(path[1], {"species", "templates"}))
      || (InCreature(path) && path[0] == Name("characters") && path[1].Index?)
      || (InCreature(path) && path[0] == Name("archetypes") && path[1].Name?)
      || (|path| == 3 && path[0] == Name("ai_profiles") && Named(path[2], {"memory_ticks", "flee_percent"}))
    case _ => InCreature(path) && path[0] == Name("actors") && path[1].Index?
  }

  /** Targets are in the build fields of creatures, in profiles of artificial intelligence, and in named parts of the rules:
      nothing else of a scenario, a region or the rules can be changed. */
  lemma PermittedMeans(file: File, path: Path)
    requires Permitted(file, path)
    ensures file.Scenario? ==> |path| >= 3 && Named(path[0], {"creatures", "characters", "archetypes", "ai_profiles"})
    ensures file.Scenario? && Named(path[0], {"characters", "archetypes"}) ==>
      |path| >= 4 && path[2] == Name("creature") && Named(path[3], BUILD_FIELDS)
    ensures file.Region? || file.Elsewhere? ==>
      |path| >= 4 && path[0] == Name("actors") && path[1].Index? && path[2] == Name("creature") && Named(path[3], BUILD_FIELDS)
    ensures file.Rules? ==>
      && |path| >= 2
      && Named(path[0], {"health_recovery", "constants", "classes", "resources", "abilities", "talents", "creature_types", "subtypes",
                         "conditions", "flags"})
  {
  }

  predicate KeyOk(path: Path, depth: nat)
    requires depth < |path|
  {
    match path[depth]
    case Index(i) => i <= if depth == 1 && Named(path[0], {"characters", "actors"}) then MAXIMUM_ENTITY else MAXIMUM_KEY
    case Name(s) => 0 < |s| <= 128
  }

  predicate TargetOk(target: Target) {
    && !target.file.Elsewhere?
    && 1 <= |target.path| <= 16 && (forall depth :: 0 <= depth < |target.path| ==> KeyOk(target.path, depth))
    && Permitted(target.file, target.path)
  }

  /** Targets in one file do not lead through each other. */
  predicate Compatible(a: Target, b: Target) {
    a.file == b.file ==> Apart(a.path, b.path)
  }

  predicate Clear(targets: seq<Target>) {
    forall i, j :: 0 <= i < j < |targets| ==> Compatible(targets[i], targets[j])
  }

  function TargetsOf(parameters: seq<Parameter>): seq<Target> {
    if parameters == [] then [] else parameters[0].targets + TargetsOf(parameters[1..])
  }

  predicate ParameterOk(parameter: Parameter) {
    1 <= |parameter.targets| <= 64 && forall target :: target in parameter.targets ==> TargetOk(target)
  }

  predicate ValidSpec(parameters: seq<Parameter>) {
    (forall parameter :: parameter in parameters ==> ParameterOk(parameter)) && Clear(TargetsOf(parameters))
  }

  lemma ClearAppend(targets: seq<Target>, target: Target)
    ensures Clear(targets + [target]) <==> Clear(targets) && forall t :: t in targets ==> Compatible(t, target)
  {
    var all := targets + [target];
    if Clear(all) {
      forall t | t in targets
        ensures Compatible(t, target)
      {
        var i :| 0 <= i < |targets| && targets[i] == t;
        assert Compatible(all[i], all[|targets|]);
      }
      forall i, j | 0 <= i < j < |targets|
        ensures Compatible(targets[i], targets[j])
      {
        assert Compatible(all[i], all[j]);
      }
    }
  }

  lemma ClearPrefix(targets: seq<Target>, more: seq<Target>)
    requires Clear(targets + more)
    ensures Clear(targets)
  {
    forall i, j | 0 <= i < j < |targets|
      ensures Compatible(targets[i], targets[j])
    {
      assert Compatible((targets + more)[i], (targets + more)[j]);
    }
  }

  /** `validate_spec`: the checks of a target against all targets before it. */
  method CheckTarget(target: Target, seen: seq<Target>) returns (ok: bool)
    ensures ok <==> TargetOk(target) && forall t :: t in seen ==> Compatible(t, target)
  {
    if !TargetOk(target) {
      return false;
    }
    for i := 0 to |seen|
      invariant forall t :: t in seen[..i] ==> Compatible(t, target)
    {
      var previous := seen[i];
      if target.file == previous.file && (Prefix(previous.path, target.path) || Prefix(target.path, previous.path)) {
        assert previous in seen && !Compatible(previous, target);
        return false;
      }
    }
    return true;
  }

  method CheckParameter(parameter: Parameter, seen: seq<Target>) returns (ok: bool)
    requires Clear(seen)
    ensures ok <==> ParameterOk(parameter) && Clear(seen + parameter.targets)
  {
    if !(1 <= |parameter.targets| <= 64) {
      return false;
    }
    var all := seen;
    for i := 0 to |parameter.targets|
      invariant all == seen + parameter.targets[..i] && Clear(all)
      invariant forall target :: target in parameter.targets[..i] ==> TargetOk(target)
    {
      var target := parameter.targets[i];
      var good := CheckTarget(target, all);
      ClearAppend(all, target);
      assert all + [target] == seen + parameter.targets[..i + 1];
      if !good {
        if Clear(seen + parameter.targets) {
          assert seen + parameter.targets == (all + [target]) + parameter.targets[i + 1..];
          ClearPrefix(all + [target], parameter.targets[i + 1..]);
        }
        return false;
      }
      all := all + [target];
    }
    assert parameter.targets[..|parameter.targets|] == parameter.targets;
    return true;
  }

  method ValidateSpec(parameters: seq<Parameter>) returns (ok: bool)
    ensures ok <==> ValidSpec(parameters)
  {
    var seen: seq<Target> := [];
    for i := 0 to |parameters|
      invariant seen + TargetsOf(parameters[i..]) == TargetsOf(parameters) && Clear(seen)
      invariant forall parameter :: parameter in parameters[..i] ==> ParameterOk(parameter)
    {
      var parameter := parameters[i];
      assert parameters[i..][1..] == parameters[i + 1..];
      assert TargetsOf(parameters) == (seen + parameter.targets) + TargetsOf(parameters[i + 1..]);
      var good := CheckParameter(parameter, seen);
      if !good {
        assert parameter in parameters;
        if Clear(TargetsOf(parameters)) {
          ClearPrefix(seen + parameter.targets, TargetsOf(parameters[i + 1..]));
        }
        return false;
      }
      seen := seen + parameter.targets;
    }
    return true;
  }

  // ----- What accepted targets guarantee

  /** No permitted path ends in the field that its list is searched by. */
  lemma PermittedSpares(target: Target)
    requires TargetOk(target)
    ensures SparesIdentity(target.path)
  {
    var path := target.path;
    if |path| == 3 {
      assert IdentityField(path, 1) == if path[0] == Name("resources") then "resource" else "id";
      if target.file.Rules? && path[0] == Name("abilities") {
        assert |path[2..]| == 1;
      }
    }
  }

  function AssignmentsOf(parameters: seq<Parameter>): seq<Assignment> {
    if parameters == [] then [] else Assignments(parameters[0].name, parameters[0].targets) + AssignmentsOf(parameters[1..])
  }

  function Assignments(name: string, targets: seq<Target>): seq<Assignment> {
    if targets == [] then [] else [Assignment(targets[0], name)] + Assignments(name, targets[1..])
  }

  /** A value for every parameter and nothing else. */
  predicate Complete(parameters: seq<Parameter>, values: map<string, Tree>) {
    values.Keys == set parameter | parameter in parameters :: parameter.name
  }

  function EditOf(assignment: Assignment, file: File, values: map<string, Tree>): seq<Edit> {
    if assignment.target.file == file && assignment.name in values
    then [Edit(assignment.target.path, values[assignment.name])] else []
  }

  /** The edits that assignments make to one file, in order. */
  function EditsOf(assignments: seq<Assignment>, file: File, values: map<string, Tree>): seq<Edit> {
    if assignments == [] then [] else EditOf(assignments[0], file, values) + EditsOf(assignments[1..], file, values)
  }

  lemma ApartPrepend(e: Edit, edits: seq<Edit>)
    requires AllApart(edits) && AllSpare(edits) && SparesIdentity(e.path)
    requires forall f :: f in edits ==> Apart(e.path, f.path)
    ensures AllApart([e] + edits) && AllSpare([e] + edits)
  {
    var all := [e] + edits;
    assert e !in edits by {
      assert Prefix(e.path, e.path);
    }
    forall f | f in all
      ensures multiset(all)[f] == 1
    {
      assert multiset(all) == multiset{e} + multiset(edits);
    }
  }

  function TargetsIn(assignments: seq<Assignment>): seq<Target> {
    if assignments == [] then [] else [assignments[0].target] + TargetsIn(assignments[1..])
  }

  lemma {:induction false} EditTargets(assignments: seq<Assignment>, file: File, values: map<string, Tree>, e: Edit)
    requires e in EditsOf(assignments, file, values)
    ensures Target(file, e.path) in TargetsIn(assignments)
    decreases |assignments|
  {
    if assignments != [] {
      if e in EditsOf(assignments[1..], file, values) {
        EditTargets(assignments[1..], file, values, e);
      }
    }
  }

  lemma ClearTail(target: Target, rest: seq<Target>)
    requires Clear([target] + rest)
    ensures Clear(rest) && forall t :: t in rest ==> Compatible(target, t)
  {
    var all := [target] + rest;
    forall i, j | 0 <= i < j < |rest|
      ensures Compatible(rest[i], rest[j])
    {
      assert Compatible(all[i + 1], all[j + 1]);
    }
    forall t | t in rest
      ensures Compatible(target, t)
    {
      var i :| 0 <= i < |rest| && rest[i] == t;
      assert Compatible(all[0], all[i + 1]);
    }
  }

  /** The edits that an accepted definition makes to one file neither interfere nor touch identities. */
  lemma {:induction false} ClearEdits(assignments: seq<Assignment>, file: File, values: map<string, Tree>)
    requires Clear(TargetsIn(assignments)) && forall target :: target in TargetsIn(assignments) ==> TargetOk(target)
    ensures AllApart(EditsOf(assignments, file, values)) && AllSpare(EditsOf(assignments, file, values))
    decreases |assignments|
  {
    if assignments != [] {
      var first, rest := assignments[0], assignments[1..];
      ClearTail(first.target, TargetsIn(rest));
      ClearEdits(rest, file, values);
      PermittedSpares(first.target);
      forall f | f in EditsOf(rest, file, values)
        ensures Compatible(first.target, Target(file, f.path))
      {
        EditTargets(rest, file, values, f);
      }
      if first.target.file == file && first.name in values {
        ApartPrepend(Edit(first.target.path, values[first.name]), EditsOf(rest, file, values));
      } else {
        assert EditsOf(assignments, file, values) == EditsOf(rest, file, values);
      }
    }
  }

  lemma {:induction false} AssignmentTargets(name: string, targets: seq<Target>)
    ensures TargetsIn(Assignments(name, targets)) == targets
    decreases |targets|
  {
    if targets != [] {
      AssignmentTargets(name, targets[1..]);
    }
  }

  lemma {:induction false} TargetsInConcat(a: seq<Assignment>, b: seq<Assignment>)
    ensures TargetsIn(a + b) == TargetsIn(a) + TargetsIn(b)
    decreases |a|
  {
    if a == [] {
      assert a + b == b;
    } else {
      assert (a + b)[1..] == a[1..] + b;
      TargetsInConcat(a[1..], b);
    }
  }

  lemma {:induction false} AllTargets(parameters: seq<Parameter>)
    requires forall parameter :: parameter in parameters ==> ParameterOk(parameter)
    ensures TargetsIn(AssignmentsOf(parameters)) == TargetsOf(parameters)
    ensures forall target :: target in TargetsOf(parameters) ==> TargetOk(target)
    decreases |parameters|
  {
    if parameters != [] {
      AllTargets(parameters[1..]);
      AssignmentTargets(parameters[0].name, parameters[0].targets);
      TargetsInConcat(Assignments(parameters[0].name, parameters[0].targets), AssignmentsOf(parameters[1..]));
      assert ParameterOk(parameters[0]);
    }
  }

  lemma ValidEdits(parameters: seq<Parameter>, file: File, values: map<string, Tree>)
    requires ValidSpec(parameters)
    ensures AllApart(EditsOf(AssignmentsOf(parameters), file, values))
    ensures AllSpare(EditsOf(AssignmentsOf(parameters), file, values))
  {
    AllTargets(parameters);
    ClearEdits(AssignmentsOf(parameters), file, values);
  }

  // ----- Applying parameters to a document

  /** The edited document, or `None` for an error. */
  function Applied(document: Tree, file: File, parameters: seq<Parameter>, values: map<string, Tree>): Option<Tree> {
    if ValidSpec(parameters) && Complete(parameters, values)
    then ApplyAll(document, EditsOf(AssignmentsOf(parameters), file, values))
    else None
  }

  lemma WalkEnds(t: Tree, path: Path)
    ensures forall address :: Locate(path, 0, t) == Some(address) <==> LeadsTo(path, 0, t, address)
  {
    forall address
      ensures Locate(path, 0, t) == Some(address) <==> LeadsTo(path, 0, t, address)
    {
      LocateExactly(path, 0, t, address);
    }
  }

  lemma WalkOn(goal: Option<Address>, address: Address, path: Path, depth: nat, node: Tree)
    requires depth < |path| && Child(path, depth, node).Some? && Reaches(goal, address, Locate(path, depth, node))
    ensures var step := Child(path, depth, node).value;
      Reaches(goal, address + [step], Locate(path, depth + 1, Sub(node, step)))
  {
    var step := Child(path, depth, node).value;
    var next := Locate(path, depth + 1, Sub(node, step));
    if next.Some? {
      assert address + ([step] + next.value) == address + [step] + next.value;
    }
  }

  /** The loop over the keys of a path. */
  method Walk(t: Tree, path: Path) returns (a: Option<Address>)
    ensures a == Locate(path, 0, t)
    ensures forall address :: a == Some(address) <==> LeadsTo(path, 0, t, address)
  {
    WalkEnds(t, path);
    var address: Address, node := [], t;
    ghost var goal := Locate(path, 0, t);
    assert goal.Some? ==> address + goal.value == goal.value;
    for depth := 0 to |path|
      invariant Reaches(goal, address, Locate(path, depth, node))
    {
      var child := Child(path, depth, node);
      if child.None? {
        return None;
      }
      WalkOn(goal, address, path, depth, node);
      address, node := address + [child.value], Sub(node, child.value);
    }
    assert address + [] == address;
    return Some(address);
  }

  ghost predicate Reaches(goal: Option<Address>, address: Address, rest: Option<Address>) {
    goal == if rest.None? then None else Some(address + rest.value)
  }

  lemma {:induction false} ApplyAllConcat(t: Tree, a: seq<Edit>, b: seq<Edit>)
    ensures ApplyAll(t, a + b) == ThenAll(ApplyAll(t, a), b)
    decreases |a|
  {
    if a == [] {
      assert a + b == b;
    } else {
      assert (a + b)[1..] == a[1..] + b;
      if Apply(t, a[0]).Some? {
        ApplyAllConcat(Apply(t, a[0]).value, a[1..], b);
      }
    }
  }

  lemma {:induction false} EditsOfConcat(a: seq<Assignment>, b: seq<Assignment>, file: File, values: map<string, Tree>)
    ensures EditsOf(a + b, file, values) == EditsOf(a, file, values) + EditsOf(b, file, values)
    decreases |a|
  {
    if a == [] {
      assert a + b == b;
    } else {
      assert (a + b)[1..] == a[1..] + b;
      EditsOfConcat(a[1..], b, file, values);
    }
  }

  /** The edits that are left after the first `i` targets. */
  function Left(name: string, targets: seq<Target>, i: nat, file: File, values: map<string, Tree>): seq<Edit>
    requires i <= |targets|
  {
    EditsOf(Assignments(name, targets[i..]), file, values)
  }

  lemma LeftNext(name: string, targets: seq<Target>, i: nat, file: File, values: map<string, Tree>)
    requires i < |targets|
    ensures Left(name, targets, i, file, values)
         == EditOf(Assignment(targets[i], name), file, values) + Left(name, targets, i + 1, file, values)
  {
    assert targets[i..][1..] == targets[i + 1..];
  }

  /** The targets of one parameter. */
  method ApplyParameter(document: Tree, file: File, parameter: Parameter, values: map<string, Tree>) returns (result: Option<Tree>)
    requires parameter.name in values
    ensures result == ApplyAll(document, EditsOf(Assignments(parameter.name, parameter.targets), file, values))
  {
    var name, targets := parameter.name, parameter.targets;
    var current := document;
    ghost var goal := ApplyAll(document, Left(name, targets, 0, file, values));
    assert targets[0..] == targets;
    for i := 0 to |targets|
      invariant goal == ApplyAll(current, Left(name, targets, i, file, values))
    {
      var target := targets[i];
      LeftNext(name, targets, i, file, values);
      ghost var rest := Left(name, targets, i + 1, file, values);
      if target.file != file {
        assert [] + rest == rest;
        continue;
      }
      assert ([Edit(target.path, values[name])] + rest)[1..] == rest;
      var a := Walk(current, target.path);
      if a.None? || !Replaces(Get(current, a.value).value, values[name]) {
        return None;
      }
      current := Put(current, a.value, values[name]);
    }
    return Some(current);
  }

  /** `apply_document`. */
  method ApplyDocument(document: Tree, file: File, parameters: seq<Parameter>, values: map<string, Tree>) returns (result: Option<Tree>)
    ensures result == Applied(document, file, parameters, values)
  {
    var valid := ValidateSpec(parameters);
    if !valid || !Complete(parameters, values) {
      return None;
    }
    var current := document;
    ghost var goal := ApplyAll(document, EditsOf(AssignmentsOf(parameters), file, values));
    assert parameters[0..] == parameters;
    for i := 0 to |parameters|
      invariant goal == ApplyAll(current, EditsOf(AssignmentsOf(parameters[i..]), file, values))
    {
      var parameter := parameters[i];
      NextParameter(current, file, parameters, i, values);
      var next := ApplyParameter(current, file, parameter, values);
      if next.None? {
        return None;
      }
      current := next.value;
    }
    return Some(current);
  }

  lemma NextParameter(t: Tree, file: File, parameters: seq<Parameter>, i: nat, values: map<string, Tree>)
    requires i < |parameters|
    ensures var own := Assignments(parameters[i].name, parameters[i].targets);
      ApplyAll(t, EditsOf(AssignmentsOf(parameters[i..]), file, values))
      == ThenAll(ApplyAll(t, EditsOf(own, file, values)), EditsOf(AssignmentsOf(parameters[i + 1..]), file, values))
  {
    var own, rest := Assignments(parameters[i].name, parameters[i].targets), AssignmentsOf(parameters[i + 1..]);
    assert parameters[i..][1..] == parameters[i + 1..];
    EditsOfConcat(own, rest, file, values);
    ApplyAllConcat(t, EditsOf(own, file, values), EditsOf(rest, file, values));
  }

  // ----- Properties of the whole

  lemma {:induction false} PermutedEdits(a: seq<Assignment>, b: seq<Assignment>, file: File, values: map<string, Tree>)
    requires multiset(a) == multiset(b)
    ensures multiset(EditsOf(a, file, values)) == multiset(EditsOf(b, file, values))
    decreases |a|
  {
    SameLength(a, b);
    if a != [] {
      var i := WithoutFirst(a, b);
      PermutedEdits(a[1..], b[..i] + b[i + 1..], file, values);
      MiddleEdits(b[..i], b[i], b[i + 1..], file, values);
    }
  }

  lemma MiddleEdits(x: seq<Assignment>, m: Assignment, y: seq<Assignment>, file: File, values: map<string, Tree>)
    ensures multiset(EditsOf(x + [m] + y, file, values)) == multiset(EditOf(m, file, values)) + multiset(EditsOf(x + y, file, values))
  {
    EditsOfConcat(x, y, file, values);
    EditsOfConcat(x + [m], y, file, values);
    EditsOfConcat(x, [m], file, values);
    assert EditsOf([m], file, values) == EditOf(m, file, values);
  }

  /** The order of parameters and of their targets does not matter, not even for errors. */
  lemma ParameterOrderIrrelevant(document: Tree, file: File, ps: seq<Parameter>, qs: seq<Parameter>, values: map<string, Tree>)
    requires ValidSpec(ps) && ValidSpec(qs) && Complete(ps, values) && Complete(qs, values)
    requires multiset(AssignmentsOf(ps)) == multiset(AssignmentsOf(qs))
    ensures Applied(document, file, ps, values) == Applied(document, file, qs, values)
  {
    ValidEdits(ps, file, values);
    PermutedEdits(AssignmentsOf(ps), AssignmentsOf(qs), file, values);
    OrderIrrelevant(document, EditsOf(AssignmentsOf(ps), file, values), EditsOf(AssignmentsOf(qs), file, values));
  }

  lemma {:induction false} AssignedTargets(name: string, targets: seq<Target>, a: Assignment)
    ensures a in Assignments(name, targets) <==> a.name == name && a.target in targets
    decreases |targets|
  {
    if targets != [] {
      AssignedTargets(name, targets[1..], a);
      assert targets == [targets[0]] + targets[1..];
    }
  }

  /** A parameter of the definition has this target. */
  ghost predicate IsAssigned(parameters: seq<Parameter>, a: Assignment) {
    exists parameter :: parameter in parameters && parameter.name == a.name && a.target in parameter.targets
  }

  lemma {:induction false} AssignedExactly(parameters: seq<Parameter>, a: Assignment)
    ensures a in AssignmentsOf(parameters) <==> IsAssigned(parameters, a)
    decreases |parameters|
  {
    if parameters != [] {
      AssignedTargets(parameters[0].name, parameters[0].targets, a);
      AssignedExactly(parameters[1..], a);
      assert parameters == [parameters[0]] + parameters[1..];
    }
  }

  /** The edits of a file are its targets with their parameters' values. */
  ghost predicate IsEdit(assignments: seq<Assignment>, file: File, values: map<string, Tree>, e: Edit) {
    exists a :: a in assignments && a.target == Target(file, e.path) && a.name in values && values[a.name] == e.value
  }

  lemma {:induction false} EditsExactly(assignments: seq<Assignment>, file: File, values: map<string, Tree>, e: Edit)
    ensures e in EditsOf(assignments, file, values) <==> IsEdit(assignments, file, values, e)
    decreases |assignments|
  {
    if assignments != [] {
      EditsExactly(assignments[1..], file, values, e);
      assert assignments == [assignments[0]] + assignments[1..];
    }
  }

  /** The target of some parameter in this file, with the parameter's value. */
  ghost predicate IsWanted(parameters: seq<Parameter>, file: File, values: map<string, Tree>, path: Path, value: Tree) {
    exists parameter :: parameter in parameters && Target(file, path) in parameter.targets
                        && parameter.name in values && values[parameter.name] == value
  }

  lemma WantedExactly(parameters: seq<Parameter>, file: File, values: map<string, Tree>, e: Edit)
    ensures e in EditsOf(AssignmentsOf(parameters), file, values) <==> IsWanted(parameters, file, values, e.path, e.value)
  {
    var assignments := AssignmentsOf(parameters);
    EditsExactly(assignments, file, values, e);
    if e in EditsOf(assignments, file, values) {
      var a :| a in assignments && a.target == Target(file, e.path) && a.name in values && values[a.name] == e.value;
      AssignedExactly(parameters, a);
    }
    if IsWanted(parameters, file, values, e.path, e.value) {
      var parameter :| parameter in parameters && Target(file, e.path) in parameter.targets
                       && parameter.name in values && values[parameter.name] == e.value;
      AssignedExactly(parameters, Assignment(Target(file, e.path), parameter.name));
      assert IsEdit(assignments, file, values, e);
    }
  }

  /** Two integers, two truth values or two texts. */
  predicate SameScalar(was: Tree, now: Tree) {
    match was
    case Int(_) => now.Int?
    case Bool(_) => now.Bool?
    case Text(_) => now.Text?
    case _ => false
  }

  /** The path leads to a scalar of the type of the value. */
  ghost predicate IsReplaceable(document: Tree, path: Path, value: Tree) {
    exists a :: LeadsTo(path, 0, document, a) && Get(document, a).Some? && SameScalar(Get(document, a).value, value)
  }

  lemma ReplaceableExactly(document: Tree, e: Edit)
    ensures Apply(document, e).Some? <==> IsReplaceable(document, e.path, e.value)
  {
    forall a
      ensures LeadsTo(e.path, 0, document, a) <==> Locate(e.path, 0, document) == Some(a)
    {
      LocateExactly(e.path, 0, document, a);
    }
    if Apply(document, e).Some? {
      assert LeadsTo(e.path, 0, document, Locate(e.path, 0, document).value);
    }
  }

  /** A valid definition applies exactly when each of its targets in the file leads, in the original document, to an
      existing scalar of the type of its value. */
  lemma AppliesExactly(document: Tree, file: File, parameters: seq<Parameter>, values: map<string, Tree>)
    requires ValidSpec(parameters) && Complete(parameters, values)
    ensures Applied(document, file, parameters, values).Some?
      <==> forall path, value :: IsWanted(parameters, file, values, path, value) ==> IsReplaceable(document, path, value)
  {
    var edits := EditsOf(AssignmentsOf(parameters), file, values);
    ValidEdits(parameters, file, values);
    AllSucceed(document, edits);
    forall e
      ensures e in edits <==> IsWanted(parameters, file, values, e.path, e.value)
      ensures Apply(document, e).Some? <==> IsReplaceable(document, e.path, e.value)
    {
      WantedExactly(parameters, file, values, e);
      ReplaceableExactly(document, e);
    }
    if forall path, value :: IsWanted(parameters, file, values, path, value) ==> IsReplaceable(document, path, value) {
      forall e | e in edits
        ensures Apply(document, e).Some?
      {
        assert IsWanted(parameters, file, values, e.path, e.value);
      }
    } else {
      var path, value :| IsWanted(parameters, file, values, path, value) && !IsReplaceable(document, path, value);
      assert Edit(path, value) in edits && !Apply(document, Edit(path, value)).Some?;
    }
  }

  /** Every path leads where it led. */
  ghost predicate SamePaths(result: Tree, document: Tree) {
    forall p, a :: LeadsTo(p, 0, result, a) <==> LeadsTo(p, 0, document, a)
  }

  /** No target leads here. */
  ghost predicate IsUntouched(document: Tree, file: File, parameters: seq<Parameter>, values: map<string, Tree>, a: Address) {
    forall path, value :: IsWanted(parameters, file, values, path, value) ==> !LeadsTo(path, 0, document, a)
  }

  /** The result holds every value at its target, finds every path where it was, and is otherwise the same document. */
  lemma AppliedDocument(document: Tree, file: File, parameters: seq<Parameter>, values: map<string, Tree>)
    requires Applied(document, file, parameters, values).Some?
    ensures var result := Applied(document, file, parameters, values).value;
      && SamePaths(result, document)
      && (forall path, value, a :: IsWanted(parameters, file, values, path, value) && LeadsTo(path, 0, document, a) ==>
            Get(result, a) == Some(value))
      && (forall a :: IsUntouched(document, file, parameters, values, a) ==>
            && (Get(result, a).Some? <==> Get(document, a).Some?)
            && (Get(document, a).Some? ==> Get(result, a) == Get(document, a) || SameForm(Get(result, a).value, Get(document, a).value)))
  {
    var result, edits := Applied(document, file, parameters, values).value, EditsOf(AssignmentsOf(parameters), file, values);
    ValidEdits(parameters, file, values);
    PathsStay(document, edits);
    forall path, value, a | IsWanted(parameters, file, values, path, value) && LeadsTo(path, 0, document, a)
      ensures Get(result, a) == Some(value)
    {
      WantedExactly(parameters, file, values, Edit(path, value));
      TargetsHold(document, edits, Edit(path, value));
      LocateExactly(path, 0, document, a);
    }
    forall a | IsUntouched(document, file, parameters, values, a)
      ensures Get(result, a).Some? <==> Get(document, a).Some?
      ensures Get(document, a).Some? ==> Get(result, a) == Get(document, a) || SameForm(Get(result, a).value, Get(document, a).value)
    {
      UntouchedExactly(document, file, parameters, values, a);
      RestKept(document, edits, a);
    }
  }

  lemma PathsStay(document: Tree, edits: seq<Edit>)
    requires AllApart(edits) && AllSpare(edits) && ApplyAll(document, edits).Some?
    ensures SamePaths(ApplyAll(document, edits).value, document)
  {
    var result := ApplyAll(document, edits).value;
    forall p, a
      ensures LeadsTo(p, 0, result, a) <==> LeadsTo(p, 0, document, a)
    {
      PathsKept(document, edits, p);
      LocateExactly(p, 0, result, a);
      LocateExactly(p, 0, document, a);
    }
  }

  lemma UntouchedExactly(document: Tree, file: File, parameters: seq<Parameter>, values: map<string, Tree>, a: Address)
    requires IsUntouched(document, file, parameters, values, a)
    ensures forall e :: e in EditsOf(AssignmentsOf(parameters), file, values) ==> Locate(e.path, 0, document) != Some(a)
  {
    forall e | e in EditsOf(AssignmentsOf(parameters), file, values)
      ensures Locate(e.path, 0, document) != Some(a)
    {
      WantedExactly(parameters, file, values, e);
      LocateExactly(e.path, 0, document, a);
    }
  }
}
