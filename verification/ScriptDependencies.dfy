/** Which scripts depend on a changed one (`_callers` and `_dependents` of scripts/ci_test_contracts.py).
    Edges come from imports and from reviewed runtime uses. A literal that names a script without a review is a
    reference; when one touches what a change affects, the dependents are unknown. */
module ScriptDependencies {
  import opened Options

  type Name = string

  /** A parsed script: the modules it imports and the scripts that its string literals name. */
  datatype Script = Script(name: Name, imports: seq<Name>, literals: seq<Name>)

  /** A reviewed dependency that no import shows. */
  datatype Launch = Launch(script: Name, callers: seq<Name>)

  datatype Sources = Sources(files: seq<Script>, runtime: seq<Launch>)

  /** Callers by script; a script that is not a key has none. */
  type Graph = map<Name, set<Name>>

  function CallersOf(reverse: Graph, name: Name): set<Name> {
    if name in reverse then reverse[name] else {}
  }

  predicate IsFile(src: Sources, name: Name) {
    exists i :: 0 <= i < |src.files| && src.files[i].name == name
  }

  predicate Imports(files: seq<Script>, dependency: Name, caller: Name) {
    exists i :: 0 <= i < |files| && files[i].name == caller && dependency in files[i].imports
  }

  predicate Runs(runtime: seq<Launch>, dependency: Name, caller: Name) {
    exists i :: 0 <= i < |runtime| && runtime[i].script == dependency && caller in runtime[i].callers
  }

  /** A known dependency between two scripts: an import or a reviewed runtime edge. */
  predicate Edge(src: Sources, dependency: Name, caller: Name) {
    IsFile(src, dependency) && (Imports(src.files, dependency, caller) || (Runs(src.runtime, dependency, caller) && IsFile(src, caller)))
  }

  /** A literal in one script that names another. */
  predicate Refers(src: Sources, dependency: Name, caller: Name) {
    IsFile(src, dependency) && dependency != caller
    && exists i :: 0 <= i < |src.files| && src.files[i].name == caller && dependency in src.files[i].literals
  }

  // ----- Transitive dependents

  /** A chain of callers from `name` to `caller`. */
  predicate IsChain(reverse: Graph, name: Name, caller: Name, chain: seq<Name>) {
    && chain != [] && chain[0] == name && chain[|chain| - 1] == caller
    && forall i :: 0 < i < |chain| ==> chain[i] in CallersOf(reverse, chain[i - 1])
  }

  ghost predicate Depends(reverse: Graph, name: Name, caller: Name) {
    exists chain :: IsChain(reverse, name, caller, chain)
  }

  predicate Closed(reverse: Graph, found: set<Name>) {
    forall name :: name in found ==> CallersOf(reverse, name) <= found
  }

  lemma {:induction false} ChainStays(reverse: Graph, found: set<Name>, chain: seq<Name>, i: nat)
    requires Closed(reverse, found) && i < |chain| && chain[0] in found
    requires forall j :: 0 < j < |chain| ==> chain[j] in CallersOf(reverse, chain[j - 1])
    ensures chain[i] in found
    decreases i
  {
    if i > 0 {
      ChainStays(reverse, found, chain, i - 1);
    }
  }

  lemma ChainExtends(reverse: Graph, name: Name, caller: Name, next: Name)
    requires Depends(reverse, name, caller) && next in CallersOf(reverse, caller)
    ensures Depends(reverse, name, next)
  {
    var chain :| IsChain(reverse, name, caller, chain);
    assert IsChain(reverse, name, next, chain + [next]);
  }

  function AllCallers(reverse: Graph): set<Name> {
    set name, caller | name in reverse && caller in reverse[name] :: caller
  }

  /** The state of the search: every found script that is not pending has all its callers found. */
  ghost predicate Searching(name: Name, reverse: Graph, found: set<Name>, pending: seq<Name>) {
    && name in found && found <= {name} + AllCallers(reverse) && (forall p :: p in pending ==> p in found)
    && (forall p :: p in found && p !in pending ==> CallersOf(reverse, p) <= found)
    && (forall caller :: caller in found ==> Depends(reverse, name, caller))
  }

  /** `_dependents`: exactly the scripts that a chain of callers leads to, which is the least closed set with the script. */
  method Dependents(name: Name, reverse: Graph) returns (found: set<Name>)
    ensures forall caller :: caller in found <==> Depends(reverse, name, caller)
    ensures name in found && Closed(reverse, found)
    ensures forall other :: name in other && Closed(reverse, other) ==> found <= other
  {
    found := {name};
    var pending := [name];
    SearchStarts(name, reverse);
    while pending != []
      invariant Searching(name, reverse, found, pending)
      decreases |{name} + AllCallers(reverse) - found|, |pending|
    {
      var last := pending[|pending| - 1];
      var callers := CallersOf(reverse, last) - found;
      var more := Listed(callers);
      Searched(name, reverse, found, pending, callers, more);
      found := found + callers;
      pending := pending[..|pending| - 1] + more;
    }
    SearchDone(name, reverse, found, pending);
  }

  lemma SearchDone(name: Name, reverse: Graph, found: set<Name>, pending: seq<Name>)
    requires Searching(name, reverse, found, pending) && pending == []
    ensures forall caller :: caller in found <==> Depends(reverse, name, caller)
    ensures name in found && Closed(reverse, found)
    ensures forall other :: name in other && Closed(reverse, other) ==> found <= other
  {
    LeastClosed(reverse, name, found);
  }

  lemma SearchStarts(name: Name, reverse: Graph)
    ensures Searching(name, reverse, {name}, [name])
  {
    assert IsChain(reverse, name, name, [name]);
  }

  lemma Searched(name: Name, reverse: Graph, found: set<Name>, pending: seq<Name>, callers: set<Name>, more: seq<Name>)
    requires Searching(name, reverse, found, pending) && pending != []
    requires callers == CallersOf(reverse, pending[|pending| - 1]) - found
    requires (forall p :: p in more <==> p in callers) && (callers == {} ==> more == [])
    ensures Searching(name, reverse, found + callers, pending[..|pending| - 1] + more)
    ensures var all := {name} + AllCallers(reverse);
      callers != {} ==> |all - (found + callers)| < |all - found|
  {
    var last, front := pending[|pending| - 1], pending[..|pending| - 1];
    assert pending == front + [last];
    assert last in found;
    forall caller | caller in callers
      ensures Depends(reverse, name, caller) && caller in AllCallers(reverse)
    {
      ChainExtends(reverse, name, last, caller);
    }
    StillSearching(reverse, found, pending, callers, more);
    if callers != {} {
      FewerLeft({name} + AllCallers(reverse), found, callers);
    }
  }

  lemma StillSearching(reverse: Graph, found: set<Name>, pending: seq<Name>, callers: set<Name>, more: seq<Name>)
    requires pending != [] && callers == CallersOf(reverse, pending[|pending| - 1]) - found
    requires forall p :: p in more <==> p in callers
    requires forall p :: p in found && p !in pending ==> CallersOf(reverse, p) <= found
    ensures var rest := pending[..|pending| - 1] + more;
      forall p :: p in found + callers && p !in rest ==> CallersOf(reverse, p) <= found + callers
  {
    var last, front := pending[|pending| - 1], pending[..|pending| - 1];
    assert pending == front + [last];
    assert forall p :: p in pending <==> p in front || p == last;
  }

  lemma FewerLeft(all: set<Name>, found: set<Name>, callers: set<Name>)
    requires callers != {} && callers <= all && callers !! found
    ensures |all - (found + callers)| < |all - found|
  {
    var one :| one in callers;
    Smaller(all - (found + callers), all - found, one);
  }

  lemma Smaller(a: set<Name>, b: set<Name>, x: Name)
    requires a <= b && x in b && x !in a
    ensures |a| < |b|
  {
    assert b == a + (b - a);
    assert |b| == |a| + |b - a|;
    assert x in b - a;
  }

  method Listed(names: set<Name>) returns (list: seq<Name>)
    ensures forall name :: name in list <==> name in names
    ensures names == {} ==> list == []
  {
    list := [];
    var rest := names;
    while rest != {}
      invariant rest <= names && forall name :: name in list <==> name in names - rest
      invariant names == {} ==> list == []
      decreases rest
    {
      var name :| name in rest;
      rest := rest - {name};
      list := list + [name];
    }
  }

  lemma LeastClosed(reverse: Graph, name: Name, found: set<Name>)
    requires name in found && Closed(reverse, found)
    requires forall caller :: caller in found ==> Depends(reverse, name, caller)
    ensures forall caller :: Depends(reverse, name, caller) ==> caller in found
    ensures forall other :: name in other && Closed(reverse, other) ==> found <= other
  {
    forall caller, other: set<Name> | Depends(reverse, name, caller) && name in other && Closed(reverse, other)
      ensures caller in other
    {
      var chain :| IsChain(reverse, name, caller, chain);
      ChainStays(reverse, other, chain, |chain| - 1);
    }
  }

  // ----- The graph of callers

  /** The graph holds exactly the known dependencies. */
  ghost predicate IsReverse(src: Sources, reverse: Graph) {
    forall dependency, caller {:trigger caller in CallersOf(reverse, dependency)} :: caller in CallersOf(reverse, dependency) <==> Edge(src, dependency, caller)
  }

  function WithCaller(reverse: Graph, dependency: Name, caller: Name): Graph {
    reverse[dependency := CallersOf(reverse, dependency) + {caller}]
  }

  lemma WithCallerIs(reverse: Graph, dependency: Name, caller: Name)
    ensures forall d, c {:trigger c in CallersOf(WithCaller(reverse, dependency, caller), d)} ::
              c in CallersOf(WithCaller(reverse, dependency, caller), d) <==> c in CallersOf(reverse, d) || (d == dependency && c == caller)
  {
  }

  function Names(files: seq<Script>): set<Name> {
    set i | 0 <= i < |files| :: files[i].name
  }

  /** Edges to `caller` for the imports of one script. */
  method AddImports(names: set<Name>, reverse: Graph, script: Script) returns (result: Graph)
    ensures forall d, c {:trigger c in CallersOf(result, d)} :: c in CallersOf(result, d) <==>
              c in CallersOf(reverse, d) || (c == script.name && d in script.imports && d in names)
  {
    result := reverse;
    for i := 0 to |script.imports|
      invariant forall d, c {:trigger c in CallersOf(result, d)} :: c in CallersOf(result, d) <==>
        c in CallersOf(reverse, d) || (c == script.name && d in script.imports[..i] && d in names)
    {
      var dependency := script.imports[i];
      assert script.imports[..i + 1] == script.imports[..i] + [dependency];
      if dependency in names {
        WithCallerIs(result, dependency, script.name);
        result := WithCaller(result, dependency, script.name);
      }
    }
    assert script.imports[..|script.imports|] == script.imports;
  }

  method AddRuntime(names: set<Name>, reverse: Graph, launch: Launch) returns (result: Graph)
    ensures forall d, c {:trigger c in CallersOf(result, d)} :: c in CallersOf(result, d) <==>
              c in CallersOf(reverse, d) || (d == launch.script && d in names && c in launch.callers && c in names)
  {
    result := reverse;
    if launch.script !in names {
      return;
    }
    for i := 0 to |launch.callers|
      invariant forall d, c {:trigger c in CallersOf(result, d)} :: c in CallersOf(result, d) <==>
        c in CallersOf(reverse, d) || (d == launch.script && c in launch.callers[..i] && c in names)
    {
      var caller := launch.callers[i];
      assert launch.callers[..i + 1] == launch.callers[..i] + [caller];
      if caller in names {
        WithCallerIs(result, launch.script, caller);
        result := WithCaller(result, launch.script, caller);
      }
    }
    assert launch.callers[..|launch.callers|] == launch.callers;
  }

  method ReverseGraph(src: Sources) returns (reverse: Graph)
    ensures IsReverse(src, reverse)
  {
    reverse := map[];
    var names := Names(src.files);
    for i := 0 to |src.files|
      invariant forall d, c {:trigger c in CallersOf(reverse, d)} :: c in CallersOf(reverse, d) <==> d in names && Imports(src.files[..i], d, c)
    {
      reverse := AddImports(names, reverse, src.files[i]);
      forall d, c
        ensures Imports(src.files[..i + 1], d, c)
           <==> Imports(src.files[..i], d, c) || (c == src.files[i].name && d in src.files[i].imports)
      {
        MoreImports(src.files, i, d, c);
      }
    }
    assert src.files[..|src.files|] == src.files;
    for i := 0 to |src.runtime|
      invariant forall d, c {:trigger c in CallersOf(reverse, d)} :: c in CallersOf(reverse, d) <==>
        d in names && (Imports(src.files, d, c) || (Runs(src.runtime[..i], d, c) && c in names))
    {
      reverse := AddRuntime(names, reverse, src.runtime[i]);
      forall d, c
        ensures Runs(src.runtime[..i + 1], d, c)
           <==> Runs(src.runtime[..i], d, c) || (d == src.runtime[i].script && c in src.runtime[i].callers)
      {
        MoreRuns(src.runtime, i, d, c);
      }
    }
    assert src.runtime[..|src.runtime|] == src.runtime;
  }

  lemma MoreImports(files: seq<Script>, i: nat, d: Name, c: Name)
    requires i < |files|
    ensures Imports(files[..i + 1], d, c) <==> Imports(files[..i], d, c) || (c == files[i].name && d in files[i].imports)
  {
    if Imports(files[..i], d, c) {
      var j :| 0 <= j < i && files[..i][j].name == c && d in files[..i][j].imports;
      assert files[..i + 1][j] == files[..i][j];
    }
    assert files[..i + 1][i] == files[i];
  }

  lemma MoreRuns(runtime: seq<Launch>, i: nat, d: Name, c: Name)
    requires i < |runtime|
    ensures Runs(runtime[..i + 1], d, c) <==> Runs(runtime[..i], d, c) || (d == runtime[i].script && c in runtime[i].callers)
  {
    if Runs(runtime[..i], d, c) {
      var j :| 0 <= j < i && runtime[..i][j].script == d && c in runtime[..i][j].callers;
      assert runtime[..i + 1][j] == runtime[..i][j];
    }
    assert runtime[..i + 1][i] == runtime[i];
  }

  // ----- Unreviewed references

  predicate IsKnownChain(src: Sources, name: Name, caller: Name, chain: seq<Name>) {
    && chain != [] && chain[0] == name && chain[|chain| - 1] == caller
    && forall i :: 0 < i < |chain| ==> Edge(src, chain[i - 1], chain[i])
  }

  /** `caller` depends on `name` through imports and reviewed runtime edges. */
  ghost predicate DependsOn(src: Sources, name: Name, caller: Name) {
    exists chain :: IsKnownChain(src, name, caller, chain)
  }

  lemma SameChains(src: Sources, reverse: Graph, name: Name, caller: Name)
    requires IsReverse(src, reverse)
    ensures Depends(reverse, name, caller) <==> DependsOn(src, name, caller)
  {
    forall chain
      ensures IsChain(reverse, name, caller, chain) <==> IsKnownChain(src, name, caller, chain)
    {
    }
    if Depends(reverse, name, caller) {
      var chain :| IsChain(reverse, name, caller, chain);
      assert IsKnownChain(src, name, caller, chain);
    }
  }

  /** A literal reference without a known dependency touches what a changed script affects. */
  ghost predicate Blocked(src: Sources, changed: seq<Name>) {
    exists m, dependency, caller ::
      && m in changed && Refers(src, dependency, caller) && !Edge(src, dependency, caller)
      && (DependsOn(src, m, dependency) || DependsOn(src, m, caller))
  }

  method LiteralsOf(names: set<Name>, script: Script) returns (references: set<(Name, Name)>)
    ensures forall d, c :: (d, c) in references <==> c == script.name && d in script.literals && d in names && d != c
  {
    references := {};
    for i := 0 to |script.literals|
      invariant forall d, c :: (d, c) in references <==> c == script.name && d in script.literals[..i] && d in names && d != c
    {
      assert script.literals[..i + 1] == script.literals[..i] + [script.literals[i]];
      if script.literals[i] in names && script.literals[i] != script.name {
        references := references + {(script.literals[i], script.name)};
      }
    }
    assert script.literals[..|script.literals|] == script.literals;
  }

  method References(src: Sources) returns (references: set<(Name, Name)>)
    ensures forall d, c :: (d, c) in references <==> Refers(src, d, c)
  {
    references := {};
    var names := Names(src.files);
    for i := 0 to |src.files|
      invariant forall d, c :: (d, c) in references <==>
        d in names && d != c && exists j :: 0 <= j < i && src.files[j].name == c && d in src.files[j].literals
    {
      var more := LiteralsOf(names, src.files[i]);
      references := references + more;
    }
  }

  method Affected(changed: seq<Name>, reverse: Graph) returns (affected: set<Name>)
    ensures forall name :: name in affected <==> exists m :: m in changed && Depends(reverse, m, name)
  {
    affected := {};
    for i := 0 to |changed|
      invariant forall name :: name in affected <==> exists m :: m in changed[..i] && Depends(reverse, m, name)
    {
      var found := Dependents(changed[i], reverse);
      assert changed[..i + 1] == changed[..i] + [changed[i]];
      affected := affected + found;
    }
    assert changed[..|changed|] == changed;
  }

  /** `_callers`: the graph of known dependencies, or an error for an unreviewed reference near a changed script. */
  method Callers(src: Sources, changed: seq<Name>) returns (reverse: Option<Graph>)
    ensures reverse.Some? <==> !Blocked(src, changed)
    ensures reverse.Some? ==> IsReverse(src, reverse.value)
  {
    var graph := ReverseGraph(src);
    var references := References(src);
    var affected := Affected(changed, graph);
    var blocking := set r | r in references && r.1 !in CallersOf(graph, r.0) && (r.0 in affected || r.1 in affected);
    forall m, name
      ensures Depends(graph, m, name) <==> DependsOn(src, m, name)
    {
      SameChains(src, graph, m, name);
    }
    BlockedExactly(src, changed, graph, references, affected, blocking);
    return if blocking == {} then Some(graph) else None;
  }

  lemma BlockedExactly(src: Sources, changed: seq<Name>, graph: Graph, references: set<(Name, Name)>, affected: set<Name>,
                       blocking: set<(Name, Name)>)
    requires IsReverse(src, graph) && forall d, c :: (d, c) in references <==> Refers(src, d, c)
    requires forall name :: name in affected <==> exists m :: m in changed && DependsOn(src, m, name)
    requires forall r :: r in blocking <==> r in references && r.1 !in CallersOf(graph, r.0) && (r.0 in affected || r.1 in affected)
    ensures blocking != {} <==> Blocked(src, changed)
  {
    if Blocked(src, changed) {
      var m, d, c :| m in changed && Refers(src, d, c) && !Edge(src, d, c) && (DependsOn(src, m, d) || DependsOn(src, m, c));
      assert (d, c) in blocking;
    }
    if blocking != {} {
      var r :| r in blocking;
      assert Refers(src, r.0, r.1) && !Edge(src, r.0, r.1);
      var m :| m in changed && (DependsOn(src, m, r.0) || DependsOn(src, m, r.1));
    }
  }

  predicate IsAnyChain(src: Sources, chain: seq<Name>) {
    chain != [] && forall i :: 0 < i < |chain| ==> Edge(src, chain[i - 1], chain[i]) || Refers(src, chain[i - 1], chain[i])
  }

  /** Without an unreviewed reference, following literals as well as known edges leads to nothing new. */
  lemma {:induction false} ReferencesCovered(src: Sources, changed: seq<Name>, chain: seq<Name>)
    requires IsAnyChain(src, chain) && chain[0] in changed && !Blocked(src, changed)
    ensures DependsOn(src, chain[0], chain[|chain| - 1])
    decreases |chain|
  {
    var last := |chain| - 1;
    if last == 0 {
      assert IsKnownChain(src, chain[0], chain[0], chain);
    } else {
      ReferencesCovered(src, changed, chain[..last]);
      assert Edge(src, chain[last - 1], chain[last]);
      var known :| IsKnownChain(src, chain[0], chain[last - 1], known);
      assert IsKnownChain(src, chain[0], chain[last], known + [chain[last]]);
    }
  }
}
