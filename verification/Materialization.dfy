/** Building the candidate packages of a search trial, by processes that may be killed before any lasting step. */
module Materialization {
  // These are `materialize` and `restore_package` in scripts/arena_search_parameters.py, with the preparation of
  // scripts/arena_search.py that calls them. `life` says how many lasting steps a process still has.

  import opened Options

  type Content = string
  type Files = map<string, Content>
  type Hashes = map<string, string>

  /** The unchanging inputs. `names` lists the files of each source package, `rules` is the resolved rules.toml of a
      package with shared sources, `edited` are the files with parameter targets, `edit` applies the parameters to one of
      them, and `validate` is what the compiler has against a package. */
  datatype Env = Env(source: nat -> Files, names: nat -> seq<string>, rules: nat -> Option<Content>,
                     edited: seq<string>, edit: (string, Content) -> Option<Content>,
                     digest: Content -> string, validate: Files -> Option<string>)

  /** Two baseline packages, then two candidate packages. */
  const PACKAGES := 4
  const RULES := "rules.toml"

  datatype Package = Package(resolved: Hashes, failure: Option<string>)
  datatype Checkpoint = Checkpoint(header: string, packages: seq<Package>)
  datatype Result = Result(header: string, packages: seq<Package>)

  datatype Outcome = Done(result: Result) | Killed | Refused | EditFailed(package: nat) | Changed(package: nat)

  /** One process: the inputs it finds, when it is killed, and at which packages it notices that a source, the shared
      rules or the compiler changed meanwhile (`PACKAGES` for the check before publishing). */
  datatype Process = Process(header: string, life: nat, changed: set<nat>)

  /** What the output directory holds between two processes. */
  datatype Disk = Disk(present: bool, checkpoint: Option<Checkpoint>, packages: map<nat, Files>, candidate: Option<Result>,
                       plan: Option<string>)

  predicate IsCandidate(i: nat) {
    i >= 2
  }

  ghost predicate ValidEnv(env: Env) {
    && (forall i, name :: name in env.names(i) <==> name in env.source(i))
    && (forall i :: env.rules(i).Some? ==> RULES in env.source(i))
    && IsListed(env)
  }

  // ----- What a finished package holds

  function HashesOf(env: Env, files: Files): Hashes {
    map name | name in files :: env.digest(files[name])
  }

  function Resolved(env: Env, i: nat): Files {
    if env.rules(i).Some? then env.source(i)[RULES := env.rules(i).value] else env.source(i)
  }

  /** The first `n` edited files have their parameters applied; `None` for an error. */
  function Edited(env: Env, files: Files, n: nat): Option<Files>
    requires n <= |env.edited|
  {
    if n == 0 then Some(files)
    else
      match Edited(env, files, n - 1)
      case None => None
      case Some(before) =>
        var name := env.edited[n - 1];
        if name !in before || env.edit(name, before[name]).None? then None
        else Some(before[name := env.edit(name, before[name]).value])
  }

  function Built(env: Env, i: nat): Option<Files> {
    if IsCandidate(i) then Edited(env, Resolved(env, i), |env.edited|) else Some(Resolved(env, i))
  }

  function PackageOf(env: Env, i: nat): Package
    requires Built(env, i).Some?
  {
    Package(HashesOf(env, Built(env, i).value), env.validate(Built(env, i).value))
  }

  predicate AllBuilt(env: Env) {
    forall i :: 0 <= i < PACKAGES ==> Built(env, i).Some?
  }

  predicate IsValid(result: Result) {
    forall i :: 0 <= i < |result.packages| ==> result.packages[i].failure.None?
  }

  /** The result of an undisturbed run. */
  function ResultOf(env: Env, header: string): Result
    requires AllBuilt(env)
  {
    Result(header, [PackageOf(env, 0), PackageOf(env, 1), PackageOf(env, 2), PackageOf(env, 3)])
  }

  lemma {:induction false} EditedKeys(env: Env, files: Files, n: nat)
    requires n <= |env.edited|
    ensures Edited(env, files, n).Some? ==> Edited(env, files, n).value.Keys == files.Keys
    decreases n
  {
    if n > 0 {
      EditedKeys(env, files, n - 1);
    }
  }

  /** A package has the files of its source. */
  lemma BuiltKeys(env: Env, i: nat)
    requires ValidEnv(env) && Built(env, i).Some?
    ensures Built(env, i).value.Keys == env.source(i).Keys
  {
    assert Resolved(env, i).Keys == env.source(i).Keys;
    EditedKeys(env, Resolved(env, i), |env.edited|);
  }

  lemma {:induction false} EditedFails(env: Env, files: Files, n: nat, m: nat)
    requires n <= m <= |env.edited| && Edited(env, files, n).None?
    ensures Edited(env, files, m).None?
    decreases m
  {
    if n < m {
      EditedFails(env, files, n, m - 1);
    }
  }

  // ----- Which packages the parameters change

  /** What a file of a source is before parameters: its content or, for shared rules, what they resolve to. */
  function Plain(env: Env, i: nat, name: string): Option<Content> {
    if name !in env.source(i) then None
    else if name == RULES && env.rules(i).Some? then env.rules(i)
    else Some(env.source(i)[name])
  }

  /** The first two packages are the baseline: no parameter touches them. In the others exactly the edited files change,
      each to what the parameters make of it. */
  ghost predicate IsPackage(env: Env, i: nat, files: Files) {
    && files.Keys == env.source(i).Keys
    && (if i < 2 then forall name :: name in files ==> Plain(env, i, name) == Some(files[name])
        else
          && (forall name :: name in env.edited ==> name in files && env.edit(name, Plain(env, i, name).value) == Some(files[name]))
          && (forall name :: name in files && name !in env.edited ==> Plain(env, i, name) == Some(files[name])))
  }

  /** The first `n` edited files hold what the parameters make of them, all others are as before. */
  ghost predicate IsEditedTo(env: Env, base: Files, n: nat, files: Files)
    requires n <= |env.edited|
  {
    && files.Keys == base.Keys
    && (forall k :: 0 <= k < n ==> IsChanged(env, base, env.edited[k], files))
    && (forall name :: name in files && name !in env.edited[..n] ==> base[name] == files[name])
  }

  ghost predicate IsChanged(env: Env, base: Files, name: string, files: Files) {
    name in base && name in files && env.edit(name, base[name]) == Some(files[name])
  }

  ghost predicate IsListed(env: Env) {
    forall j, k :: 0 <= j < k < |env.edited| ==> env.edited[j] != env.edited[k]
  }

  lemma {:induction false} EditedHolds(env: Env, base: Files, n: nat, files: Files)
    requires IsListed(env) && n <= |env.edited| && Edited(env, base, n) == Some(files)
    ensures IsEditedTo(env, base, n, files)
    decreases n
  {
    if n > 0 {
      var before := Edited(env, base, n - 1).value;
      EditedHolds(env, base, n - 1, before);
      HoldsNext(env, base, n, before);
    }
  }

  lemma HoldsNext(env: Env, base: Files, n: nat, before: Files)
    requires IsListed(env) && 0 < n <= |env.edited| && IsEditedTo(env, base, n - 1, before)
    ensures var name := env.edited[n - 1];
      name in before && env.edit(name, before[name]).Some? ==>
        IsEditedTo(env, base, n, before[name := env.edit(name, before[name]).value])
  {
    var name := env.edited[n - 1];
    assert name !in env.edited[..n - 1] && env.edited[..n] == env.edited[..n - 1] + [name];
    if name in before && env.edit(name, before[name]).Some? {
      var files := before[name := env.edit(name, before[name]).value];
      forall k | 0 <= k < n
        ensures IsChanged(env, base, env.edited[k], files)
      {
        if k < n - 1 {
          assert IsChanged(env, base, env.edited[k], before);
        }
      }
    }
  }

  lemma {:induction false} HeldIsEdited(env: Env, base: Files, n: nat, files: Files)
    requires IsListed(env) && n <= |env.edited| && IsEditedTo(env, base, n, files)
    ensures Edited(env, base, n) == Some(files)
    decreases n
  {
    if n == 0 {
      assert files == base;
    } else {
      var name := env.edited[n - 1];
      HeldBefore(env, base, n, files);
      HeldIsEdited(env, base, n - 1, files[name := base[name]]);
      EditedStep(env, base, n, files, name);
    }
  }

  lemma EditedStep(env: Env, base: Files, n: nat, files: Files, name: string)
    requires 0 < n <= |env.edited| && name == env.edited[n - 1] && IsChanged(env, base, name, files)
    requires Edited(env, base, n - 1) == Some(files[name := base[name]])
    ensures Edited(env, base, n) == Some(files)
  {
    assert files == files[name := base[name]][name := files[name]];
  }

  lemma HeldBefore(env: Env, base: Files, n: nat, files: Files)
    requires IsListed(env) && 0 < n <= |env.edited| && IsEditedTo(env, base, n, files)
    ensures var name := env.edited[n - 1];
      IsChanged(env, base, name, files) && IsEditedTo(env, base, n - 1, files[name := base[name]])
  {
    var name := env.edited[n - 1];
    assert IsChanged(env, base, name, files);
    var before := files[name := base[name]];
    assert env.edited[..n] == env.edited[..n - 1] + [name];
    forall k | 0 <= k < n - 1
      ensures IsChanged(env, base, env.edited[k], before)
    {
      assert IsChanged(env, base, env.edited[k], files);
    }
  }

  lemma PlainIs(env: Env, i: nat)
    requires ValidEnv(env)
    ensures Resolved(env, i).Keys == env.source(i).Keys
    ensures forall name :: name in env.source(i) ==> Plain(env, i, name) == Some(Resolved(env, i)[name])
  {
  }

  /** The packages are what the source's names, the resolved rules and the parameters say. */
  lemma BuiltExactly(env: Env, i: nat, files: Files)
    requires ValidEnv(env)
    ensures Built(env, i) == Some(files) <==> IsPackage(env, i, files)
  {
    PlainIs(env, i);
    if i < 2 {
      SamePlain(env, i, files);
    } else {
      PackageIsEdited(env, i, files);
      if Built(env, i) == Some(files) {
        EditedHolds(env, Resolved(env, i), |env.edited|, files);
      }
      if IsPackage(env, i, files) {
        HeldIsEdited(env, Resolved(env, i), |env.edited|, files);
      }
    }
  }

  lemma SamePlain(env: Env, i: nat, files: Files)
    requires ValidEnv(env) && i < 2
    ensures files == Resolved(env, i) <==> IsPackage(env, i, files)
  {
    PlainIs(env, i);
  }

  lemma PackageIsEdited(env: Env, i: nat, files: Files)
    requires ValidEnv(env) && i >= 2
    ensures IsEditedTo(env, Resolved(env, i), |env.edited|, files) <==> IsPackage(env, i, files)
  {
    PlainIs(env, i);
    assert env.edited[..|env.edited|] == env.edited;
    if IsEditedTo(env, Resolved(env, i), |env.edited|, files) {
      forall name | name in env.edited
        ensures name in files && env.edit(name, Plain(env, i, name).value) == Some(files[name])
      {
        var k :| 0 <= k < |env.edited| && env.edited[k] == name;
        assert IsChanged(env, Resolved(env, i), env.edited[k], files);
      }
    }
    if IsPackage(env, i, files) {
      forall k | 0 <= k < |env.edited|
        ensures IsChanged(env, Resolved(env, i), env.edited[k], files)
      {
        assert env.edited[k] in env.edited;
      }
    }
  }

  /** What a candidate file says of one package. */
  ghost predicate IsReported(env: Env, i: nat, package: Package) {
    exists files :: IsPackage(env, i, files) && package == Package(map name | name in files :: env.digest(files[name]), env.validate(files))
  }

  ghost predicate IsResult(env: Env, header: string, result: Result) {
    result.header == header && |result.packages| == 4 && forall i :: 0 <= i < 4 ==> IsReported(env, i, result.packages[i])
  }

  lemma ReportedExactly(env: Env, i: nat, package: Package)
    requires ValidEnv(env)
    ensures IsReported(env, i, package) <==> Built(env, i).Some? && package == PackageOf(env, i)
  {
    if Built(env, i).Some? {
      BuiltExactly(env, i, Built(env, i).value);
    }
    if IsReported(env, i, package) {
      var files :| IsPackage(env, i, files) && package == Package(map name | name in files :: env.digest(files[name]), env.validate(files));
      BuiltExactly(env, i, files);
    }
  }

  /** The result of an undisturbed run, and that there is one, in terms of sources, rules and parameters. */
  lemma ResultExactly(env: Env, header: string, result: Result)
    requires ValidEnv(env)
    ensures IsResult(env, header, result) <==> AllBuilt(env) && result == ResultOf(env, header)
  {
    if IsResult(env, header, result) {
      ReportedAll(env, result.packages);
      assert result.packages == [PackageOf(env, 0), PackageOf(env, 1), PackageOf(env, 2), PackageOf(env, 3)];
    }
    if AllBuilt(env) && result == ResultOf(env, header) {
      BuiltAll(env, header);
    }
  }

  lemma ReportedAll(env: Env, packages: seq<Package>)
    requires ValidEnv(env) && |packages| == 4 && forall i :: 0 <= i < 4 ==> IsReported(env, i, packages[i])
    ensures AllBuilt(env) && forall i :: 0 <= i < 4 ==> packages[i] == PackageOf(env, i)
  {
    forall i | 0 <= i < 4
      ensures Built(env, i).Some? && packages[i] == PackageOf(env, i)
    {
      ReportedExactly(env, i, packages[i]);
    }
  }

  lemma BuiltAll(env: Env, header: string)
    requires ValidEnv(env) && AllBuilt(env)
    ensures forall i :: 0 <= i < 4 ==> IsReported(env, i, ResultOf(env, header).packages[i])
  {
    forall i | 0 <= i < 4
      ensures IsReported(env, i, PackageOf(env, i))
    {
      ReportedExactly(env, i, PackageOf(env, i));
    }
  }

  lemma ValidPackages(result: Result)
    requires |result.packages| == 4
    ensures IsValid(result) <==>
      && result.packages[0].failure.None? && result.packages[1].failure.None?
      && result.packages[2].failure.None? && result.packages[3].failure.None?
  {
  }

  /** Parameters leave the baseline alone: settings that differ in nothing else have equal baseline packages. */
  lemma BaselineUnaffected(env: Env, other: Env, header: string, result: Result, result': Result)
    requires IsResult(env, header, result) && IsResult(other, header, result')
    requires other == env.(edited := other.edited, edit := other.edit)
    ensures result.packages[0] == result'.packages[0] && result.packages[1] == result'.packages[1]
  {
    forall i | 0 <= i < 2
      ensures result.packages[i] == result'.packages[i]
    {
      assert IsReported(env, i, result.packages[i]) && IsReported(other, i, result'.packages[i]);
      var files :| IsPackage(env, i, files) && result.packages[i] == Package(map name | name in files :: env.digest(files[name]), env.validate(files));
      var files' :| IsPackage(other, i, files') && result'.packages[i] == Package(map name | name in files' :: env.digest(files'[name]), env.validate(files'));
      SamePackage(env, other, i, files, files');
    }
  }

  lemma SamePackage(env: Env, other: Env, i: nat, files: Files, files': Files)
    requires i < 2 && IsPackage(env, i, files) && IsPackage(other, i, files')
    requires other == env.(edited := other.edited, edit := other.edit)
    ensures files == files'
  {
    forall name | name in files
      ensures files[name] == files'[name]
    {
      assert Plain(env, i, name) == Plain(other, i, name);
    }
  }

  // ----- Steps

  function PackageSteps(env: Env, i: nat): nat {
    |env.names(i)| + |env.edited| + 2
  }

  /** The lasting steps from package `i` on. */
  function StepsFrom(env: Env, i: nat): nat
    decreases PACKAGES - i
  {
    if i >= PACKAGES then 2 else PackageSteps(env, i) + StepsFrom(env, i + 1)
  }

  /** The first `done` packages are finished, and of the next one there may be some files. */
  ghost predicate IsPartial(env: Env, header: string, checkpoint: Checkpoint, packages: map<nat, Files>, done: nat) {
    && checkpoint.header == header && done == |checkpoint.packages| <= PACKAGES
    && (forall i :: 0 <= i < done ==>
          && Built(env, i).Some? && checkpoint.packages[i] == PackageOf(env, i)
          && i in packages && packages[i] == Built(env, i).value)
    && (forall i :: i in packages ==> i <= done && i < PACKAGES && packages[i].Keys <= env.source(i).Keys)
  }

  /** Work on the next package. */
  lemma StillPartial(env: Env, header: string, checkpoint: Checkpoint, packages: map<nat, Files>, done: nat, files: Files)
    requires IsPartial(env, header, checkpoint, packages, done) && done < PACKAGES && files.Keys <= env.source(done).Keys
    ensures IsPartial(env, header, checkpoint, packages[done := files], done)
  {
  }

  lemma OneMore(env: Env, header: string, checkpoint: Checkpoint, packages: map<nat, Files>, done: nat)
    requires ValidEnv(env) && IsPartial(env, header, checkpoint, packages, done) && done < PACKAGES
    requires done in packages && Built(env, done) == Some(packages[done])
    ensures IsPartial(env, header, checkpoint.(packages := checkpoint.packages + [PackageOf(env, done)]), packages, done + 1)
  {
    BuiltKeys(env, done);
  }

  /** What the directory can hold between two processes, however many were killed. */
  ghost predicate HoldsOutput(env: Env, header: string, disk: Disk, done: nat) {
    if disk.checkpoint.None? then done == 0 && disk.packages == map[] && disk.candidate.None? && disk.plan.None?
    else
      && disk.present && IsPartial(env, header, disk.checkpoint.value, disk.packages, done)
      && (disk.candidate.Some? ==> done == PACKAGES && AllBuilt(env) && disk.candidate == Some(ResultOf(env, header)))
      && (disk.plan.Some? ==> disk.candidate.Some? && IsValid(disk.candidate.value) && disk.plan == Some(header))
  }

  /** How many packages a directory has finished. */
  function Finished(disk: Disk): nat {
    if disk.checkpoint.None? then 0 else |disk.checkpoint.value.packages|
  }

  /** The directory of a finished preparation. */
  ghost predicate IsPrepared(env: Env, header: string, disk: Disk) {
    && AllBuilt(env) && HoldsOutput(env, header, disk, PACKAGES) && disk.checkpoint.Some?
    && disk.candidate == Some(ResultOf(env, header))
    && disk.plan == if IsValid(ResultOf(env, header)) then Some(header) else None
  }

  // ----- Restoring files

  /** `restore_package`: it refuses a target with other files than the source; else it ends with the source's files,
      and at every moment the target has no other names than the source. */
  method RestoreFiles(source: Files, names: seq<string>, found: Option<Files>, life: nat)
    returns (stop: Option<Outcome>, left: nat, target: Files)
    requires forall name :: name in names <==> name in source
    ensures stop.None? || stop == Some(Killed) || stop == Some(Refused)
    ensures stop == Some(Refused) <==> found.Some? && !(found.value.Keys <= source.Keys)
    ensures stop == Some(Refused) ==> target == found.value
    ensures stop.None? ==> target == source && left + |names| == life
    ensures stop == Some(Killed) ==> life < |names| && target.Keys <= source.Keys
  {
    target, left := if found.Some? then found.value else map[], life;
    if !(target.Keys <= source.Keys) {
      return Some(Refused), left, target;
    }
    for k := 0 to |names|
      invariant left + k == life && target.Keys <= source.Keys
      invariant forall name :: name in names[..k] ==> name in target && target[name] == source[name]
    {
      if left == 0 {
        return Some(Killed), left, target;
      }
      left := left - 1;
      var name := names[k];
      assert name in names;
      target := target[name := source[name]];
    }
    assert names[..|names|] == names;
    assert target == source;
    return None, left, target;
  }

  /** Some files of some packages. */
  ghost predicate IsRestoring(source: nat -> Files, found: map<nat, Files>) {
    forall i :: i in found ==> i < PACKAGES && found[i].Keys <= source(i).Keys
  }

  ghost predicate IsRestored(source: nat -> Files, found: map<nat, Files>, n: nat) {
    forall i :: 0 <= i < n ==> i in found && found[i] == source(i)
  }

  function RestoreSteps(names: nat -> seq<string>, i: nat): nat
    decreases PACKAGES - i
  {
    if i >= PACKAGES then 0 else |names(i)| + RestoreSteps(names, i + 1)
  }

  /** Restore one package after the other from whatever a killed process left of them. */
  method RestoreAll(source: nat -> Files, names: nat -> seq<string>, found: map<nat, Files>, life: nat)
    returns (stop: Option<Outcome>, left: nat, targets: map<nat, Files>)
    requires IsRestoring(source, found) && forall i, name :: 0 <= i < PACKAGES ==> (name in names(i) <==> name in source(i))
    ensures IsRestoring(source, targets) && found.Keys <= targets.Keys
    ensures match stop
      case None => IsRestored(source, targets, PACKAGES) && left + RestoreSteps(names, 0) >= life
      case Some(reason) => reason == Killed && life < RestoreSteps(names, 0)
  {
    left, targets := life, found;
    for i := 0 to PACKAGES
      invariant IsRestoring(source, targets) && IsRestored(source, targets, i) && found.Keys <= targets.Keys
      invariant left + RestoreSteps(names, 0) >= life + RestoreSteps(names, i)
    {
      var target;
      stop, left, target := RestoreFiles(source(i), names(i), if i in targets then Some(targets[i]) else None, left);
      targets := targets[i := target];
      if stop.Some? {
        return;
      }
    }
    stop := None;
  }

  class Output {
    var present: bool
    var checkpoint: Option<Checkpoint>
    var packages: map<nat, Files>
    var candidate: Option<Result>
    var plan: Option<string>

    constructor ()
      ensures !present && checkpoint.None? && packages == map[] && candidate.None? && plan.None?
    {
      present, checkpoint, packages, candidate, plan := false, None, map[], None, None;
    }

    /** A directory that other processes left behind. */
    constructor Open(disk: Disk)
      ensures Contents() == disk
    {
      present, checkpoint, packages, candidate, plan := disk.present, disk.checkpoint, disk.packages, disk.candidate, disk.plan;
    }

    function Contents(): Disk
      reads this
    {
      Disk(present, checkpoint, packages, candidate, plan)
    }

    ghost predicate InProgress(env: Env, header: string, done: nat)
      reads this
    {
      present && checkpoint.Some? && IsPartial(env, header, checkpoint.value, packages, done)
    }

    ghost predicate Holds(env: Env, header: string, done: nat)
      reads this
    {
      HoldsOutput(env, header, Contents(), done)
    }

    method RestorePackage(env: Env, i: nat, life: nat) returns (stop: Option<Outcome>, left: nat)
      requires ValidEnv(env)
      modifies this`packages
      ensures stop.None? || stop == Some(Killed) || stop == Some(Refused)
      ensures stop == Some(Refused) <==> i in old(packages) && !(old(packages)[i].Keys <= env.source(i).Keys)
      ensures stop == Some(Refused) ==> packages == old(packages)
      ensures stop.None? ==> packages == old(packages)[i := env.source(i)] && left + |env.names(i)| == life
      ensures stop == Some(Killed) ==> life < |env.names(i)|
      ensures stop == Some(Killed) ==> i in packages && packages[i].Keys <= env.source(i).Keys && packages == old(packages)[i := packages[i]]
    {
      var target;
      stop, left, target := RestoreFiles(env.source(i), env.names(i), if i in packages then Some(packages[i]) else None, life);
      packages := packages[i := target];
      assert stop == Some(Refused) ==> packages == old(packages);
    }

    method WriteRules(env: Env, i: nat, life: nat) returns (stop: Option<Outcome>, left: nat)
      requires ValidEnv(env) && i in packages && packages[i] == env.source(i)
      modifies this`packages
      ensures i in packages && packages[i].Keys == env.source(i).Keys && packages == old(packages)[i := packages[i]]
      ensures stop.None? ==> packages[i] == Resolved(env, i) && left + 1 >= life
      ensures stop.Some? ==> stop == Some(Killed) && life == 0
    {
      if env.rules(i).None? {
        assert packages == packages[i := packages[i]];
        return None, life;
      }
      if life == 0 {
        assert packages == packages[i := packages[i]];
        return Some(Killed), life;
      }
      packages := packages[i := Resolved(env, i)];
      assert packages[i].Keys == env.source(i).Keys;
      return None, life - 1;
    }

    /** Apply the parameters to one file after the other. */
    method EditFiles(env: Env, i: nat, life: nat) returns (stop: Option<Outcome>, left: nat)
      requires i in packages && packages[i] == Resolved(env, i)
      modifies this`packages
      ensures i in packages && packages[i].Keys == Resolved(env, i).Keys && packages == old(packages)[i := packages[i]]
      ensures match stop
        case None => Edited(env, Resolved(env, i), |env.edited|) == Some(packages[i]) && left + |env.edited| >= life
        case Some(Killed) => life < |env.edited|
        case Some(reason) => reason == EditFailed(i) && Edited(env, Resolved(env, i), |env.edited|).None?
    {
      left := life;
      assert packages == packages[i := packages[i]];
      for k := 0 to |env.edited|
        invariant i in packages && packages == old(packages)[i := packages[i]] && left + k >= life
        invariant Edited(env, Resolved(env, i), k) == Some(packages[i])
      {
        var name := env.edited[k];
        EditedKeys(env, Resolved(env, i), k);
        if name !in packages[i] || env.edit(name, packages[i][name]).None? {
          EditedFails(env, Resolved(env, i), k + 1, |env.edited|);
          return Some(EditFailed(i)), left;
        }
        if left == 0 {
          return Some(Killed), left;
        }
        left := left - 1;
        packages := packages[i := packages[i][name := env.edit(name, packages[i][name]).value]];
      }
      EditedKeys(env, Resolved(env, i), |env.edited|);
      return None, left;
    }

    /** Turn the restored source into the finished package. */
    method EditPackage(env: Env, i: nat, life: nat) returns (stop: Option<Outcome>, left: nat)
      requires ValidEnv(env) && i in packages && packages[i] == env.source(i)
      modifies this`packages
      ensures i in packages && packages[i].Keys <= env.source(i).Keys && packages == old(packages)[i := packages[i]]
      ensures match stop
        case None => Built(env, i) == Some(packages[i]) && IsPackage(env, i, packages[i]) && left + |env.edited| + 1 >= life
        case Some(Killed) => life < |env.edited| + 1
        case Some(reason) => reason == EditFailed(i) && Built(env, i).None?
    {
      stop, left := WriteRules(env, i, life);
      if stop.Some? {
        return;
      }
      if IsCandidate(i) {
        ghost var written := packages;
        stop, left := EditFiles(env, i, left);
        assert written[i := packages[i]] == old(packages)[i := packages[i]];
      }
      BuiltExactly(env, i, packages[i]);
    }

    /** The files of one unfinished package. */
    method FillPackage(env: Env, i: nat, life: nat) returns (stop: Option<Outcome>, left: nat)
      requires ValidEnv(env) && (i in packages ==> packages[i].Keys <= env.source(i).Keys)
      modifies this`packages
      ensures i in packages && packages[i].Keys <= env.source(i).Keys && packages == old(packages)[i := packages[i]]
      ensures match stop
        case None => Built(env, i) == Some(packages[i]) && left + PackageSteps(env, i) >= life + 1
        case Some(Killed) => life + 1 < PackageSteps(env, i)
        case Some(reason) => reason == EditFailed(i) && Built(env, i).None?
    {
      stop, left := RestorePackage(env, i, life);
      if stop.Some? {
        return;
      }
      ghost var restored := packages;
      stop, left := EditPackage(env, i, left);
      assert restored[i := packages[i]] == old(packages)[i := packages[i]];
    }

    /** One unfinished package, up to its checkpoint. A change that is noticed meanwhile leaves it unfinished. */
    method BuildPackage(env: Env, ghost header: string, i: nat, changed: bool, life: nat) returns (stop: Option<Outcome>, left: nat)
      requires ValidEnv(env) && i < PACKAGES && InProgress(env, header, i)
      modifies this`packages, this`checkpoint
      ensures stop.None? ==> !changed
      ensures match stop
        case None => InProgress(env, header, i + 1) && left + PackageSteps(env, i) >= life
        case Some(Killed) => InProgress(env, header, i) && life < PackageSteps(env, i)
        case Some(Changed(k)) => InProgress(env, header, i) && k == i && changed
        case Some(reason) => InProgress(env, header, i) && reason == EditFailed(i) && Built(env, i).None?
    {
      ghost var before := packages;
      stop, left := FillPackage(env, i, life);
      StillPartial(env, header, checkpoint.value, before, i, packages[i]);
      if stop.Some? {
        return;
      }
      if changed {
        return Some(Changed(i)), left;
      }
      if left == 0 {
        return Some(Killed), left;
      }
      left := left - 1;
      OneMore(env, header, checkpoint.value, packages, i);
      var package := Package(HashesOf(env, packages[i]), env.validate(packages[i]));
      checkpoint := Some(checkpoint.value.(packages := checkpoint.value.packages + [package]));
    }

    /** The checks of a resumed run. */
    method CheckResume(env: Env, header: string) returns (ok: bool)
      requires checkpoint.Some?
      ensures ok <==>
        && checkpoint.value.header == header && |checkpoint.value.packages| <= PACKAGES
        && forall i :: 0 <= i < |checkpoint.value.packages| ==>
             i in packages && HashesOf(env, packages[i]) == checkpoint.value.packages[i].resolved
    {
      if checkpoint.value.header != header || |checkpoint.value.packages| > PACKAGES {
        return false;
      }
      for i := 0 to |checkpoint.value.packages|
        invariant forall j :: 0 <= j < i ==> j in packages && HashesOf(env, packages[j]) == checkpoint.value.packages[j].resolved
      {
        if i !in packages || HashesOf(env, packages[i]) != checkpoint.value.packages[i].resolved {
          return false;
        }
      }
      return true;
    }

    /** `publish_consistent` for the result and, exactly for a valid candidate, its plan. */
    method Publish(env: Env, header: string, changed: bool, life: nat) returns (outcome: Outcome, left: nat)
      requires Holds(env, header, PACKAGES) && checkpoint.Some?
      modifies this`candidate, this`plan
      ensures AllBuilt(env) && Holds(env, header, PACKAGES)
      ensures match outcome
        case Done(result) => result == ResultOf(env, header) && IsPrepared(env, header, Contents()) && left + 2 >= life && !changed
        case Changed(k) => k == PACKAGES && changed && unchanged(this)
        case reason => reason.Killed? && life < 2
      ensures old(IsPrepared(env, header, Contents())) ==> unchanged(this)
    {
      left := life;
      if changed {
        return Changed(PACKAGES), left;
      }
      assert AllBuilt(env);
      var result := Result(header, checkpoint.value.packages);
      assert result == ResultOf(env, header);
      if candidate.None? {
        if left == 0 {
          return Killed, left;
        }
        left := left - 1;
        candidate := Some(result);
      }
      if IsValid(result) {
        if plan.None? {
          if left == 0 {
            return Killed, left;
          }
          left := left - 1;
          plan := Some(header);
        }
      }
      return Done(result), left;
    }

    /** Create the directory with its first checkpoint, or check what is resumed. */
    method Begin(env: Env, ghost header: string, current: string, life: nat, ghost done: nat) returns (stop: Option<Outcome>, left: nat)
      requires ValidEnv(env) && Holds(env, header, done) && (checkpoint.None? ==> current == header)
      modifies this`present, this`checkpoint
      ensures Holds(env, header, done) && (old(checkpoint).Some? ==> checkpoint.Some? && unchanged(this))
      ensures match stop
        case None => checkpoint.Some? && left + 2 >= life && current == header
        case Some(Killed) => life < 2 && current == header
        case Some(reason) => reason == Refused && current != header && unchanged(this)
    {
      left := life;
      if checkpoint.Some? {
        var ok := CheckResume(env, current);
        return if ok then None else Some(Refused), left;
      }
      if left == 0 {
        return Some(Killed), left;
      }
      present := true;
      if left == 1 {
        return Some(Killed), left;
      }
      checkpoint := Some(Checkpoint(current, []));
      return None, left - 2;
    }

    /** The loop over the packages. */
    method BuildAll(env: Env, header: string, changed: set<nat>, life: nat, ghost done: nat)
      returns (stop: Option<Outcome>, left: nat, ghost now: nat)
      requires ValidEnv(env) && Holds(env, header, done) && checkpoint.Some?
      modifies this`packages, this`checkpoint
      ensures Holds(env, header, now) && checkpoint.Some? && done <= now
      ensures match stop
        case None => now == PACKAGES && left + StepsFrom(env, done) >= life + 2
        case Some(Killed) => life < StepsFrom(env, done)
        case Some(Changed(k)) => k in changed
        case Some(reason) => reason.EditFailed? && reason.package < PACKAGES && Built(env, reason.package).None?
    {
      left, now := life, done;
      ghost var all := StepsFrom(env, done);
      while |checkpoint.value.packages| < PACKAGES
        invariant checkpoint.Some? && now == |checkpoint.value.packages| && done <= now && Holds(env, header, now)
        invariant left + all >= life + StepsFrom(env, now)
        decreases PACKAGES - |checkpoint.value.packages|
      {
        stop, left := BuildNext(env, header, changed, left, now, all, life);
        if stop.Some? {
          return;
        }
        now := now + 1;
      }
      stop := None;
    }

    /** One package, counted from the start of the loop. */
    method BuildNext(env: Env, ghost header: string, changed: set<nat>, life: nat, ghost done: nat, ghost all: nat, ghost start: nat)
      returns (stop: Option<Outcome>, left: nat)
      requires ValidEnv(env) && Holds(env, header, done) && checkpoint.Some? && done == |checkpoint.value.packages| < PACKAGES
      requires life + all >= start + StepsFrom(env, done)
      modifies this`packages, this`checkpoint
      ensures checkpoint.Some? && |checkpoint.value.packages| == done + if stop.None? then 1 else 0
      ensures Holds(env, header, |checkpoint.value.packages|)
      ensures match stop
        case None => left + all >= start + StepsFrom(env, done + 1)
        case Some(Killed) => start < all
        case Some(Changed(k)) => k in changed
        case Some(reason) => reason.EditFailed? && reason.package < PACKAGES && Built(env, reason.package).None?
    {
      var i := |checkpoint.value.packages|;
      assert StepsFrom(env, i) >= PackageSteps(env, i);
      stop, left := BuildPackage(env, header, i, i in changed, life);
    }

    /** A trial's preparation and `materialize`, from whatever killed processes left: it refuses exactly other inputs,
        and then touches nothing; else it keeps finished packages and ends with the result of an undisturbed run. */
    method Materialize(env: Env, ghost header: string, process: Process, ghost done: nat)
      returns (outcome: Outcome, left: nat, ghost now: nat)
      requires ValidEnv(env) && Holds(env, header, done) && (checkpoint.None? ==> process.header == header)
      modifies this
      ensures Holds(env, header, now) && done <= now && (old(checkpoint).Some? ==> checkpoint.Some?)
      ensures outcome.Refused? <==> process.header != header
      ensures match outcome
        case Done(result) =>
          && AllBuilt(env) && result == ResultOf(env, header) && IsPrepared(env, header, Contents())
          && IsResult(env, header, result) && candidate == Some(result)
          && (plan == Some(header) <==> forall package :: package in result.packages ==> package.failure.None?)
          && left + 2 + StepsFrom(env, done) >= process.life
        case Killed => process.life < 2 + StepsFrom(env, done)
        case EditFailed(i) => i < PACKAGES && Built(env, i).None?
        case Changed(i) => i in process.changed
        case Refused => unchanged(this)
      ensures old(IsPrepared(env, header, Contents())) ==> unchanged(this)
    {
      outcome, left, now := MaterializeAll(env, header, process, done);
      if outcome.Done? {
        ResultExactly(env, header, outcome.result);
        PlanExactly(outcome.result);
      }
    }

    lemma PlanExactly(result: Result)
      ensures IsValid(result) <==> forall package :: package in result.packages ==> package.failure.None?
    {
    }

    method MaterializeAll(env: Env, ghost header: string, process: Process, ghost done: nat)
      returns (outcome: Outcome, left: nat, ghost now: nat)
      requires ValidEnv(env) && Holds(env, header, done) && (checkpoint.None? ==> process.header == header)
      modifies this
      ensures Holds(env, header, now) && done <= now && (old(checkpoint).Some? ==> checkpoint.Some?)
      ensures outcome.Refused? <==> process.header != header
      ensures match outcome
        case Done(result) =>
          && AllBuilt(env) && result == ResultOf(env, header) && IsPrepared(env, header, Contents())
          && left + 2 + StepsFrom(env, done) >= process.life
        case Killed => process.life < 2 + StepsFrom(env, done)
        case EditFailed(i) => i < PACKAGES && Built(env, i).None?
        case Changed(i) => i in process.changed
        case Refused => unchanged(this)
      ensures old(IsPrepared(env, header, Contents())) ==> unchanged(this)
    {
      now := done;
      var stop;
      stop, left := Begin(env, header, process.header, process.life, done);
      if stop.Some? {
        return stop.value, left, now;
      }
      if |checkpoint.value.packages| < PACKAGES {
        stop, left, now := BuildAll(env, process.header, process.changed, left, done);
        if stop.Some? {
          return stop.value, left, now;
        }
      }
      outcome, left := Publish(env, process.header, PACKAGES in process.changed, left);
    }

    /** Any number of processes, each killed after its own number of steps. */
    method Operate(env: Env, header: string, processes: seq<Process>, ghost done: nat) returns (outcomes: seq<Outcome>, ghost now: nat)
      requires ValidEnv(env) && Holds(env, header, done)
      requires checkpoint.None? ==> forall k :: 0 <= k < |processes| ==> processes[k].header == header
      modifies this
      ensures |outcomes| == |processes| && Holds(env, header, now) && done <= now
      ensures forall k :: 0 <= k < |outcomes| ==> Explained(env, header, processes[k], outcomes[k])
    {
      outcomes, now := [], done;
      for k := 0 to |processes|
        invariant |outcomes| == k && Holds(env, header, now) && done <= now
        invariant checkpoint.None? ==> forall j :: k <= j < |processes| ==> processes[j].header == header
        invariant forall j :: 0 <= j < k ==> Explained(env, header, processes[j], outcomes[j])
      {
        var outcome;
        outcome, now := Attempt(env, header, processes[k], now);
        outcomes := outcomes + [outcome];
      }
    }

    method Attempt(env: Env, ghost header: string, process: Process, ghost done: nat) returns (outcome: Outcome, ghost now: nat)
      requires ValidEnv(env) && Holds(env, header, done) && (checkpoint.None? ==> process.header == header)
      modifies this
      ensures Holds(env, header, now) && done <= now && Explained(env, header, process, outcome)
      ensures old(checkpoint).Some? ==> checkpoint.Some?
    {
      StepsShrink(env, done);
      ghost var left;
      outcome, left, now := Materialize(env, header, process, done);
    }
  }

  /** A process that is not killed has the result of an undisturbed run, or meets parameters that do not apply, or other
      inputs than the directory was begun with, or a change; it is not killed when it may take all the steps there are. */
  ghost predicate Explained(env: Env, header: string, process: Process, outcome: Outcome) {
    match outcome
    case Done(result) => AllBuilt(env) && result == ResultOf(env, header)
    case Killed => process.life < 2 + StepsFrom(env, 0)
    case EditFailed(i) => i < PACKAGES && Built(env, i).None?
    case Changed(i) => i in process.changed
    case Refused => process.header != header
  }

  lemma StepsShrink(env: Env, i: nat)
    ensures StepsFrom(env, i) <= StepsFrom(env, 0)
  {
    assert StepsFrom(env, 3) <= StepsFrom(env, 2) <= StepsFrom(env, 1) <= StepsFrom(env, 0);
  }
}
