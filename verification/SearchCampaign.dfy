/** A search campaign (`run_campaign` in scripts/arena_search.py), by processes that may be killed at any point. */
module SearchCampaign {
  // It restores its inputs, trains along the trajectory of a deterministic proposer, screens the finalists, accepts the
  // winner and exports it for review. Every lasting step of every trial, of its preparation, its unstarted batch and its
  // batch, can be the last one of a process.

  import opened CampaignRanking
  import opened Options
  import opened SearchTrial
  import Materialization

  /** The published inputs, the proposal after a history, the setting of the trials, and what trials in it come to. */
  datatype Env = Env(header: string, candidates: nat, threshold: real, propose: seq<Record> -> string,
                     trial: SearchTrial.Env, findings: Findings)

  ghost predicate ValidCampaign(env: Env) {
    ValidEnv(env.trial) && AreFindings(env.trial, env.findings)
  }

  datatype Report =
    | Insufficient(trials: nat)
    | Infeasible(finalists: seq<nat>, screening: seq<Evidence>)
    | Judged(finalists: seq<nat>, screening: seq<Evidence>, winner: nat, acceptance: Evidence, accepted: bool)

  /** The artifacts that are published once and never change. */
  datatype Name = Ready | Plan | TrialResult(stage: Stage, ordinal: nat) | ReviewPlan | Review | FinalReport
  datatype Value =
    | Text(text: string) | Trial(evidence: Evidence) | Reported(report: Report)
    | Exported(winner: nat, acceptance: Evidence, files: seq<Materialization.Hashes>)

  datatype Outcome = Done(report: Report) | Stopped(reason: Stop)

  // ----- The undisturbed campaign

  /** The first `n` training records. */
  ghost function Trajectory(env: Env, n: nat): Option<seq<Record>> {
    if n == 0 then Some([])
    else
      match Trajectory(env, n - 1)
      case None => None
      case Some(before) =>
        match env.findings.evidence(Training, n - 1, env.propose(before))
        case None => None
        case Some(evidence) => Some(before + [evidence.record])
  }

  /** The parameters of a trial: in training what is proposed after the trials before it, else those it was trained with. */
  ghost function ParamsAt(env: Env, stage: Stage, ordinal: nat): Option<string> {
    if stage == Training then
      if ordinal < env.candidates && Trajectory(env, ordinal).Some? then Some(env.propose(Trajectory(env, ordinal).value)) else None
    else
      match Trajectory(env, env.candidates)
      case None => None
      case Some(records) => if ordinal < |records| then Some(records[ordinal].params) else None
  }

  ghost predicate OnTrajectory(env: Env, history: seq<Record>) {
    |history| <= env.candidates && Trajectory(env, |history|) == Some(history)
  }

  ghost predicate AreScreened(env: Env, records: seq<Record>, finalists: seq<nat>, screening: seq<Evidence>) {
    && AreTrials(records, finalists) && |screening| == |finalists|
    && forall k :: 0 <= k < |screening| ==>
         env.findings.evidence(Screening, finalists[k], records[finalists[k]].params) == Some(screening[k])
  }

  predicate Outranks(a: Evidence, b: Evidence) {
    a.record.value > b.record.value || (a.record.value == b.record.value && a.ordinal < b.ordinal)
  }

  /** The best feasible screening result, the earlier trial among equals. */
  predicate IsWinner(screening: seq<Evidence>, k: nat) {
    && k < |screening| && Feasible(screening[k].record)
    && forall j :: 0 <= j < |screening| && j != k && Feasible(screening[j].record) ==> Outranks(screening[k], screening[j])
  }

  /** The report that the training records lead to. */
  ghost predicate IsReport(env: Env, records: seq<Record>, report: Report) {
    match report
    case Insufficient(trials) => trials == |records| && forall other :: !AreFinalists(records, other)
    case Infeasible(finalists, screening) =>
      && AreFinalists(records, finalists) && AreScreened(env, records, finalists, screening)
      && forall k :: 0 <= k < |screening| ==> !Feasible(screening[k].record)
    case Judged(finalists, screening, winner, acceptance, accepted) =>
      && AreFinalists(records, finalists) && AreScreened(env, records, finalists, screening)
      && (exists k: nat :: IsWinner(screening, k) && screening[k].ordinal == winner)
      && winner < |records| && env.findings.evidence(Acceptance, winner, records[winner].params) == Some(acceptance)
      && (accepted <==> Feasible(acceptance.record) && acceptance.record.value >= env.threshold)
  }

  /** The report names this winner with this acceptance. */
  ghost predicate IsChosen(env: Env, winner: nat, acceptance: Evidence) {
    && Trajectory(env, env.candidates).Some?
    && exists report :: IsReport(env, Trajectory(env, env.candidates).value, report) && report.Judged?
                        && report.winner == winner && report.acceptance == acceptance
  }

  /** The plan and the file digests of the winner's packages. */
  ghost function ChosenExport(env: Env, winner: nat): Option<(string, seq<Materialization.Hashes>)> {
    match ParamsAt(env, Acceptance, winner)
    case None => None
    case Some(params) => env.findings.exported(params)
  }

  /** What each artifact has to be. */
  ghost predicate Correct(env: Env, name: Name, value: Value) {
    match name
    case Ready => value == Text(env.header)
    case Plan => value == Text(env.header)
    case TrialResult(stage, ordinal) =>
      && ParamsAt(env, stage, ordinal).Some?
      && var evidence := env.findings.evidence(stage, ordinal, ParamsAt(env, stage, ordinal).value);
         evidence.Some? && value == Trial(evidence.value)
    case ReviewPlan =>
      exists winner, acceptance :: IsChosen(env, winner, acceptance)
        && ChosenExport(env, winner).Some? && value == Text(ChosenExport(env, winner).value.0)
    case Review =>
      && value.Exported? && IsChosen(env, value.winner, value.acceptance)
      && ChosenExport(env, value.winner).Some? && value.files == ChosenExport(env, value.winner).value.1
    case FinalReport =>
      Trajectory(env, env.candidates).Some? && value.Reported? && IsReport(env, Trajectory(env, env.candidates).value, value.report)
  }

  lemma OneWinner(screening: seq<Evidence>, j: nat, k: nat)
    requires IsWinner(screening, j) && IsWinner(screening, k)
    ensures j == k
  {
  }

  lemma SameScreening(env: Env, records: seq<Record>, finalists: seq<nat>, a: seq<Evidence>, b: seq<Evidence>)
    requires AreScreened(env, records, finalists, a) && AreScreened(env, records, finalists, b)
    ensures a == b
  {
    forall k | 0 <= k < |a|
      ensures a[k] == b[k]
    {
      assert Some(a[k]) == Some(b[k]);
    }
  }

  /** Training records lead to one report. */
  lemma OneReport(env: Env, records: seq<Record>, a: Report, b: Report)
    requires IsReport(env, records, a) && IsReport(env, records, b)
    ensures a == b
  {
    if !a.Insufficient? && !b.Insufficient? {
      FinalistsUnique(records, a.finalists, b.finalists);
      SameScreening(env, records, a.finalists, a.screening, b.screening);
      if a.Judged? {
        var j: nat :| IsWinner(a.screening, j) && a.screening[j].ordinal == a.winner;
        if b.Judged? {
          var k: nat :| IsWinner(b.screening, k) && b.screening[k].ordinal == b.winner;
          OneWinner(a.screening, j, k);
        }
      }
    }
  }

  lemma OneChoice(env: Env, winner: nat, acceptance: Evidence, winner': nat, acceptance': Evidence)
    requires IsChosen(env, winner, acceptance) && IsChosen(env, winner', acceptance')
    ensures winner == winner' && acceptance == acceptance'
  {
    var records := Trajectory(env, env.candidates).value;
    var r :| IsReport(env, records, r) && r.Judged? && r.winner == winner && r.acceptance == acceptance;
    var s :| IsReport(env, records, s) && s.Judged? && s.winner == winner' && s.acceptance == acceptance';
    OneReport(env, records, r, s);
  }

  /** An artifact has one correct value. */
  lemma OneValue(env: Env, name: Name, a: Value, b: Value)
    requires Correct(env, name, a) && Correct(env, name, b)
    ensures a == b
  {
    match name
    case ReviewPlan =>
      var w, e :| IsChosen(env, w, e) && ChosenExport(env, w).Some? && a == Text(ChosenExport(env, w).value.0);
      var w', e' :| IsChosen(env, w', e') && ChosenExport(env, w').Some? && b == Text(ChosenExport(env, w').value.0);
      OneChoice(env, w, e, w', e');
    case Review =>
      OneChoice(env, a.winner, a.acceptance, b.winner, b.acceptance);
    case FinalReport =>
      OneReport(env, Trajectory(env, env.candidates).value, a.report, b.report);
    case _ =>
  }

  lemma {:induction false} TrajectoryPrefix(env: Env, n: nat, m: nat)
    requires m <= n && Trajectory(env, n).Some?
    ensures |Trajectory(env, n).value| == n && Trajectory(env, m) == Some(Trajectory(env, n).value[..m])
    decreases n
  {
    if m < n {
      TrajectoryPrefix(env, n - 1, m);
      assert Trajectory(env, n).value[..m] == Trajectory(env, n - 1).value[..m];
    } else if n > 0 {
      TrajectoryPrefix(env, n - 1, n - 1);
      assert Trajectory(env, n).value[..n] == Trajectory(env, n).value;
    }
  }

  // ----- The trials that a campaign comes to

  ghost predicate IsFinalist(env: Env, finalists: seq<nat>, ordinal: nat) {
    && Trajectory(env, env.candidates).Some? && AreFinalists(Trajectory(env, env.candidates).value, finalists)
    && ordinal in finalists
  }

  ghost predicate IsWinnerOf(env: Env, finalists: seq<nat>, screening: seq<Evidence>, k: nat, ordinal: nat) {
    && Trajectory(env, env.candidates).Some? && AreFinalists(Trajectory(env, env.candidates).value, finalists)
    && AreScreened(env, Trajectory(env, env.candidates).value, finalists, screening)
    && IsWinner(screening, k) && screening[k].ordinal == ordinal
  }

  /** The next trial of the training, the screening of a finalist or the acceptance of the winner. */
  ghost predicate ComesTo(env: Env, stage: Stage, ordinal: nat) {
    match stage
    case Training => ParamsAt(env, Training, ordinal).Some?
    case Screening => exists finalists :: IsFinalist(env, finalists, ordinal)
    case Acceptance => exists finalists, screening, k :: IsWinnerOf(env, finalists, screening, k, ordinal)
  }

  /** A trial that the campaign comes to has no evidence. */
  ghost predicate SomeTrialFails(env: Env) {
    exists stage, ordinal :: ComesTo(env, stage, ordinal) && IsStuckAt(env, stage, ordinal)
  }

  ghost predicate IsStuckAt(env: Env, stage: Stage, ordinal: nat) {
    && ParamsAt(env, stage, ordinal).Some?
    && env.findings.evidence(stage, ordinal, ParamsAt(env, stage, ordinal).value).None?
  }

  lemma FailsAt(env: Env, stage: Stage, ordinal: nat)
    requires ComesTo(env, stage, ordinal) && IsStuckAt(env, stage, ordinal)
    ensures SomeTrialFails(env)
  {
  }

  lemma FailsInScreening(env: Env, finalists: seq<nat>, ordinal: nat)
    requires IsFinalist(env, finalists, ordinal) && IsStuckAt(env, Screening, ordinal)
    ensures SomeTrialFails(env)
  {
    FailsAt(env, Screening, ordinal);
  }

  lemma FailsInAcceptance(env: Env, finalists: seq<nat>, screening: seq<Evidence>, k: nat, ordinal: nat)
    requires IsWinnerOf(env, finalists, screening, k, ordinal) && IsStuckAt(env, Acceptance, ordinal)
    ensures SomeTrialFails(env)
  {
    FailsAt(env, Acceptance, ordinal);
  }

  ghost predicate HasReport(env: Env, report: Report) {
    Trajectory(env, env.candidates).Some? && IsReport(env, Trajectory(env, env.candidates).value, report)
  }

  /** A campaign that has a report comes to no trial without evidence. */
  lemma ReportedNeverStuck(env: Env, report: Report, stage: Stage, ordinal: nat)
    requires HasReport(env, report) && ComesTo(env, stage, ordinal)
    ensures !IsStuckAt(env, stage, ordinal)
  {
    match stage
    case Training => TrainedEach(env, ordinal);
    case Screening =>
      var finalists :| IsFinalist(env, finalists, ordinal);
      ScreenedEach(env, report, finalists, ordinal);
    case Acceptance =>
      var finalists, screening, k :| IsWinnerOf(env, finalists, screening, k, ordinal);
      AcceptedIt(env, report, finalists, screening, k, ordinal);
  }

  lemma TrainedEach(env: Env, ordinal: nat)
    requires Trajectory(env, env.candidates).Some? && ParamsAt(env, Training, ordinal).Some?
    ensures !IsStuckAt(env, Training, ordinal)
  {
    TrajectoryPrefix(env, env.candidates, ordinal + 1);
  }

  lemma ScreenedEach(env: Env, report: Report, finalists: seq<nat>, ordinal: nat)
    requires HasReport(env, report) && IsFinalist(env, finalists, ordinal)
    ensures !IsStuckAt(env, Screening, ordinal)
  {
    var records := Trajectory(env, env.candidates).value;
    assert AreFinalists(records, finalists);
    assert !report.Insufficient?;
    FinalistsUnique(records, finalists, report.finalists);
    var k :| 0 <= k < |finalists| && finalists[k] == ordinal;
    assert env.findings.evidence(Screening, finalists[k], records[finalists[k]].params) == Some(report.screening[k]);
  }

  lemma AcceptedIt(env: Env, report: Report, finalists: seq<nat>, screening: seq<Evidence>, k: nat, ordinal: nat)
    requires HasReport(env, report) && IsWinnerOf(env, finalists, screening, k, ordinal)
    ensures !IsStuckAt(env, Acceptance, ordinal)
  {
    var records := Trajectory(env, env.candidates).value;
    assert AreFinalists(records, finalists);
    assert !report.Insufficient?;
    FinalistsUnique(records, finalists, report.finalists);
    SameScreening(env, records, finalists, screening, report.screening);
    assert Feasible(report.screening[k].record);
    var w: nat :| IsWinner(report.screening, w) && report.screening[w].ordinal == report.winner;
    OneWinner(report.screening, w, k);
  }

  // ----- Steps

  /** A trial with the publication of its evidence. */
  function Cost(env: Env, stage: Stage): nat {
    env.findings.steps(stage) + 1
  }

  function Times(n: nat, cost: nat): nat {
    if n == 0 then 0 else Times(n - 1, cost) + cost
  }

  lemma {:induction false} TimesGrows(m: nat, n: nat, cost: nat)
    requires m <= n
    ensures Times(m, cost) <= Times(n, cost)
    decreases n
  {
    if m < n {
      TimesGrows(m, n - 1, cost);
    }
  }

  /** Restoring the inputs or the export, with the two artifacts that say so. */
  function RestoreCost(env: Env): nat {
    Materialization.RestoreSteps(env.trial.names, 0) + 2
  }

  function Budget(env: Env): nat {
    RestoreCost(env) + FollowingCost(env)
  }

  /** What follows the restoration of the inputs. */
  function FollowingCost(env: Env): nat {
    Times(env.candidates, Cost(env, Training) + 1) + JudgeCost(env)
  }

  function JudgeCost(env: Env): nat {
    Times(FINALISTS, Cost(env, Screening)) + AcceptCost(env)
  }

  function AcceptCost(env: Env): nat {
    Cost(env, Acceptance) + RestoreCost(env) + 1
  }

  // ----- The campaign directory

  /** `files` of a package. */
  function Digests(env: Env, files: Files): Materialization.Hashes {
    Materialization.HashesOf(Preparation(env.trial, ""), files)
  }

  /** If it is published, it is correct, and the files that it speaks of are there. */
  ghost predicate IsPublished(env: Env, published: map<Name, Value>, inputs: map<nat, Files>, review: map<nat, Files>, name: Name) {
    && (name in published ==> Correct(env, name, published[name]))
    && Materialization.IsRestoring(env.trial.source, inputs) && Materialization.IsRestoring(env.trial.source, review)
    && (name == Ready && name in published ==> Materialization.IsRestored(env.trial.source, inputs, Materialization.PACKAGES))
    && (name == Review && name in published ==> IsExported(env, review, published[name]))
  }

  /** The files of a published export are those of the accepted candidate. */
  ghost predicate IsExported(env: Env, review: map<nat, Files>, value: Value) {
    value.Exported? && |value.files| == Materialization.PACKAGES && HasDigests(env, review, value.files)
  }

  ghost predicate ArePublished(env: Env, published: map<Name, Value>, inputs: map<nat, Files>, review: map<nat, Files>) {
    forall name {:trigger IsPublished(env, published, inputs, review, name)} :: IsPublished(env, published, inputs, review, name)
  }

  lemma WithArtifact(env: Env, published: map<Name, Value>, inputs: map<nat, Files>, review: map<nat, Files>, name: Name, value: Value)
    requires ArePublished(env, published, inputs, review) && Correct(env, name, value)
    requires name == Ready ==> Materialization.IsRestored(env.trial.source, inputs, Materialization.PACKAGES)
    requires name == Review ==> IsExported(env, review, value)
    ensures ArePublished(env, published[name := value], inputs, review)
  {
    forall n: Name {:trigger IsPublished(env, published[name := value], inputs, review, n)}
      ensures IsPublished(env, published[name := value], inputs, review, n)
    {
      assert IsPublished(env, published, inputs, review, n);
    }
  }

  lemma WithInputs(env: Env, published: map<Name, Value>, inputs: map<nat, Files>, review: map<nat, Files>, restored: map<nat, Files>)
    requires ArePublished(env, published, inputs, review) && Materialization.IsRestoring(env.trial.source, restored)
    requires Ready in published ==> restored == inputs
    ensures ArePublished(env, published, restored, review)
  {
    forall n: Name {:trigger IsPublished(env, published, restored, review, n)}
      ensures IsPublished(env, published, restored, review, n)
    {
      assert IsPublished(env, published, inputs, review, n);
    }
  }

  lemma WithReview(env: Env, published: map<Name, Value>, inputs: map<nat, Files>, review: map<nat, Files>, restored: map<nat, Files>)
    requires ArePublished(env, published, inputs, review) && Materialization.IsRestoring(env.trial.source, restored)
    requires Review in published ==> restored == review
    ensures ArePublished(env, published, inputs, restored)
  {
    forall n: Name {:trigger IsPublished(env, published, inputs, restored, n)}
      ensures IsPublished(env, published, inputs, restored, n)
    {
      assert IsPublished(env, published, inputs, review, n);
    }
  }

  /** A trial's directory, if there is one, holds what that trial can leave behind. */
  ghost predicate IsTrialDirectory(env: Env, trials: map<(Stage, nat), Disk>, stage: Stage, ordinal: nat) {
    ValidEnv(env.trial) && ((stage, ordinal) in trials ==>
      && ParamsAt(env, stage, ordinal).Some?
      && HoldsTrial(env.trial, stage, ParamsAt(env, stage, ordinal).value, trials[(stage, ordinal)]))
  }

  method SameFiles(env: Env, found: map<nat, Files>, files: seq<Materialization.Hashes>) returns (same: bool)
    requires |files| == Materialization.PACKAGES
    ensures same <==> HasDigests(env, found, files)
  {
    for i := 0 to Materialization.PACKAGES
      invariant forall j :: 0 <= j < i ==> j in found && Digests(env, found[j]) == files[j]
    {
      if i !in found || Digests(env, found[i]) != files[i] {
        return false;
      }
    }
    return true;
  }

  /** Restore files, or check those of a restoration that was already reported as complete. */
  method RestoreOrCheck(env: Env, complete: bool, source: nat -> Files, found: map<nat, Files>,
                        expected: seq<Materialization.Hashes>, life: nat)
    returns (stop: Option<Stop>, left: nat, files: map<nat, Files>)
    requires Materialization.IsRestoring(source, found)
    requires forall i, name :: 0 <= i < Materialization.PACKAGES ==> (name in env.trial.names(i) <==> name in source(i))
    requires |expected| == Materialization.PACKAGES
    requires forall i :: 0 <= i < Materialization.PACKAGES ==> expected[i] == Digests(env, source(i))
    requires complete ==> HasDigests(env, found, expected)
    ensures Materialization.IsRestoring(source, files) && (complete ==> files == found)
    ensures match stop
      case None =>
        && HasDigests(env, files, expected) && left + Materialization.RestoreSteps(env.trial.names, 0) >= life
        && (!complete ==> Materialization.IsRestored(source, files, Materialization.PACKAGES))
      case Some(reason) => reason == Killed && life < Materialization.RestoreSteps(env.trial.names, 0)
  {
    left, files := life, found;
    if complete {
      var same := SameFiles(env, found, expected);
      return if same then None else Some(Refused), left, files;
    }
    var killed;
    killed, left, files := Materialization.RestoreAll(source, env.trial.names, found, left);
    return if killed.Some? then Some(Killed) else None, left, files;
  }

  ghost predicate HasDigests(env: Env, files: map<nat, Files>, expected: seq<Materialization.Hashes>)
    requires |expected| == Materialization.PACKAGES
  {
    forall i :: 0 <= i < Materialization.PACKAGES ==> i in files && Digests(env, files[i]) == expected[i]
  }

  class Campaign {
    var published: map<Name, Value>
    var history: Option<seq<Record>>
    var inputs: map<nat, Files>
    var trials: map<(Stage, nat), Disk>
    var review: map<nat, Files>

    /** A campaign of which only the inputs are published. */
    constructor (env: Env)
      requires ValidCampaign(env)
      ensures published == map[] && history.None? && Holds(env)
    {
      published, history, inputs, trials, review := map[], None, map[], map[], map[];
    }

    /** The published artifacts are correct, and the restored files are there before the artifact that says so. */
    ghost predicate HoldsPublished(env: Env)
      reads this`published, this`inputs, this`review
    {
      ArePublished(env, published, inputs, review)
    }

    ghost predicate HoldsTrials(env: Env)
      reads this`trials
    {
      forall stage, ordinal {:trigger IsTrialDirectory(env, trials, stage, ordinal)} :: IsTrialDirectory(env, trials, stage, ordinal)
    }

    /** What the directory can hold between two processes. */
    ghost predicate Holds(env: Env)
      reads this
    {
      && AreFindings(env.trial, env.findings) && HoldsPublished(env) && HoldsTrials(env)
      && (history.Some? ==> OnTrajectory(env, history.value))
    }

    /** What one process may change: it publishes more and lengthens the history. */
    twostate predicate Grows()
      reads this
    {
      && (forall name :: name in old(published) ==> name in published && published[name] == old(published)[name])
      && (old(history).Some? ==> history.Some? && old(history).value <= history.value)
    }

    /** `publish_consistent`: it writes what is not there yet and refuses a different value. */
    method PublishConsistent(name: Name, value: Value, life: nat) returns (stop: Option<Stop>, left: nat)
      modifies this`published
      ensures stop == Some(Refused) <==> name in old(published) && old(published)[name] != value
      ensures stop.None? ==> published == old(published)[name := value] && left + 1 >= life
      ensures stop.Some? ==> published == old(published) && (stop == Some(Refused) || (stop == Some(Killed) && life == 0))
    {
      left := life;
      if name in published {
        if published[name] != value {
          return Some(Refused), left;
        }
        assert published == published[name := value];
        return None, left;
      }
      if left == 0 {
        return Some(Killed), left;
      }
      published := published[name := value];
      return None, left - 1;
    }

    /** Publishing a correct value never fails. */
    method PublishCorrect(env: Env, name: Name, value: Value, life: nat) returns (stop: Option<Stop>, left: nat)
      requires Holds(env) && Correct(env, name, value)
      requires name == Ready ==> Materialization.IsRestored(env.trial.source, inputs, Materialization.PACKAGES)
      requires name == Review ==> IsExported(env, review, value)
      modifies this`published
      ensures Holds(env) && Grows()
      ensures stop.None? ==> name in published && published[name] == value && left + 1 >= life
      ensures stop.Some? ==> stop == Some(Killed) && life == 0
    {
      if name in published {
        assert IsPublished(env, published, inputs, review, name);
        OneValue(env, name, published[name], value);
      }
      WithArtifact(env, published, inputs, review, name, value);
      stop, left := PublishConsistent(name, value, life);
    }

    /** `prepare_inputs`: restore the source packages, or check those that are there. */
    method PrepareInputs(env: Env, life: nat) returns (stop: Option<Stop>, left: nat)
      requires Holds(env)
      modifies this`published, this`inputs
      ensures Holds(env) && Grows()
      ensures match stop
        case None => Ready in published && left + RestoreCost(env) >= life
        case Some(reason) => reason == Killed && life < RestoreCost(env)
    {
      assert IsTrialDirectory(env, trials, Training, 0);
      stop, left := RestoreInputs(env, life);
      if stop.Some? {
        return;
      }
      stop, left := PublishCorrect(env, Ready, Text(env.header), left);
      if stop.Some? {
        return;
      }
      stop, left := PublishCorrect(env, Plan, Text(env.header), left);
    }

    method RestoreInputs(env: Env, life: nat) returns (stop: Option<Stop>, left: nat)
      requires ValidEnv(env.trial) && HoldsPublished(env)
      modifies this`inputs
      ensures HoldsPublished(env)
      ensures match stop
        case None =>
          && Materialization.IsRestored(env.trial.source, inputs, Materialization.PACKAGES)
          && left + Materialization.RestoreSteps(env.trial.names, 0) >= life
        case Some(reason) => reason == Killed && life < Materialization.RestoreSteps(env.trial.names, 0)
    {
      var source := env.trial.source;
      SourceNames(env);
      assert IsPublished(env, published, inputs, review, Ready);
      var restored;
      stop, left, restored := RestoreOrCheck(env, Ready in published, source, inputs,
                                             [Digests(env, source(0)), Digests(env, source(1)),
                                              Digests(env, source(2)), Digests(env, source(3))], life);
      WithInputs(env, published, inputs, review, restored);
      inputs := restored;
    }

    lemma SourceNames(env: Env)
      requires ValidEnv(env.trial)
      ensures forall i, name :: 0 <= i < Materialization.PACKAGES ==> (name in env.trial.names(i) <==> name in env.trial.source(i))
    {
      forall i, name
        ensures name in env.trial.names(i) <==> name in env.trial.source(i)
      {
        assert name in Preparation(env.trial, "").names(i) <==> name in Preparation(env.trial, "").source(i);
      }
    }

    /** One trial on the restored inputs, in its directory. */
    method MeasureTrial(env: Env, stage: Stage, ordinal: nat, params: string, life: nat)
      returns (stop: Option<Stop>, left: nat, evidence: Evidence)
      requires AreFindings(env.trial, env.findings) && HoldsTrials(env) && ParamsAt(env, stage, ordinal) == Some(params)
      modifies this`trials
      ensures HoldsTrials(env)
      ensures match stop
        case None =>
          && env.findings.evidence(stage, ordinal, params) == Some(evidence) && left + env.findings.steps(stage) >= life
          && (stage, ordinal) in trials && HasPrepared(env, stage, params, trials[(stage, ordinal)])
        case Some(Killed) => life < env.findings.steps(stage)
        case Some(reason) => reason == Failed && IsStuckAt(env, stage, ordinal)
    {
      var found := if (stage, ordinal) in trials then trials[(stage, ordinal)] else EMPTY;
      EmptyHolds(env.trial, stage, params);
      assert IsTrialDirectory(env, trials, stage, ordinal);
      var disk;
      stop, left, disk, evidence := RunTrial(env.trial, stage, ordinal, params, found, life);
      WithTrial(env, trials, stage, ordinal, params, disk);
      trials := trials[(stage, ordinal) := disk];
    }

    lemma WithTrial(env: Env, trials: map<(Stage, nat), Disk>, stage: Stage, ordinal: nat, params: string, disk: Disk)
      requires forall s, o {:trigger IsTrialDirectory(env, trials, s, o)} :: IsTrialDirectory(env, trials, s, o)
      requires ParamsAt(env, stage, ordinal) == Some(params) && HoldsTrial(env.trial, stage, params, disk)
      ensures forall s, o {:trigger IsTrialDirectory(env, trials[(stage, ordinal) := disk], s, o)} ::
                IsTrialDirectory(env, trials[(stage, ordinal) := disk], s, o)
    {
      forall s: Stage, o: nat {:trigger IsTrialDirectory(env, trials[(stage, ordinal) := disk], s, o)}
        ensures IsTrialDirectory(env, trials[(stage, ordinal) := disk], s, o)
      {
        assert IsTrialDirectory(env, trials, s, o);
      }
    }

    /** `evaluate`: one trial, and the publication of its evidence. */
    method EvaluateTrial(env: Env, stage: Stage, ordinal: nat, params: string, life: nat)
      returns (stop: Option<Stop>, left: nat, evidence: Evidence)
      requires Holds(env) && Ready in published && ParamsAt(env, stage, ordinal) == Some(params)
      modifies this`published, this`trials
      ensures Holds(env) && Grows()
      ensures match stop
        case None =>
          && env.findings.evidence(stage, ordinal, params) == Some(evidence) && left + Cost(env, stage) >= life
          && (stage, ordinal) in trials && HasPrepared(env, stage, params, trials[(stage, ordinal)])
        case Some(Killed) => life < Cost(env, stage)
        case Some(reason) => reason == Failed && IsStuckAt(env, stage, ordinal)
    {
      stop, left, evidence := MeasureTrial(env, stage, ordinal, params, life);
      if stop.Some? {
        return;
      }
      stop, left := PublishTrial(env, stage, ordinal, params, evidence, left);
    }

    method PublishTrial(env: Env, stage: Stage, ordinal: nat, params: string, evidence: Evidence, life: nat)
      returns (stop: Option<Stop>, left: nat)
      requires Holds(env) && ParamsAt(env, stage, ordinal) == Some(params)
      requires env.findings.evidence(stage, ordinal, params) == Some(evidence)
      modifies this`published
      ensures Holds(env) && Grows()
      ensures stop.None? ==> left + 1 >= life
      ensures stop.Some? ==> stop == Some(Killed) && life == 0
    {
      stop, left := PublishCorrect(env, TrialResult(stage, ordinal), Trial(evidence), life);
    }

    /** The same without what is in the trial's directory afterwards. */
    method Evaluate(env: Env, stage: Stage, ordinal: nat, params: string, life: nat)
      returns (stop: Option<Stop>, left: nat, evidence: Evidence)
      requires Holds(env) && Ready in published && ParamsAt(env, stage, ordinal) == Some(params)
      modifies this`published, this`trials
      ensures Holds(env) && Grows()
      ensures match stop
        case None => env.findings.evidence(stage, ordinal, params) == Some(evidence) && left + Cost(env, stage) >= life
        case Some(Killed) => life < Cost(env, stage)
        case Some(reason) => reason == Failed && IsStuckAt(env, stage, ordinal)
    {
      stop, left, evidence := EvaluateTrial(env, stage, ordinal, params, life);
    }

    ghost predicate HasPrepared(env: Env, stage: Stage, params: string, disk: Disk) {
      Materialization.IsPrepared(Preparation(env.trial, params), env.trial.plan(stage, params), disk.prepared)
    }

    /** `verify_state`: every record answers the proposal after the records before it. */
    method VerifyState(env: Env, records: seq<Record>) returns (ok: bool)
      ensures ok <==> forall i :: 0 <= i < |records| ==> records[i].params == env.propose(records[..i])
      ensures AreFindings(env.trial, env.findings) && OnTrajectory(env, records) ==> ok
    {
      if AreFindings(env.trial, env.findings) && OnTrajectory(env, records) {
        TrajectoryVerifies(env, records);
      }
      for i := 0 to |records|
        invariant forall j :: 0 <= j < i ==> records[j].params == env.propose(records[..j])
      {
        if records[i].params != env.propose(records[..i]) {
          return false;
        }
      }
      return true;
    }

    /** The training loop: it follows the trajectory, compares it with the history that was retained, and goes on. */
    method Train(env: Env, life: nat) returns (stop: Option<Stop>, left: nat, records: seq<Record>)
      requires Holds(env) && Ready in published
      modifies this`published, this`trials, this`history
      ensures Holds(env) && Grows()
      ensures match stop
        case None => Trajectory(env, env.candidates) == Some(records) && left + Times(env.candidates, Cost(env, Training) + 1) >= life
        case Some(Killed) => life < Times(env.candidates, Cost(env, Training) + 1)
        case Some(reason) => reason == Failed && SomeTrialFails(env)
    {
      if history.Some? {
        var ok := VerifyState(env, history.value);
        if !ok {
          return Some(Refused), life, [];
        }
      }
      stop, left, records := TrainAll(env, history, life);
    }

    method TrainAll(env: Env, retained: Option<seq<Record>>, life: nat) returns (stop: Option<Stop>, left: nat, records: seq<Record>)
      requires Holds(env) && Ready in published && retained == history
      modifies this`published, this`trials, this`history
      ensures Holds(env) && Grows()
      ensures match stop
        case None => Trajectory(env, env.candidates) == Some(records) && left + Times(env.candidates, Cost(env, Training) + 1) >= life
        case Some(Killed) => life < Times(env.candidates, Cost(env, Training) + 1)
        case Some(reason) => reason == Failed && SomeTrialFails(env)
    {
      records, left := [], life;
      ghost var cost := Cost(env, Training) + 1;
      for ordinal := 0 to env.candidates
        invariant Holds(env) && Grows() && Ready in published && left + Times(ordinal, cost) >= life
        invariant |records| == ordinal && Trajectory(env, ordinal) == Some(records)
        invariant Retains(retained, records)
      {
        stop, left, records := TrainNext(env, retained, records, left, cost, life);
        if stop.Some? {
          return;
        }
      }
      stop := None;
    }

    /** One training trial, counted from the start of the loop. */
    method TrainNext(env: Env, retained: Option<seq<Record>>, before: seq<Record>, life: nat, ghost cost: nat, ghost all: nat)
      returns (stop: Option<Stop>, left: nat, records: seq<Record>)
      requires Holds(env) && Ready in published && Retains(retained, before) && (retained.Some? ==> OnTrajectory(env, retained.value))
      requires |before| < env.candidates && Trajectory(env, |before|) == Some(before)
      requires cost == Cost(env, Training) + 1 && life + Times(|before|, cost) >= all
      modifies this`published, this`trials, this`history
      ensures Holds(env) && Grows()
      ensures match stop
        case None =>
          && |records| == |before| + 1 && Trajectory(env, |records|) == Some(records) && Retains(retained, records)
          && left + Times(|records|, cost) >= all
        case Some(Killed) => all < Times(env.candidates, cost)
        case Some(reason) => reason == Failed && SomeTrialFails(env)
    {
      TimesGrows(|before| + 1, env.candidates, cost);
      stop, left, records := TrainOne(env, retained, before, life);
    }

    /** What the history holds after some trials of a process that found `retained`. */
    ghost predicate Retains(retained: Option<seq<Record>>, records: seq<Record>)
      reads this
    {
      history == if records != [] && (retained.None? || |retained.value| < |records|) then Some(records) else retained
    }

    /** One training trial. */
    method TrainOne(env: Env, retained: Option<seq<Record>>, before: seq<Record>, life: nat)
      returns (stop: Option<Stop>, left: nat, records: seq<Record>)
      requires Holds(env) && Ready in published && Retains(retained, before) && (retained.Some? ==> OnTrajectory(env, retained.value))
      requires |before| < env.candidates && Trajectory(env, |before|) == Some(before)
      modifies this`published, this`trials, this`history
      ensures Holds(env) && Grows()
      ensures match stop
        case None =>
          && |records| == |before| + 1 && Trajectory(env, |records|) == Some(records) && Retains(retained, records)
          && left + Cost(env, Training) + 1 >= life
        case Some(Killed) => life < Cost(env, Training) + 1
        case Some(reason) => reason == Failed && SomeTrialFails(env)
    {
      stop, left, records := TrainTrial(env, before, life);
      if stop.Some? {
        return;
      }
      NextRecord(env, retained, before, records);
      stop, left := Remember(env, retained, before, records, left);
    }

    /** The trial of what is proposed next. */
    method TrainTrial(env: Env, before: seq<Record>, life: nat) returns (stop: Option<Stop>, left: nat, records: seq<Record>)
      requires Holds(env) && Ready in published
      requires |before| < env.candidates && Trajectory(env, |before|) == Some(before)
      modifies this`published, this`trials
      ensures Holds(env) && Grows()
      ensures match stop
        case None =>
          && |records| == |before| + 1 && before <= records && Trajectory(env, |records|) == Some(records)
          && left + Cost(env, Training) >= life
        case Some(Killed) => life < Cost(env, Training)
        case Some(reason) => reason == Failed && SomeTrialFails(env)
    {
      var ordinal, params := |before|, env.propose(before);
      records := before;
      var evidence;
      stop, left, evidence := Evaluate(env, Training, ordinal, params, life);
      if stop.Some? {
        if stop == Some(Failed) {
          FailsAt(env, Training, ordinal);
        }
        return;
      }
      records := before + [evidence.record];
      assert Trajectory(env, ordinal + 1) == Some(records);
    }

    /** Compare the new record with the retained history, or lengthen the history by it. */
    method Remember(env: Env, retained: Option<seq<Record>>, before: seq<Record>, records: seq<Record>, life: nat)
      returns (stop: Option<Stop>, left: nat)
      requires Retains(retained, before) && |records| == |before| + 1 && before <= records
      requires retained.Some? ==>
        if |before| < |retained.value| then records[|before|] == retained.value[|before|] else retained.value <= records
      modifies this`history
      ensures old(history).Some? ==> history.Some? && old(history).value <= history.value
      ensures history == old(history) || history == Some(records)
      ensures stop.None? ==> Retains(retained, records) && left + 1 >= life
      ensures stop.Some? ==> stop == Some(Killed) && life == 0
    {
      var ordinal := |before|;
      left := life;
      if retained.Some? && ordinal < |retained.value| {
        if records[ordinal] != retained.value[ordinal] {
          return Some(Refused), left;
        }
      } else {
        if left == 0 {
          return Some(Killed), left;
        }
        left := left - 1;
        history := Some(records);
      }
      stop := None;
    }

    /** The next record is the retained one, or it lengthens what is retained. */
    lemma NextRecord(env: Env, retained: Option<seq<Record>>, before: seq<Record>, records: seq<Record>)
      requires retained.Some? ==> OnTrajectory(env, retained.value)
      requires |records| == |before| + 1 && before <= records && Trajectory(env, |records|) == Some(records)
      ensures retained.Some? ==>
        if |before| < |retained.value| then records[|before|] == retained.value[|before|] else retained.value <= records
    {
      if retained.Some? {
        if |before| < |retained.value| {
          TrajectoryPrefix(env, |retained.value|, |records|);
        } else {
          TrajectoryPrefix(env, |records|, |retained.value|);
        }
      }
    }

    /** The screening of the finalists. */
    method Screen(env: Env, records: seq<Record>, finalists: seq<nat>, life: nat)
      returns (stop: Option<Stop>, left: nat, screening: seq<Evidence>)
      requires Holds(env) && Ready in published && Trajectory(env, env.candidates) == Some(records) && AreFinalists(records, finalists)
      modifies this`published, this`trials
      ensures Holds(env) && Grows()
      ensures match stop
        case None => AreScreened(env, records, finalists, screening) && left + Times(|finalists|, Cost(env, Screening)) >= life
        case Some(Killed) => life < Times(|finalists|, Cost(env, Screening))
        case Some(reason) => reason == Failed && SomeTrialFails(env)
    {
      screening, left := [], life;
      ghost var cost := Cost(env, Screening);
      for k := 0 to |finalists|
        invariant Holds(env) && Grows() && Ready in published && left + Times(k, cost) >= life
        invariant AreScreened(env, records, finalists[..k], screening)
      {
        TimesGrows(k + 1, |finalists|, cost);
        var evidence;
        stop, left, evidence := ScreenOne(env, records, finalists, finalists[k], left);
        if stop.Some? {
          return;
        }
        ScreenedNext(env, records, finalists, k, screening, evidence);
        screening := screening + [evidence];
      }
      assert finalists[..|finalists|] == finalists;
      stop := None;
    }

    method ScreenOne(env: Env, records: seq<Record>, ghost finalists: seq<nat>, ordinal: nat, life: nat)
      returns (stop: Option<Stop>, left: nat, evidence: Evidence)
      requires Holds(env) && Ready in published && Trajectory(env, env.candidates) == Some(records) && ordinal < |records|
      requires AreFinalists(records, finalists) && ordinal in finalists
      modifies this`published, this`trials
      ensures Holds(env) && Grows()
      ensures match stop
        case None =>
          && env.findings.evidence(Screening, ordinal, records[ordinal].params) == Some(evidence)
          && left + Cost(env, Screening) >= life
        case Some(Killed) => life < Cost(env, Screening)
        case Some(reason) => reason == Failed && SomeTrialFails(env)
    {
      stop, left, evidence := Evaluate(env, Screening, ordinal, records[ordinal].params, life);
      if stop == Some(Failed) {
        FailsInScreening(env, finalists, ordinal);
      }
    }

    /** `min(eligible, key=(-value, ordinal))`; `None` when nothing is eligible. */
    method Winner(screening: seq<Evidence>) returns (winner: Option<nat>)
      requires forall j, k :: 0 <= j < k < |screening| ==> screening[j].ordinal != screening[k].ordinal
      ensures winner.Some? ==> IsWinner(screening, winner.value)
      ensures winner.None? ==> forall k :: 0 <= k < |screening| ==> !Feasible(screening[k].record)
    {
      winner := None;
      for k := 0 to |screening|
        invariant winner.None? ==> forall j :: 0 <= j < k ==> !Feasible(screening[j].record)
        invariant winner.Some? ==> winner.value < k && Feasible(screening[winner.value].record)
        invariant winner.Some? ==> forall j :: 0 <= j < k && j != winner.value && Feasible(screening[j].record)
                                     ==> Outranks(screening[winner.value], screening[j])
      {
        if Feasible(screening[k].record) && (winner.None? || Outranks(screening[k], screening[winner.value])) {
          winner := Some(k);
        }
      }
    }

    /** Publish the report, which is the campaign's result. */
    method Conclude(env: Env, ghost records: seq<Record>, report: Report, life: nat) returns (outcome: Outcome)
      requires Holds(env) && Trajectory(env, env.candidates) == Some(records) && IsReport(env, records, report)
      modifies this`published
      ensures Holds(env) && Grows()
      ensures (outcome == Stopped(Killed) && life == 0)
        || (outcome == Done(report) && FinalReport in published && published[FinalReport] == Reported(report))
    {
      var stop, left := PublishCorrect(env, FinalReport, Reported(report), life);
      return if stop.Some? then Stopped(stop.value) else Done(report);
    }

    /** `export_candidate`: the packages of the accepted candidate, for review. */
    method Export(env: Env, winner: nat, params: string, acceptance: Evidence, life: nat) returns (stop: Option<Stop>, left: nat)
      requires Holds(env) && ParamsAt(env, Acceptance, winner) == Some(params) && IsChosen(env, winner, acceptance)
      requires acceptance.summary.Some? && env.findings.evidence(Acceptance, winner, params) == Some(acceptance)
      requires (Acceptance, winner) in trials && HasPrepared(env, Acceptance, params, trials[(Acceptance, winner)])
      modifies this`published, this`review
      ensures Holds(env) && Grows()
      ensures match stop
        case None => Review in published && left + RestoreCost(env) >= life
        case Some(reason) => reason == Killed && life < RestoreCost(env)
    {
      var source := trials[(Acceptance, winner)].prepared;
      assert IsTrialDirectory(env, trials, Acceptance, winner);
      ExportSource(env, winner, params, acceptance, source);
      stop, left := ExportFiles(env, winner, acceptance, source.packages, source.plan.value, life);
    }

    /** Restore the files of an export, or check those that are there. */
    method RestoreExport(env: Env, value: Value, packages: map<nat, Files>, files: seq<Materialization.Hashes>, life: nat)
      returns (stop: Option<Stop>, left: nat)
      requires HoldsPublished(env) && HasSourceNames(env, packages) && value.Exported? && value.files == files
      requires Review in published ==> published[Review] == value
      requires files == [Digests(env, packages[0]), Digests(env, packages[1]), Digests(env, packages[2]), Digests(env, packages[3])]
      modifies this`review
      ensures HoldsPublished(env)
      ensures match stop
        case None => IsExported(env, review, value) && left + Materialization.RestoreSteps(env.trial.names, 0) >= life
        case Some(reason) => reason == Killed && life < Materialization.RestoreSteps(env.trial.names, 0)
    {
      var complete := Review in published;
      assert IsPublished(env, published, inputs, review, Review);
      SameNames(env, packages, review);
      var targets;
      stop, left, targets := RestoreOrCheck(env, complete, OnDisk(packages), review, files, life);
      SameNames(env, packages, targets);
      WithReview(env, published, inputs, review, targets);
      review := targets;
    }

    method ExportFiles(env: Env, winner: nat, acceptance: Evidence, packages: map<nat, Files>, plan: string, life: nat)
      returns (stop: Option<Stop>, left: nat)
      requires Holds(env) && IsSource(env, winner, acceptance, packages, plan)
      modifies this`published, this`review
      ensures Holds(env) && Grows()
      ensures match stop
        case None => Review in published && left + RestoreCost(env) >= life
        case Some(reason) => reason == Killed && life < RestoreCost(env)
    {
      var files := [Digests(env, packages[0]), Digests(env, packages[1]), Digests(env, packages[2]), Digests(env, packages[3])];
      if Review in published {
        assert IsPublished(env, published, inputs, review, Review);
        OneValue(env, Review, published[Review], Exported(winner, acceptance, files));
      }
      stop, left := RestoreExport(env, Exported(winner, acceptance, files), packages, files, life);
      if stop.Some? {
        return;
      }
      stop, left := PublishCorrect(env, ReviewPlan, Text(plan), left);
      if stop.Some? {
        return;
      }
      stop, left := PublishCorrect(env, Review, Exported(winner, acceptance, files), left);
    }

    /** Acceptance of the winner, its export for review, and the report. */
    method Accept(env: Env, records: seq<Record>, finalists: seq<nat>, screening: seq<Evidence>, k: nat, life: nat)
      returns (outcome: Outcome)
      requires Holds(env) && Ready in published && Trajectory(env, env.candidates) == Some(records)
      requires AreFinalists(records, finalists) && AreScreened(env, records, finalists, screening) && IsWinner(screening, k)
      modifies this
      ensures Holds(env) && Grows()
      ensures match outcome
        case Done(report) => IsReport(env, records, report) && FinalReport in published && published[FinalReport] == Reported(report)
        case Stopped(Killed) => life < AcceptCost(env)
        case Stopped(reason) => reason == Failed && SomeTrialFails(env)
    {
      var winner, params := screening[k].ordinal, screening[k].record.params;
      WinnerIs(env, records, finalists, screening, k);
      var stop, left, acceptance := Approve(env, records, finalists, screening, k, winner, params, life);
      if stop.Some? {
        return Stopped(stop.value);
      }
      var accepted := Feasible(acceptance.record) && acceptance.record.value >= env.threshold;
      JudgedIs(env, records, finalists, screening, k, acceptance, accepted);
      outcome := Conclude(env, records, Judged(finalists, screening, winner, acceptance, accepted), left);
    }

    /** The acceptance trial and, when it got as far as a summary, the export. */
    method Approve(env: Env, records: seq<Record>, finalists: seq<nat>, screening: seq<Evidence>, k: nat,
                   winner: nat, params: string, life: nat)
      returns (stop: Option<Stop>, left: nat, acceptance: Evidence)
      requires Holds(env) && Ready in published && Trajectory(env, env.candidates) == Some(records)
      requires AreFinalists(records, finalists) && AreScreened(env, records, finalists, screening) && IsWinner(screening, k)
      requires winner == screening[k].ordinal < |records| && params == records[winner].params
      modifies this`published, this`trials, this`review
      ensures Holds(env) && Grows()
      ensures match stop
        case None =>
          && env.findings.evidence(Acceptance, winner, params) == Some(acceptance)
          && left + Cost(env, Acceptance) + RestoreCost(env) >= life
        case Some(Killed) => life < Cost(env, Acceptance) + RestoreCost(env)
        case Some(reason) => reason == Failed && SomeTrialFails(env)
    {
      stop, left, acceptance := EvaluateTrial(env, Acceptance, winner, params, life);
      if stop.Some? {
        if stop == Some(Failed) {
          FailsInAcceptance(env, finalists, screening, k, winner);
        }
        return;
      }
      ChosenIs(env, records, finalists, screening, k, acceptance);
      if acceptance.summary.Some? {
        stop, left := Export(env, winner, params, acceptance, left);
      }
    }

    /** What follows the training. */
    method Judge(env: Env, records: seq<Record>, life: nat) returns (outcome: Outcome)
      requires Holds(env) && Ready in published && Trajectory(env, env.candidates) == Some(records)
      modifies this
      ensures Holds(env) && Grows()
      ensures match outcome
        case Done(report) => IsReport(env, records, report) && FinalReport in published && published[FinalReport] == Reported(report)
        case Stopped(Killed) => life < JudgeCost(env)
        case Stopped(reason) => reason == Failed && SomeTrialFails(env)
    {
      TrajectoryPrefix(env, env.candidates, env.candidates);
      var finalists := Finalists(records);
      if finalists.None? {
        outcome := Conclude(env, records, Insufficient(|records|), life);
        return;
      }
      var stop, left, screening := Screen(env, records, finalists.value, life);
      if stop.Some? {
        return Stopped(stop.value);
      }
      DistinctOrdinals(env, records, finalists.value, screening);
      var winner := Winner(screening);
      if winner.None? {
        outcome := Conclude(env, records, Infeasible(finalists.value, screening), left);
        return;
      }
      outcome := Accept(env, records, finalists.value, screening, winner.value, left);
    }

    /** `run_campaign` after its inputs are published, from whatever killed processes left: it never refuses, publishes
        only what an undisturbed campaign does, and ends with the same report. */
    method Run(env: Env, life: nat) returns (outcome: Outcome)
      requires Holds(env)
      modifies this
      ensures Holds(env) && Grows()
      ensures Explained(env, life, outcome)
      ensures outcome.Done? ==> FinalReport in published && published[FinalReport] == Reported(outcome.report)
    {
      ghost var left;
      outcome, left := RunSteps(env, life);
      RunEnds(env, life, left, outcome);
    }

    method RunSteps(env: Env, life: nat) returns (outcome: Outcome, ghost left: nat)
      requires Holds(env)
      modifies this
      ensures Holds(env) && Grows()
      ensures IsRunEnd(env, life, left, outcome)
      ensures outcome.Done? ==> FinalReport in published && published[FinalReport] == Reported(outcome.report)
    {
      var stop, rest := PrepareInputs(env, life);
      left := rest;
      if stop.Some? {
        return Stopped(stop.value), left;
      }
      outcome := Continue(env, rest);
    }

    /** The campaign on its restored inputs. */
    method Continue(env: Env, life: nat) returns (outcome: Outcome)
      requires Holds(env) && Ready in published
      modifies this
      ensures Holds(env) && Grows()
      ensures Ends(env, life, FollowingCost(env), outcome)
      ensures outcome.Done? ==> FinalReport in published && published[FinalReport] == Reported(outcome.report)
    {
      var stop, left, records := Train(env, life);
      if stop.Some? {
        return Stopped(stop.value);
      }
      outcome := Judge(env, records, left);
    }

    /** Any number of processes on one directory, each killed after its own number of steps. */
    method Operate(env: Env, lives: seq<nat>) returns (outcomes: seq<Outcome>)
      requires Holds(env)
      modifies this
      ensures |outcomes| == |lives| && Holds(env) && Grows()
      ensures forall k :: 0 <= k < |outcomes| ==> Explained(env, lives[k], outcomes[k])
    {
      outcomes := [];
      for k := 0 to |lives|
        invariant |outcomes| == k && Holds(env) && Grows()
        invariant forall j :: 0 <= j < k ==> Explained(env, lives[j], outcomes[j])
      {
        var outcome := Run(env, lives[k]);
        outcomes := outcomes + [outcome];
      }
    }
  }

  /** A process that is not killed ends with the report of the undisturbed campaign, or at a trial that the campaign comes
      to and that has no evidence; it is not killed when it may take all the steps there are. */
  ghost predicate Explained(env: Env, life: nat, outcome: Outcome) {
    Ends(env, life, Budget(env), outcome)
  }

  ghost predicate Ends(env: Env, life: nat, most: nat, outcome: Outcome) {
    match outcome
    case Done(report) => HasReport(env, report)
    case Stopped(Killed) => life < most
    case Stopped(Failed) => SomeTrialFails(env)
    case Stopped(Refused) => false
  }

  /** Killed while the inputs are restored, or an end of what follows. */
  ghost predicate IsRunEnd(env: Env, life: nat, left: nat, outcome: Outcome) {
    || (outcome == Stopped(Killed) && life < RestoreCost(env))
    || (Ends(env, left, FollowingCost(env), outcome) && life <= left + RestoreCost(env))
  }

  lemma RunEnds(env: Env, life: nat, left: nat, outcome: Outcome)
    requires IsRunEnd(env, life, left, outcome)
    ensures Explained(env, life, outcome)
  {
    if !(outcome == Stopped(Killed) && life < RestoreCost(env)) {
      EndsLater(env, left, FollowingCost(env), life, Budget(env), outcome);
    }
  }

  lemma EndsLater(env: Env, left: nat, rest: nat, life: nat, most: nat, outcome: Outcome)
    requires Ends(env, left, rest, outcome) && life + rest <= left + most
    ensures Ends(env, life, most, outcome)
  {
  }

  /** All finished processes report the same. */
  lemma SameReport(env: Env, lifeA: nat, a: Outcome, lifeB: nat, b: Outcome)
    requires Explained(env, lifeA, a) && Explained(env, lifeB, b) && a.Done? && b.Done?
    ensures a == b
  {
    OneReport(env, Trajectory(env, env.candidates).value, a.report, b.report);
  }

  /** A process that may take all its steps reports exactly if the campaign has a report. */
  lemma ReportedExactly(env: Env, life: nat, outcome: Outcome)
    requires Explained(env, life, outcome) && life >= Budget(env)
    ensures outcome.Done? <==> exists report :: HasReport(env, report)
    ensures outcome.Done? ==> forall report :: HasReport(env, report) <==> report == outcome.report
  {
    if outcome.Done? {
      forall report | HasReport(env, report)
        ensures report == outcome.report
      {
        OneReport(env, Trajectory(env, env.candidates).value, report, outcome.report);
      }
    } else if report :| HasReport(env, report) {
      var stage, ordinal :| ComesTo(env, stage, ordinal) && IsStuckAt(env, stage, ordinal);
      ReportedNeverStuck(env, report, stage, ordinal);
    }
  }

  ghost predicate HasSourceNames(env: Env, packages: map<nat, Files>) {
    && (forall i :: 0 <= i < Materialization.PACKAGES ==> i in packages && packages[i].Keys == env.trial.source(i).Keys)
    && (forall i, name :: 0 <= i < Materialization.PACKAGES ==> (name in env.trial.names(i) <==> name in OnDisk(packages)(i)))
  }

  /** What an export reads: the accepted candidate, with the names of the sources. */
  ghost predicate IsSource(env: Env, winner: nat, acceptance: Evidence, packages: map<nat, Files>, plan: string) {
    && HasSourceNames(env, packages)
    && Correct(env, ReviewPlan, Text(plan))
    && Correct(env, Review, Exported(winner, acceptance, [Digests(env, packages[0]), Digests(env, packages[1]),
                                                          Digests(env, packages[2]), Digests(env, packages[3])]))
  }

  lemma ExportSource(env: Env, winner: nat, params: string, acceptance: Evidence, source: Materialization.Disk)
    requires ValidCampaign(env) && ParamsAt(env, Acceptance, winner) == Some(params) && IsChosen(env, winner, acceptance)
    requires acceptance.summary.Some? && env.findings.evidence(Acceptance, winner, params) == Some(acceptance)
    requires Materialization.IsPrepared(Preparation(env.trial, params), env.trial.plan(Acceptance, params), source)
    ensures source.plan.Some? && IsSource(env, winner, acceptance, source.packages, source.plan.value)
  {
    ExportDigests(env, params, source);
    ExportPlan(env, winner, params, acceptance, source);
    PreparedNames(env.trial, params, env.trial.plan(Acceptance, params), source);
  }

  lemma ExportPlan(env: Env, winner: nat, params: string, acceptance: Evidence, source: Materialization.Disk)
    requires ValidCampaign(env)
    requires acceptance.summary.Some? && env.findings.evidence(Acceptance, winner, params) == Some(acceptance)
    requires Materialization.IsPrepared(Preparation(env.trial, params), env.trial.plan(Acceptance, params), source)
    ensures source.plan == Some(env.trial.plan(Acceptance, params))
  {
    assert TrialOf(env.trial, Acceptance, winner, params) == Some(acceptance);
  }

  lemma ExportDigests(env: Env, params: string, source: Materialization.Disk)
    requires ValidCampaign(env)
    requires Materialization.IsPrepared(Preparation(env.trial, params), env.trial.plan(Acceptance, params), source)
    ensures forall i :: 0 <= i < Materialization.PACKAGES ==> i in source.packages && source.packages[i].Keys == env.trial.source(i).Keys
    ensures env.findings.exported(params)
      == Some((env.trial.plan(Acceptance, params), [Digests(env, source.packages[0]), Digests(env, source.packages[1]),
                                                    Digests(env, source.packages[2]), Digests(env, source.packages[3])]))
  {
    assert env.findings.exported(params) == ExportOf(env.trial, params);
    forall i | 0 <= i < Materialization.PACKAGES
      ensures i in source.packages && source.packages[i].Keys == env.trial.source(i).Keys
      ensures Digests(env, source.packages[i]) == Materialization.PackageOf(Preparation(env.trial, params), i).resolved
    {
      Materialization.BuiltKeys(Preparation(env.trial, params), i);
    }
  }

  lemma SameNames(env: Env, packages: map<nat, Files>, found: map<nat, Files>)
    requires forall i :: 0 <= i < Materialization.PACKAGES ==> i in packages && packages[i].Keys == env.trial.source(i).Keys
    ensures Materialization.IsRestoring(env.trial.source, found) <==> Materialization.IsRestoring(OnDisk(packages), found)
  {
  }

  lemma ScreenedNext(env: Env, records: seq<Record>, finalists: seq<nat>, k: nat, screening: seq<Evidence>, evidence: Evidence)
    requires k < |finalists| && AreTrials(records, finalists) && AreScreened(env, records, finalists[..k], screening)
    requires env.findings.evidence(Screening, finalists[k], records[finalists[k]].params) == Some(evidence)
    ensures AreScreened(env, records, finalists[..k + 1], screening + [evidence])
  {
  }

  /** The winner is one of the finalists, with the parameters of its training. */
  lemma WinnerIs(env: Env, records: seq<Record>, finalists: seq<nat>, screening: seq<Evidence>, k: nat)
    requires AreFindings(env.trial, env.findings) && AreScreened(env, records, finalists, screening) && IsWinner(screening, k)
    ensures screening[k].ordinal == finalists[k] < |records| && screening[k].record.params == records[finalists[k]].params
  {
    assert env.findings.evidence(Screening, finalists[k], records[finalists[k]].params) == Some(screening[k]);
  }

  lemma JudgedIs(env: Env, records: seq<Record>, finalists: seq<nat>, screening: seq<Evidence>, k: nat,
                 acceptance: Evidence, accepted: bool)
    requires Trajectory(env, env.candidates) == Some(records) && AreFinalists(records, finalists)
    requires AreScreened(env, records, finalists, screening) && IsWinner(screening, k) && screening[k].ordinal < |records|
    requires env.findings.evidence(Acceptance, screening[k].ordinal, records[screening[k].ordinal].params) == Some(acceptance)
    requires accepted <==> Feasible(acceptance.record) && acceptance.record.value >= env.threshold
    ensures IsReport(env, records, Judged(finalists, screening, screening[k].ordinal, acceptance, accepted))
  {
  }

  lemma ChosenIs(env: Env, records: seq<Record>, finalists: seq<nat>, screening: seq<Evidence>, k: nat, acceptance: Evidence)
    requires Trajectory(env, env.candidates) == Some(records) && AreFinalists(records, finalists)
    requires AreScreened(env, records, finalists, screening) && IsWinner(screening, k) && screening[k].ordinal < |records|
    requires env.findings.evidence(Acceptance, screening[k].ordinal, records[screening[k].ordinal].params) == Some(acceptance)
    ensures IsChosen(env, screening[k].ordinal, acceptance)
  {
    var accepted := Feasible(acceptance.record) && acceptance.record.value >= env.threshold;
    JudgedIs(env, records, finalists, screening, k, acceptance, accepted);
  }

  lemma DistinctOrdinals(env: Env, records: seq<Record>, finalists: seq<nat>, screening: seq<Evidence>)
    requires AreFindings(env.trial, env.findings) && AreFinalists(records, finalists) && AreScreened(env, records, finalists, screening)
    ensures forall j, k :: 0 <= j < k < |screening| ==> screening[j].ordinal != screening[k].ordinal
  {
    forall j, k | 0 <= j < k < |screening|
      ensures screening[j].ordinal != screening[k].ordinal
    {
      assert IsNext(records, finalists[..k], finalists[k]);
      assert finalists[..k][j] == finalists[j];
      assert Some(screening[j]) == env.findings.evidence(Screening, finalists[j], records[finalists[j]].params);
      assert Some(screening[k]) == env.findings.evidence(Screening, finalists[k], records[finalists[k]].params);
    }
  }

  lemma TrajectoryVerifies(env: Env, history: seq<Record>)
    requires AreFindings(env.trial, env.findings) && OnTrajectory(env, history)
    ensures forall i :: 0 <= i < |history| ==> history[i].params == env.propose(history[..i])
  {
    forall i | 0 <= i < |history|
      ensures history[i].params == env.propose(history[..i])
    {
      RecordAnswers(env, history, i);
    }
  }

  lemma RecordAnswers(env: Env, history: seq<Record>, i: nat)
    requires AreFindings(env.trial, env.findings) && OnTrajectory(env, history) && i < |history|
    ensures history[i].params == env.propose(history[..i])
  {
    TrajectoryPrefix(env, |history|, i);
    TrajectoryPrefix(env, |history|, i + 1);
    var before := history[..i];
    assert Trajectory(env, i + 1) == Some(history[..i + 1]) && Trajectory(env, i) == Some(before);
    var evidence := env.findings.evidence(Training, i, env.propose(before)).value;
    assert before + [evidence.record] == history[..i + 1];
    assert history[i] == evidence.record;
  }

  // ----- What a report says

  predicate MeetsAll(record: Record) {
    forall c :: c in record.constraints ==> c <= 0.0
  }

  /** Of the screened finalists that meet all constraints the winner has the greatest value, the earliest of equals; it is
      accepted exactly if its acceptance meets all constraints and reaches the threshold. */
  lemma JudgedMeans(env: Env, report: Report)
    requires HasReport(env, report) && report.Judged?
    ensures exists k ::
      && 0 <= k < |report.screening| && report.screening[k].ordinal == report.winner
      && MeetsAll(report.screening[k].record)
      && forall j :: 0 <= j < |report.screening| && MeetsAll(report.screening[j].record) && j != k ==>
           || report.screening[k].record.value > report.screening[j].record.value
           || (report.screening[k].record.value == report.screening[j].record.value && report.winner < report.screening[j].ordinal)
    ensures report.accepted <==> MeetsAll(report.acceptance.record) && report.acceptance.record.value >= env.threshold
  {
    var screening := report.screening;
    forall j | 0 <= j < |screening|
      ensures Feasible(screening[j].record) <==> MeetsAll(screening[j].record)
    {
      FeasibleExactly(screening[j].record);
    }
    FeasibleExactly(report.acceptance.record);
    var k: nat :| IsWinner(screening, k) && screening[k].ordinal == report.winner;
    assert MeetsAll(screening[k].record);
  }

  /** Screening is infeasible exactly if no finalist meets all constraints there. */
  lemma InfeasibleMeans(env: Env, report: Report)
    requires HasReport(env, report) && !report.Insufficient?
    ensures report.Infeasible? <==> forall e :: e in report.screening ==> !MeetsAll(e.record)
  {
    forall e: Evidence
      ensures Feasible(e.record) <==> MeetsAll(e.record)
    {
      FeasibleExactly(e.record);
    }
    if report.Judged? {
      var k: nat :| IsWinner(report.screening, k) && report.screening[k].ordinal == report.winner;
      assert report.screening[k] in report.screening;
    }
  }
}
