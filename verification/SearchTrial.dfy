/** One trial of a search campaign (`evaluate` in scripts/arena_search.py), killed at any lasting step of its parts. */
module SearchTrial {
  // A trial directory holds the output of the preparation and, for a valid candidate, a batch: one that is not started
  // yet, with whatever was copied of its input snapshots, or one with a checkpoint or a finished file. A process opens
  // what the directory holds, works on it, and leaves what it wrote.

  import ArenaEvaluation
  import ArenaRecords
  import CampaignRanking
  import Materialization
  import opened Options

  type Files = Materialization.Files
  type Batch = ArenaEvaluation.Batch
  type Header = ArenaRecords.Header
  type Result = Materialization.Result

  datatype Stage = Training | Screening | Acceptance

  /** The campaign's inputs and the functions it is generic in: the restored source packages, the parameters applied to a
      file, what a preparation's checkpoint repeats, the part of a batch header that stands for the input fingerprints,
      the arena for it, what a summary says about failed baseline runs, and the value and constraints of a record. */
  datatype Env = Env(source: nat -> Files, names: nat -> seq<string>, rules: nat -> Option<string>, edited: seq<string>,
                     edit: string -> (string, string) -> Option<string>, digest: string -> string, validate: Files -> Option<string>,
                     plan: (Stage, string) -> string, seeds: Stage -> seq<nat>, faction: string,
                     context: seq<Materialization.Hashes> -> string, arena: string -> ArenaEvaluation.Env,
                     baselineFailed: string -> bool, score: (Stage, string, Option<string>) -> (real, seq<real>))

  /** `summary` is that of the batch, absent for an invalid candidate; `failures` are what the compiler has against the
      packages. */
  datatype Evidence = Evidence(stage: Stage, ordinal: nat, record: CampaignRanking.Record, summary: Option<string>,
                               failures: seq<Option<string>>)

  datatype BatchDisk = Absent | Unstarted(inputs: map<nat, Files>, runs: ArenaEvaluation.Files)
                     | Begun(inputs: map<nat, Files>, disk: ArenaEvaluation.Disk)
  datatype Disk = Disk(prepared: Materialization.Disk, batch: BatchDisk)

  datatype Stop = Killed | Refused | Failed

  /** What the checks of the configuration ensure, and an engine whose answers do not vary. */
  ghost predicate ValidEnv(env: Env) {
    && Materialization.ValidEnv(Preparation(env, ""))
    && env.faction != "" && (forall stage :: 1 <= |env.seeds(stage)| <= 1000 && ArenaRecords.Distinct(env.seeds(stage)))
    && (forall context :: ArenaEvaluation.Deterministic(env.arena(context)))
  }

  // ----- The undisturbed trial

  function Preparation(env: Env, params: string): Materialization.Env {
    Materialization.Env(env.source, env.names, env.rules, env.edited, env.edit(params), env.digest, env.validate)
  }

  function Fingerprints(result: Result): seq<Materialization.Hashes>
    requires |result.packages| == Materialization.PACKAGES
  {
    [result.packages[0].resolved, result.packages[1].resolved, result.packages[2].resolved, result.packages[3].resolved]
  }

  function Failures(result: Result): seq<Option<string>>
    requires |result.packages| == Materialization.PACKAGES
  {
    [result.packages[0].failure, result.packages[1].failure, result.packages[2].failure, result.packages[3].failure]
  }

  predicate BaselineValid(result: Result)
    requires |result.packages| == Materialization.PACKAGES
  {
    result.packages[0].failure.None? && result.packages[1].failure.None?
  }

  /** The mirrored package of each variant differs from the forward one. */
  predicate Mirrored(result: Result)
    requires |result.packages| == Materialization.PACKAGES
  {
    result.packages[0].resolved != result.packages[1].resolved && result.packages[2].resolved != result.packages[3].resolved
  }

  function HeaderOf(env: Env, stage: Stage, result: Result): Header
    requires |result.packages| == Materialization.PACKAGES
  {
    ArenaRecords.Header(env.context(Fingerprints(result)), env.seeds(stage), env.faction, None)
  }

  function ArenaOf(env: Env, header: Header): ArenaEvaluation.Env {
    env.arena(header.context)
  }

  ghost function BatchOf(env: Env, stage: Stage, result: Result): Option<Batch>
    requires |result.packages| == Materialization.PACKAGES
  {
    var header := HeaderOf(env, stage, result);
    if Mirrored(result) then ArenaEvaluation.Undisturbed(ArenaOf(env, header), header) else None
  }

  function EvidenceOf(env: Env, stage: Stage, ordinal: nat, params: string, result: Result, summary: Option<string>): Evidence
    requires |result.packages| == Materialization.PACKAGES
  {
    var score := env.score(stage, params, summary);
    Evidence(stage, ordinal, CampaignRanking.Record(params, score.0, score.1), summary, Failures(result))
  }

  /** What a trial without interruption finds: it depends on nothing but its prepared packages and its batch. `None` when
      it stops the campaign. */
  ghost function TrialOf(env: Env, stage: Stage, ordinal: nat, params: string): Option<Evidence> {
    var preparation := Preparation(env, params);
    if !Materialization.AllBuilt(preparation) then None
    else
      var result := Materialization.ResultOf(preparation, env.plan(stage, params));
      if !BaselineValid(result) then None
      else if !Materialization.IsValid(result) then Some(EvidenceOf(env, stage, ordinal, params, result, None))
      else
        match BatchOf(env, stage, result)
        case None => None
        case Some(batch) =>
          if env.baselineFailed(batch.summary) then None
          else Some(EvidenceOf(env, stage, ordinal, params, result, Some(batch.summary)))
  }

  /** What a trial finds, package by package. A baseline package that the compiler refuses stops the campaign. */
  lemma BaselineStops(env: Env, stage: Stage, ordinal: nat, params: string, result: Result)
    requires ValidEnv(env) && Materialization.IsResult(Preparation(env, params), env.plan(stage, params), result)
    requires result.packages[0].failure.Some? || result.packages[1].failure.Some?
    ensures TrialOf(env, stage, ordinal, params).None?
  {
    Materialization.ResultExactly(Preparation(env, params), env.plan(stage, params), result);
  }

  /** A candidate package that it refuses gives evidence, without a summary. */
  lemma CandidateRefused(env: Env, stage: Stage, ordinal: nat, params: string, result: Result)
    requires ValidEnv(env) && Materialization.IsResult(Preparation(env, params), env.plan(stage, params), result)
    requires result.packages[0].failure.None? && result.packages[1].failure.None?
    requires result.packages[2].failure.Some? || result.packages[3].failure.Some?
    ensures TrialOf(env, stage, ordinal, params).Some?
    ensures TrialOf(env, stage, ordinal, params).value.summary.None?
    ensures TrialOf(env, stage, ordinal, params).value.failures == [None, None, result.packages[2].failure, result.packages[3].failure]
  {
    Materialization.ResultExactly(Preparation(env, params), env.plan(stage, params), result);
    Materialization.ValidPackages(result);
  }

  /** A valid candidate is measured exactly if its mirrored packages differ, its batch can be finished and no baseline run
      failed. */
  lemma CandidateMeasured(env: Env, stage: Stage, ordinal: nat, params: string, result: Result)
    requires ValidEnv(env) && Materialization.IsResult(Preparation(env, params), env.plan(stage, params), result)
    requires forall i :: 0 <= i < 4 ==> result.packages[i].failure.None?
    ensures var batch := UndisturbedBatch(env, stage, result);
      TrialOf(env, stage, ordinal, params).Some? <==>
        && result.packages[0].resolved != result.packages[1].resolved && result.packages[2].resolved != result.packages[3].resolved
        && batch.Some? && !env.baselineFailed(batch.value.summary)
    ensures TrialOf(env, stage, ordinal, params).Some? ==>
      TrialOf(env, stage, ordinal, params).value.summary == Some(UndisturbedBatch(env, stage, result).value.summary)
  {
    Materialization.ResultExactly(Preparation(env, params), env.plan(stage, params), result);
    Materialization.ValidPackages(result);
    ValidTrial(env, stage, ordinal, params, result);
    BatchIs(env, stage, result);
    if TrialOf(env, stage, ordinal, params).Some? {
      assert TrialOf(env, stage, ordinal, params).value.summary == Some(BatchOf(env, stage, result).value.summary);
    }
  }

  lemma ValidTrial(env: Env, stage: Stage, ordinal: nat, params: string, result: Result)
    requires Materialization.AllBuilt(Preparation(env, params))
    requires result == Materialization.ResultOf(Preparation(env, params), env.plan(stage, params))
    requires BaselineValid(result) && Materialization.IsValid(result)
    ensures var batch := BatchOf(env, stage, result);
      TrialOf(env, stage, ordinal, params) ==
        if batch.Some? && !env.baselineFailed(batch.value.summary)
        then Some(EvidenceOf(env, stage, ordinal, params, result, Some(batch.value.summary))) else None
  {
  }

  lemma BatchIs(env: Env, stage: Stage, result: Result)
    requires |result.packages| == 4
    ensures BatchOf(env, stage, result) ==
      if result.packages[0].resolved != result.packages[1].resolved && result.packages[2].resolved != result.packages[3].resolved
      then UndisturbedBatch(env, stage, result) else None
  {
  }

  ghost function UndisturbedBatch(env: Env, stage: Stage, result: Result): Option<Batch>
    requires |result.packages| == 4
  {
    var digests := [result.packages[0].resolved, result.packages[1].resolved, result.packages[2].resolved, result.packages[3].resolved];
    ArenaEvaluation.Undisturbed(env.arena(env.context(digests)), ArenaRecords.Header(env.context(digests), env.seeds(stage), env.faction, None))
  }

  /** Evidence is about the trial it was asked for, and scores the parameters with the summary of its batch. */
  lemma EvidenceExactly(env: Env, stage: Stage, ordinal: nat, params: string)
    requires TrialOf(env, stage, ordinal, params).Some?
    ensures var e := TrialOf(env, stage, ordinal, params).value;
      && e.stage == stage && e.ordinal == ordinal && e.record.params == params
      && (e.record.value, e.record.constraints) == env.score(stage, params, e.summary)
  {
  }

  /** The plan and the file digests of an accepted candidate. */
  ghost function ExportOf(env: Env, params: string): Option<(string, seq<Materialization.Hashes>)> {
    var preparation := Preparation(env, params);
    if !Materialization.AllBuilt(preparation) then None
    else
      var result := Materialization.ResultOf(preparation, env.plan(Acceptance, params));
      Some((result.header, Fingerprints(result)))
  }

  // ----- The trial directory

  function OnDisk(packages: map<nat, Files>): nat -> Files {
    (i: nat) => if i in packages then packages[i] else map[]
  }

  ghost predicate HoldsBegun(env: Env, header: Header, disk: ArenaEvaluation.Disk) {
    exists log :: ArenaEvaluation.IsHistory(ArenaOf(env, header), disk, header, log)
  }

  /** The batch of a valid candidate: its snapshots come from the prepared packages, its results from the engine. */
  ghost predicate HoldsSnapshots(env: Env, stage: Stage, result: Result, packages: map<nat, Files>, batch: BatchDisk)
    requires |result.packages| == Materialization.PACKAGES
  {
    match batch
    case Absent => true
    case Unstarted(inputs, runs) => Mirrored(result) && runs == map[] && Materialization.IsRestoring(OnDisk(packages), inputs)
    case Begun(inputs, disk) =>
      && Mirrored(result) && Materialization.IsRestored(OnDisk(packages), inputs, Materialization.PACKAGES)
      && HoldsBegun(env, HeaderOf(env, stage, result), disk)
  }

  /** What a trial directory can hold between two processes. */
  ghost predicate HoldsTrial(env: Env, stage: Stage, params: string, disk: Disk) {
    var preparation, plan := Preparation(env, params), env.plan(stage, params);
    && Materialization.HoldsOutput(preparation, plan, disk.prepared, Materialization.Finished(disk.prepared))
    && (!disk.batch.Absent? ==>
          && Materialization.IsPrepared(preparation, plan, disk.prepared)
          && Materialization.IsValid(Materialization.ResultOf(preparation, plan))
          && HoldsSnapshots(env, stage, Materialization.ResultOf(preparation, plan), disk.prepared.packages, disk.batch))
  }

  const EMPTY := Disk(Materialization.Disk(false, None, map[], None, None), Absent)

  lemma EmptyHolds(env: Env, stage: Stage, params: string)
    ensures HoldsTrial(env, stage, params, EMPTY)
  {
  }

  // ----- Steps

  function PreparationSteps(env: Env): nat {
    2 + Materialization.StepsFrom(Preparation(env, ""), 0)
  }

  function BatchSteps(env: Env, stage: Stage): nat {
    2 + Materialization.RestoreSteps(env.names, 0) + 20 * |env.seeds(stage)| + 5
  }

  function TrialSteps(env: Env, stage: Stage): nat {
    PreparationSteps(env) + BatchSteps(env, stage)
  }

  lemma StepsOf(env: Env, params: string, i: nat)
    ensures Materialization.StepsFrom(Preparation(env, params), i) == Materialization.StepsFrom(Preparation(env, ""), i)
    decreases Materialization.PACKAGES - i
  {
    if i < Materialization.PACKAGES {
      StepsOf(env, params, i + 1);
    }
  }

  // ----- What a campaign uses

  /** What trials come to and cost, as values, so that the proofs about a campaign need not look into them. */
  datatype Findings = Findings(evidence: (Stage, nat, string) -> Option<Evidence>,
                               exported: string -> Option<(string, seq<Materialization.Hashes>)>, steps: Stage -> nat)

  ghost predicate AreFindings(env: Env, findings: Findings) {
    && (forall stage, ordinal, params {:trigger TrialOf(env, stage, ordinal, params)} ::
          findings.evidence(stage, ordinal, params) == TrialOf(env, stage, ordinal, params))
    && (forall stage, ordinal, params :: findings.evidence(stage, ordinal, params).Some? ==>
          && findings.evidence(stage, ordinal, params).value.ordinal == ordinal
          && findings.evidence(stage, ordinal, params).value.record.params == params)
    && (forall params {:trigger ExportOf(env, params)} :: findings.exported(params) == ExportOf(env, params))
    && (forall stage {:trigger TrialSteps(env, stage)} :: findings.steps(stage) == TrialSteps(env, stage))
  }

  ghost function FindingsOf(env: Env): (findings: Findings)
    ensures AreFindings(env, findings)
  {
    Findings((stage: Stage, ordinal: nat, params: string) => TrialOf(env, stage, ordinal, params),
             (params: string) => ExportOf(env, params), (stage: Stage) => TrialSteps(env, stage))
  }

  // ----- One process

  /** The preparation. A directory without a checkpoint is removed and created anew. */
  method Prepare(env: Env, stage: Stage, params: string, found: Materialization.Disk, life: nat)
    returns (stop: Option<Stop>, left: nat, prepared: Materialization.Disk, result: Result)
    requires ValidEnv(env)
    requires Materialization.HoldsOutput(Preparation(env, params), env.plan(stage, params), found, Materialization.Finished(found))
    ensures Materialization.HoldsOutput(Preparation(env, params), env.plan(stage, params), prepared, Materialization.Finished(prepared))
    ensures match stop
      case None =>
        && Materialization.IsPrepared(Preparation(env, params), env.plan(stage, params), prepared)
        && result == Materialization.ResultOf(Preparation(env, params), env.plan(stage, params))
        && left + PreparationSteps(env) >= life
      case Some(Killed) => life < PreparationSteps(env)
      case Some(reason) => reason == Failed && !Materialization.AllBuilt(Preparation(env, params))
    ensures Materialization.IsPrepared(Preparation(env, params), env.plan(stage, params), found) ==> prepared == found
  {
    var preparation, plan := Preparation(env, params), env.plan(stage, params);
    StepsOf(env, params, 0);
    Materialization.StepsShrink(preparation, Materialization.Finished(found));
    var output := new Materialization.Output.Open(if found.checkpoint.None? then found.(present := false) else found);
    var outcome;
    ghost var done;
    outcome, left, done := output.Materialize(preparation, plan, Materialization.Process(plan, life, {}), Materialization.Finished(found));
    prepared, result := output.Contents(), Materialization.Result(plan, []);
    assert done == Materialization.Finished(prepared);
    match outcome
    case Done(made) => return None, left, prepared, made;
    case Killed => return Some(Killed), left, prepared, result;
    case EditFailed(_) => return Some(Failed), left, prepared, result;
    case Refused => return Some(Refused), left, prepared, result;
    case Changed(_) => return Some(Failed), left, prepared, result;
  }

  /** `run_batch` or, when it was killed before its first checkpoint, `recover_unstarted_batch`: copy the packages, then
      publish the first checkpoint. */
  method StartBatch(env: Env, stage: Stage, result: Result, packages: map<nat, Files>, found: BatchDisk, life: nat)
    returns (stop: Option<Stop>, left: nat, batch: BatchDisk)
    requires ValidEnv(env) && |result.packages| == Materialization.PACKAGES && !found.Begun?
    requires HoldsSnapshots(env, stage, result, packages, found)
    requires forall i, name :: 0 <= i < Materialization.PACKAGES ==> (name in env.names(i) <==> name in OnDisk(packages)(i))
    ensures HoldsSnapshots(env, stage, result, packages, batch)
    ensures match stop
      case None => batch.Begun? && left + 2 + Materialization.RestoreSteps(env.names, 0) >= life
      case Some(Killed) => life < 2 + Materialization.RestoreSteps(env.names, 0)
      case Some(reason) => reason == Failed && BatchOf(env, stage, result).None?
  {
    left, batch := life, found;
    if batch.Absent? {
      if !Mirrored(result) {
        return Some(Failed), left, batch;
      }
      if left == 0 {
        return Some(Killed), left, batch;
      }
      left, batch := left - 1, Unstarted(map[], map[]);
    } else if batch.runs != map[] {
      return Some(Refused), left, batch;
    }
    var killed, inputs;
    killed, left, inputs := Materialization.RestoreAll(OnDisk(packages), env.names, batch.inputs, left);
    batch := Unstarted(inputs, map[]);
    if killed.Some? {
      return Some(Killed), left, batch;
    }
    var header := HeaderOf(env, stage, result);
    var arena := ArenaOf(env, header);
    var first := ArenaEvaluation.Started(arena, header);
    if arena.checkpointSize(first) > ArenaEvaluation.MAX_BYTES {
      ArenaEvaluation.CannotStart(arena, header);
      return Some(Failed), left, batch;
    }
    if left == 0 {
      return Some(Killed), left, batch;
    }
    var directory := new ArenaEvaluation.Directory(header, arena);
    batch := Begun(inputs, directory.Contents());
    ArenaEvaluation.HistoryStarts(arena, header);
    assert ArenaEvaluation.IsHistory(arena, directory.Contents(), header, []);
    return None, left - 1, batch;
  }

  /** `resume_batch` on the batch of this trial. */
  method ResumeBatch(env: Env, header: Header, found: ArenaEvaluation.Disk, life: nat)
    returns (stop: Option<Stop>, left: nat, disk: ArenaEvaluation.Disk, summary: string)
    requires ValidEnv(env) && HoldsBegun(env, header, found)
    ensures HoldsBegun(env, header, disk)
    ensures match stop
      case None =>
        && ArenaEvaluation.Undisturbed(ArenaOf(env, header), header).Some?
        && ArenaEvaluation.Undisturbed(ArenaOf(env, header), header).value.summary == summary
        && left + ArenaEvaluation.MostSteps(header) >= life
      case Some(Killed) => life < ArenaEvaluation.MostSteps(header)
      case Some(reason) => reason == Failed && ArenaEvaluation.Undisturbed(ArenaOf(env, header), header).None?
  {
    var arena := ArenaOf(env, header);
    ghost var log :| ArenaEvaluation.IsHistory(arena, found, header, log);
    var directory := new ArenaEvaluation.Directory.Open(found);
    var outcome;
    ghost var after;
    outcome, left, after := directory.ResumeHeld(arena, life, header, log);
    disk, summary := directory.Contents(), "";
    ArenaEvaluation.HistoryGoesOn(arena, found, header, log, disk, after, 0, directory.executions, ArenaEvaluation.Lost(outcome));
    ArenaEvaluation.DeterministicBatch(arena, disk, header, after, life, outcome);
    match outcome
    case Complete(batch) => return None, left, disk, batch.summary;
    case Killed => return Some(Killed), left, disk, summary;
    case _ => return Some(Failed), left, disk, summary;
  }

  /** The batch of a valid candidate, from whatever is there of it. */
  method RunBatch(env: Env, stage: Stage, result: Result, packages: map<nat, Files>, found: BatchDisk, life: nat)
    returns (stop: Option<Stop>, left: nat, batch: BatchDisk, summary: string)
    requires ValidEnv(env) && |result.packages| == Materialization.PACKAGES
    requires HoldsSnapshots(env, stage, result, packages, found)
    requires forall i, name :: 0 <= i < Materialization.PACKAGES ==> (name in env.names(i) <==> name in OnDisk(packages)(i))
    ensures HoldsSnapshots(env, stage, result, packages, batch)
    ensures match stop
      case None =>
        && BatchOf(env, stage, result).Some? && BatchOf(env, stage, result).value.summary == summary
        && left + BatchSteps(env, stage) >= life
      case Some(Killed) => life < BatchSteps(env, stage)
      case Some(reason) => reason == Failed && BatchOf(env, stage, result).None?
  {
    left, batch, summary := life, found, "";
    if !batch.Begun? {
      stop, left, batch := StartBatch(env, stage, result, packages, batch, left);
      if stop.Some? {
        return;
      }
    }
    var header := HeaderOf(env, stage, result);
    var disk;
    stop, left, disk, summary := ResumeBatch(env, header, batch.disk, left);
    batch := Begun(batch.inputs, disk);
  }

  /** A prepared directory has the names of the sources. */
  lemma PreparedNames(env: Env, params: string, plan: string, prepared: Materialization.Disk)
    requires ValidEnv(env) && Materialization.IsPrepared(Preparation(env, params), plan, prepared)
    ensures forall i, name :: 0 <= i < Materialization.PACKAGES ==> (name in env.names(i) <==> name in OnDisk(prepared.packages)(i))
  {
    var preparation := Preparation(env, params);
    forall i | 0 <= i < Materialization.PACKAGES
      ensures OnDisk(prepared.packages)(i).Keys == env.source(i).Keys
    {
      Materialization.BuiltKeys(preparation, i);
    }
    forall i, name | 0 <= i < Materialization.PACKAGES
      ensures name in env.names(i) <==> name in OnDisk(prepared.packages)(i)
    {
      assert name in OnDisk(prepared.packages)(i) <==> name in OnDisk(prepared.packages)(i).Keys;
      assert name in Preparation(env, "").names(i) <==> name in Preparation(env, "").source(i);
    }
  }

  /** What follows the preparation: the batch of a valid candidate, and the evidence. */
  method Measure(env: Env, stage: Stage, ordinal: nat, params: string, result: Result, packages: map<nat, Files>,
                 found: BatchDisk, life: nat)
    returns (stop: Option<Stop>, left: nat, batch: BatchDisk, evidence: Evidence)
    requires ValidEnv(env) && Materialization.AllBuilt(Preparation(env, params))
    requires result == Materialization.ResultOf(Preparation(env, params), env.plan(stage, params))
    requires HoldsSnapshots(env, stage, result, packages, found) && (found.Absent? || Materialization.IsValid(result))
    requires forall i, name :: 0 <= i < Materialization.PACKAGES ==> (name in env.names(i) <==> name in OnDisk(packages)(i))
    ensures HoldsSnapshots(env, stage, result, packages, batch) && (batch.Absent? || Materialization.IsValid(result))
    ensures match stop
      case None => TrialOf(env, stage, ordinal, params) == Some(evidence) && left + BatchSteps(env, stage) >= life
      case Some(Killed) => life < BatchSteps(env, stage)
      case Some(reason) => reason == Failed && TrialOf(env, stage, ordinal, params).None?
  {
    left, batch, evidence := life, found, Evidence(stage, ordinal, CampaignRanking.Record(params, 0.0, []), None, []);
    if !BaselineValid(result) {
      return Some(Failed), left, batch, evidence;
    }
    if !Materialization.IsValid(result) {
      return None, left, batch, EvidenceOf(env, stage, ordinal, params, result, None);
    }
    var summary;
    stop, left, batch, summary := RunBatch(env, stage, result, packages, found, left);
    if stop.Some? {
      return;
    }
    if env.baselineFailed(summary) {
      return Some(Failed), left, batch, evidence;
    }
    return None, left, batch, EvidenceOf(env, stage, ordinal, params, result, Some(summary));
  }

  /** A whole trial up to its evidence, from whatever killed processes left. */
  method RunTrial(env: Env, stage: Stage, ordinal: nat, params: string, found: Disk, life: nat)
    returns (stop: Option<Stop>, left: nat, disk: Disk, evidence: Evidence)
    requires ValidEnv(env) && HoldsTrial(env, stage, params, found)
    ensures HoldsTrial(env, stage, params, disk)
    ensures match stop
      case None =>
        && TrialOf(env, stage, ordinal, params) == Some(evidence) && left + TrialSteps(env, stage) >= life
        && Materialization.IsPrepared(Preparation(env, params), env.plan(stage, params), disk.prepared)
      case Some(Killed) => life < TrialSteps(env, stage)
      case Some(reason) => reason == Failed && TrialOf(env, stage, ordinal, params).None?
  {
    var prepared, result;
    stop, left, prepared, result := Prepare(env, stage, params, found.prepared, life);
    disk, evidence := Disk(prepared, found.batch), Evidence(stage, ordinal, CampaignRanking.Record(params, 0.0, []), None, []);
    if stop.Some? {
      return;
    }
    PreparedNames(env, params, env.plan(stage, params), prepared);
    var batch;
    stop, left, batch, evidence := Measure(env, stage, ordinal, params, result, prepared.packages, found.batch, left);
    disk := Disk(prepared, batch);
  }
}
