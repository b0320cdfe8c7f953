/** The write-ahead evaluation protocol of scripts/arena_evaluation.py. */
module ArenaEvaluation {
  // A batch directory holds partial.json, batch.json and the files of runs/. Every step that lasts (starting the
  // engine, writing one artifact, creating or renaming the named temporary file, removing the checkpoint) can be
  // the last one before the process is killed; `life` says how many such steps a process still has.

  import opened ArenaRecords
  import opened Options

  /** What a hash covers: the header, or one run after the previous chain value. */
  datatype Item = HeaderItem(header: Header) | RunItem(run: Run)

  datatype Pending = Pending(run: Run, sha256: string)
  datatype Progress = Progress(header: Header, completed: int, chain: string, pending: Option<Pending>)
  datatype Batch = Batch(header: Header, runs: seq<Run>, summary: string)

  /** The names that can occur in runs/; a file's content is what it parses to, if anything. */
  datatype FileName = RecordFile(identity: Identity) | PendingFile(identity: Identity) | OtherFile(name: string)
  type Files = map<FileName, Option<Run>>

  /** The functions the protocol is generic in: the hash of (previous, item), the encoded sizes of a record, a
      checkpoint and a batch, the summary of the runs, and what the n-th start of the engine yields, None when the
      executable changed meanwhile. */
  datatype Env = Env(hash: (string, Item) -> string, size: Run -> nat, checkpointSize: Progress -> nat, batchSize: Batch -> nat,
                     summarize: (seq<Run>, string) -> string, engine: (Identity, nat) -> Option<Result>)

  const MAX_BYTES: nat := 64 * 1024 * 1024

  datatype Outcome =
    | Complete(batch: Batch) | Killed | Rejected | InputsChanged | EngineRejected | Oversized | ArtifactTooLarge | RostersDiffer

  // ----- The chained checksum

  function Chain(env: Env, header: Header, runs: seq<Run>): string {
    if runs == [] then env.hash("", HeaderItem(header))
    else env.hash(Chain(env, header, runs[..|runs| - 1]), RunItem(runs[|runs| - 1]))
  }

  ghost predicate CollisionFree(env: Env) {
    forall p, x, q, y :: env.hash(p, x) == env.hash(q, y) ==> p == q && x == y
  }

  /** Without collisions a chain value stands for one header and one list of runs. */
  lemma {:induction false} ChainInjective(env: Env, h: Header, runs: seq<Run>, h': Header, runs': seq<Run>)
    requires CollisionFree(env) && Chain(env, h, runs) == Chain(env, h', runs')
    ensures h == h' && runs == runs'
    decreases |runs|
  {
    if runs != [] && runs' != [] {
      ChainInjective(env, h, runs[..|runs| - 1], h', runs'[..|runs'| - 1]);
      assert runs == runs[..|runs| - 1] + [runs[|runs| - 1]];
      assert runs' == runs'[..|runs'| - 1] + [runs'[|runs'| - 1]];
    }
  }

  function TotalSize(env: Env, runs: seq<Run>): nat {
    if runs == [] then 0 else TotalSize(env, runs[..|runs| - 1]) + env.size(runs[|runs| - 1])
  }

  // ----- What the directory holds at every moment

  function Ids(header: Header): (ids: seq<Identity>)
    ensures |ids| == 4 * |header.seeds|
  {
    Identities(header.seeds)
  }

  predicate ValidLog(header: Header, log: seq<Run>) {
    |log| <= |Ids(header)| && forall i :: 0 <= i < |log| ==> ValidRecord(header, Ids(header)[i], log[i])
  }

  predicate Permitted(name: FileName, ids: seq<Identity>, count: nat, hasPending: bool)
    requires count <= |ids| && (hasPending ==> count < |ids|)
  {
    || (exists i :: 0 <= i < count && name == RecordFile(ids[i]))
    || (hasPending && (name == RecordFile(ids[count]) || name == PendingFile(ids[count])))
  }

  /** The committed records, and at most the traces of publishing the next one. */
  ghost predicate FilesMatch(files: Files, ids: seq<Identity>, log: seq<Run>, count: nat)
    requires count <= |log| <= |ids| && |log| <= count + 1
  {
    && (forall i :: 0 <= i < count ==> RecordFile(ids[i]) in files && files[RecordFile(ids[i])] == Some(log[i]))
    && (forall name :: name in files ==> Permitted(name, ids, count, |log| > count))
    && (|log| > count && RecordFile(ids[count]) in files ==> files[RecordFile(ids[count])] == Some(log[count]))
  }

  function PendingOf(env: Env, chain: string, log: seq<Run>, count: nat): Option<Pending>
    requires count <= |log|
  {
    if |log| == count then None else Some(Pending(log[count], env.hash(chain, RunItem(log[count]))))
  }

  /** An interrupted batch: log is every result that reached the write-ahead entry, in order. */
  ghost predicate IsCheckpoint(env: Env, progress: Progress, files: Files, log: seq<Run>) {
    && ValidHeader(progress.header)
    && 0 <= progress.completed <= |log| <= progress.completed + 1
    && ValidLog(progress.header, log)
    && progress.chain == Chain(env, progress.header, log[..progress.completed])
    && progress.pending == PendingOf(env, progress.chain, log, progress.completed)
    && FilesMatch(files, Ids(progress.header), log, progress.completed)
    && TotalSize(env, log[..progress.completed]) <= MAX_BYTES && env.checkpointSize(progress) <= MAX_BYTES
  }

  /** The checkpoint with these results of which `count` are committed. */
  function CheckpointOf(env: Env, header: Header, log: seq<Run>, count: nat): Progress
    requires count <= |log|
  {
    var chain := Chain(env, header, log[..count]);
    Progress(header, count, chain, PendingOf(env, chain, log, count))
  }

  /** The committed records as the files give them; a checkpoint's log starts with them. */
  ghost predicate ReadsAs(progress: Progress, files: Files, runs: seq<Run>) {
    && |runs| <= |Ids(progress.header)|
    && forall i :: 0 <= i < |runs| ==>
        && RecordFile(Ids(progress.header)[i]) in files
        && files[RecordFile(Ids(progress.header)[i])] == Some(runs[i])
  }

  lemma ReadsOnce(env: Env, progress: Progress, files: Files, runs: seq<Run>, log: seq<Run>)
    requires IsCheckpoint(env, progress, files, log) && ReadsAs(progress, files, runs) && |runs| <= progress.completed
    ensures log[..|runs|] == runs
  {
  }

  /** The actors and factions a successful run reports. */
  function RosterAt(run: Run): Option<Roster> {
    if run.result.Ok? then RosterOf(run.result.report.participants) else None
  }

  /** Run i includes the evaluated faction and has the declared roster or, without one, that of the runs before it. */
  ghost predicate RunAgrees(header: Header, runs: seq<Run>, i: nat)
    requires i < |runs|
  {
    runs[i].result.Ok? ==>
      && RosterAt(runs[i]).Some? && header.faction in RosterAt(runs[i]).value.Values
      && (header.rosters.Some? ==> RosterAt(runs[i]) == Expected(header, runs[i].variant))
      && (header.rosters.None? ==> forall j :: 0 <= j < i && runs[j].result.Ok? ==> RosterAt(runs[j]) == RosterAt(runs[i]))
  }

  ghost predicate RostersAgree(header: Header, runs: seq<Run>) {
    forall i :: 0 <= i < |runs| ==> RunAgrees(header, runs, i)
  }

  /** A finished batch with exactly its records. */
  ghost predicate IsComplete(env: Env, batch: Batch, files: Files) {
    && ValidHeader(batch.header)
    && |batch.runs| == |Ids(batch.header)| && ValidLog(batch.header, batch.runs)
    && batch.summary == env.summarize(batch.runs, batch.header.faction)
    && RostersAgree(batch.header, batch.runs) && env.batchSize(batch) <= MAX_BYTES
    && (forall i :: 0 <= i < |batch.runs| ==>
        RecordFile(Ids(batch.header)[i]) in files && files[RecordFile(Ids(batch.header)[i])] == Some(batch.runs[i]))
    && (forall name :: name in files ==> Permitted(name, Ids(batch.header), |batch.runs|, false))
  }

  /** A directory holds at most one list of durable results. */
  lemma CheckpointUnique(env: Env, progress: Progress, files: Files, log: seq<Run>, other: seq<Run>)
    requires IsCheckpoint(env, progress, files, log) && IsCheckpoint(env, progress, files, other)
    ensures log == other
  {
    var count := progress.completed;
    ReadsOnce(env, progress, files, other[..count], log);
    assert log == log[..count] + log[count..] && other == other[..count] + other[count..];
  }

  // ----- Each lasting step keeps the directory recoverable

  lemma LogPending(env: Env, progress: Progress, files: Files, log: seq<Run>, run: Run)
    requires IsCheckpoint(env, progress, files, log) && |log| == progress.completed < |Ids(progress.header)|
    requires ValidRecord(progress.header, Ids(progress.header)[|log|], run)
    requires env.checkpointSize(CheckpointOf(env, progress.header, log + [run], |log|)) <= MAX_BYTES
    ensures var sha256 := env.hash(progress.chain, RunItem(run));
      IsCheckpoint(env, progress.(pending := Some(Pending(run, sha256))), files, log + [run])
  {
    WrittenAhead(env, progress, files, log, run);
    assert (log + [run])[..progress.completed] == log[..progress.completed];
    var ids := Ids(progress.header);
    if RecordFile(ids[|log|]) in files {
      var i :| 0 <= i < |log| && RecordFile(ids[|log|]) == RecordFile(ids[i]);
      IdentitiesDistinct(progress.header.seeds);
    }
  }

  /** What is written ahead. */
  lemma WrittenAhead(env: Env, progress: Progress, files: Files, log: seq<Run>, run: Run)
    requires IsCheckpoint(env, progress, files, log) && |log| == progress.completed
    ensures progress == CheckpointOf(env, progress.header, log, |log|)
    ensures progress.(pending := Some(Pending(run, env.hash(progress.chain, RunItem(run)))))
            == CheckpointOf(env, progress.header, log + [run], |log|)
  {
    assert log[..|log|] == log && (log + [run])[..|log|] == log;
  }

  /** What is committed. */
  lemma CommittedIs(env: Env, progress: Progress, files: Files, log: seq<Run>)
    requires IsCheckpoint(env, progress, files, log) && |log| == progress.completed + 1
    ensures Committed(env, progress, log[progress.completed]) == CheckpointOf(env, progress.header, log, |log|)
  {
    assert log[..|log|] == log && log[..|log| - 1] == log[..progress.completed];
  }

  lemma CreateTemporary(env: Env, progress: Progress, files: Files, log: seq<Run>)
    requires IsCheckpoint(env, progress, files, log) && |log| == progress.completed + 1
    ensures IsCheckpoint(env, progress, files[PendingFile(Ids(progress.header)[progress.completed]) := None], log)
  {
  }

  lemma PublishRecord(env: Env, progress: Progress, files: Files, log: seq<Run>)
    requires IsCheckpoint(env, progress, files, log) && |log| == progress.completed + 1
    ensures var id := Ids(progress.header)[progress.completed];
      IsCheckpoint(env, progress, (files - {PendingFile(id)})[RecordFile(id) := Some(log[progress.completed])], log)
  {
    IdentitiesDistinct(progress.header.seeds);
  }

  function Committed(env: Env, progress: Progress, run: Run): Progress {
    Progress(progress.header, progress.completed + 1, env.hash(progress.chain, RunItem(run)), None)
  }

  lemma Commit(env: Env, progress: Progress, files: Files, log: seq<Run>)
    requires IsCheckpoint(env, progress, files, log) && |log| == progress.completed + 1
    requires RecordFile(Ids(progress.header)[progress.completed]) in files
    requires PendingFile(Ids(progress.header)[progress.completed]) !in files
    requires TotalSize(env, log) <= MAX_BYTES
    requires env.checkpointSize(Committed(env, progress, log[progress.completed])) <= MAX_BYTES
    ensures IsCheckpoint(env, Committed(env, progress, log[progress.completed]), files, log)
  {
    assert log[..|log|] == log && log[..|log| - 1] == log[..progress.completed];
    CommitFiles(files, Ids(progress.header), log, progress.completed);
  }

  lemma CommitFiles(files: Files, ids: seq<Identity>, log: seq<Run>, count: nat)
    requires |log| == count + 1 <= |ids| && FilesMatch(files, ids, log, count)
    requires RecordFile(ids[count]) in files && PendingFile(ids[count]) !in files
    ensures FilesMatch(files, ids, log, count + 1)
  {
    forall name | name in files
      ensures Permitted(name, ids, count + 1, false)
    {
      assert Permitted(name, ids, count, true);
      if name == RecordFile(ids[count]) {
        assert 0 <= count < count + 1;
      }
    }
  }

  lemma Finish(env: Env, progress: Progress, files: Files, log: seq<Run>)
    requires IsCheckpoint(env, progress, files, log) && progress.completed == |Ids(progress.header)|
    requires RostersAgree(progress.header, log)
    requires env.batchSize(Batch(progress.header, log, env.summarize(log, progress.header.faction))) <= MAX_BYTES
    ensures IsComplete(env, Batch(progress.header, log, env.summarize(log, progress.header.faction)), files)
  {
  }

  // ----- What one run of the protocol may do

  /** The lasting steps of one loop iteration: two to obtain a result, three to publish it. */
  function StepsLeft(progress: Progress, log: seq<Run>): nat {
    if |log| == progress.completed then 5 else 3
  }

  /** The lasting steps until all results are committed. */
  function StepsToGo(header: Header, completed: int, logged: int): int {
    5 * (|Ids(header)| - logged) + 3 * (logged - completed)
  }

  /** The checkpoint before result `i` and the one that writes it ahead can be written. */
  ghost predicate FitsAt(env: Env, header: Header, log: seq<Run>, i: nat)
    requires i < |log|
  {
    && env.checkpointSize(CheckpointOf(env, header, log[..i], i)) <= MAX_BYTES
    && env.checkpointSize(CheckpointOf(env, header, log[..i + 1], i)) <= MAX_BYTES
  }

  /** Every added result is the engine's answer at one of the starts of this run, and its checkpoints could be written; at
      most `extra` starts were lost. */
  ghost predicate Advances(env: Env, header: Header, before: seq<Run>, after: seq<Run>, from: nat, to: nat, extra: nat) {
    && before <= after && |after| <= |Ids(header)|
    && from <= to <= from + |after| - |before| + extra
    && forall i :: |before| <= i < |after| ==> AnsweredBetween(env, Ids(header)[i], from, to, after[i]) && FitsAt(env, header, after, i)
  }

  ghost predicate AnsweredBetween(env: Env, id: Identity, from: nat, to: nat, run: Run) {
    exists n :: from <= n < to && Answers(env, id, n, run)
  }

  lemma AdvancesTrans(env: Env, header: Header, a: seq<Run>, b: seq<Run>, c: seq<Run>, from: nat, mid: nat, to: nat, extra: nat, more: nat)
    requires Advances(env, header, a, b, from, mid, extra) && Advances(env, header, b, c, mid, to, more)
    ensures Advances(env, header, a, c, from, to, extra + more)
  {
    forall i | |a| <= i < |c|
      ensures AnsweredBetween(env, Ids(header)[i], from, to, c[i]) && FitsAt(env, header, c, i)
    {
      if i < |b| {
        assert c[i] == b[i] && c[..i] == b[..i] && c[..i + 1] == b[..i + 1];
        assert AnsweredBetween(env, Ids(header)[i], from, mid, b[i]);
      } else {
        assert AnsweredBetween(env, Ids(header)[i], mid, to, c[i]);
      }
    }
  }

  ghost predicate Deterministic(env: Env) {
    forall id, m, n :: env.engine(id, m) == env.engine(id, n)
  }

  /** With a deterministic engine the results do not depend on where and how often a run was interrupted. */
  lemma DeterministicResults(env: Env, header: Header, before: seq<Run>, a: seq<Run>, b: seq<Run>,
                             from: nat, to: nat, extra: nat, from': nat, to': nat, extra': nat)
    requires Deterministic(env)
    requires Advances(env, header, before, a, from, to, extra) && Advances(env, header, before, b, from', to', extra')
    ensures a <= b || b <= a
  {
    forall i | 0 <= i < |a| && i < |b|
      ensures a[i] == b[i]
    {
      if i >= |before| {
        assert AnsweredBetween(env, Ids(header)[i], from, to, a[i]);
        assert AnsweredBetween(env, Ids(header)[i], from', to', b[i]);
      }
    }
  }

  /** A start is lost only when the process dies, or the result is refused, before it is written ahead. */
  function Lost(outcome: Outcome): nat {
    if outcome.Killed? || outcome.EngineRejected? || outcome.ArtifactTooLarge? then 1 else 0
  }

  /** With these results durable, what has to be written next cannot be: the next answer written ahead, the checkpoint
      that commits all of them, or the finished batch. */
  ghost predicate TooLargeAt(env: Env, header: Header, log: seq<Run>)
    requires |log| <= |Ids(header)|
  {
    || (exists n :: IsNextTooLarge(env, header, log, n))
    || env.checkpointSize(CheckpointOf(env, header, log, |log|)) > MAX_BYTES
    || (|log| == |Ids(header)| && env.batchSize(Batch(header, log, env.summarize(log, header.faction))) > MAX_BYTES)
  }

  ghost predicate IsNextTooLarge(env: Env, header: Header, log: seq<Run>, n: nat)
    requires |log| <= |Ids(header)|
  {
    && |log| < |Ids(header)| && Usable(env, header, Ids(header)[|log|], n)
    && var run := RunFor(Ids(header)[|log|], env.engine(Ids(header)[|log|], n).value);
       env.checkpointSize(CheckpointOf(env, header, log + [run], |log|)) > MAX_BYTES
  }

  /** That happened at these durable results or at earlier ones. */
  ghost predicate TooLarge(env: Env, header: Header, log: seq<Run>)
    requires |log| <= |Ids(header)|
  {
    exists k :: 0 <= k <= |log| && TooLargeAt(env, header, log[..k])
  }

  ghost predicate Answers(env: Env, id: Identity, n: nat, run: Run) {
    env.engine(id, n).Some? && run == RunFor(id, env.engine(id, n).value)
  }

  /** The batch of a full list of results whose rosters agree. */
  ghost predicate IsFinal(env: Env, header: Header, runs: seq<Run>, batch: Batch) {
    && batch == Batch(header, runs, env.summarize(runs, header.faction))
    && |runs| == |Ids(header)| && RostersAgree(header, runs)
  }

  /** Why a run ends: its batch is complete, its life was too short, or an exact condition on the results failed. */
  ghost predicate Stops(env: Env, header: Header, before: seq<Run>, after: seq<Run>, life: nat, batch: Option<Batch>, outcome: Outcome)
    requires |after| <= |Ids(header)|
  {
    match outcome
    case Complete(found) => batch == Some(found) && IsFinal(env, header, after, found)
    case Killed => life < 5 * (|Ids(header)| - |before|) + 5
    case EngineRejected => |after| < |Ids(header)| && exists n :: !Usable(env, header, Ids(header)[|after|], n)
    case Oversized => TotalSize(env, after) > MAX_BYTES
    case ArtifactTooLarge => TooLargeAt(env, header, after)
    case RostersDiffer => |after| == |Ids(header)| && !RostersAgree(header, after)
    case InputsChanged => true
    case Rejected => false
  }

  /** Why the loop over the encounters ends early, where `need` steps were to go. */
  ghost predicate Breaks(env: Env, header: Header, after: seq<Run>, life: nat, need: int, outcome: Outcome)
    requires |after| <= |Ids(header)|
  {
    match outcome
    case Killed => life < need
    case EngineRejected => |after| < |Ids(header)| && exists n :: !Usable(env, header, Ids(header)[|after|], n)
    case Oversized => TotalSize(env, after) > MAX_BYTES
    case ArtifactTooLarge => TooLargeAt(env, header, after)
    case _ => false
  }

  ghost predicate Usable(env: Env, header: Header, id: Identity, n: nat) {
    env.engine(id, n).Some? && ValidResult(header, id, env.engine(id, n).value)
  }

  /** All results are committed within the bounds. */
  ghost predicate Fitted(env: Env, header: Header, log: seq<Run>) {
    env.checkpointSize(CheckpointOf(env, header, log, |log|)) <= MAX_BYTES && TotalSize(env, log) <= MAX_BYTES
  }

  /** What a batch directory holds between two processes. */
  datatype Disk = Disk(partial: Option<Progress>, batch: Option<Batch>, files: Files)

  ghost predicate HoldsBatch(env: Env, disk: Disk, header: Header, log: seq<Run>) {
    if disk.batch.Some? then
      disk.batch.value.header == header && disk.batch.value.runs == log && IsComplete(env, disk.batch.value, disk.files)
    else
      disk.partial.Some? && disk.partial.value.header == header && IsCheckpoint(env, disk.partial.value, disk.files, log)
  }

  ghost predicate CanStart(env: Env, header: Header) {
    ValidHeader(header) && env.checkpointSize(Started(env, header)) <= MAX_BYTES
  }

  /** The first checkpoint of a batch. */
  function Started(env: Env, header: Header): Progress {
    Progress(header, 0, env.hash("", HeaderItem(header)), None)
  }

  class Directory {
    var partial: Option<Progress>
    var batch: Option<Batch>
    var files: Files
    /** How often the engine was started; kept by the model to count executions. */
    var executions: nat

    /** A directory whose first checkpoint is published. */
    constructor (header: Header, env: Env)
      ensures Contents() == Disk(Some(Started(env, header)), None, map[]) && executions == 0
      ensures CanStart(env, header) ==> Holds(env, header, [])
    {
      partial := Some(Started(env, header));
      batch := None;
      files := map[];
      executions := 0;
    }

    /** A directory that other processes left behind. */
    constructor Open(disk: Disk)
      ensures Contents() == disk && executions == 0
    {
      partial, batch, files, executions := disk.partial, disk.batch, disk.files, 0;
    }

    function Contents(): Disk
      reads this
    {
      Disk(partial, batch, files)
    }

    /** The directory belongs to the batch of this header, with exactly these durable results. */
    ghost predicate Holds(env: Env, header: Header, log: seq<Run>)
      reads this
    {
      HoldsBatch(env, Contents(), header, log)
    }


    /** The loop over the committed records. */
    method ReadCommitted(env: Env) returns (committed: Option<seq<Run>>, chain: string, retained: nat)
      requires partial.Some? && 0 <= partial.value.completed <= |Ids(partial.value.header)|
      ensures committed.Some? ==>
        && |committed.value| == partial.value.completed && ReadsAs(partial.value, files, committed.value)
        && ValidLog(partial.value.header, committed.value)
        && chain == Chain(env, partial.value.header, committed.value) && retained == TotalSize(env, committed.value)
      ensures committed.None? ==> forall log :: !IsCheckpoint(env, partial.value, files, log)
    {
      var progress := partial.value;
      var expected := Ids(progress.header);
      var runs: seq<Run> := [];
      chain, retained := env.hash("", HeaderItem(progress.header)), 0;
      for i := 0 to progress.completed
        invariant |runs| == i && ReadsAs(progress, files, runs) && ValidLog(progress.header, runs)
        invariant chain == Chain(env, progress.header, runs) && retained == TotalSize(env, runs)
      {
        var record := ReadRecord(progress.header, expected[i]);
        if record.None? {
          return None, chain, retained;
        }
        var run := record.value;
        retained := retained + env.size(run);
        chain := env.hash(chain, RunItem(run));
        runs := runs + [run];
        assert runs[..|runs| - 1] == runs[..i];
      }
      committed := Some(runs);
    }

    method ReadRecord(header: Header, identity: Identity) returns (run: Option<Run>)
      ensures run.Some? ==> RecordFile(identity) in files && files[RecordFile(identity)] == run && ValidRecord(header, identity, run.value)
      ensures run.None? ==> forall r :: ValidRecord(header, identity, r) && RecordFile(identity) in files ==> files[RecordFile(identity)] != Some(r)
    {
      var path := RecordFile(identity);
      if path !in files || files[path].None? || !ValidRecord(header, identity, files[path].value) {
        return None;
      }
      return files[path];
    }

    /** The checks of a resumed batch: they pass exactly for the states of an interrupted batch. */
    method ReadCheckpoint(env: Env) returns (loaded: Option<seq<Run>>)
      requires partial.Some?
      ensures loaded.Some? ==> IsCheckpoint(env, partial.value, files, loaded.value)
      ensures loaded.None? ==> forall log :: !IsCheckpoint(env, partial.value, files, log)
    {
      var progress := partial.value;
      if env.checkpointSize(progress) > MAX_BYTES || !ValidHeader(progress.header) || !(0 <= progress.completed <= |Ids(progress.header)|) {
        return None;
      }
      var expected, count := Ids(progress.header), progress.completed;
      var committed, chain, retained := ReadCommitted(env);
      if committed.None? {
        return None;
      }
      var runs := committed.value;
      if chain != progress.chain || retained > MAX_BYTES {
        forall log | IsCheckpoint(env, progress, files, log)
          ensures false
        {
          ReadsOnce(env, progress, files, runs, log);
        }
        return None;
      }
      var log := runs;
      if progress.pending.Some? {
        var pending := progress.pending.value;
        if env.hash(chain, RunItem(pending.run)) != pending.sha256 || count == |expected|
          || !ValidRecord(progress.header, expected[count], pending.run) {
          return None;
        }
        var path := RecordFile(expected[count]);
        if path in files && files[path] != Some(pending.run) {
          return None;
        }
        log := runs + [pending.run];
        assert log[..count] == runs;
      }
      if exists name :: name in files && !Permitted(name, expected, count, progress.pending.Some?) {
        return None;
      }
      assert log[..count] == runs;
      return Some(log);
    }

    /** The rosters of the successful runs, compared with the declared ones or with the one seen before. */
    method ValidateRosters(header: Header, runs: seq<Run>) returns (agree: bool)
      requires ValidHeader(header) && ValidLog(header, runs)
      ensures agree <==> RostersAgree(header, runs)
    {
      var first: Option<Roster> := None;
      for i := 0 to |runs|
        invariant forall j :: 0 <= j < i ==> RunAgrees(header, runs, j)
        invariant first.None? ==> forall j :: 0 <= j < i ==> !runs[j].result.Ok?
        invariant first.Some? ==> exists j :: 0 <= j < i && runs[j].result.Ok?
        invariant header.rosters.None? ==> forall j :: 0 <= j < i && runs[j].result.Ok? ==> RosterAt(runs[j]) == first
      {
        if runs[i].result.Ok? {
          assert ValidRecord(header, Ids(header)[i], runs[i]);
          var roster := RosterAt(runs[i]).value;
          assert runs[i].variant == Baseline || runs[i].variant == Candidate;
          var expected := if header.rosters.Some? then Expected(header, runs[i].variant) else first;
          if (expected.Some? && Some(roster) != expected) || header.faction !in roster.Values {
            assert !RunAgrees(header, runs, i);
            return false;
          }
          first := Some(roster);
        }
      }
      return true;
    }

    /** The checks of a batch that was already finished. */
    method LoadComplete(env: Env) returns (accepted: bool)
      requires batch.Some?
      ensures accepted <==> IsComplete(env, batch.value, files)
    {
      var found := batch.value;
      if env.batchSize(found) > MAX_BYTES || !ValidHeader(found.header) {
        return false;
      }
      var expected := Ids(found.header);
      if |found.runs| != |expected| || env.summarize(found.runs, found.header.faction) != found.summary {
        return false;
      }
      for i := 0 to |expected|
        invariant forall j :: 0 <= j < i ==>
          && ValidRecord(found.header, expected[j], found.runs[j])
          && RecordFile(expected[j]) in files && files[RecordFile(expected[j])] == Some(found.runs[j])
      {
        var path := RecordFile(expected[i]);
        if !ValidRecord(found.header, expected[i], found.runs[i]) || path !in files || files[path] != Some(found.runs[i]) {
          return false;
        }
      }
      if exists name :: name in files && !Permitted(name, expected, |expected|, false) {
        return false;
      }
      accepted := ValidateRosters(found.header, found.runs);
    }

    /** `resume_batch`, killed after `life` lasting steps. `before` and `after` are the durable results at the
        start and at the end. */
    method Resume(env: Env, intact: bool, stillIntact: bool, life: nat)
      returns (outcome: Outcome, left: nat, ghost header: Header, ghost before: seq<Run>, ghost after: seq<Run>)
      modifies this
      // Exactly the directories that do not hold a batch are rejected, and they are left alone.
      ensures outcome.Rejected? ==> unchanged(this) && forall h, log :: !old(Holds(env, h, log))
      ensures outcome.InputsChanged? ==> !intact || !stillIntact
      ensures !intact ==> unchanged(this) && (outcome.InputsChanged? || outcome.Rejected?)
      ensures intact && old(batch).Some? && !outcome.Rejected? ==> unchanged(this) && outcome == Complete(batch.value)
      ensures intact && !outcome.Rejected? ==>
        old(Holds(env, header, before)) && Holds(env, header, after) && before <= after
      // Progress: what a run adds, what it costs, and when it stops.
      ensures intact && !outcome.Rejected? ==> Advances(env, header, before, after, old(executions), executions, Lost(outcome))
      ensures intact && !outcome.Rejected? ==> Stops(env, header, before, after, life, batch, outcome)
      ensures old(batch).None? && batch.Some? ==> Fitted(env, header, after)
      ensures intact && outcome.Complete? ==> left + 5 * (|Ids(header)| - |before|) + 5 >= life
    {
      left := life;
      header, before, after := Header("", [], "", None), [], [];
      if batch.Some? {
        var accepted := LoadComplete(env);
        if !accepted {
          return Rejected, left, header, before, after;
        }
        if !intact {
          return InputsChanged, left, header, before, after;
        }
        header, before, after := batch.value.header, batch.value.runs, batch.value.runs;
        return Complete(batch.value), left, header, before, after;
      }
      if partial.None? {
        return Rejected, left, header, before, after;
      }
      var loaded := ReadCheckpoint(env);
      if loaded.None? {
        return Rejected, left, header, before, after;
      }
      if !intact {
        return InputsChanged, left, header, before, after;
      }
      header, before := partial.value.header, loaded.value;
      outcome, left, after := Continue(env, stillIntact, life, loaded.value);
    }

    /** An interrupted batch with these durable results, of which the last may still be pending. */
    ghost predicate Interrupted(env: Env, header: Header, log: seq<Run>)
      reads this
    {
      batch.None? && partial.Some? && partial.value.header == header && IsCheckpoint(env, partial.value, files, log)
    }

    /** Start the engine for the next encounter and write its result ahead. */
    method EvaluateNext(env: Env, life: nat, log: seq<Run>) returns (stop: Option<Outcome>, run: Run)
      requires partial.Some? && Interrupted(env, partial.value.header, log)
      requires partial.value.completed == |log| < |Ids(partial.value.header)|
      modifies this
      ensures var header := old(partial.value.header);
        && partial.Some? && partial.value.completed == |log|
        && Interrupted(env, header, if stop.None? then log + [run] else log)
        && old(executions) <= executions <= old(executions) + 1
        && match stop
           case None =>
             && life >= 2 && executions == old(executions) + 1 && Answers(env, Ids(header)[|log|], old(executions), run)
             && FitsAt(env, header, log + [run], |log|)
           case Some(Killed) => life < 2
           case Some(ArtifactTooLarge) => TooLargeAt(env, header, log)
           case Some(reason) => reason.EngineRejected? && !Usable(env, header, Ids(header)[|log|], old(executions))
    {
      var progress := partial.value;
      var identity := Ids(progress.header)[|log|];
      run := RunFor(identity, Failure("", None));
      if life == 0 {
        return Some(Killed), run;
      }
      var result := env.engine(identity, executions);
      executions := executions + 1;
      if result.None? {
        return Some(EngineRejected), run;
      }
      run := RunFor(identity, result.value);
      if !ValidRecord(progress.header, identity, run) {
        return Some(EngineRejected), run;
      }
      if life == 1 {
        return Some(Killed), run;
      }
      var next := progress.(pending := Some(Pending(run, env.hash(progress.chain, RunItem(run)))));
      WrittenAhead(env, progress, files, log, run);
      if env.checkpointSize(next) > MAX_BYTES {
        assert IsNextTooLarge(env, progress.header, log, executions - 1);
        return Some(ArtifactTooLarge), run;
      }
      LogPending(env, progress, files, log, run);
      assert (log + [run])[..|log|] == log && (log + [run])[..|log| + 1] == log + [run];
      partial := Some(next);
      return None, run;
    }

    /** Publish the pending result under its own name and commit it. */
    method PublishNext(env: Env, life: nat, retained: nat, log: seq<Run>) returns (stop: Option<Outcome>, size: nat)
      requires partial.Some? && Interrupted(env, partial.value.header, log)
      requires partial.value.completed + 1 == |log| && retained == TotalSize(env, log[..|log| - 1])
      modifies this
      ensures partial.Some? && Interrupted(env, old(partial.value.header), log) && executions == old(executions)
      ensures match stop
        case None => life >= 3 && partial.value.completed == |log| && size == TotalSize(env, log)
        case Some(Killed) => life < 3
        case Some(ArtifactTooLarge) => TooLargeAt(env, old(partial.value.header), log)
        case Some(reason) => reason.Oversized? && TotalSize(env, log) > MAX_BYTES
    {
      var progress := partial.value;
      var identity, run := Ids(progress.header)[progress.completed], log[progress.completed];
      size := retained;
      if life == 0 {
        return Some(Killed), size;
      }
      if env.size(run) > MAX_BYTES {
        return Some(Oversized), size;
      }
      CreateTemporary(env, progress, files, log);
      files := files[PendingFile(identity) := None];
      if life == 1 {
        return Some(Killed), size;
      }
      PublishRecord(env, progress, files, log);
      files := (files - {PendingFile(identity)})[RecordFile(identity) := Some(run)];
      size := retained + env.size(run);
      if size > MAX_BYTES {
        return Some(Oversized), size;
      }
      if life == 2 {
        return Some(Killed), size;
      }
      CommittedIs(env, progress, files, log);
      if env.checkpointSize(Committed(env, progress, run)) > MAX_BYTES {
        return Some(ArtifactTooLarge), size;
      }
      Commit(env, progress, files, log);
      partial := Some(Committed(env, progress, run));
      return None, size;
    }

    /** `finish_batch`: check the rosters, publish the batch and remove the checkpoint. */
    method FinishBatch(env: Env, life: nat, log: seq<Run>) returns (outcome: Outcome, left: nat)
      requires partial.Some? && Interrupted(env, partial.value.header, log)
      requires partial.value.completed == |log| == |Ids(partial.value.header)|
      modifies this
      ensures Holds(env, old(partial.value.header), log) && executions == old(executions)
      ensures batch.Some? ==> Fitted(env, old(partial.value.header), log)
      ensures match outcome
        case Complete(found) => batch == Some(found) && IsFinal(env, old(partial.value.header), log, found) && left + 2 == life
        case Killed => life < 2
        case ArtifactTooLarge => TooLargeAt(env, old(partial.value.header), log)
        case reason => reason.RostersDiffer? && !RostersAgree(old(partial.value.header), log)
    {
      left := life;
      var progress := partial.value;
      WrittenAhead(env, progress, files, log, RunFor(Identity(0, Forward, Baseline), Failure("", None)));
      assert log[..|log|] == log;
      var agree := ValidateRosters(progress.header, log);
      if !agree {
        return RostersDiffer, left;
      }
      if life == 0 {
        return Killed, left;
      }
      var finished := Batch(progress.header, log, env.summarize(log, progress.header.faction));
      if env.batchSize(finished) > MAX_BYTES {
        return ArtifactTooLarge, left;
      }
      Finish(env, progress, files, log);
      batch := Some(finished);
      if life == 1 {
        return Killed, left;
      }
      partial := None;
      return Complete(batch.value), left - 2;
    }

    /** The pending result of the next encounter: the one already written ahead, or a new one. */
    method Obtain(env: Env, life: nat, log: seq<Run>) returns (stop: Option<Outcome>, left: nat, next: seq<Run>)
      requires partial.Some? && Interrupted(env, partial.value.header, log)
      requires partial.value.completed < |Ids(partial.value.header)|
      modifies this
      ensures partial.Some? && Interrupted(env, old(partial.value.header), next)
      ensures partial.value.completed == old(partial.value.completed)
      ensures Advances(env, old(partial.value.header), log, next, old(executions), executions,
                       if stop.Some? then Lost(stop.value) else 0)
      ensures match stop
        case None => |next| == partial.value.completed + 1 && left + StepsLeft(old(partial.value), log) == life + 3
        case Some(Killed) => life < 2
        case Some(ArtifactTooLarge) => TooLargeAt(env, old(partial.value.header), next)
        case Some(reason) =>
          && reason.EngineRejected? && |next| == old(partial.value.completed)
          && !Usable(env, old(partial.value.header), Ids(old(partial.value.header))[|next|], old(executions))
    {
      stop, left, next := None, life, log;
      ghost var start := executions;
      if |log| == partial.value.completed {
        var run;
        stop, run := EvaluateNext(env, left, log);
        if stop.None? {
          next, left := log + [run], left - 2;
          assert Answers(env, Ids(partial.value.header)[|log|], start, run);
          assert AnsweredBetween(env, Ids(partial.value.header)[|log|], start, executions, run);
        }
      }
    }

    /** One iteration of the loop over the remaining encounters. */
    method Step(env: Env, life: nat, retained: nat, log: seq<Run>)
      returns (stop: Option<Outcome>, left: nat, size: nat, next: seq<Run>)
      requires partial.Some? && Interrupted(env, partial.value.header, log)
      requires partial.value.completed < |Ids(partial.value.header)|
      requires retained == TotalSize(env, log[..partial.value.completed])
      modifies this
      ensures partial.Some? && Interrupted(env, old(partial.value.header), next)
      ensures Advances(env, old(partial.value.header), log, next, old(executions), executions,
                       if stop.Some? then Lost(stop.value) else 0)
      ensures stop.None? ==>
        && partial.value.completed == old(partial.value.completed) + 1 == |next| && size == TotalSize(env, next)
        && left + StepsLeft(old(partial.value), log) == life
      ensures stop.Some? ==> Breaks(env, old(partial.value.header), next, life, StepsLeft(old(partial.value), log), stop.value)
    {
      size := retained;
      stop, left, next := Obtain(env, life, log);
      if stop.None? {
        assert next[..|next| - 1] == log[..partial.value.completed];
        stop, size := PublishNext(env, left, retained, next);
        if stop.None? {
          left := left - 3;
        }
      }
    }

    /** The loop over the remaining encounters. */
    method EvaluateAll(env: Env, life: nat, log: seq<Run>) returns (stop: Option<Outcome>, left: nat, after: seq<Run>)
      requires partial.Some? && Interrupted(env, partial.value.header, log)
      modifies this
      ensures partial.Some? && Interrupted(env, old(partial.value.header), after)
      ensures Advances(env, old(partial.value.header), log, after, old(executions), executions,
                       if stop.Some? then Lost(stop.value) else 0)
      ensures stop.None? ==> partial.value.completed == |after| == |Ids(old(partial.value.header))|
      ensures stop.None? ==> left + StepsToGo(old(partial.value.header), old(partial.value.completed), |log|) == life
      ensures stop.Some? ==> Breaks(env, old(partial.value.header), after, life,
                                    StepsToGo(old(partial.value.header), old(partial.value.completed), |log|), stop.value)
    {
      ghost var header := partial.value.header;
      ghost var start, need := executions, StepsToGo(partial.value.header, partial.value.completed, |log|);
      var expected := Ids(partial.value.header);
      stop, left, after := None, life, log;
      var retained := TotalSize(env, log[..partial.value.completed]);
      while partial.value.completed < |expected|
        invariant stop.None? && partial.Some? && Interrupted(env, header, after)
        invariant retained == TotalSize(env, after[..partial.value.completed])
        invariant Advances(env, header, log, after, start, executions, 0)
        invariant left + need == life + StepsToGo(header, partial.value.completed, |after|)
        decreases |expected| - partial.value.completed
      {
        ghost var rest := StepsToGo(header, partial.value.completed, |after|);
        ghost var before := left;
        stop, left, retained, after := StepOn(env, left, retained, after, header, log, start);
        if stop.Some? {
          LongerNeed(env, header, after, before, rest, life, need, stop.value);
          return;
        }
        assert after[..|after|] == after;
      }
    }

    /** One iteration, counted from the start of the loop. */
    method StepOn(env: Env, life: nat, retained: nat, log: seq<Run>, ghost header: Header, ghost before: seq<Run>, ghost start: nat)
      returns (stop: Option<Outcome>, left: nat, size: nat, next: seq<Run>)
      requires partial.Some? && Interrupted(env, header, log)
      requires partial.value.completed < |Ids(header)|
      requires retained == TotalSize(env, log[..partial.value.completed])
      requires Advances(env, header, before, log, start, executions, 0)
      modifies this
      ensures partial.Some? && Interrupted(env, header, next)
      ensures Advances(env, header, before, next, start, executions, if stop.Some? then Lost(stop.value) else 0)
      ensures stop.None? ==> partial.value.completed == old(partial.value.completed) + 1 == |next| && size == TotalSize(env, next)
      ensures stop.None? ==> left + StepsToGo(header, old(partial.value.completed), |log|)
                             == life + StepsToGo(header, partial.value.completed, |next|)
      ensures stop.Some? ==> Breaks(env, header, next, life, StepsToGo(header, old(partial.value.completed), |log|), stop.value)
    {
      ghost var mid, at := executions, partial.value;
      stop, left, size, next := Step(env, life, retained, log);
      AdvancesTrans(env, header, before, log, next, start, mid, executions, 0, if stop.Some? then Lost(stop.value) else 0);
      if stop.Some? {
        LongerNeed(env, header, next, life, StepsLeft(at, log), life, StepsToGo(header, at.completed, |log|), stop.value);
      }
    }

    lemma LongerNeed(env: Env, header: Header, after: seq<Run>, left: nat, rest: int, life: nat, need: int, outcome: Outcome)
      requires |after| <= |Ids(header)| && Breaks(env, header, after, left, rest, outcome) && life - need <= left - rest
      ensures Breaks(env, header, after, life, need, outcome)
    {
    }

    /** The rest of `resume_batch` after its checks: publish the pending result, then evaluate and publish the
        remaining encounters one by one, and finish the batch. */
    method Continue(env: Env, stillIntact: bool, life: nat, log: seq<Run>)
      returns (outcome: Outcome, left: nat, ghost after: seq<Run>)
      requires partial.Some? && Interrupted(env, partial.value.header, log)
      modifies this
      ensures Holds(env, old(partial.value.header), after)
      ensures Advances(env, old(partial.value.header), log, after, old(executions), executions, Lost(outcome))
      ensures Stops(env, old(partial.value.header), log, after, life, batch, outcome)
      ensures batch.Some? ==> Fitted(env, old(partial.value.header), after)
      ensures outcome.InputsChanged? ==> !stillIntact
      ensures !outcome.Rejected?
      ensures outcome.Complete? ==> left + 5 * (|Ids(old(partial.value.header))| - |log|) + 5 >= life
    {
      var stop, runs;
      stop, left, runs := EvaluateAll(env, life, log);
      after := runs;
      if stop.Some? {
        return stop.value, left, runs;
      }
      if !stillIntact {
        return InputsChanged, left, runs;
      }
      outcome, left := FinishBatch(env, left, runs);
    }

    /** Any number of processes on one directory, one after the other, each killed after its own number of lasting
        steps: none rejects what another left behind, the durable results only grow, and every completed batch
        consists of exactly those results. */
    method Operate(env: Env, lives: seq<nat>, ghost header: Header, ghost log: seq<Run>)
      returns (outcomes: seq<Outcome>, ghost after: seq<Run>)
      requires Holds(env, header, log)
      modifies this
      ensures |outcomes| == |lives| && Holds(env, header, after)
      ensures old(batch).None? && batch.Some? ==> Fitted(env, header, after)
      ensures Advances(env, header, log, after, old(executions), executions, TotalLost(outcomes))
      ensures AreExplained(env, header, after, batch.Some?, lives, outcomes)
    {
      outcomes, after := [], log;
      ghost var start := executions;
      for k := 0 to |lives|
        invariant |outcomes| == k && Holds(env, header, after)
        invariant old(batch).None? && batch.Some? ==> Fitted(env, header, after)
        invariant Advances(env, header, log, after, start, executions, TotalLost(outcomes))
        invariant AreExplained(env, header, after, batch.Some?, lives, outcomes)
      {
        ghost var mid, sofar, finished := executions, after, batch.Some?;
        var outcome, left;
        outcome, left, after := ResumeHeld(env, lives[k], header, sofar);
        AdvancesTrans(env, header, log, sofar, after, start, mid, executions, TotalLost(outcomes), Lost(outcome));
        NextExplained(env, header, sofar, finished, after, batch.Some?, lives, outcomes, outcome);
        OneMoreLost(outcomes, outcome);
        outcomes := outcomes + [outcome];
      }
    }

    /** One process on a directory that holds a batch. */
    method ResumeHeld(env: Env, life: nat, ghost header: Header, ghost log: seq<Run>)
      returns (outcome: Outcome, left: nat, ghost after: seq<Run>)
      requires Holds(env, header, log)
      modifies this
      ensures Holds(env, header, after)
      ensures Advances(env, header, log, after, old(executions), executions, Lost(outcome))
      ensures Explained(env, header, after, life, outcome)
      ensures old(batch).Some? ==> after == log && unchanged(this)
      ensures old(batch).None? && batch.Some? ==> Fitted(env, header, after)
      ensures outcome.Complete? ==> batch.Some?
      ensures outcome.Complete? ==> left + MostSteps(header) >= life
    {
      forall h, l | Holds(env, h, l)
        ensures h == header && l == log
      {
        HoldsUnique(env, h, l, header, log);
      }
      ghost var h, before;
      outcome, left, h, before, after := Resume(env, true, true, life);
      StopsExplained(env, header, log, after, life, batch, outcome);
    }

    lemma HoldsUnique(env: Env, header: Header, log: seq<Run>, header': Header, log': seq<Run>)
      requires Holds(env, header, log) && Holds(env, header', log')
      ensures header == header' && log == log'
    {
      if batch.None? {
        CheckpointUnique(env, partial.value, files, log, log');
      }
    }
  }

  lemma StopsExplained(env: Env, header: Header, before: seq<Run>, after: seq<Run>, life: nat, batch: Option<Batch>, outcome: Outcome)
    requires |before| <= |Ids(header)| && |after| <= |Ids(header)|
    requires Stops(env, header, before, after, life, batch, outcome) && !outcome.InputsChanged?
    ensures Explained(env, header, after, life, outcome)
  {
    assert after[..|after|] == after;
  }

  lemma {:induction false} TotalSizeGrows(env: Env, a: seq<Run>, b: seq<Run>)
    requires a <= b
    ensures TotalSize(env, a) <= TotalSize(env, b)
    decreases |b|
  {
    if a == b {
    } else {
      TotalSizeGrows(env, a, b[..|b| - 1]);
    }
  }

  lemma ExplainedGrows(env: Env, header: Header, a: seq<Run>, b: seq<Run>, life: nat, outcome: Outcome)
    requires a <= b && |b| <= |Ids(header)| && Explained(env, header, a, life, outcome)
    ensures Explained(env, header, b, life, outcome)
  {
    TotalSizeGrows(env, a, b);
    if outcome.ArtifactTooLarge? {
      var k :| 0 <= k <= |a| && TooLargeAt(env, header, a[..k]);
      assert b[..k] == a[..k];
    }
    if |a| == |Ids(header)| {
      assert a == b;
    }
  }

  /** Every process so far is explained, and a completed batch is still there. */
  ghost predicate AreExplained(env: Env, header: Header, log: seq<Run>, finished: bool, lives: seq<nat>, outcomes: seq<Outcome>) {
    && |log| <= |Ids(header)| && |outcomes| <= |lives|
    && forall i :: 0 <= i < |outcomes| ==> Explained(env, header, log, lives[i], outcomes[i]) && (outcomes[i].Complete? ==> finished)
  }

  /** One more process. */
  lemma NextExplained(env: Env, header: Header, a: seq<Run>, f: bool, b: seq<Run>, g: bool, lives: seq<nat>, outcomes: seq<Outcome>, outcome: Outcome)
    requires AreExplained(env, header, a, f, lives, outcomes) && |outcomes| < |lives|
    requires a <= b && |b| <= |Ids(header)| && (f ==> g)
    requires Explained(env, header, b, lives[|outcomes|], outcome) && (outcome.Complete? ==> g)
    ensures AreExplained(env, header, b, g, lives, outcomes + [outcome])
  {
    var all := outcomes + [outcome];
    forall i | 0 <= i < |all|
      ensures Explained(env, header, b, lives[i], all[i]) && (all[i].Complete? ==> g)
    {
      if i < |outcomes| {
        ExplainedGrows(env, header, a, b, lives[i], outcomes[i]);
      }
    }
  }

  lemma OneMoreLost(outcomes: seq<Outcome>, outcome: Outcome)
    ensures TotalLost(outcomes + [outcome]) == TotalLost(outcomes) + Lost(outcome)
  {
    assert (outcomes + [outcome])[..|outcomes|] == outcomes;
  }

  function TotalLost(outcomes: seq<Outcome>): nat {
    if outcomes == [] then 0 else TotalLost(outcomes[..|outcomes| - 1]) + Lost(outcomes[|outcomes| - 1])
  }

  /** How a process ends on a directory that belongs to a batch. */
  ghost predicate Explained(env: Env, header: Header, after: seq<Run>, life: nat, outcome: Outcome)
    requires |after| <= |Ids(header)|
  {
    match outcome
    case Complete(found) => IsFinal(env, header, after, found)
    case Killed => life < MostSteps(header)
    case EngineRejected => exists i, n :: 0 <= i <= |after| && i < |Ids(header)| && !Usable(env, header, Ids(header)[i], n)
    case Oversized => TotalSize(env, after) > MAX_BYTES
    case ArtifactTooLarge => TooLarge(env, header, after)
    case RostersDiffer => |after| == |Ids(header)| && !RostersAgree(header, after)
    case _ => false
  }

  /** The lasting steps of a whole batch. */
  function MostSteps(header: Header): nat {
    5 * |Ids(header)| + 5
  }

  // ----- Which batch it is, and when it is finished

  /** Every answer of the engine can be recorded, and nothing that has to be written is too large. */
  ghost predicate Unhindered(env: Env, header: Header, log: seq<Run>)
    requires |log| <= |Ids(header)|
  {
    && (forall i, n :: 0 <= i < |Ids(header)| ==> Usable(env, header, Ids(header)[i], n))
    && TotalSize(env, log) <= MAX_BYTES && !TooLarge(env, header, log)
  }

  /** An unhindered process that may take all its steps finishes its batch if and only if the rosters agree. */
  lemma FinishedExactly(env: Env, header: Header, after: seq<Run>, life: nat, outcome: Outcome)
    requires |after| <= |Ids(header)| && Explained(env, header, after, life, outcome)
    requires Unhindered(env, header, after) && life >= MostSteps(header)
    ensures outcome == if RostersAgree(header, after) then Complete(Batch(header, after, env.summarize(after, header.faction)))
                       else RostersDiffer
  {
  }

  /** The engine's first `n` answers, when all of them can be recorded. */
  ghost function AnswersOf(env: Env, header: Header, n: nat): Option<seq<Run>>
    requires n <= |Ids(header)|
  {
    if n == 0 then Some([])
    else
      match AnswersOf(env, header, n - 1)
      case None => None
      case Some(before) =>
        var id := Ids(header)[n - 1];
        if Usable(env, header, id, 0) then Some(before + [RunFor(id, env.engine(id, 0).value)]) else None
  }

  /** After these answers something is too large to go on. */
  ghost predicate Exceeds(env: Env, header: Header, log: seq<Run>)
    requires |log| <= |Ids(header)|
  {
    TooLargeAt(env, header, log) || TotalSize(env, log) > MAX_BYTES
  }

  /** Nothing that has to be written is too large. */
  ghost predicate Fits(env: Env, header: Header, log: seq<Run>)
    requires |log| <= |Ids(header)|
  {
    forall k :: 0 <= k <= |log| ==> !Exceeds(env, header, log[..k])
  }

  /** The batch of a process that is never interrupted, with an engine whose answers never vary; `None` when there is an
      answer that cannot be recorded, something is too large or the rosters differ. */
  ghost function Undisturbed(env: Env, header: Header): Option<Batch> {
    match AnswersOf(env, header, |Ids(header)|)
    case None => None
    case Some(runs) =>
      if |runs| == |Ids(header)| && Fits(env, header, runs) && RostersAgree(header, runs)
      then Some(Batch(header, runs, env.summarize(runs, header.faction)))
      else None
  }

  /** These durable results are the engine's answers. */
  ghost predicate AreAnswers(env: Env, header: Header, log: seq<Run>) {
    |log| <= |Ids(header)| && AnswersOf(env, header, |log|) == Some(log)
  }

  /** Results stay the engine's answers, however they were obtained. */
  lemma AnswersAdvance(env: Env, header: Header, before: seq<Run>, after: seq<Run>, from: nat, to: nat, extra: nat)
    requires Deterministic(env) && Advances(env, header, before, after, from, to, extra)
    requires AreAnswers(env, header, before) && ValidLog(header, after)
    ensures AreAnswers(env, header, after)
  {
    forall i | |before| <= i < |after|
      ensures Usable(env, header, Ids(header)[i], 0) && after[i] == RunFor(Ids(header)[i], env.engine(Ids(header)[i], 0).value)
    {
      assert AnsweredBetween(env, Ids(header)[i], from, to, after[i]) && ValidRecord(header, Ids(header)[i], after[i]);
      FirstAnswer(env, header, Ids(header)[i], from, to, after[i]);
    }
    AnswersFollow(env, header, before, after);
  }

  lemma {:induction false} AnswersFollow(env: Env, header: Header, before: seq<Run>, after: seq<Run>)
    requires AreAnswers(env, header, before) && before <= after && |after| <= |Ids(header)|
    requires forall i :: |before| <= i < |after| ==>
      Usable(env, header, Ids(header)[i], 0) && after[i] == RunFor(Ids(header)[i], env.engine(Ids(header)[i], 0).value)
    ensures AreAnswers(env, header, after)
    decreases |after|
  {
    if |before| < |after| {
      var last := |after| - 1;
      AnswersFollow(env, header, before, after[..last]);
      assert after == after[..last] + [after[last]];
    } else {
      assert after == before;
    }
  }

  lemma FirstAnswer(env: Env, header: Header, id: Identity, from: nat, to: nat, run: Run)
    requires Deterministic(env) && AnsweredBetween(env, id, from, to, run) && ValidRecord(header, id, run)
    ensures Usable(env, header, id, 0) && run == RunFor(id, env.engine(id, 0).value)
  {
    var n :| from <= n < to && Answers(env, id, n, run);
    assert env.engine(id, n) == env.engine(id, 0);
  }

  lemma {:induction false} AnswersStop(env: Env, header: Header, m: nat, n: nat)
    requires m <= n <= |Ids(header)| && AnswersOf(env, header, m).None?
    ensures AnswersOf(env, header, n).None?
    decreases n
  {
    if m < n {
      AnswersStop(env, header, m, n - 1);
    }
  }

  lemma {:induction false} AnswersPrefix(env: Env, header: Header, m: nat, n: nat)
    requires m <= n <= |Ids(header)| && AnswersOf(env, header, n).Some?
    ensures |AnswersOf(env, header, n).value| == n && AnswersOf(env, header, m) == Some(AnswersOf(env, header, n).value[..m])
    decreases n
  {
    if m < n {
      AnswersPrefix(env, header, m, n - 1);
      assert AnswersOf(env, header, n).value[..m] == AnswersOf(env, header, n - 1).value[..m];
    } else if n > 0 {
      AnswersPrefix(env, header, n - 1, n - 1);
      assert AnswersOf(env, header, n).value[..n] == AnswersOf(env, header, n).value;
    }
  }

  /** What a process that was not killed says about the undisturbed batch: it completes that one, or there is none. */
  ghost predicate Foretold(env: Env, header: Header, outcome: Outcome) {
    match outcome
    case Complete(found) => Undisturbed(env, header) == Some(found)
    case Killed => true
    case _ => Undisturbed(env, header).None?
  }

  /** The results of a history: the engine's answers, all written within the bounds, and committed so when the batch is
      finished. */
  ghost predicate IsHistory(env: Env, disk: Disk, header: Header, log: seq<Run>) {
    && HoldsBatch(env, disk, header, log) && AreAnswers(env, header, log)
    && env.checkpointSize(Started(env, header)) <= MAX_BYTES
    && (forall i :: 0 <= i < |log| ==> FitsAt(env, header, log, i))
    && (disk.batch.Some? ==> Fitted(env, header, log))
  }

  lemma HistoryStarts(env: Env, header: Header)
    requires CanStart(env, header)
    ensures IsHistory(env, Disk(Some(Started(env, header)), None, map[]), header, [])
  {
  }

  /** Without room for its first checkpoint a batch has no history. */
  lemma CannotStart(env: Env, header: Header)
    requires env.checkpointSize(Started(env, header)) > MAX_BYTES
    ensures Undisturbed(env, header).None?
  {
    if AnswersOf(env, header, |Ids(header)|).Some? {
      var runs := AnswersOf(env, header, |Ids(header)|).value;
      AnswersPrefix(env, header, |Ids(header)|, |Ids(header)|);
      assert runs[..0] == [] && CheckpointOf(env, header, [], 0) == Started(env, header);
      assert Exceeds(env, header, runs[..0]);
    }
  }

  /** Processes continue a history. */
  lemma HistoryGoesOn(env: Env, disk: Disk, header: Header, before: seq<Run>, disk': Disk, after: seq<Run>, from: nat, to: nat, extra: nat)
    requires Deterministic(env) && IsHistory(env, disk, header, before) && HoldsBatch(env, disk', header, after)
    requires Advances(env, header, before, after, from, to, extra)
    requires disk'.batch.Some? ==> Fitted(env, header, after) || (disk.batch.Some? && after == before)
    ensures IsHistory(env, disk', header, after)
  {
    HoldsValid(env, disk', header, after);
    AnswersAdvance(env, header, before, after, from, to, extra);
    FitsOn(env, header, before, after, from, to, extra);
  }

  lemma HoldsValid(env: Env, disk: Disk, header: Header, log: seq<Run>)
    requires HoldsBatch(env, disk, header, log)
    ensures ValidLog(header, log)
  {
  }

  lemma FitsOn(env: Env, header: Header, before: seq<Run>, after: seq<Run>, from: nat, to: nat, extra: nat)
    requires Advances(env, header, before, after, from, to, extra)
    requires forall i :: 0 <= i < |before| ==> FitsAt(env, header, before, i)
    ensures forall i :: 0 <= i < |after| ==> FitsAt(env, header, after, i)
  {
    forall i | 0 <= i < |after|
      ensures FitsAt(env, header, after, i)
    {
      if i < |before| {
        assert FitsAt(env, header, before, i);
        assert after[..i] == before[..i] && after[..i + 1] == before[..i + 1];
      }
    }
  }

  /** Nothing in the history of a finished batch was too large. */
  lemma FinishedFits(env: Env, disk: Disk, header: Header, log: seq<Run>)
    requires Deterministic(env) && IsHistory(env, disk, header, log) && disk.batch.Some?
    ensures |log| <= |Ids(header)| && Fits(env, header, log)
  {
    forall k | 0 <= k <= |log|
      ensures !Exceeds(env, header, log[..k])
    {
      TotalSizeGrows(env, log[..k], log);
      if k < |log| {
        WritesFit(env, disk, header, log, k);
      } else {
        assert log[..k] == log;
        LastFits(env, disk, header, log);
      }
    }
  }

  lemma LastFits(env: Env, disk: Disk, header: Header, log: seq<Run>)
    requires IsHistory(env, disk, header, log) && disk.batch.Some?
    ensures |log| == |Ids(header)| && !TooLargeAt(env, header, log)
  {
  }

  lemma WritesFit(env: Env, disk: Disk, header: Header, log: seq<Run>, k: nat)
    requires Deterministic(env) && IsHistory(env, disk, header, log) && k < |log|
    ensures |log| <= |Ids(header)| && !TooLargeAt(env, header, log[..k])
  {
    assert FitsAt(env, header, log, k);
    AnswersPrefix(env, header, k, |log|);
    AnswersPrefix(env, header, k + 1, |log|);
    assert log[..k + 1] == log[..k] + [log[k]];
    forall n
      ensures !IsNextTooLarge(env, header, log[..k], n)
    {
      assert env.engine(Ids(header)[k], n) == env.engine(Ids(header)[k], 0);
    }
  }

  /** With a deterministic engine every finished batch is the undisturbed one, runs and summary, wherever and however
      often it was interrupted; and a process with all its steps finishes it exactly when there is one. */
  lemma DeterministicBatch(env: Env, disk: Disk, header: Header, after: seq<Run>, life: nat, outcome: Outcome)
    requires Deterministic(env) && IsHistory(env, disk, header, after) && (outcome.Complete? ==> disk.batch.Some?)
    requires |after| <= |Ids(header)| && Explained(env, header, after, life, outcome)
    ensures Foretold(env, header, outcome)
    ensures life >= MostSteps(header) ==> (outcome.Complete? <==> Undisturbed(env, header).Some?)
  {
    match outcome
    case Complete(found) =>
      FinishedIs(env, disk, header, after, found);
    case EngineRejected =>
      RejectedEver(env, header, after);
    case Oversized =>
      assert after[..|after|] == after;
      NotUndisturbed(env, header, after, |after|);
    case ArtifactTooLarge =>
      var k :| 0 <= k <= |after| && TooLargeAt(env, header, after[..k]);
      NotUndisturbed(env, header, after, k);
    case RostersDiffer =>
      DifferingEver(env, header, after);
    case _ =>
  }

  lemma FinishedIs(env: Env, disk: Disk, header: Header, log: seq<Run>, found: Batch)
    requires Deterministic(env) && IsHistory(env, disk, header, log) && disk.batch.Some? && IsFinal(env, header, log, found)
    ensures Undisturbed(env, header) == Some(found)
  {
    FinishedFits(env, disk, header, log);
    assert AnswersOf(env, header, |Ids(header)|) == Some(log);
  }

  lemma DifferingEver(env: Env, header: Header, log: seq<Run>)
    requires AreAnswers(env, header, log) && |log| == |Ids(header)| && !RostersAgree(header, log)
    ensures Undisturbed(env, header).None?
  {
    assert AnswersOf(env, header, |Ids(header)|) == Some(log);
  }

  lemma RejectedEver(env: Env, header: Header, log: seq<Run>)
    requires Deterministic(env)
    requires exists i, n :: 0 <= i <= |log| && i < |Ids(header)| && !Usable(env, header, Ids(header)[i], n)
    ensures Undisturbed(env, header).None?
  {
    var i, n :| 0 <= i <= |log| && i < |Ids(header)| && !Usable(env, header, Ids(header)[i], n);
    assert env.engine(Ids(header)[i], n) == env.engine(Ids(header)[i], 0);
    assert AnswersOf(env, header, i + 1).None?;
    AnswersStop(env, header, i + 1, |Ids(header)|);
  }

  lemma NotUndisturbed(env: Env, header: Header, log: seq<Run>, k: nat)
    requires AreAnswers(env, header, log) && k <= |log| && Exceeds(env, header, log[..k])
    ensures Undisturbed(env, header).None?
  {
    if AnswersOf(env, header, |Ids(header)|).Some? {
      var runs := AnswersOf(env, header, |Ids(header)|).value;
      AnswersPrefix(env, header, |log|, |Ids(header)|);
      assert runs[..|log|] == log;
      assert runs[..k] == log[..k];
    }
  }

  /** The whole history of a batch: from its first checkpoint, any number of processes. */
  method History(env: Env, header: Header, lives: seq<nat>) returns (outcomes: seq<Outcome>, ghost after: seq<Run>)
    requires CanStart(env, header)
    ensures |outcomes| == |lives| && |after| <= |Ids(header)|
    ensures forall k :: 0 <= k < |lives| ==> Explained(env, header, after, lives[k], outcomes[k])
    ensures Deterministic(env) ==> AreAnswers(env, header, after)
    ensures Deterministic(env) ==> forall k :: 0 <= k < |lives| ==>
              && Foretold(env, header, outcomes[k])
              && (lives[k] >= MostSteps(header) ==> (outcomes[k].Complete? <==> Undisturbed(env, header).Some?))
  {
    var directory := new Directory(header, env);
    outcomes, after := directory.Operate(env, lives, header, []);
    if Deterministic(env) {
      HistoryStarts(env, header);
      HistoryGoesOn(env, Disk(Some(Started(env, header)), None, map[]), header, [], directory.Contents(), after,
                    0, directory.executions, TotalLost(outcomes));
      AllForetold(env, directory.Contents(), header, after, lives, outcomes);
    }
  }

  lemma AllForetold(env: Env, disk: Disk, header: Header, after: seq<Run>, lives: seq<nat>, outcomes: seq<Outcome>)
    requires Deterministic(env) && IsHistory(env, disk, header, after) && |lives| == |outcomes|
    requires AreExplained(env, header, after, disk.batch.Some?, lives, outcomes)
    ensures forall k :: 0 <= k < |lives| ==>
              && Foretold(env, header, outcomes[k])
              && (lives[k] >= MostSteps(header) ==> (outcomes[k].Complete? <==> Undisturbed(env, header).Some?))
  {
    forall k | 0 <= k < |lives|
      ensures Foretold(env, header, outcomes[k])
      ensures lives[k] >= MostSteps(header) ==> (outcomes[k].Complete? <==> Undisturbed(env, header).Some?)
    {
      DeterministicBatch(env, disk, header, after, lives[k], outcomes[k]);
    }
  }

  /** Two histories from one directory, each with its own kills, complete the same batch. */
  lemma SameBatch(env: Env, header: Header, before: seq<Run>, a: seq<Run>, b: seq<Run>, from: nat, to: nat, extra: nat,
                  from': nat, to': nat, extra': nat, life: nat, life': nat, found: Batch, found': Batch)
    requires Deterministic(env)
    requires Advances(env, header, before, a, from, to, extra) && Advances(env, header, before, b, from', to', extra')
    requires Explained(env, header, a, life, Complete(found)) && Explained(env, header, b, life', Complete(found'))
    ensures found == found' && |found.runs| == |Ids(header)|
  {
    DeterministicResults(env, header, before, a, b, from, to, extra, from', to', extra');
    assert |a| == |b| && a == b;
  }

  // ----- When the rosters stop a batch

  /** A declared contract leaves nothing to disagree about: each record was checked against it when it was written. */
  lemma DeclaredRostersAgree(header: Header, log: seq<Run>)
    requires ValidHeader(header) && header.rosters.Some? && ValidLog(header, log)
    ensures RostersAgree(header, log)
  {
    forall i | 0 <= i < |log|
      ensures RunAgrees(header, log, i)
    {
      assert ValidRecord(header, Ids(header)[i], log[i]);
      if log[i].result.Ok? {
        DeclaredFaction(header, log[i].variant);
      }
    }
  }

  lemma DeclaredFaction(header: Header, variant: Variant)
    requires ValidRosters(header) && header.rosters.Some?
    ensures variant in header.rosters.value && header.faction in header.rosters.value[variant].Values
  {
    var baseline, candidate := header.rosters.value[Baseline], header.rosters.value[Candidate];
    var actor :| actor in baseline && baseline[actor] == header.faction;
    assert actor in Members(baseline, header.faction);
    assert FactionCount(baseline, header.faction) == FactionCount(candidate, header.faction);
    assert Members(candidate, header.faction) != {};
    var other :| other in Members(candidate, header.faction);
    assert candidate[other] in candidate.Values;
  }

  function Observed(id: Identity, actor: nat, faction: string): Run {
    RunFor(id, Ok(Report(RUN_FORMAT, id.seed, [Participant(actor, faction)], Termination("stalemate", None))))
  }

  /** An engine that names another actor in the first encounter than in the others. */
  function Wavering(env: Env, faction: string): Env {
    env.(engine := (id: Identity, n: nat) => Some(Observed(id, ActorOf(id), faction).result))
  }

  function ActorOf(id: Identity): nat {
    if id.orientation == Forward && id.variant == Baseline then 1 else 2
  }

  /** Without a contract such an engine's answers are all written ahead and committed, and every process that may take
      all its steps then refuses to finish. */
  lemma UndeclaredRostersMayDiffer(env: Env, header: Header, after: seq<Run>, life: nat, outcome: Outcome)
    requires |header.seeds| == 1 && header.faction != "" && header.rosters.None?
    requires var wavering := Wavering(env, header.faction);
      && AreAnswers(wavering, header, after) && Explained(wavering, header, after, life, outcome)
    ensures ValidHeader(header) && Deterministic(Wavering(env, header.faction)) && !outcome.Complete? && !outcome.EngineRejected?
    ensures life >= MostSteps(header) ==> outcome.RostersDiffer? || outcome.Oversized? || outcome.ArtifactTooLarge?
    ensures outcome.RostersDiffer? ==> |after| == 4
  {
    var wavering := Wavering(env, header.faction);
    forall i, n | 0 <= i < 4
      ensures Usable(wavering, header, Ids(header)[i], n)
    {
      OneActor(ActorOf(Ids(header)[i]), header.faction);
    }
    if |after| == 4 {
      AllFour(wavering, header, after);
      OneActor(1, header.faction);
      OneActor(2, header.faction);
      assert Ids(header) == Encounters(header.seeds[0]);
      assert Answers(wavering, Ids(header)[0], 0, after[0]) && Answers(wavering, Ids(header)[1], 0, after[1]);
      assert RosterAt(after[0]) == Some(map[1 := header.faction]) && RosterAt(after[1]) == Some(map[2 := header.faction]);
      assert 1 in map[1 := header.faction] && 1 !in map[2 := header.faction];
      assert !RunAgrees(header, after, 1);
    }
  }

  lemma AllFour(env: Env, header: Header, log: seq<Run>)
    requires |header.seeds| == 1 && |log| == 4 && AreAnswers(env, header, log)
    ensures forall i :: 0 <= i < 4 ==> Answers(env, Ids(header)[i], 0, log[i])
  {
    forall i | 0 <= i < 4
      ensures Answers(env, Ids(header)[i], 0, log[i])
    {
      AnswersPrefix(env, header, i, 4);
      AnswersPrefix(env, header, i + 1, 4);
      assert log[..i + 1][i] == log[i];
    }
  }

  lemma OneActor(actor: nat, faction: string)
    requires actor > 0 && faction != ""
    ensures RosterOf([Participant(actor, faction)]) == Some(map[actor := faction])
  {
    var rows := [Participant(actor, faction)];
    assert rows[..|rows| - 1] == [] && rows[|rows| - 1] == Participant(actor, faction);
    var none: Roster := map[];
    assert RosterFrom([]) == Some(none);
    assert none[actor := faction] == map[actor := faction];
  }
}
