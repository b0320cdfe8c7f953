/** The append-only audit of compiler invocations and its checker (scripts/ci_no_build.py). */
module NoBuildAudit {
  // Any number of dispatches run concurrently, and some of them never come back.

  import opened Options

  datatype Action = Action(tool: string, arguments: seq<string>)

  datatype Row =
    | Request(invocation: string, action: Action, permitted: bool, toolHash: Option<string>)
    | Completion(invocation: string, action: Action, returncode: int)
    | OtherRow

  /** The allowed actions and the recorded hash of each tool; `intact` says that guard and tools have not changed. */
  datatype Manifest = Manifest(allowed: set<Action>, tools: map<string, string>, intact: bool)

  const IDENTITY := 32
  const MAX_AUDIT: nat := 4 * 1024 * 1024

  /** The file: its lines, and how many bytes of an unfinished one follow them. */
  datatype Audit = Audit(rows: seq<Row>, rest: nat)

  function Bytes(size: Row -> nat, rows: seq<Row>): nat {
    if rows == [] then 0 else Bytes(size, rows[..|rows| - 1]) + size(rows[|rows| - 1])
  }

  predicate IsHex(c: char) {
    '0' <= c <= '9' || 'a' <= c <= 'f'
  }

  predicate IsInvocation(invocation: string) {
    |invocation| == IDENTITY && forall i :: 0 <= i < |invocation| ==> IsHex(invocation[i])
  }

  // ----- The checker

  predicate RowOk(m: Manifest, row: Row) {
    match row
    case Request(invocation, action, permitted, toolHash) =>
      && IsInvocation(invocation) && action in m.allowed && permitted
      && action.tool in m.tools && toolHash == Some(m.tools[action.tool])
    case Completion(invocation, action, returncode) => IsInvocation(invocation) && action in m.allowed && returncode == 0
    case OtherRow => false
  }

  function Requests(log: seq<Row>): map<string, Action> {
    if log == [] then map[]
    else
      var last := log[|log| - 1];
      if last.Request? then Requests(log[..|log| - 1])[last.invocation := last.action] else Requests(log[..|log| - 1])
  }

  function Completions(log: seq<Row>): map<string, Action> {
    if log == [] then map[]
    else
      var last := log[|log| - 1];
      if last.Completion? then Completions(log[..|log| - 1])[last.invocation := last.action] else Completions(log[..|log| - 1])
  }

  /** Every row is in order and no invocation has two requests or two completions. */
  predicate WellLogged(m: Manifest, log: seq<Row>) {
    log == [] ||
    (var front, last := log[..|log| - 1], log[|log| - 1];
     && WellLogged(m, front) && RowOk(m, last)
     && (last.Request? ==> last.invocation !in Requests(front))
     && (last.Completion? ==> last.invocation !in Completions(front)))
  }

  lemma {:induction false} WellLoggedPrefix(m: Manifest, log: seq<Row>, i: nat)
    requires WellLogged(m, log) && i <= |log|
    ensures WellLogged(m, log[..i])
    decreases |log|
  {
    if i < |log| {
      WellLoggedPrefix(m, log[..|log| - 1], i);
      assert log[..|log| - 1][..i] == log[..i];
    } else {
      assert log[..i] == log;
    }
  }

  /** `validate_audit`: the number of calls in a complete audit; `size` are the bytes of a line. */
  method ValidateAudit(m: Manifest, size: Row -> nat, audit: Audit) returns (calls: Option<nat>)
    ensures calls.Some? <==>
      && Bytes(size, audit.rows) + audit.rest <= MAX_AUDIT && audit.rest == 0
      && m.intact && WellLogged(m, audit.rows) && Requests(audit.rows) == Completions(audit.rows)
    ensures calls.Some? ==> calls.value == |Requests(audit.rows)|
  {
    var log := audit.rows;
    if Bytes(size, log) + audit.rest > MAX_AUDIT || audit.rest > 0 {
      return None;
    }
    var requests: map<string, Action>, completions: map<string, Action> := map[], map[];
    for i := 0 to |log|
      invariant requests == Requests(log[..i]) && completions == Completions(log[..i]) && WellLogged(m, log[..i])
    {
      var row := log[i];
      assert log[..i + 1][..i] == log[..i];
      if WellLogged(m, log) {
        WellLoggedPrefix(m, log, i + 1);
      }
      if !RowOk(m, row) {
        return None;
      }
      match row
      case Request(invocation, action, _, _) =>
        if invocation in requests {
          return None;
        }
        requests := requests[invocation := action];
      case Completion(invocation, action, _) =>
        if invocation in completions {
          return None;
        }
        completions := completions[invocation := action];
    }
    assert log[..|log|] == log;
    if requests != completions || !m.intact {
      return None;
    }
    return Some(|requests|);
  }

  // ----- Dispatches

  /** What one run of `dispatch` sees: its fresh id, what it is asked for, whether tools and guard are the recorded ones,
      and the status of the command if it runs. */
  datatype Run = Run(invocation: string, action: Action, genuine: bool, returncode: int)

  datatype Phase = Idle | Requested | Ended

  /** `dispatch` permits recorded, unchanged tools with allowed arguments. */
  predicate Permitted(m: Manifest, run: Run) {
    run.action in m.allowed && run.action.tool in m.tools && run.genuine
  }

  function RequestOf(m: Manifest, run: Run): Row {
    Request(run.invocation, run.action, Permitted(m, run), if run.action.tool in m.tools then Some(m.tools[run.action.tool]) else None)
  }

  class AuditLog {
    var rows: seq<Row>

    constructor ()
      ensures rows == []
    {
      rows := [];
    }

    method Append(row: Row)
      modifies this
      ensures rows == old(rows) + [row]
    {
      rows := rows + [row];
    }

    /** `dispatch`, when it is not stopped in between: its result is the command's status, or 126 for a refusal. */
    method Dispatch(m: Manifest, run: Run) returns (status: int)
      modifies this
      ensures Permitted(m, run) ==> status == run.returncode
      ensures Permitted(m, run) ==> rows == old(rows) + [RequestOf(m, run), Completion(run.invocation, run.action, run.returncode)]
      ensures !Permitted(m, run) ==> status == 126 && rows == old(rows) + [RequestOf(m, run)]
    {
      Append(RequestOf(m, run));
      if !Permitted(m, run) {
        return 126;
      }
      Append(Completion(run.invocation, run.action, run.returncode));
      return run.returncode;
    }
  }

  /** The two appends of a run happen at any time, in this order; a stopped run simply has no more events. */
  datatype State = State(log: seq<Row>, phases: seq<Phase>)

  function Next(m: Manifest, runs: seq<Run>, s: State, run: nat): State
    requires |s.phases| == |runs|
  {
    if run >= |runs| then s
    else if s.phases[run].Idle? then
      State(s.log + [RequestOf(m, runs[run])], s.phases[run := Requested])
    else if s.phases[run].Requested? && Permitted(m, runs[run]) then
      State(s.log + [Completion(runs[run].invocation, runs[run].action, runs[run].returncode)], s.phases[run := Ended])
    else s
  }

  function AllIdle(n: nat): (phases: seq<Phase>)
    ensures |phases| == n && forall i {:trigger phases[i]} :: 0 <= i < n ==> phases[i] == Idle
  {
    if n == 0 then [] else AllIdle(n - 1) + [Idle]
  }

  /** The state after runs moved in this order. */
  function After(m: Manifest, runs: seq<Run>, moves: seq<nat>): (s: State)
    ensures |s.phases| == |runs|
  {
    if moves == [] then State([], AllIdle(|runs|)) else Next(m, runs, After(m, runs, moves[..|moves| - 1]), moves[|moves| - 1])
  }

  function Started(phases: seq<Phase>): nat {
    if phases == [] then 0 else Started(phases[..|phases| - 1]) + if phases[|phases| - 1].Idle? then 0 else 1
  }

  predicate Distinct(runs: seq<Run>) {
    && (forall i :: 0 <= i < |runs| ==> IsInvocation(runs[i].invocation))
    && forall i, j :: 0 <= i < j < |runs| ==> runs[i].invocation != runs[j].invocation
  }

  /** A run that has begun was permitted, ended and returned zero. */
  predicate Fine(m: Manifest, run: Run, phase: Phase) {
    !phase.Idle? ==> Permitted(m, run) && phase.Ended? && run.returncode == 0
  }

  /** What the log says about one run. */
  predicate Logged(s: State, run: Run, phase: Phase) {
    && (run.invocation in Requests(s.log) <==> !phase.Idle?)
    && (run.invocation in Requests(s.log) ==> Requests(s.log)[run.invocation] == run.action)
    && (run.invocation in Completions(s.log) <==> phase.Ended?)
    && (run.invocation in Completions(s.log) ==> Completions(s.log)[run.invocation] == run.action)
  }

  predicate GoodSoFar(m: Manifest, run: Run, phase: Phase) {
    (!phase.Idle? ==> Permitted(m, run)) && (phase.Ended? ==> run.returncode == 0)
  }

  predicate IsRun(runs: seq<Run>, invocation: string) {
    exists i :: 0 <= i < |runs| && runs[i].invocation == invocation
  }

  ghost predicate Tracked(m: Manifest, runs: seq<Run>, s: State) {
    && |s.phases| == |runs|
    && (forall i :: 0 <= i < |runs| ==> Logged(s, runs[i], s.phases[i]))
    && (forall invocation :: invocation in Requests(s.log) || invocation in Completions(s.log) ==> IsRun(runs, invocation))
    && (WellLogged(m, s.log) <==> forall i :: 0 <= i < |runs| ==> GoodSoFar(m, runs[i], s.phases[i]))
    && |Requests(s.log)| == Started(s.phases)
  }

  lemma LogAppend(m: Manifest, log: seq<Row>, row: Row)
    ensures Requests(log + [row]) == if row.Request? then Requests(log)[row.invocation := row.action] else Requests(log)
    ensures Completions(log + [row]) == if row.Completion? then Completions(log)[row.invocation := row.action] else Completions(log)
    ensures WellLogged(m, log + [row]) <==>
      && WellLogged(m, log) && RowOk(m, row)
      && (row.Request? ==> row.invocation !in Requests(log)) && (row.Completion? ==> row.invocation !in Completions(log))
  {
    assert (log + [row])[..|log|] == log;
  }

  lemma {:induction false} StartedUpdate(phases: seq<Phase>, i: nat, phase: Phase)
    requires i < |phases| && !phase.Idle?
    ensures Started(phases[i := phase]) == Started(phases) + if phases[i].Idle? then 1 else 0
    decreases |phases|
  {
    var n := |phases| - 1;
    if i == n {
      assert phases[i := phase][..n] == phases[..n];
    } else {
      assert phases[i := phase][..n] == phases[..n][i := phase];
      StartedUpdate(phases[..n], i, phase);
    }
  }

  lemma {:induction false} NoneStarted(n: nat)
    ensures Started(AllIdle(n)) == 0
  {
    if n > 0 {
      NoneStarted(n - 1);
      assert AllIdle(n)[..n - 1] == AllIdle(n - 1);
    }
  }

  /** The row that a run appends when it moves on to `phase`. */
  predicate Moves(m: Manifest, run: Run, before: Phase, row: Row, phase: Phase) {
    || (before.Idle? && row == RequestOf(m, run) && phase == Requested)
    || (before.Requested? && Permitted(m, run) && row == Completion(run.invocation, run.action, run.returncode) && phase == Ended)
  }

  lemma LoggedAfter(m: Manifest, runs: seq<Run>, s: State, run: nat, row: Row, phase: Phase, i: nat)
    requires Distinct(runs) && |s.phases| == |runs| && run < |runs| && i < |runs|
    requires Moves(m, runs[run], s.phases[run], row, phase) && Logged(s, runs[i], s.phases[i])
    ensures Logged(State(s.log + [row], s.phases[run := phase]), runs[i], s.phases[run := phase][i])
  {
    LogAppend(m, s.log, row);
  }

  lemma KnownAfter(m: Manifest, runs: seq<Run>, s: State, run: nat, row: Row, phase: Phase, invocation: string)
    requires |s.phases| == |runs| && run < |runs| && Moves(m, runs[run], s.phases[run], row, phase)
    requires invocation in Requests(s.log) || invocation in Completions(s.log) ==> IsRun(runs, invocation)
    ensures invocation in Requests(s.log + [row]) || invocation in Completions(s.log + [row]) ==> IsRun(runs, invocation)
  {
    LogAppend(m, s.log, row);
    assert IsRun(runs, runs[run].invocation);
  }

  lemma AllLoggedAfter(m: Manifest, runs: seq<Run>, s: State, run: nat, row: Row, phase: Phase)
    requires Distinct(runs) && Tracked(m, runs, s) && run < |runs| && Moves(m, runs[run], s.phases[run], row, phase)
    ensures forall i :: 0 <= i < |runs| ==> Logged(State(s.log + [row], s.phases[run := phase]), runs[i], s.phases[run := phase][i])
  {
    forall i | 0 <= i < |runs|
      ensures Logged(State(s.log + [row], s.phases[run := phase]), runs[i], s.phases[run := phase][i])
    {
      LoggedAfter(m, runs, s, run, row, phase, i);
    }
  }

  lemma AllKnownAfter(m: Manifest, runs: seq<Run>, s: State, run: nat, row: Row, phase: Phase)
    requires Tracked(m, runs, s) && run < |runs| && Moves(m, runs[run], s.phases[run], row, phase)
    ensures forall invocation ::
      invocation in Requests(s.log + [row]) || invocation in Completions(s.log + [row]) ==> IsRun(runs, invocation)
  {
    forall invocation
      ensures invocation in Requests(s.log + [row]) || invocation in Completions(s.log + [row]) ==> IsRun(runs, invocation)
    {
      KnownAfter(m, runs, s, run, row, phase, invocation);
    }
  }

  lemma GoodAfter(m: Manifest, runs: seq<Run>, s: State, run: nat, row: Row, phase: Phase)
    requires Distinct(runs) && |s.phases| == |runs| && run < |runs|
    requires Moves(m, runs[run], s.phases[run], row, phase) && Logged(s, runs[run], s.phases[run])
    requires WellLogged(m, s.log) <==> forall i :: 0 <= i < |runs| ==> GoodSoFar(m, runs[i], s.phases[i])
    ensures WellLogged(m, s.log + [row]) <==> forall i :: 0 <= i < |runs| ==> GoodSoFar(m, runs[i], s.phases[run := phase][i])
  {
    LogAppend(m, s.log, row);
    assert RowOk(m, row) <==> GoodSoFar(m, runs[run], phase);
    assert GoodSoFar(m, runs[run], phase) ==> GoodSoFar(m, runs[run], s.phases[run]);
    if forall i :: 0 <= i < |runs| ==> GoodSoFar(m, runs[i], s.phases[run := phase][i]) {
      forall i | 0 <= i < |runs|
        ensures GoodSoFar(m, runs[i], s.phases[i])
      {
        assert GoodSoFar(m, runs[i], s.phases[run := phase][i]);
      }
    }
  }

  lemma MoveTracked(m: Manifest, runs: seq<Run>, s: State, run: nat, row: Row, phase: Phase)
    requires Distinct(runs) && Tracked(m, runs, s) && run < |runs| && Moves(m, runs[run], s.phases[run], row, phase)
    ensures Tracked(m, runs, State(s.log + [row], s.phases[run := phase]))
  {
    AllLoggedAfter(m, runs, s, run, row, phase);
    AllKnownAfter(m, runs, s, run, row, phase);
    JudgedAfter(m, runs, s, run, row, phase);
  }

  lemma JudgedAfter(m: Manifest, runs: seq<Run>, s: State, run: nat, row: Row, phase: Phase)
    requires Distinct(runs) && Tracked(m, runs, s) && run < |runs| && Moves(m, runs[run], s.phases[run], row, phase)
    ensures WellLogged(m, s.log + [row]) <==> forall i :: 0 <= i < |runs| ==> GoodSoFar(m, runs[i], s.phases[run := phase][i])
    ensures |Requests(s.log + [row])| == Started(s.phases[run := phase])
  {
    assert Logged(s, runs[run], s.phases[run]);
    GoodAfter(m, runs, s, run, row, phase);
    StartedAfter(m, runs, s, run, row, phase);
  }

  lemma StartedAfter(m: Manifest, runs: seq<Run>, s: State, run: nat, row: Row, phase: Phase)
    requires |s.phases| == |runs| && run < |runs| && |Requests(s.log)| == Started(s.phases)
    requires Logged(s, runs[run], s.phases[run]) && Moves(m, runs[run], s.phases[run], row, phase)
    ensures |Requests(s.log + [row])| == Started(s.phases[run := phase])
  {
    StartedUpdate(s.phases, run, phase);
    LogAppend(m, s.log, row);
  }

  lemma NextTracked(m: Manifest, runs: seq<Run>, s: State, run: nat)
    requires Distinct(runs) && Tracked(m, runs, s)
    ensures Tracked(m, runs, Next(m, runs, s, run))
  {
    if run < |runs| {
      if s.phases[run].Idle? {
        MoveTracked(m, runs, s, run, RequestOf(m, runs[run]), Requested);
      } else if s.phases[run].Requested? && Permitted(m, runs[run]) {
        MoveTracked(m, runs, s, run, Completion(runs[run].invocation, runs[run].action, runs[run].returncode), Ended);
      }
    }
  }

  lemma NothingTracked(m: Manifest, runs: seq<Run>)
    ensures Tracked(m, runs, After(m, runs, []))
  {
    NoneStarted(|runs|);
  }

  lemma {:induction false} AlwaysTracked(m: Manifest, runs: seq<Run>, moves: seq<nat>)
    requires Distinct(runs)
    ensures Tracked(m, runs, After(m, runs, moves))
    decreases |moves|
  {
    if moves == [] {
      NothingTracked(m, runs);
    } else {
      AlwaysTracked(m, runs, moves[..|moves| - 1]);
      NextTracked(m, runs, After(m, runs, moves[..|moves| - 1]), moves[|moves| - 1]);
    }
  }

  /** The audit that any interleaving leaves is accepted exactly when every run that began was permitted, ended and
      returned zero, and it then counts these runs. */
  lemma AuditExactly(m: Manifest, runs: seq<Run>, moves: seq<nat>)
    requires Distinct(runs)
    ensures var s := After(m, runs, moves);
      && (WellLogged(m, s.log) && Requests(s.log) == Completions(s.log)
          <==> forall i :: 0 <= i < |runs| ==> Fine(m, runs[i], s.phases[i]))
      && |Requests(s.log)| == Started(s.phases)
  {
    var s := After(m, runs, moves);
    AlwaysTracked(m, runs, moves);
    if WellLogged(m, s.log) && Requests(s.log) == Completions(s.log) {
      forall i | 0 <= i < |runs|
        ensures Fine(m, runs[i], s.phases[i])
      {
        assert Logged(s, runs[i], s.phases[i]) && GoodSoFar(m, runs[i], s.phases[i]);
      }
    }
    if forall i :: 0 <= i < |runs| ==> Fine(m, runs[i], s.phases[i]) {
      forall i | 0 <= i < |runs|
        ensures GoodSoFar(m, runs[i], s.phases[i])
      {
        assert Fine(m, runs[i], s.phases[i]);
      }
      forall invocation
        ensures invocation in Requests(s.log) <==> invocation in Completions(s.log)
        ensures invocation in Requests(s.log) ==> Requests(s.log)[invocation] == Completions(s.log)[invocation]
      {
        if invocation in Requests(s.log) || invocation in Completions(s.log) {
          var i :| 0 <= i < |runs| && runs[i].invocation == invocation;
          assert Logged(s, runs[i], s.phases[i]) && Fine(m, runs[i], s.phases[i]);
        }
      }
    }
  }

  /** Checking what an interleaving leaves. */
  method CheckInterleaving(m: Manifest, size: Row -> nat, runs: seq<Run>, moves: seq<nat>) returns (calls: Option<nat>)
    requires Distinct(runs)
    ensures var s := After(m, runs, moves);
      && (calls.Some? <==> Bytes(size, s.log) <= MAX_AUDIT && m.intact && forall i :: 0 <= i < |runs| ==> Fine(m, runs[i], s.phases[i]))
      && (calls.Some? ==> calls.value == Started(s.phases))
  {
    var s := After(m, runs, moves);
    AuditExactly(m, runs, moves);
    calls := ValidateAudit(m, size, Audit(s.log, 0));
  }

  /** In plain terms: every run that began was of an allowed action of a recorded tool that had not changed, and came back
      with status zero. */
  lemma FineExactly(m: Manifest, run: Run, phase: Phase)
    ensures Fine(m, run, phase) <==>
      (phase == Idle || (phase == Ended && run.action in m.allowed && run.action.tool in m.tools && run.genuine && run.returncode == 0))
  {
  }
}
