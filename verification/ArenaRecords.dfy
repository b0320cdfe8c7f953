/** The values that scripts/arena_evaluation.py writes, and its checks on a single run record. */
module ArenaRecords {
  import opened Options

  datatype Orientation = Forward | Mirrored
  datatype Variant = Baseline | Candidate

  /** Seeds are canonical unsigned 64-bit decimal strings; the number stands for the string. */
  datatype Identity = Identity(seed: nat, orientation: Orientation, variant: Variant)

  datatype Participant = Participant(actor: nat, faction: string)
  datatype Termination = Termination(kind: string, winner: Option<string>)
  datatype Report = Report(format: string, seed: nat, participants: seq<Participant>, termination: Termination)
  datatype Result = Ok(report: Report) | Failure(message: string, exitCode: Option<int>)
  datatype Run = Run(seed: nat, orientation: Orientation, variant: Variant, result: Result)

  type Roster = map<nat, string>

  /** What every checkpoint of one batch repeats. `context` stands for the format, the executable digest, the
      snapshot fingerprints and the timeout. */
  datatype Header = Header(context: string, seeds: seq<nat>, faction: string, rosters: Option<map<Variant, Roster>>)

  const RUN_FORMAT := "tor-arena-run-v6"
  const TERMINATIONS := {"elimination", "action_limit", "tick_limit", "stalemate", "failure"}

  function IdentityOf(run: Run): Identity {
    Identity(run.seed, run.orientation, run.variant)
  }

  function RunFor(identity: Identity, result: Result): Run {
    Run(identity.seed, identity.orientation, identity.variant, result)
  }

  // ----- The order of the encounters

  function Encounters(seed: nat): seq<Identity> {
    [Identity(seed, Forward, Baseline), Identity(seed, Forward, Candidate),
     Identity(seed, Mirrored, Baseline), Identity(seed, Mirrored, Candidate)]
  }

  function Identities(seeds: seq<nat>): (ids: seq<Identity>)
    ensures |ids| == 4 * |seeds|
  {
    if seeds == [] then [] else Identities(seeds[..|seeds| - 1]) + Encounters(seeds[|seeds| - 1])
  }

  predicate Distinct<T(==)>(s: seq<T>) {
    forall i, j :: 0 <= i < j < |s| ==> s[i] != s[j]
  }

  lemma {:induction false} IdentitySeed(seeds: seq<nat>, i: nat)
    requires i < 4 * |seeds|
    ensures Identities(seeds)[i].seed == seeds[i / 4]
    decreases |seeds|
  {
    if i / 4 < |seeds| - 1 {
      IdentitySeed(seeds[..|seeds| - 1], i);
    }
  }

  lemma {:induction false} IdentitiesDistinct(seeds: seq<nat>)
    requires Distinct(seeds)
    ensures Distinct(Identities(seeds))
    decreases |seeds|
  {
    if seeds != [] {
      var front := seeds[..|seeds| - 1];
      IdentitiesDistinct(front);
      forall i | 0 <= i < 4 * |front|
        ensures Identities(seeds)[i].seed != seeds[|seeds| - 1]
      {
        IdentitySeed(front, i);
      }
    }
  }

  /** Seed by seed, forward before mirrored, the baseline before the candidate. */
  lemma {:induction false} IdentityAt(seeds: seq<nat>, q: nat, r: nat)
    requires q < |seeds| && r < 4
    ensures 4 * q + r < |Identities(seeds)|
    ensures Identities(seeds)[4 * q + r] ==
      Identity(seeds[q], if r < 2 then Forward else Mirrored, if r == 0 || r == 2 then Baseline else Candidate)
    decreases |seeds|
  {
    var n := |seeds| - 1;
    if q < n {
      IdentityAt(seeds[..n], q, r);
      assert Identities(seeds)[4 * q + r] == Identities(seeds[..n])[4 * q + r];
    } else {
      assert Identities(seeds)[4 * q + r] == Encounters(seeds[n])[r];
    }
  }

  // ----- Rosters

  /** Actor identities are positive and appear once; factions are not empty. */
  function RosterOf(rows: seq<Participant>): (roster: Option<Roster>)
    ensures roster.Some? ==> rows != [] && |roster.value| == |rows|
  {
    if rows == [] then None
    else RosterFrom(rows)
  }

  function RosterFrom(rows: seq<Participant>): (roster: Option<Roster>)
    ensures roster.Some? ==> |roster.value| == |rows|
  {
    if rows == [] then Some(map[])
    else
      var last := rows[|rows| - 1];
      var before := RosterFrom(rows[..|rows| - 1]);
      if before.None? || last.actor == 0 || last.actor in before.value || last.faction == "" then None
      else Some(before.value[last.actor := last.faction])
  }

  /** Distinct actors from one on, each with a faction. */
  ghost predicate AreParticipants(rows: seq<Participant>) {
    && (forall i :: 0 <= i < |rows| ==> rows[i].actor > 0 && rows[i].faction != "")
    && forall i, j :: 0 <= i < j < |rows| ==> rows[i].actor != rows[j].actor
  }

  ghost predicate IsRosterOf(rows: seq<Participant>, roster: Roster) {
    && (forall i :: 0 <= i < |rows| ==> rows[i].actor in roster && roster[rows[i].actor] == rows[i].faction)
    && forall actor :: actor in roster ==> HasActor(rows, actor)
  }

  ghost predicate HasActor(rows: seq<Participant>, actor: nat) {
    exists i :: 0 <= i < |rows| && rows[i].actor == actor
  }

  /** A roster exists exactly for a nonempty list of such participants, and maps each of them, and nothing else, to its
      faction. */
  lemma RosterExactly(rows: seq<Participant>)
    ensures RosterOf(rows).Some? <==> rows != [] && AreParticipants(rows)
    ensures RosterOf(rows).Some? ==> IsRosterOf(rows, RosterOf(rows).value)
  {
    RosterMeans(rows);
  }

  lemma {:induction false} RosterMeans(rows: seq<Participant>)
    ensures RosterFrom(rows).Some? <==> AreParticipants(rows)
    ensures RosterFrom(rows).Some? ==> IsRosterOf(rows, RosterFrom(rows).value)
    decreases |rows|
  {
    if rows != [] {
      var front, last := rows[..|rows| - 1], rows[|rows| - 1];
      assert rows == front + [last];
      RosterMeans(front);
      ParticipantsAppend(front, last);
      if RosterFrom(front).Some? {
        ActorAppend(front, last);
        assert last.actor in RosterFrom(front).value <==> HasActor(front, last.actor);
        if last.actor !in RosterFrom(front).value {
          RosterAppend(front, last, RosterFrom(front).value);
        }
      }
    }
  }

  lemma ActorAppend(rows: seq<Participant>, row: Participant)
    ensures forall actor :: HasActor(rows + [row], actor) <==> HasActor(rows, actor) || actor == row.actor
  {
    var all := rows + [row];
    assert all[|rows|] == row;
    forall actor | HasActor(rows, actor)
      ensures HasActor(all, actor)
    {
      var i :| 0 <= i < |rows| && rows[i].actor == actor;
      assert all[i].actor == actor;
    }
  }

  lemma ParticipantsAppend(rows: seq<Participant>, row: Participant)
    ensures AreParticipants(rows + [row]) <==>
      AreParticipants(rows) && row.actor > 0 && row.faction != "" && !HasActor(rows, row.actor)
  {
    var all := rows + [row];
    assert all[|rows|] == row && forall i :: 0 <= i < |rows| ==> all[i] == rows[i];
    if AreParticipants(all) {
      assert forall i, j :: 0 <= i < j < |rows| ==> all[i].actor != all[j].actor;
    }
  }

  lemma RosterAppend(rows: seq<Participant>, row: Participant, roster: Roster)
    requires IsRosterOf(rows, roster) && row.actor !in roster
    ensures IsRosterOf(rows + [row], roster[row.actor := row.faction])
  {
    ActorAppend(rows, row);
  }

  /** The roster declared for the arm of a run, when the plan declares any. */
  function Expected(header: Header, variant: Variant): Option<Roster> {
    if header.rosters.Some? && variant in header.rosters.value then Some(header.rosters.value[variant]) else None
  }

  // ----- Checks

  predicate ValidResult(header: Header, identity: Identity, result: Result) {
    match result
    case Ok(report) =>
      && report.format == RUN_FORMAT && report.seed == identity.seed
      && RosterOf(report.participants).Some?
      && (Expected(header, identity.variant).Some? ==>
          RosterOf(report.participants) == Expected(header, identity.variant))
      && report.termination.kind in TERMINATIONS
    case Failure(message, _) => |message| <= 1000
  }

  predicate ValidRecord(header: Header, identity: Identity, run: Run) {
    IdentityOf(run) == identity && ValidResult(header, identity, run.result)
  }

  function Members(roster: Roster, faction: string): set<nat> {
    set actor | actor in roster && roster[actor] == faction
  }

  function FactionCount(roster: Roster, faction: string): nat {
    |Members(roster, faction)|
  }

  predicate ValidRosters(header: Header) {
    header.rosters.Some? ==>
      && header.rosters.value.Keys == {Baseline, Candidate}
      && var baseline, candidate := header.rosters.value[Baseline], header.rosters.value[Candidate];
      && (forall faction :: faction in baseline.Values + candidate.Values ==>
          FactionCount(baseline, faction) == FactionCount(candidate, faction))
      && header.faction in baseline.Values
  }

  predicate ValidHeader(header: Header) {
    && 1 <= |header.seeds| <= 1000 && Distinct(header.seeds)
    && header.faction != ""
    && ValidRosters(header)
  }

  /** A successful record is about its own encounter, and has exactly the roster declared for its own arm. */
  lemma RecordMeans(header: Header, id: Identity, run: Run)
    requires ValidHeader(header) && ValidRecord(header, id, run) && run.result.Ok?
    ensures run.seed == id.seed && run.orientation == id.orientation && run.variant == id.variant
    ensures run.result.report.seed == id.seed && run.result.report.format == "tor-arena-run-v6"
    ensures RosterOf(run.result.report.participants).Some?
    ensures header.rosters.Some? ==>
      id.variant in header.rosters.value && RosterOf(run.result.report.participants).value == header.rosters.value[id.variant]
  {
    assert id.variant == Baseline || id.variant == Candidate;
  }
}
