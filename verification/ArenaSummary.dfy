/** The summary of a finished batch (`summarize` in scripts/arena_evaluation.py).
    Runs are grouped by seed into four sides; a seed with four eliminations is paired, and its difference counts
    towards the mean. Every run is counted once under its termination. */
module ArenaSummary {
  import opened ArenaRecords
  import opened Options
  import opened Permutations

  type Side = (Orientation, Variant)

  datatype Summary = Summary(paired: nat, excluded: seq<nat>, mean: Option<real>, terminations: map<Variant, map<string, nat>>)

  // ----- What one run says

  /** A win, half a win or a loss; nothing for a run that was cut off or failed. */
  function ScoreOf(run: Run, faction: string): Option<real> {
    if run.result.Ok? && run.result.report.termination.kind == "elimination" then
      var winner := run.result.report.termination.winner;
      Some(if winner.None? then 0.5 else if winner.value == faction then 1.0 else 0.0)
    else None
  }

  function KindOf(run: Run): string {
    if run.result.Ok? then run.result.report.termination.kind else "failure"
  }

  predicate Acceptable(runs: seq<Run>) {
    && (forall i :: 0 <= i < |runs| ==> KindOf(runs[i]) in TERMINATIONS)
    && forall i, j :: 0 <= i < j < |runs| ==> IdentityOf(runs[i]) != IdentityOf(runs[j])
  }

  // ----- What all runs say

  /** The score of the run with this identity: none, censored, or a number. */
  function ScoreAt(runs: seq<Run>, faction: string, id: Identity): Option<Option<real>> {
    if runs == [] then None
    else if IdentityOf(runs[|runs| - 1]) == id then Some(ScoreOf(runs[|runs| - 1], faction))
    else ScoreAt(runs[..|runs| - 1], faction, id)
  }

  predicate Scored(runs: seq<Run>, faction: string, id: Identity) {
    ScoreAt(runs, faction, id).Some? && ScoreAt(runs, faction, id).value.Some?
  }

  /** All four encounters of the seed ended in elimination. */
  predicate Contributes(runs: seq<Run>, faction: string, seed: nat) {
    && Scored(runs, faction, Identity(seed, Forward, Baseline)) && Scored(runs, faction, Identity(seed, Forward, Candidate))
    && Scored(runs, faction, Identity(seed, Mirrored, Baseline)) && Scored(runs, faction, Identity(seed, Mirrored, Candidate))
  }

  function Points(runs: seq<Run>, faction: string, id: Identity): real {
    if Scored(runs, faction, id) then ScoreAt(runs, faction, id).value.value else 0.0
  }

  /** The candidate's advantage, averaged over the orientations. */
  function Difference(runs: seq<Run>, faction: string, seed: nat): real {
    (Points(runs, faction, Identity(seed, Forward, Candidate)) - Points(runs, faction, Identity(seed, Forward, Baseline))
     + Points(runs, faction, Identity(seed, Mirrored, Candidate)) - Points(runs, faction, Identity(seed, Mirrored, Baseline))) / 2.0
  }

  function SeedsOf(runs: seq<Run>): set<nat> {
    set i | 0 <= i < |runs| :: runs[i].seed
  }

  function TotalDifference(runs: seq<Run>, faction: string, seeds: seq<nat>): real {
    if seeds == [] then 0.0
    else
      TotalDifference(runs, faction, seeds[..|seeds| - 1]) +
        if Contributes(runs, faction, seeds[|seeds| - 1]) then Difference(runs, faction, seeds[|seeds| - 1]) else 0.0
  }

  function Excluded(runs: seq<Run>, faction: string, seeds: seq<nat>): seq<nat> {
    if seeds == [] then []
    else
      Excluded(runs, faction, seeds[..|seeds| - 1]) +
        if Contributes(runs, faction, seeds[|seeds| - 1]) then [] else [seeds[|seeds| - 1]]
  }

  function Count(runs: seq<Run>, variant: Variant, kind: string): nat {
    if runs == [] then 0
    else
      Count(runs[..|runs| - 1], variant, kind) +
        if runs[|runs| - 1].variant == variant && KindOf(runs[|runs| - 1]) == kind then 1 else 0
  }

  predicate Ascending(seeds: seq<nat>) {
    forall i, j :: 0 <= i < j < |seeds| ==> seeds[i] < seeds[j]
  }

  ghost predicate Lists(seeds: seq<nat>, all: set<nat>) {
    Ascending(seeds) && forall s :: s in seeds <==> s in all
  }

  function CountIn(counts: map<string, nat>, kind: string): nat {
    if kind in counts then counts[kind] else 0
  }

  function Counted(counts: map<string, nat>, kind: string): map<string, nat> {
    counts[kind := CountIn(counts, kind) + 1]
  }

  /** The summary of the runs over a list of their seeds. */
  ghost predicate Summarizes(runs: seq<Run>, faction: string, seeds: seq<nat>, s: Summary) {
    && s.excluded == Excluded(runs, faction, seeds) && s.paired + |s.excluded| == |seeds|
    && s.mean == (if s.paired == 0 then None else Some(TotalDifference(runs, faction, seeds) / s.paired as real))
  }

  /** The summary of the runs, seeds in numeric order. */
  ghost predicate IsSummary(runs: seq<Run>, faction: string, s: Summary) {
    && (exists seeds :: Lists(seeds, SeedsOf(runs)) && Summarizes(runs, faction, seeds, s))
    && Tallied(runs, s.terminations)
  }

  // ----- The loops

  lemma ScoreAppend(runs: seq<Run>, run: Run, faction: string, id: Identity)
    ensures ScoreAt(runs + [run], faction, id) ==
      if IdentityOf(run) == id then Some(ScoreOf(run, faction)) else ScoreAt(runs, faction, id)
  {
    assert (runs + [run])[..|runs|] == runs;
  }

  lemma CountAppend(runs: seq<Run>, run: Run, variant: Variant, kind: string)
    ensures Count(runs + [run], variant, kind) == Count(runs, variant, kind) + if run.variant == variant && KindOf(run) == kind then 1 else 0
  {
    assert (runs + [run])[..|runs|] == runs;
  }

  /** The observations by seed hold exactly the scores of the runs. */
  ghost predicate Observed(runs: seq<Run>, faction: string, pairs: map<nat, map<Side, Option<real>>>) {
    && pairs.Keys == SeedsOf(runs)
    && forall s, o, v :: s in pairs ==>
         ScoreAt(runs, faction, Identity(s, o, v)) == if (o, v) in pairs[s] then Some(pairs[s][(o, v)]) else None
  }

  lemma {:induction false} UnknownSeed(runs: seq<Run>, faction: string, id: Identity)
    requires id.seed !in SeedsOf(runs)
    ensures ScoreAt(runs, faction, id).None?
    decreases |runs|
  {
    if runs != [] {
      assert runs[|runs| - 1].seed in SeedsOf(runs);
      forall s | s in SeedsOf(runs[..|runs| - 1])
        ensures s in SeedsOf(runs)
      {
        var i :| 0 <= i < |runs| - 1 && runs[..|runs| - 1][i].seed == s;
        assert runs[i].seed == s;
      }
      UnknownSeed(runs[..|runs| - 1], faction, id);
    }
  }

  lemma SeedsAppend(runs: seq<Run>, run: Run)
    ensures SeedsOf(runs + [run]) == SeedsOf(runs) + {run.seed}
  {
    var all := runs + [run];
    assert all[|runs|] == run;
    forall s | s in SeedsOf(runs)
      ensures s in SeedsOf(all)
    {
      var i :| 0 <= i < |runs| && runs[i].seed == s;
      assert all[i].seed == s;
    }
  }

  /** The observations after one more run. */
  function Record(pairs: map<nat, map<Side, Option<real>>>, run: Run, faction: string): map<nat, map<Side, Option<real>>> {
    var before: map<Side, Option<real>> := if run.seed in pairs then pairs[run.seed] else map[];
    pairs[run.seed := before[(run.orientation, run.variant) := ScoreOf(run, faction)]]
  }

  lemma Observe(runs: seq<Run>, run: Run, faction: string, pairs: map<nat, map<Side, Option<real>>>)
    requires Observed(runs, faction, pairs)
    ensures Observed(runs + [run], faction, Record(pairs, run, faction))
  {
    var after := Record(pairs, run, faction);
    SeedsAppend(runs, run);
    forall s, o, v | s in after
      ensures ScoreAt(runs + [run], faction, Identity(s, o, v)) == if (o, v) in after[s] then Some(after[s][(o, v)]) else None
    {
      ScoreAppend(runs, run, faction, Identity(s, o, v));
      if s !in pairs {
        UnknownSeed(runs, faction, Identity(s, o, v));
      }
    }
  }

  lemma {:induction false} KnownIdentity(runs: seq<Run>, faction: string, id: Identity)
    ensures ScoreAt(runs, faction, id).Some? <==> exists i :: 0 <= i < |runs| && IdentityOf(runs[i]) == id
    decreases |runs|
  {
    if runs != [] {
      var front := runs[..|runs| - 1];
      KnownIdentity(front, faction, id);
      if ScoreAt(front, faction, id).Some? {
        var i :| 0 <= i < |front| && IdentityOf(front[i]) == id;
        assert IdentityOf(runs[i]) == id;
      }
      if i :| 0 <= i < |runs| && IdentityOf(runs[i]) == id {
        assert i < |front| ==> front[i] == runs[i];
      }
    }
  }

  ghost predicate Tallied(runs: seq<Run>, counts: map<Variant, map<string, nat>>) {
    && counts.Keys == {Baseline, Candidate}
    && forall variant, kind :: variant in counts ==> CountIn(counts[variant], kind) == Count(runs, variant, kind)
  }

  lemma Tally(runs: seq<Run>, run: Run, counts: map<Variant, map<string, nat>>)
    requires Tallied(runs, counts)
    ensures run.variant in counts && Tallied(runs + [run], counts[run.variant := Counted(counts[run.variant], KindOf(run))])
  {
    assert run.variant == Baseline || run.variant == Candidate;
    var after := counts[run.variant := Counted(counts[run.variant], KindOf(run))];
    forall variant, kind | variant in after
      ensures CountIn(after[variant], kind) == Count(runs + [run], variant, kind)
    {
      CountAppend(runs, run, variant, kind);
    }
  }

  /** The loop over the runs; `None` for a duplicate run or an unknown termination. */
  method Collect(runs: seq<Run>, faction: string)
    returns (pairs: Option<map<nat, map<Side, Option<real>>>>, counts: map<Variant, map<string, nat>>)
    ensures pairs.Some? <==> Acceptable(runs)
    ensures pairs.Some? ==> Observed(runs, faction, pairs.value) && Tallied(runs, counts)
  {
    var found: map<nat, map<Side, Option<real>>> := map[];
    counts := map[Baseline := map[], Candidate := map[]];
    assert runs[..0] == [];
    for i := 0 to |runs|
      invariant Observed(runs[..i], faction, found) && Acceptable(runs[..i]) && Tallied(runs[..i], counts)
    {
      var run := runs[i];
      UnknownIdentity(runs, i, faction, found);
      if run.seed in found && (run.orientation, run.variant) in found[run.seed] {
        return None, counts;
      }
      if KindOf(run) !in TERMINATIONS {
        return None, counts;
      }
      CollectStep(runs, i, faction, found, counts);
      counts := counts[run.variant := Counted(counts[run.variant], KindOf(run))];
      found := Record(found, run, faction);
    }
    assert runs[..|runs|] == runs;
    return Some(found), counts;
  }

  lemma CollectStep(runs: seq<Run>, i: nat, faction: string, pairs: map<nat, map<Side, Option<real>>>, counts: map<Variant, map<string, nat>>)
    requires i < |runs| && Observed(runs[..i], faction, pairs) && Tallied(runs[..i], counts)
    ensures Observed(runs[..i + 1], faction, Record(pairs, runs[i], faction))
    ensures runs[i].variant in counts
    ensures Tallied(runs[..i + 1], counts[runs[i].variant := Counted(counts[runs[i].variant], KindOf(runs[i]))])
  {
    assert runs[..i + 1] == runs[..i] + [runs[i]];
    Observe(runs[..i], runs[i], faction, pairs);
    Tally(runs[..i], runs[i], counts);
  }

  /** A run is a duplicate exactly when its side of the seed is already observed. */
  lemma UnknownIdentity(runs: seq<Run>, i: nat, faction: string, pairs: map<nat, map<Side, Option<real>>>)
    requires i < |runs| && Observed(runs[..i], faction, pairs) && Acceptable(runs[..i])
    ensures var run := runs[i];
      var known := run.seed in pairs && (run.orientation, run.variant) in pairs[run.seed];
      && (known ==> !Acceptable(runs))
      && (!known && KindOf(run) in TERMINATIONS ==> Acceptable(runs[..i + 1]))
  {
    var run, id := runs[i], IdentityOf(runs[i]);
    KnownIdentity(runs[..i], faction, id);
    if run.seed !in pairs {
      UnknownSeed(runs[..i], faction, id);
    }
    assert ScoreAt(runs[..i], faction, id).Some? <==> run.seed in pairs && (run.orientation, run.variant) in pairs[run.seed];
    if ScoreAt(runs[..i], faction, id).Some? {
      var j :| 0 <= j < i && IdentityOf(runs[..i][j]) == id;
      assert IdentityOf(runs[j]) == IdentityOf(runs[i]);
    }
  }

  /** `sorted` on the seeds. */
  method SortSeeds(all: set<nat>) returns (seeds: seq<nat>)
    ensures Lists(seeds, all)
  {
    seeds := [];
    var rest := all;
    while rest != {}
      invariant rest <= all && Lists(seeds, all - rest)
      invariant forall s, t :: s in seeds && t in rest ==> s < t
      decreases rest
    {
      var least := Least(rest);
      assert forall k :: 0 <= k < |seeds| ==> seeds[k] in seeds;
      seeds, rest := seeds + [least], rest - {least};
    }
    assert all - rest == all;
  }

  method Least(s: set<nat>) returns (least: nat)
    requires s != {}
    ensures least in s && forall t :: t in s ==> least <= t
  {
    least :| least in s;
    var rest := s - {least};
    while rest != {}
      invariant least in s && rest <= s && forall t :: t in s - rest ==> least <= t
      decreases rest
    {
      var next :| next in rest;
      assert s - (rest - {next}) == s - rest + {next};
      rest := rest - {next};
      if next < least {
        least := next;
      }
    }
    assert s - rest == s;
  }

  /** Four observations, none of them censored. */
  lemma FourSides(runs: seq<Run>, faction: string, pairs: map<nat, map<Side, Option<real>>>, s: nat)
    requires Observed(runs, faction, pairs) && s in pairs
    ensures |pairs[s]| == 4 && (forall side :: side in pairs[s] ==> pairs[s][side].Some?) <==> Contributes(runs, faction, s)
  {
    var sides: set<Side> := {(Forward, Baseline), (Forward, Candidate), (Mirrored, Baseline), (Mirrored, Candidate)};
    forall side | side in pairs[s].Keys
      ensures side in sides
    {
      assert (side.0 == Forward || side.0 == Mirrored) && (side.1 == Baseline || side.1 == Candidate);
    }
    assert |pairs[s]| == |pairs[s].Keys|;
    if |pairs[s]| == 4 {
      assert sides == pairs[s].Keys + (sides - pairs[s].Keys);
      assert |sides| == |pairs[s].Keys| + |sides - pairs[s].Keys|;
      assert sides - pairs[s].Keys == {};
    }
    assert Contributes(runs, faction, s) ==> pairs[s].Keys == sides;
  }

  /** The difference that one seed contributes, if it does. */
  method PairOf(ghost runs: seq<Run>, ghost faction: string, pairs: map<nat, map<Side, Option<real>>>, s: nat) returns (difference: Option<real>)
    requires Observed(runs, faction, pairs) && s in pairs
    ensures difference == if Contributes(runs, faction, s) then Some(Difference(runs, faction, s)) else None
  {
    FourSides(runs, faction, pairs, s);
    var sides := pairs[s];
    if |sides| != 4 || exists side :: side in sides && sides[side].None? {
      return None;
    }
    return Some(Balance(runs, faction, pairs, s));
  }

  /** The loop over the seeds. */
  method Compare(ghost runs: seq<Run>, ghost faction: string, pairs: map<nat, map<Side, Option<real>>>, seeds: seq<nat>)
    returns (paired: nat, total: real, excluded: seq<nat>)
    requires Observed(runs, faction, pairs) && forall s :: s in seeds ==> s in pairs
    ensures excluded == Excluded(runs, faction, seeds) && paired + |excluded| == |seeds|
    ensures total == TotalDifference(runs, faction, seeds)
  {
    paired, total, excluded := 0, 0.0, [];
    for i := 0 to |seeds|
      invariant excluded == Excluded(runs, faction, seeds[..i]) && paired + |excluded| == i
      invariant total == TotalDifference(runs, faction, seeds[..i])
    {
      assert seeds[..i + 1][..i] == seeds[..i];
      var difference := PairOf(runs, faction, pairs, seeds[i]);
      if difference.None? {
        excluded := excluded + [seeds[i]];
      } else {
        total := total + difference.value;
        paired := paired + 1;
      }
    }
    assert seeds[..|seeds|] == seeds;
  }

  /** `summarize`: an error exactly for a duplicate run or an unknown termination. */
  method Summarize(runs: seq<Run>, faction: string) returns (summary: Option<Summary>)
    ensures summary.Some? <==> Acceptable(runs)
    ensures summary.Some? ==> IsSummary(runs, faction, summary.value)
  {
    var pairs, counts := Collect(runs, faction);
    if pairs.None? {
      return None;
    }
    var seeds := SortSeeds(pairs.value.Keys);
    var paired, total, excluded := Compare(runs, faction, pairs.value, seeds);
    assert Lists(seeds, SeedsOf(runs));
    return Some(Summary(paired, excluded, if paired == 0 then None else Some(total / paired as real), counts));
  }

  function Balance(ghost runs: seq<Run>, ghost faction: string, pairs: map<nat, map<Side, Option<real>>>, s: nat): (difference: real)
    requires Observed(runs, faction, pairs) && s in pairs && Contributes(runs, faction, s)
    ensures difference == Difference(runs, faction, s)
  {
    var sides := pairs[s];
    (sides[(Forward, Candidate)].value - sides[(Forward, Baseline)].value
     + sides[(Mirrored, Candidate)].value - sides[(Mirrored, Baseline)].value) / 2.0
  }

  // ----- Properties of the summary

  lemma {:induction false} TotalBounded(runs: seq<Run>, faction: string, seeds: seq<nat>)
    ensures var n := |seeds| - |Excluded(runs, faction, seeds)|;
      n >= 0 && -(n as real) <= TotalDifference(runs, faction, seeds) <= n as real
    decreases |seeds|
  {
    if seeds != [] {
      var front, last := seeds[..|seeds| - 1], seeds[|seeds| - 1];
      TotalBounded(runs, faction, front);
      PointsBounded(runs, faction, Identity(last, Forward, Candidate));
      PointsBounded(runs, faction, Identity(last, Forward, Baseline));
      PointsBounded(runs, faction, Identity(last, Mirrored, Candidate));
      PointsBounded(runs, faction, Identity(last, Mirrored, Baseline));
    }
  }

  lemma {:induction false} PointsBounded(runs: seq<Run>, faction: string, id: Identity)
    ensures 0.0 <= Points(runs, faction, id) <= 1.0
    decreases |runs|
  {
    if runs != [] && IdentityOf(runs[|runs| - 1]) != id {
      PointsBounded(runs[..|runs| - 1], faction, id);
    }
  }

  lemma QuotientBounded(total: real, n: nat)
    requires n > 0 && -(n as real) <= total <= n as real
    ensures -1.0 <= total / n as real <= 1.0
  {
    var q := total / n as real;
    assert q * n as real == total;
    BeyondOne(q, n as real);
  }

  lemma BeyondOne(q: real, n: real)
    requires n > 0.0
    ensures q > 1.0 ==> q * n > n
    ensures q < -1.0 ==> q * n < -n
  {
    if q > 1.0 {
      assert (q - 1.0) * n > 0.0;
    }
    if q < -1.0 {
      assert (q + 1.0) * n < 0.0;
    }
  }

  /** The mean win difference is a number from -1 to 1, and every seed is paired or excluded. */
  lemma MeanBounded(runs: seq<Run>, faction: string, s: Summary)
    requires IsSummary(runs, faction, s)
    ensures s.mean.Some? ==> -1.0 <= s.mean.value <= 1.0
    ensures exists seeds :: Lists(seeds, SeedsOf(runs)) && s.paired + |s.excluded| == |seeds|
  {
    var seeds :| Lists(seeds, SeedsOf(runs)) && Summarizes(runs, faction, seeds, s);
    TotalBounded(runs, faction, seeds);
    if s.paired > 0 {
      QuotientBounded(TotalDifference(runs, faction, seeds), s.paired);
    }
  }

  // ----- Swapping the arms

  function Other(variant: Variant): Variant {
    if variant == Baseline then Candidate else Baseline
  }

  function SwapArms(runs: seq<Run>): (swapped: seq<Run>)
    ensures |swapped| == |runs|
    ensures forall i {:trigger swapped[i]} :: 0 <= i < |runs| ==> swapped[i] == runs[i].(variant := Other(runs[i].variant))
  {
    if runs == [] then [] else SwapArms(runs[..|runs| - 1]) + [runs[|runs| - 1].(variant := Other(runs[|runs| - 1].variant))]
  }

  lemma {:induction false} SwappedScore(runs: seq<Run>, faction: string, id: Identity)
    ensures ScoreAt(SwapArms(runs), faction, id) == ScoreAt(runs, faction, id.(variant := Other(id.variant)))
    decreases |runs|
  {
    if runs != [] {
      SwappedScore(runs[..|runs| - 1], faction, id);
      assert SwapArms(runs)[..|runs| - 1] == SwapArms(runs[..|runs| - 1]);
    }
  }

  lemma SwappedSeed(runs: seq<Run>, faction: string, seed: nat)
    ensures Contributes(SwapArms(runs), faction, seed) <==> Contributes(runs, faction, seed)
    ensures Difference(SwapArms(runs), faction, seed) == -Difference(runs, faction, seed)
  {
    SwappedScore(runs, faction, Identity(seed, Forward, Baseline));
    SwappedScore(runs, faction, Identity(seed, Forward, Candidate));
    SwappedScore(runs, faction, Identity(seed, Mirrored, Baseline));
    SwappedScore(runs, faction, Identity(seed, Mirrored, Candidate));
  }

  lemma {:induction false} SwappedTotals(runs: seq<Run>, faction: string, seeds: seq<nat>)
    ensures TotalDifference(SwapArms(runs), faction, seeds) == -TotalDifference(runs, faction, seeds)
    ensures Excluded(SwapArms(runs), faction, seeds) == Excluded(runs, faction, seeds)
    decreases |seeds|
  {
    if seeds != [] {
      SwappedTotals(runs, faction, seeds[..|seeds| - 1]);
      SwappedSeed(runs, faction, seeds[|seeds| - 1]);
    }
  }

  lemma HasElement(seeds: seq<nat>)
    ensures seeds != [] ==> exists s :: s in seeds
  {
    if seeds != [] {
      assert seeds[0] in seeds;
    }
  }

  lemma LastIsGreatest(seeds: seq<nat>, all: set<nat>)
    requires Lists(seeds, all) && seeds != []
    ensures var last := seeds[|seeds| - 1];
      && last in all && (forall t :: t in all ==> t <= last)
      && Lists(seeds[..|seeds| - 1], all - {last})
  {
    var front, last := seeds[..|seeds| - 1], seeds[|seeds| - 1];
    assert last in seeds && seeds == front + [last];
    forall t | t in all
      ensures t <= last
    {
      var i :| 0 <= i < |seeds| && seeds[i] == t;
    }
  }

  lemma {:induction false} AscendingUnique(a: seq<nat>, b: seq<nat>, all: set<nat>)
    requires Lists(a, all) && Lists(b, all)
    ensures a == b
    decreases |a|
  {
    HasElement(a);
    HasElement(b);
    if a != [] && b != [] {
      LastIsGreatest(a, all);
      LastIsGreatest(b, all);
      var last := a[|a| - 1];
      AscendingUnique(a[..|a| - 1], b[..|b| - 1], all - {last});
      assert a == a[..|a| - 1] + [last] && b == b[..|b| - 1] + [last];
    }
  }

  /** Calling the candidate the baseline negates the mean and keeps which seeds count. */
  lemma SwapNegates(runs: seq<Run>, faction: string, s: Summary, t: Summary)
    requires IsSummary(runs, faction, s) && IsSummary(SwapArms(runs), faction, t)
    ensures s.paired == t.paired && s.excluded == t.excluded
    ensures s.mean.Some? <==> t.mean.Some?
    ensures s.mean.Some? ==> t.mean.value == -s.mean.value
  {
    var a :| Lists(a, SeedsOf(runs)) && Summarizes(runs, faction, a, s);
    var b :| Lists(b, SeedsOf(SwapArms(runs))) && Summarizes(SwapArms(runs), faction, b, t);
    SameSeeds(runs);
    AscendingUnique(a, b, SeedsOf(runs));
    SwapNegatesOver(runs, faction, a, s, t);
  }

  lemma SwapNegatesOver(runs: seq<Run>, faction: string, seeds: seq<nat>, s: Summary, t: Summary)
    requires Summarizes(runs, faction, seeds, s) && Summarizes(SwapArms(runs), faction, seeds, t)
    ensures s.paired == t.paired && s.excluded == t.excluded
    ensures s.mean.Some? <==> t.mean.Some?
    ensures s.mean.Some? ==> t.mean.value == -s.mean.value
  {
    SwappedTotals(runs, faction, seeds);
    if s.paired > 0 {
      NegatedQuotient(TotalDifference(runs, faction, seeds), s.paired as real);
    }
  }

  lemma NegatedQuotient(x: real, n: real)
    requires n != 0.0
    ensures (-x) / n == -(x / n)
  {
    var q := x / n;
    assert q * n == x;
    assert (-q) * n == -x;
  }

  lemma SameSeeds(runs: seq<Run>)
    ensures SeedsOf(SwapArms(runs)) == SeedsOf(runs)
  {
    forall s
      ensures s in SeedsOf(SwapArms(runs)) <==> s in SeedsOf(runs)
    {
      if s in SeedsOf(runs) {
        var i :| 0 <= i < |runs| && runs[i].seed == s;
        assert SwapArms(runs)[i].seed == s;
      }
      if s in SeedsOf(SwapArms(runs)) {
        var i :| 0 <= i < |runs| && SwapArms(runs)[i].seed == s;
        assert runs[i].seed == s;
      }
    }
  }

  // ----- The order of the runs

  lemma {:induction false} KnownScore(runs: seq<Run>, faction: string, i: nat)
    requires Acceptable(runs) && i < |runs|
    ensures ScoreAt(runs, faction, IdentityOf(runs[i])) == Some(ScoreOf(runs[i], faction))
    decreases |runs|
  {
    if i < |runs| - 1 {
      KnownScore(runs[..|runs| - 1], faction, i);
    }
  }

  lemma SameScore(runs: seq<Run>, others: seq<Run>, faction: string, id: Identity)
    requires Acceptable(runs) && Acceptable(others) && forall run :: run in runs <==> run in others
    ensures ScoreAt(runs, faction, id) == ScoreAt(others, faction, id)
  {
    KnownIdentity(runs, faction, id);
    KnownIdentity(others, faction, id);
    if i :| 0 <= i < |runs| && IdentityOf(runs[i]) == id {
      assert runs[i] in others;
      var j :| 0 <= j < |others| && others[j] == runs[i];
      KnownScore(runs, faction, i);
      KnownScore(others, faction, j);
    }
    assert forall j :: 0 <= j < |others| ==> others[j] in runs;
  }

  lemma {:induction false} SameTotals(runs: seq<Run>, others: seq<Run>, faction: string, seeds: seq<nat>)
    requires Acceptable(runs) && Acceptable(others) && forall run :: run in runs <==> run in others
    ensures TotalDifference(runs, faction, seeds) == TotalDifference(others, faction, seeds)
    ensures Excluded(runs, faction, seeds) == Excluded(others, faction, seeds)
    decreases |seeds|
  {
    if seeds != [] {
      var last := seeds[|seeds| - 1];
      SameTotals(runs, others, faction, seeds[..|seeds| - 1]);
      SameScore(runs, others, faction, Identity(last, Forward, Baseline));
      SameScore(runs, others, faction, Identity(last, Forward, Candidate));
      SameScore(runs, others, faction, Identity(last, Mirrored, Baseline));
      SameScore(runs, others, faction, Identity(last, Mirrored, Candidate));
    }
  }

  lemma {:induction false} CountConcat(a: seq<Run>, b: seq<Run>, variant: Variant, kind: string)
    ensures Count(a + b, variant, kind) == Count(a, variant, kind) + Count(b, variant, kind)
    decreases |b|
  {
    if b == [] {
      assert a + b == a;
    } else {
      assert (a + b)[..|a + b| - 1] == a + b[..|b| - 1];
      CountConcat(a, b[..|b| - 1], variant, kind);
    }
  }

  lemma {:induction false} SameCount(runs: seq<Run>, others: seq<Run>, variant: Variant, kind: string)
    requires multiset(runs) == multiset(others)
    ensures Count(runs, variant, kind) == Count(others, variant, kind)
    decreases |runs|
  {
    SameLength(runs, others);
    if runs != [] {
      var i := WithoutLast(runs, others);
      SameCount(runs[..|runs| - 1], others[..i] + others[i + 1..], variant, kind);
      CountConcat(others[..i], others[i + 1..], variant, kind);
      CountConcat(others[..i] + [others[i]], others[i + 1..], variant, kind);
      CountConcat(others[..i], [others[i]], variant, kind);
    }
  }

  lemma SeedsByMembers(runs: seq<Run>, others: seq<Run>)
    requires forall run :: run in runs <==> run in others
    ensures SeedsOf(runs) == SeedsOf(others)
  {
    forall s
      ensures s in SeedsOf(runs) <==> s in SeedsOf(others)
    {
      if s in SeedsOf(runs) {
        var i :| 0 <= i < |runs| && runs[i].seed == s;
        assert runs[i] in others;
      }
      if s in SeedsOf(others) {
        var i :| 0 <= i < |others| && others[i].seed == s;
        assert others[i] in runs;
      }
    }
  }

  /** Runs in another order have the same summary. */
  lemma OrderIrrelevant(runs: seq<Run>, others: seq<Run>, faction: string, s: Summary)
    requires Acceptable(runs) && Acceptable(others) && multiset(runs) == multiset(others) && IsSummary(runs, faction, s)
    ensures IsSummary(others, faction, s)
  {
    forall run
      ensures run in runs <==> run in others
    {
      assert run in runs <==> run in multiset(runs);
      assert run in others <==> run in multiset(others);
    }
    SeedsByMembers(runs, others);
    var seeds :| Lists(seeds, SeedsOf(runs)) && Summarizes(runs, faction, seeds, s);
    SameTotals(runs, others, faction, seeds);
    forall variant, kind
      ensures Count(runs, variant, kind) == Count(others, variant, kind)
    {
      SameCount(runs, others, variant, kind);
    }
  }

  // ----- The mean, from the runs and their winners

  predicate IsEliminated(run: Run) {
    run.result.Ok? && run.result.report.termination.kind == "elimination"
  }

  /** Twice the points of a run: two for a win, one for a mutual elimination. */
  function HalfWins(run: Run, faction: string): nat {
    if !IsEliminated(run) then 0
    else
      match run.result.report.termination.winner
      case None => 1
      case Some(winner) => if winner == faction then 2 else 0
  }

  /** All four encounters of the seed took place and ended in elimination. */
  ghost predicate AllEliminated(runs: seq<Run>, seed: nat) {
    forall orientation, variant :: EndsEliminated(runs, Identity(seed, orientation, variant))
  }

  ghost predicate EndsEliminated(runs: seq<Run>, id: Identity) {
    exists run :: run in runs && IdentityOf(run) == id && IsEliminated(run)
  }

  ghost function PairedSeeds(runs: seq<Run>): set<nat> {
    set seed | seed in SeedsOf(runs) && AllEliminated(runs, seed)
  }

  /** All half wins of one arm in these seeds. */
  function WinsOf(runs: seq<Run>, faction: string, variant: Variant, seeds: set<nat>): nat {
    if runs == [] then 0
    else
      var last := runs[|runs| - 1];
      WinsOf(runs[..|runs| - 1], faction, variant, seeds)
      + if last.variant == variant && last.seed in seeds then HalfWins(last, faction) else 0
  }

  lemma {:induction false} WinsJoin(runs: seq<Run>, faction: string, variant: Variant, seeds: set<nat>, seed: nat)
    requires seed !in seeds
    ensures WinsOf(runs, faction, variant, seeds + {seed})
         == WinsOf(runs, faction, variant, seeds) + WinsOf(runs, faction, variant, {seed})
    decreases |runs|
  {
    if runs != [] {
      WinsJoin(runs[..|runs| - 1], faction, variant, seeds, seed);
    }
  }

  lemma {:induction false} NoWins(runs: seq<Run>, faction: string, variant: Variant)
    ensures WinsOf(runs, faction, variant, {}) == 0
    decreases |runs|
  {
    if runs != [] {
      NoWins(runs[..|runs| - 1], faction, variant);
    }
  }

  lemma ScoreIs(run: Run, faction: string)
    ensures ScoreOf(run, faction).Some? <==> IsEliminated(run)
    ensures ScoreOf(run, faction).Some? ==> 2.0 * ScoreOf(run, faction).value == HalfWins(run, faction) as real
  {
  }

  /** One seed's half wins are its points in both orientations. */
  lemma {:induction false} WinsOfSeed(runs: seq<Run>, faction: string, variant: Variant, seed: nat)
    requires Acceptable(runs)
    ensures WinsOf(runs, faction, variant, {seed}) as real
         == 2.0 * (Points(runs, faction, Identity(seed, Forward, variant)) + Points(runs, faction, Identity(seed, Mirrored, variant)))
    decreases |runs|
  {
    if runs != [] {
      var front, last := runs[..|runs| - 1], runs[|runs| - 1];
      WinsOfSeed(front, faction, variant, seed);
      ScoreIs(last, faction);
      KnownIdentity(front, faction, IdentityOf(last));
      assert ScoreAt(front, faction, IdentityOf(last)).None? by {
        forall i | 0 <= i < |front|
          ensures IdentityOf(front[i]) != IdentityOf(last)
        {
          assert IdentityOf(runs[i]) != IdentityOf(runs[|runs| - 1]);
        }
      }
      assert last.orientation == Forward || last.orientation == Mirrored;
    }
  }

  lemma ScoredExactly(runs: seq<Run>, faction: string, id: Identity)
    requires Acceptable(runs)
    ensures Scored(runs, faction, id) <==> EndsEliminated(runs, id)
  {
    KnownIdentity(runs, faction, id);
    if i :| 0 <= i < |runs| && IdentityOf(runs[i]) == id {
      KnownScore(runs, faction, i);
      ScoreIs(runs[i], faction);
      assert runs[i] in runs;
      forall run | run in runs && IdentityOf(run) == id
        ensures run == runs[i]
      {
        var j :| 0 <= j < |runs| && runs[j] == run;
        SameRun(runs, i, j);
      }
    }
  }

  lemma SameRun(runs: seq<Run>, i: nat, j: nat)
    requires Acceptable(runs) && i < |runs| && j < |runs| && IdentityOf(runs[i]) == IdentityOf(runs[j])
    ensures i == j
  {
  }

  lemma ContributesExactly(runs: seq<Run>, faction: string, seed: nat)
    requires Acceptable(runs)
    ensures Contributes(runs, faction, seed) <==> AllEliminated(runs, seed)
  {
    ScoredExactly(runs, faction, Identity(seed, Forward, Baseline));
    ScoredExactly(runs, faction, Identity(seed, Forward, Candidate));
    ScoredExactly(runs, faction, Identity(seed, Mirrored, Baseline));
    ScoredExactly(runs, faction, Identity(seed, Mirrored, Candidate));
    if Contributes(runs, faction, seed) {
      forall orientation, variant
        ensures EndsEliminated(runs, Identity(seed, orientation, variant))
      {
        assert (orientation == Forward || orientation == Mirrored) && (variant == Baseline || variant == Candidate);
      }
    }
  }

  lemma SeedDifference(runs: seq<Run>, faction: string, seed: nat)
    requires Acceptable(runs)
    ensures 4.0 * Difference(runs, faction, seed)
         == WinsOf(runs, faction, Candidate, {seed}) as real - WinsOf(runs, faction, Baseline, {seed}) as real
  {
    WinsOfSeed(runs, faction, Candidate, seed);
    WinsOfSeed(runs, faction, Baseline, seed);
  }

  ghost function PairedAmong(runs: seq<Run>, seeds: seq<nat>): set<nat> {
    set seed | seed in seeds && AllEliminated(runs, seed)
  }

  lemma PairedAppend(runs: seq<Run>, seeds: seq<nat>)
    requires seeds != []
    ensures var last := seeds[|seeds| - 1];
      PairedAmong(runs, seeds) == PairedAmong(runs, seeds[..|seeds| - 1]) + if AllEliminated(runs, last) then {last} else {}
  {
    assert seeds == seeds[..|seeds| - 1] + [seeds[|seeds| - 1]];
  }

  /** The total over a list of seeds, and how many of them count. */
  lemma {:induction false} TotalIs(runs: seq<Run>, faction: string, seeds: seq<nat>)
    requires Acceptable(runs) && Ascending(seeds)
    ensures var paired := PairedAmong(runs, seeds);
      && 4.0 * TotalDifference(runs, faction, seeds)
         == WinsOf(runs, faction, Candidate, paired) as real - WinsOf(runs, faction, Baseline, paired) as real
      && |paired| + |Excluded(runs, faction, seeds)| == |seeds|
    decreases |seeds|
  {
    if seeds == [] {
      assert PairedAmong(runs, seeds) == {};
      NoWins(runs, faction, Candidate);
      NoWins(runs, faction, Baseline);
    } else {
      var front, last := seeds[..|seeds| - 1], seeds[|seeds| - 1];
      TotalIs(runs, faction, front);
      PairedAppend(runs, seeds);
      ContributesExactly(runs, faction, last);
      assert last !in PairedAmong(runs, front);
      if AllEliminated(runs, last) {
        WinsJoin(runs, faction, Candidate, PairedAmong(runs, front), last);
        WinsJoin(runs, faction, Baseline, PairedAmong(runs, front), last);
        SeedDifference(runs, faction, last);
      }
    }
  }

  lemma {:induction false} ExcludedAre(runs: seq<Run>, faction: string, seeds: seq<nat>)
    requires Acceptable(runs) && Ascending(seeds)
    ensures forall s :: s in Excluded(runs, faction, seeds) <==> s in seeds && !AllEliminated(runs, s)
    ensures Ascending(Excluded(runs, faction, seeds))
    decreases |seeds|
  {
    if seeds != [] {
      var front, last := seeds[..|seeds| - 1], seeds[|seeds| - 1];
      ExcludedAre(runs, faction, front);
      ContributesExactly(runs, faction, last);
      assert seeds == front + [last];
      var before := Excluded(runs, faction, front);
      forall i | 0 <= i < |before|
        ensures before[i] < last
      {
        assert before[i] in before;
      }
    }
  }

  lemma Quarter(total: real, wins: real, n: real)
    requires n > 0.0 && 4.0 * total == wins
    ensures total / n == wins / (4.0 * n)
  {
    var q := total / n;
    assert q * n == total;
    assert q * (4.0 * n) == wins;
  }

  /** Half wins of the candidate without those of the baseline, for each of the four encounters of the seeds. */
  function MeanOf(runs: seq<Run>, faction: string, seeds: set<nat>): real
    requires seeds != {}
  {
    (WinsOf(runs, faction, Candidate, seeds) as real - WinsOf(runs, faction, Baseline, seeds) as real) / (4.0 * |seeds| as real)
  }

  /** The mean is the candidate's half wins without the baseline's, over the seeds of which all four encounters ended in
      elimination, four encounters each. */
  ghost predicate HasMean(runs: seq<Run>, faction: string, s: Summary) {
    var paired := PairedSeeds(runs);
    && s.paired == |paired|
    && s.mean == if paired == {} then None else Some(MeanOf(runs, faction, paired))
  }

  /** So it is in a summary; the other seeds are excluded, in order. */
  lemma MeanExactly(runs: seq<Run>, faction: string, s: Summary)
    requires Acceptable(runs) && IsSummary(runs, faction, s)
    ensures HasMean(runs, faction, s) && Lists(s.excluded, SeedsOf(runs) - PairedSeeds(runs))
  {
    var seeds :| Lists(seeds, SeedsOf(runs)) && Summarizes(runs, faction, seeds, s);
    ExcludedAre(runs, faction, seeds);
    MeanOver(runs, faction, seeds, s);
  }

  lemma MeanOver(runs: seq<Run>, faction: string, seeds: seq<nat>, s: Summary)
    requires Acceptable(runs) && Lists(seeds, SeedsOf(runs)) && Summarizes(runs, faction, seeds, s)
    ensures HasMean(runs, faction, s)
  {
    assert PairedAmong(runs, seeds) == PairedSeeds(runs);
    TotalIs(runs, faction, seeds);
    var paired := PairedSeeds(runs);
    if paired != {} {
      Quarter(TotalDifference(runs, faction, seeds),
              WinsOf(runs, faction, Candidate, paired) as real - WinsOf(runs, faction, Baseline, paired) as real, |paired| as real);
    }
  }

  // ----- What winners do to the mean

  lemma {:induction false} WinsWith(runs: seq<Run>, faction: string, variant: Variant, seeds: set<nat>, i: nat, run: Run)
    requires i < |runs| && IdentityOf(run) == IdentityOf(runs[i])
    ensures var counts := run.variant == variant && run.seed in seeds;
      WinsOf(runs[i := run], faction, variant, seeds) + (if counts then HalfWins(runs[i], faction) else 0)
      == WinsOf(runs, faction, variant, seeds) + (if counts then HalfWins(run, faction) else 0)
    decreases |runs|
  {
    var n := |runs| - 1;
    if i < n {
      WinsWith(runs[..n], faction, variant, seeds, i, run);
      assert runs[i := run][..n] == runs[..n][i := run];
    } else {
      assert runs[i := run][..n] == runs[..n];
    }
  }

  lemma StillEliminated(runs: seq<Run>, i: nat, run: Run, id: Identity)
    requires i < |runs| && IdentityOf(run) == IdentityOf(runs[i]) && IsEliminated(run) && IsEliminated(runs[i])
    ensures EndsEliminated(runs[i := run], id) <==> EndsEliminated(runs, id)
  {
    var changed := runs[i := run];
    if r :| r in runs && IdentityOf(r) == id && IsEliminated(r) {
      var j :| 0 <= j < |runs| && runs[j] == r;
      assert changed[j] in changed && IdentityOf(changed[j]) == id && IsEliminated(changed[j]);
    }
    if r :| r in changed && IdentityOf(r) == id && IsEliminated(r) {
      var j :| 0 <= j < |changed| && changed[j] == r;
      assert runs[j] in runs && IdentityOf(runs[j]) == id && IsEliminated(runs[j]);
    }
  }

  lemma StillPaired(runs: seq<Run>, i: nat, run: Run)
    requires i < |runs| && IdentityOf(run) == IdentityOf(runs[i]) && IsEliminated(run) && IsEliminated(runs[i])
    ensures PairedSeeds(runs[i := run]) == PairedSeeds(runs)
  {
    var changed := runs[i := run];
    forall seed
      ensures seed in SeedsOf(changed) <==> seed in SeedsOf(runs)
      ensures AllEliminated(changed, seed) <==> AllEliminated(runs, seed)
    {
      SameSeedAt(runs, i, run, seed);
      forall orientation, variant
        ensures EndsEliminated(changed, Identity(seed, orientation, variant)) <==> EndsEliminated(runs, Identity(seed, orientation, variant))
      {
        StillEliminated(runs, i, run, Identity(seed, orientation, variant));
      }
    }
  }

  lemma SameSeedAt(runs: seq<Run>, i: nat, run: Run, seed: nat)
    requires i < |runs| && IdentityOf(run) == IdentityOf(runs[i])
    ensures seed in SeedsOf(runs[i := run]) <==> seed in SeedsOf(runs)
  {
    var changed := runs[i := run];
    if j :| 0 <= j < |runs| && runs[j].seed == seed {
      assert changed[j].seed == seed;
    }
    if j :| 0 <= j < |changed| && changed[j].seed == seed {
      assert runs[j].seed == seed;
    }
  }

  lemma Raised(a: real, b: real, more: real, n: real)
    requires n > 0.0
    ensures (a + more - b) / n == (a - b) / n + more / n
  {
    var x, y := (a - b) / n, more / n;
    assert x * n == a - b && y * n == more;
    assert (x + y) * n == a + more - b;
  }

  /** Another winner of a candidate run in a paired seed moves the mean by exactly the half wins that it gains or loses: to
      the faction from another it is two, from or to a mutual elimination one. */
  lemma WinnerMoves(runs: seq<Run>, i: nat, run: Run, faction: string, s: Summary, t: Summary)
    requires Acceptable(runs) && i < |runs| && IdentityOf(run) == IdentityOf(runs[i]) && run.variant == Candidate
    requires IsEliminated(run) && IsEliminated(runs[i]) && run.seed in PairedSeeds(runs)
    requires IsSummary(runs, faction, s) && IsSummary(runs[i := run], faction, t)
    ensures s.mean.Some? && t.mean.Some? && s.paired == t.paired > 0
    ensures t.mean.value == s.mean.value
              + (HalfWins(run, faction) as real - HalfWins(runs[i], faction) as real) / (4.0 * s.paired as real)
  {
    var changed, paired := runs[i := run], PairedSeeds(runs);
    StillPaired(runs, i, run);
    StillAcceptable(runs, i, run);
    MeanExactly(runs, faction, s);
    MeanExactly(changed, faction, t);
    MovesFrom(runs, i, run, faction, s, t);
  }

  lemma MovesFrom(runs: seq<Run>, i: nat, run: Run, faction: string, s: Summary, t: Summary)
    requires i < |runs| && IdentityOf(run) == IdentityOf(runs[i]) && run.variant == Candidate && run.seed in PairedSeeds(runs)
    requires HasMean(runs, faction, s) && HasMean(runs[i := run], faction, t) && PairedSeeds(runs[i := run]) == PairedSeeds(runs)
    ensures s.mean.Some? && t.mean.Some? && s.paired == t.paired > 0
    ensures t.mean.value == s.mean.value
              + (HalfWins(run, faction) as real - HalfWins(runs[i], faction) as real) / (4.0 * s.paired as real)
  {
    MeanMoves(runs, i, run, faction, PairedSeeds(runs));
  }

  lemma MeanMoves(runs: seq<Run>, i: nat, run: Run, faction: string, paired: set<nat>)
    requires i < |runs| && IdentityOf(run) == IdentityOf(runs[i]) && run.variant == Candidate && run.seed in paired
    ensures MeanOf(runs[i := run], faction, paired)
         == MeanOf(runs, faction, paired) + (HalfWins(run, faction) as real - HalfWins(runs[i], faction) as real) / (4.0 * |paired| as real)
  {
    WinsMove(runs, i, run, faction, paired);
    assert |paired| > 0;
    Raised(WinsOf(runs, faction, Candidate, paired) as real, WinsOf(runs, faction, Baseline, paired) as real,
           HalfWins(run, faction) as real - HalfWins(runs[i], faction) as real, 4.0 * |paired| as real);
  }

  lemma WinsMove(runs: seq<Run>, i: nat, run: Run, faction: string, paired: set<nat>)
    requires i < |runs| && IdentityOf(run) == IdentityOf(runs[i]) && run.variant == Candidate && run.seed in paired
    ensures WinsOf(runs[i := run], faction, Candidate, paired) as real
         == WinsOf(runs, faction, Candidate, paired) as real + (HalfWins(run, faction) as real - HalfWins(runs[i], faction) as real)
    ensures WinsOf(runs[i := run], faction, Baseline, paired) == WinsOf(runs, faction, Baseline, paired)
  {
    WinsWith(runs, faction, Candidate, paired, i, run);
    WinsWith(runs, faction, Baseline, paired, i, run);
  }

  lemma StillAcceptable(runs: seq<Run>, i: nat, run: Run)
    requires Acceptable(runs) && i < |runs| && IdentityOf(run) == IdentityOf(runs[i]) && IsEliminated(run)
    ensures Acceptable(runs[i := run])
  {
    var changed := runs[i := run];
    forall j, k | 0 <= j < k < |changed|
      ensures IdentityOf(changed[j]) != IdentityOf(changed[k])
    {
      assert IdentityOf(changed[j]) == IdentityOf(runs[j]) && IdentityOf(changed[k]) == IdentityOf(runs[k]);
    }
  }

  /** The mean is one when in every paired seed the faction wins as the candidate and another wins against the baseline. */
  lemma CandidateDominates(runs: seq<Run>, faction: string, s: Summary)
    requires Acceptable(runs) && IsSummary(runs, faction, s) && PairedSeeds(runs) != {}
    requires forall run :: run in runs && run.seed in PairedSeeds(runs) ==>
               HalfWins(run, faction) == if run.variant == Candidate then 2 else 0
    ensures s.mean == Some(1.0)
  {
    var seeds :| Lists(seeds, SeedsOf(runs)) && Summarizes(runs, faction, seeds, s);
    assert PairedAmong(runs, seeds) == PairedSeeds(runs);
    AllWon(runs, faction, seeds);
    MeanOver(runs, faction, seeds, s);
    WholeMean(runs, faction, PairedSeeds(runs));
  }

  lemma WholeMean(runs: seq<Run>, faction: string, paired: set<nat>)
    requires paired != {} && WinsOf(runs, faction, Candidate, paired) == 4 * |paired| && WinsOf(runs, faction, Baseline, paired) == 0
    ensures MeanOf(runs, faction, paired) == 1.0
  {
    assert |paired| > 0;
    Whole(|paired|);
  }

  lemma Whole(n: nat)
    requires n > 0
    ensures ((4 * n) as real - 0.0) / (4.0 * n as real) == 1.0
  {
  }

  lemma {:induction false} AllWon(runs: seq<Run>, faction: string, seeds: seq<nat>)
    requires Acceptable(runs) && Ascending(seeds)
    requires forall run :: run in runs && run.seed in PairedAmong(runs, seeds) ==>
               HalfWins(run, faction) == if run.variant == Candidate then 2 else 0
    ensures var paired := PairedAmong(runs, seeds);
      && WinsOf(runs, faction, Candidate, paired) == 4 * |paired| && WinsOf(runs, faction, Baseline, paired) == 0
    decreases |seeds|
  {
    if seeds == [] {
      assert PairedAmong(runs, seeds) == {};
      NoWins(runs, faction, Candidate);
      NoWins(runs, faction, Baseline);
    } else {
      var front, last := seeds[..|seeds| - 1], seeds[|seeds| - 1];
      PairedAppend(runs, seeds);
      AllWon(runs, faction, front);
      assert last !in PairedAmong(runs, front);
      if AllEliminated(runs, last) {
        WinsJoin(runs, faction, Candidate, PairedAmong(runs, front), last);
        WinsJoin(runs, faction, Baseline, PairedAmong(runs, front), last);
        SeedWon(runs, faction, last);
      }
    }
  }

  lemma SeedWon(runs: seq<Run>, faction: string, seed: nat)
    requires Acceptable(runs) && AllEliminated(runs, seed)
    requires forall run :: run in runs && run.seed == seed ==> HalfWins(run, faction) == if run.variant == Candidate then 2 else 0
    ensures WinsOf(runs, faction, Candidate, {seed}) == 4 && WinsOf(runs, faction, Baseline, {seed}) == 0
  {
    WinsOfSeed(runs, faction, Candidate, seed);
    WinsOfSeed(runs, faction, Baseline, seed);
    forall orientation, variant
      ensures 2.0 * Points(runs, faction, Identity(seed, orientation, variant)) == if variant == Candidate then 2.0 else 0.0
    {
      var id := Identity(seed, orientation, variant);
      assert EndsEliminated(runs, id);
      var run :| run in runs && IdentityOf(run) == id && IsEliminated(run);
      var i :| 0 <= i < |runs| && runs[i] == run;
      KnownScore(runs, faction, i);
      ScoreIs(run, faction);
    }
  }

  // ----- The tallies

  /** The run ended in this way; a run without a report failed. */
  predicate EndedIn(run: Run, kind: string) {
    if run.result.Ok? then run.result.report.termination.kind == kind else kind == "failure"
  }

  function Ended(runs: seq<Run>, variant: Variant, kind: string): set<nat> {
    set i: nat | i < |runs| && runs[i].variant == variant && EndedIn(runs[i], kind)
  }

  /** The tallies count the runs of an arm that ended in each way. */
  lemma {:induction false} CountExactly(runs: seq<Run>, variant: Variant, kind: string)
    ensures Count(runs, variant, kind) == |Ended(runs, variant, kind)|
    decreases |runs|
  {
    if runs != [] {
      CountExactly(runs[..|runs| - 1], variant, kind);
      EndedAppend(runs, variant, kind);
    }
  }

  lemma EndedAppend(runs: seq<Run>, variant: Variant, kind: string)
    requires runs != []
    ensures var n := |runs| - 1;
      && n !in Ended(runs[..n], variant, kind)
      && Ended(runs, variant, kind)
         == Ended(runs[..n], variant, kind) + if runs[n].variant == variant && EndedIn(runs[n], kind) then {n} else {}
  {
    var front, n := runs[..|runs| - 1], |runs| - 1;
    forall i: nat
      ensures i in Ended(runs, variant, kind)
        <==> i in Ended(front, variant, kind) || (i == n && runs[n].variant == variant && EndedIn(runs[n], kind))
    {
      assert i < n ==> front[i] == runs[i];
    }
  }
}
