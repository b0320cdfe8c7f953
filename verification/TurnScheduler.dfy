/** The independent turn-order oracle of scripts/performance_report.py (`expected_actions`): the schedule that the
    minimum-(ready, index) rule gives, and its closed-form start. */
module TurnScheduler {

  /** direction is empty when the action has none. */
  datatype Action = Action(kind: string, direction: string, open: bool)
  datatype Step = Step(name: string, action: Action, expected: string, minRegions: nat)
  datatype Record = Record(actor: nat, name: string, action: Action, expected: string)

  const WAIT := Step("wait_same_region", Action("wait", "", false), "waited", 1)

  type Clocks = seq<nat>

  /** A rejected attempt is free, a diagonal takes 142 ticks and everything else 100. */
  function Cost(expected: string, action: Action): nat {
    if expected == "blocked" then 0 else if '_' in action.direction then 142 else 100
  }

  /** A rejected attempt costs nothing, any other a hundred ticks, or 142 along a diagonal. */
  lemma CostExactly(expected: string, action: Action)
    ensures expected == "blocked" ==> Cost(expected, action) == 0
    ensures expected != "blocked" && '_' !in action.direction ==> Cost(expected, action) == 100
    ensures expected != "blocked" && '_' in action.direction ==> Cost(expected, action) == 142
  {
  }

  function RecordOf(actor: nat, step: Step): Record {
    Record(actor, step.name, step.action, step.expected)
  }

  /** The actor to serve: the least clock, the lowest index among equals. */
  function MinIndex(ready: Clocks): (m: nat)
    requires ready != []
    ensures m < |ready| && IsDue(ready, m)
  {
    LeastUpTo(ready, |ready|)
  }

  ghost predicate IsDue(ready: Clocks, m: nat)
    requires m < |ready|
  {
    forall i :: 0 <= i < |ready| ==> ready[m] < ready[i] || (ready[m] == ready[i] && m <= i)
  }

  function LeastUpTo(ready: Clocks, n: nat): (m: nat)
    requires 0 < n <= |ready|
    ensures m < n && forall i :: 0 <= i < n ==> ready[m] < ready[i] || (ready[m] == ready[i] && m <= i)
  {
    if n == 1 then 0
    else
      var m := LeastUpTo(ready, n - 1);
      if ready[n - 1] < ready[m] then n - 1 else m
  }

  lemma DueUnique(ready: Clocks, m: nat)
    requires m < |ready| && IsDue(ready, m)
    ensures MinIndex(ready) == m
  {
  }

  // ----- The closed form of the starting clocks

  /** The clocks after `history` waits, each by the actor whose turn it is. */
  function AfterWaits(actors: nat, history: nat): (r: Clocks)
    requires actors > 0
    ensures |r| == actors
    decreases history
  {
    if history == 0 then seq(actors, _ => 0)
    else
      var before := AfterWaits(actors, history - 1);
      var m := MinIndex(before);
      before[m := before[m] + 100]
  }

  /** Every clock shows that many turns of 100 ticks, the first m clocks one turn more. */
  ghost predicate IsLevel(ready: Clocks, turns: nat, m: nat) {
    forall i :: 0 <= i < |ready| ==> ready[i] == (turns + if i < m then 1 else 0) * 100
  }

  lemma LevelStep(ready: Clocks, turns: nat, m: nat)
    requires m < |ready| && IsLevel(ready, turns, m)
    ensures MinIndex(ready) == m
    ensures m + 1 < |ready| ==> IsLevel(ready[m := ready[m] + 100], turns, m + 1)
    ensures m + 1 == |ready| ==> IsLevel(ready[m := ready[m] + 100], turns + 1, 0)
  {
    DueUnique(ready, m);
  }

  lemma MulMono(a: int, b: int, n: nat)
    requires a <= b
    ensures a * n <= b * n
  {
    assert (b - a) * n >= 0;
  }

  lemma DivModIs(x: nat, n: nat, q: nat, r: nat)
    requires n > 0 && x == q * n + r && r < n
    ensures x / n == q && x % n == r
  {
    var q' := x / n;
    assert x == q' * n + x % n;
    if q' < q {
      MulMono(q' + 1, q, n);
    } else if q < q' {
      MulMono(q + 1, q', n);
    }
  }

  lemma Successor(n: nat, h: nat)
    requires n > 0
    ensures h % n + 1 < n ==> (h + 1) / n == h / n && (h + 1) % n == h % n + 1
    ensures h % n + 1 == n ==> (h + 1) / n == h / n + 1 && (h + 1) % n == 0
  {
    var q, m := h / n, h % n;
    assert h == q * n + m;
    if m + 1 < n {
      DivModIs(h + 1, n, q, m + 1);
    } else {
      assert h + 1 == (q + 1) * n;
      DivModIs(h + 1, n, q + 1, 0);
    }
  }

  function Waits(actors: nat, turns: nat, m: nat): nat {
    if turns == 0 then m else Waits(actors, turns - 1, m) + actors
  }

  lemma {:induction false} WaitsIsProduct(actors: nat, turns: nat, m: nat)
    ensures Waits(actors, turns, m) == turns * actors + m
    decreases turns
  {
    if turns > 0 {
      WaitsIsProduct(actors, turns - 1, m);
    }
  }

  lemma {:induction false} WaitsAdd(actors: nat, turns: nat, m: nat, n: nat)
    ensures Waits(actors, turns, m + n) == Waits(actors, turns, m) + n
    decreases turns
  {
    if turns > 0 {
      WaitsAdd(actors, turns - 1, m, n);
    }
  }

  lemma WaitsBefore(actors: nat, turns: nat, m: nat)
    requires m < actors
    ensures m > 0 ==> Waits(actors, turns, m) == Waits(actors, turns, m - 1) + 1
    ensures m == 0 && turns > 0 ==> Waits(actors, turns, m) == Waits(actors, turns - 1, actors - 1) + 1
  {
    if m > 0 {
      WaitsAdd(actors, turns, m - 1, 1);
    } else if turns > 0 {
      WaitsAdd(actors, turns - 1, 0, actors - 1);
    }
  }

  lemma {:induction false} LevelAfterWaits(actors: nat, turns: nat, m: nat, history: nat)
    requires m < actors && history == Waits(actors, turns, m)
    ensures IsLevel(AfterWaits(actors, history), turns, m)
    decreases turns, m
  {
    if m > 0 || turns > 0 {
      WaitsBefore(actors, turns, m);
      var turns', m' := if m > 0 then turns else turns - 1, if m > 0 then m - 1 else actors - 1;
      LevelAfterWaits(actors, turns', m', history - 1);
      LevelNext(actors, history, turns', m', turns, m);
    } else {
      assert Waits(actors, 0, 0) == 0;
    }
  }

  lemma LevelNext(actors: nat, history: nat, turns': nat, m': nat, turns: nat, m: nat)
    requires 0 < actors && 0 < history && m' < actors && IsLevel(AfterWaits(actors, history - 1), turns', m')
    requires if m' + 1 < actors then turns == turns' && m == m' + 1 else turns == turns' + 1 && m == 0
    ensures IsLevel(AfterWaits(actors, history), turns, m)
  {
    LevelStep(AfterWaits(actors, history - 1), turns', m');
  }

  lemma DivMod(x: nat, n: nat)
    requires n > 0
    ensures x == (x / n) * n + x % n && x % n < n
  {
  }

  /** The source's formula gives the clocks the scheduler reaches after `history` waits. */
  lemma ClosedForm(actors: nat, history: nat, ready: Clocks)
    requires actors > 0
    ensures |ready| == actors && IsLevel(ready, history / actors, history % actors) <==> ready == AfterWaits(actors, history)
  {
    var turns, m := history / actors, history % actors;
    DivMod(history, actors);
    WaitsAre(actors, history, turns, m);
    LevelAfterWaits(actors, turns, m, history);
    if |ready| == actors && IsLevel(ready, turns, m) {
      assert ready == AfterWaits(actors, history);
    }
  }

  lemma WaitsAre(actors: nat, history: nat, turns: nat, m: nat)
    requires history == turns * actors + m
    ensures Waits(actors, turns, m) == history
  {
    WaitsIsProduct(actors, turns, m);
  }

  // ----- What a schedule is

  function Serve(ready: Clocks, record: Record): (r: Clocks)
    ensures |r| == |ready|
  {
    var i := record.actor - 1;
    if 0 <= i < |ready| then ready[i := ready[i] + Cost(record.expected, record.action)] else ready
  }

  /** The clocks after serving the recorded actions in order. */
  function Replay(ready: Clocks, records: seq<Record>): (r: Clocks)
    ensures |r| == |ready|
  {
    if records == [] then ready else Serve(Replay(ready, Front(records)), Last(records))
  }

  function Front<T>(s: seq<T>): seq<T>
    requires s != []
  {
    s[..|s| - 1]
  }

  function Last<T>(s: seq<T>): T
    requires s != []
  {
    s[|s| - 1]
  }

  /** How often the actor was served. */
  function Count(records: seq<Record>, actor: nat): nat {
    if records == [] then 0 else Count(Front(records), actor) + if Last(records).actor == actor then 1 else 0
  }

  /** The steps of one cycle that the number of regions allows. */
  function Enabled(steps: seq<Step>, regions: nat): seq<Step> {
    if steps == [] then []
    else Enabled(Front(steps), regions) + if Last(steps).minRegions > regions then [] else [Last(steps)]
  }

  function Repeat(steps: seq<Step>, cycles: nat): seq<Step> {
    if cycles == 0 then [] else Repeat(steps, cycles - 1) + steps
  }

  /** The first actor follows the script, the second goes round its own steps, the others wait. */
  ghost predicate IsTurn(record: Record, served: nat, script: seq<Step>, secondary: seq<Step>) {
    if record.actor == 1 then served < |script| && record == RecordOf(1, script[served])
    else if record.actor == 2 then secondary != [] && record == RecordOf(2, secondary[served % |secondary|])
    else record == RecordOf(record.actor, WAIT)
  }

  /** Every record is the turn of the actor that is due. */
  ghost predicate IsServed(ready: Clocks, records: seq<Record>, script: seq<Step>, secondary: seq<Step>)
    requires ready != []
  {
    records != [] ==>
      && IsServed(ready, Front(records), script, secondary)
      && Last(records).actor == MinIndex(Replay(ready, Front(records))) + 1
      && IsTurn(Last(records), Count(Front(records), Last(records).actor), script, secondary)
  }

  /** The whole script is served in turn order, and nothing follows its last step. */
  ghost predicate IsSchedule(ready: Clocks, records: seq<Record>, script: seq<Step>, secondary: seq<Step>)
    requires ready != []
  {
    && IsServed(ready, records, script, secondary)
    && Count(records, 1) == |script|
    && (records != [] ==> Last(records).actor == 1)
  }

  // ----- There is only one schedule

  lemma {:induction false} ServedPrefix(ready: Clocks, records: seq<Record>, script: seq<Step>, secondary: seq<Step>, k: nat)
    requires ready != [] && k <= |records| && IsServed(ready, records, script, secondary)
    ensures IsServed(ready, records[..k], script, secondary)
    ensures Count(records[..k], 1) <= Count(records, 1)
    ensures k < |records| && Last(records).actor == 1 ==> Count(records[..k], 1) < Count(records, 1)
    decreases |records| - k
  {
    if k == |records| {
      assert records[..k] == records;
    } else {
      ServedPrefix(ready, Front(records), script, secondary, k);
      assert Front(records)[..k] == records[..k];
    }
  }

  lemma TurnUnique(a: Record, b: Record, served: nat, script: seq<Step>, secondary: seq<Step>)
    requires a.actor == b.actor && IsTurn(a, served, script, secondary) && IsTurn(b, served, script, secondary)
    ensures a == b
  {
  }

  lemma LastServed(ready: Clocks, records: seq<Record>, script: seq<Step>, secondary: seq<Step>)
    requires ready != [] && IsServed(ready, records, script, secondary) && records != []
    ensures IsServed(ready, Front(records), script, secondary)
    ensures Last(records).actor == MinIndex(Replay(ready, Front(records))) + 1
    ensures IsTurn(Last(records), Count(Front(records), Last(records).actor), script, secondary)
  {
  }

  lemma {:induction false} ServedUnique(ready: Clocks, a: seq<Record>, b: seq<Record>, script: seq<Step>, secondary: seq<Step>)
    requires ready != [] && |a| == |b|
    requires IsServed(ready, a, script, secondary) && IsServed(ready, b, script, secondary)
    ensures a == b
    decreases |a|
  {
    if a != [] {
      LastServed(ready, a, script, secondary);
      LastServed(ready, b, script, secondary);
      ServedUnique(ready, Front(a), Front(b), script, secondary);
      TurnUnique(Last(a), Last(b), Count(Front(a), Last(a).actor), script, secondary);
      assert a == Front(a) + [Last(a)] && b == Front(b) + [Last(b)];
    }
  }

  /** Satisfying IsSchedule determines the whole result. */
  lemma ScheduleUnique(ready: Clocks, a: seq<Record>, b: seq<Record>, script: seq<Step>, secondary: seq<Step>)
    requires ready != []
    requires IsSchedule(ready, a, script, secondary) && IsSchedule(ready, b, script, secondary)
    ensures a == b
  {
    var n := if |a| <= |b| then |a| else |b|;
    ServedPrefix(ready, a, script, secondary, n);
    ServedPrefix(ready, b, script, secondary, n);
    ServedUnique(ready, a[..n], b[..n], script, secondary);
    assert a[..|a|] == a && b[..|b|] == b;
  }

  // ----- Served times never decrease and the clocks stay close together

  ghost predicate Spread(ready: Clocks, width: nat) {
    forall i, j :: 0 <= i < |ready| && 0 <= j < |ready| ==> ready[i] <= ready[j] + width
  }

  lemma LevelSpread(ready: Clocks, turns: nat, m: nat)
    requires IsLevel(ready, turns, m)
    ensures Spread(ready, 142)
  {
  }

  lemma ServeMinimum(ready: Clocks, record: Record)
    requires ready != [] && record.actor == MinIndex(ready) + 1
    ensures Spread(ready, 142) ==> Spread(Serve(ready, record), 142)
    ensures ready[MinIndex(ready)] <= Serve(ready, record)[MinIndex(Serve(ready, record))]
  {
    var m := MinIndex(ready);
    assert forall i :: 0 <= i < |ready| ==> ready[m] <= ready[i];
  }

  /** At every point of a schedule the clocks differ by at most 142 ticks. */
  lemma {:induction false} SpreadBounded(ready: Clocks, records: seq<Record>, script: seq<Step>, secondary: seq<Step>)
    requires ready != [] && IsServed(ready, records, script, secondary) && Spread(ready, 142)
    ensures Spread(Replay(ready, records), 142)
    decreases |records|
  {
    if records != [] {
      SpreadBounded(ready, Front(records), script, secondary);
      ServeMinimum(Replay(ready, Front(records)), Last(records));
    }
  }

  /** The whole run from the starting clocks. */
  lemma ScheduleSpread(actors: nat, history: nat, records: seq<Record>, script: seq<Step>, secondary: seq<Step>)
    requires actors > 0 && IsServed(AfterWaits(actors, history), records, script, secondary)
    ensures Spread(Replay(AfterWaits(actors, history), records), 142)
  {
    var start := AfterWaits(actors, history);
    ClosedForm(actors, history, start);
    LevelSpread(start, history / actors, history % actors);
    SpreadBounded(start, records, script, secondary);
  }

  /** The time at which the next action is served once these records have been. */
  function NextTime(ready: Clocks, records: seq<Record>): nat
    requires ready != []
  {
    Replay(ready, records)[MinIndex(Replay(ready, records))]
  }

  lemma {:induction false} ServedInOrder(ready: Clocks, records: seq<Record>, script: seq<Step>, secondary: seq<Step>, k: nat)
    requires ready != [] && IsServed(ready, records, script, secondary) && k <= |records|
    ensures NextTime(ready, records[..k]) <= NextTime(ready, records)
    decreases |records| - k
  {
    if k == |records| {
      assert records[..k] == records;
    } else {
      ServedInOrder(ready, Front(records), script, secondary, k);
      assert Front(records)[..k] == records[..k];
      ServeMinimum(Replay(ready, Front(records)), Last(records));
    }
  }

  // ----- The loops of the source

  lemma AppendRecord(ready: Clocks, records: seq<Record>, record: Record, served: nat, script: seq<Step>, secondary: seq<Step>)
    requires ready != [] && IsServed(ready, records, script, secondary)
    requires record.actor == MinIndex(Replay(ready, records)) + 1
    requires served == Count(records, record.actor) && IsTurn(record, served, script, secondary)
    ensures IsServed(ready, records + [record], script, secondary)
    ensures Replay(ready, records + [record]) == Serve(Replay(ready, records), record)
    ensures Count(records + [record], 1) == Count(records, 1) + if record.actor == 1 then 1 else 0
    ensures Count(records + [record], 2) == Count(records, 2) + if record.actor == 2 then 1 else 0
    ensures Last(records + [record]) == record
  {
    assert Front(records + [record]) == records;
  }

  lemma {:induction false} EnabledPrefix(steps: seq<Step>, regions: nat, s: nat)
    requires s <= |steps|
    ensures Enabled(steps[..s], regions) <= Enabled(steps, regions)
    decreases |steps| - s
  {
    if s == |steps| {
      assert steps[..s] == steps;
    } else {
      EnabledPrefix(Front(steps), regions, s);
      assert Front(steps)[..s] == steps[..s];
    }
  }

  lemma {:induction false} RepeatPrefix(steps: seq<Step>, c: nat, cycles: nat)
    requires c <= cycles
    ensures Repeat(steps, c) <= Repeat(steps, cycles)
    decreases cycles - c
  {
    if c < cycles {
      RepeatPrefix(steps, c, cycles - 1);
    }
  }

  /** The enabled step at position s of cycle c is the next one of the script. */
  lemma ScriptAt(steps: seq<Step>, regions: nat, s: nat, c: nat, cycles: nat)
    requires s < |steps| && c < cycles && steps[s].minRegions <= regions
    ensures var script, served := Repeat(Enabled(steps, regions), cycles),
                                  |Repeat(Enabled(steps, regions), c)| + |Enabled(steps[..s], regions)|;
      served < |script| && script[served] == steps[s] && |Enabled(steps[..s + 1], regions)| == |Enabled(steps[..s], regions)| + 1
  {
    var cycle := Enabled(steps, regions);
    assert Front(steps[..s + 1]) == steps[..s];
    var done := Enabled(steps[..s], regions);
    assert Enabled(steps[..s + 1], regions) == done + [steps[s]];
    EnabledPrefix(steps, regions, s + 1);
    assert cycle[|done|] == steps[s];
    RepeatPrefix(cycle, c + 1, cycles);
    assert Repeat(cycle, c + 1) == Repeat(cycle, c) + cycle;
  }

  /** How far the other clocks are behind the first one: what remains to be served before its turn. */
  function Gap(ready: Clocks, n: nat): nat
    requires n <= |ready|
  {
    if n == 0 then 0
    else Gap(ready, n - 1) + if ready[n - 1] < ready[0] then ready[0] - ready[n - 1] else 0
  }

  lemma {:induction false} GapShrinks(ready: Clocks, i: nat, cost: nat, n: nat)
    requires 0 < i < |ready| && n <= |ready| && ready[i] < ready[0]
    ensures Gap(ready[i := ready[i] + cost], n) <= Gap(ready, n)
    ensures i < n && cost > 0 ==> Gap(ready[i := ready[i] + cost], n) < Gap(ready, n)
    decreases n
  {
    if n > 0 {
      GapShrinks(ready, i, cost, n - 1);
    }
  }

  // ----- When a schedule ends

  predicate IsBlocked(step: Step) {
    step.expected == "blocked"
  }

  predicate HasAccepted(secondary: seq<Step>) {
    exists k :: 0 <= k < |secondary| && !IsBlocked(secondary[k])
  }

  /** Every step of the script but the last one is rejected. */
  predicate OnlyLastAccepted(script: seq<Step>) {
    forall k :: 0 <= k < |script| - 1 ==> IsBlocked(script[k])
  }

  /** There is a second actor with an accepted step, or it is never due before the script is served: it is not the one
      that the history leaves due, and no accepted step of the script is followed by another. */
  predicate CanEnd(actors: nat, history: nat, script: seq<Step>, secondary: seq<Step>)
    requires actors > 0
  {
    actors == 1 || HasAccepted(secondary) || script == [] || (history % actors != 1 && OnlyLastAccepted(script))
  }

  /** The same in the middle of a schedule, when `first` steps of the script are served. */
  ghost predicate Unstuck(ready: Clocks, script: seq<Step>, secondary: seq<Step>, first: nat) {
    |ready| >= 2 ==>
      || HasAccepted(secondary) || first >= |script|
      || (ready[0] <= ready[1] && forall k :: first <= k < |script| - 1 ==> IsBlocked(script[k]))
  }

  lemma StartsUnstuck(actors: nat, history: nat, script: seq<Step>, secondary: seq<Step>)
    requires actors > 0 && CanEnd(actors, history, script, secondary)
    ensures Unstuck(AfterWaits(actors, history), script, secondary, 0)
  {
    ClosedForm(actors, history, AfterWaits(actors, history));
  }

  /** The second clock has not moved, and the first one only at the last step of the script so far, if at all. */
  ghost predicate IsStopping(ready: Clocks, now: Clocks, served: nat, script: seq<Step>) {
    && |now| == |ready| >= 2 && served <= |script|
    && now[1] == ready[1] && now[0] >= ready[0]
    && (forall k :: 0 <= k < served - 1 ==> IsBlocked(script[k]))
    && (now[0] == ready[0] ==> forall k :: 0 <= k < served ==> IsBlocked(script[k]))
  }

  lemma FirstStep(ready: Clocks, now: Clocks, record: Record, served: nat, script: seq<Step>, secondary: seq<Step>)
    requires IsStopping(ready, now, served, script) && ready[0] == ready[1]
    requires record.actor == 1 == MinIndex(now) + 1 && IsTurn(record, served, script, secondary)
    ensures IsStopping(ready, Serve(now, record), served + 1, script)
  {
    assert now[0] <= now[1];
    OnlyBlockedIsFree(record);
  }

  lemma OtherStep(ready: Clocks, now: Clocks, record: Record, first: nat, served: nat, script: seq<Step>, secondary: seq<Step>)
    requires IsStopping(ready, now, first, script) && !HasAccepted(secondary)
    requires record.actor > 1 && IsTurn(record, served, script, secondary)
    ensures IsStopping(ready, Serve(now, record), first, script)
  {
    if record.actor == 2 {
      BlockedTurn(now, record, served, script, secondary);
    }
  }

  /** Without an accepted secondary step the second clock stands still, and as soon as the first one has passed it the
      first actor is never due again. */
  lemma {:induction false} FirstStops(ready: Clocks, records: seq<Record>, script: seq<Step>, secondary: seq<Step>)
    requires |ready| >= 2 && ready[0] == ready[1] && IsServed(ready, records, script, secondary) && !HasAccepted(secondary)
    ensures IsStopping(ready, Replay(ready, records), Count(records, 1), script)
    decreases |records|
  {
    if records != [] {
      FirstStops(ready, Front(records), script, secondary);
      LastServed(ready, records, script, secondary);
      var now, last := Replay(ready, Front(records)), Last(records);
      if last.actor == 1 {
        FirstStep(ready, now, last, Count(Front(records), 1), script, secondary);
      } else {
        OtherStep(ready, now, last, Count(Front(records), 1), Count(Front(records), last.actor), script, secondary);
      }
    }
  }

  /** Every schedule there is meets that condition. */
  lemma ScheduleCanEnd(actors: nat, history: nat, records: seq<Record>, script: seq<Step>, secondary: seq<Step>)
    requires actors > 0 && IsSchedule(AfterWaits(actors, history), records, script, secondary)
    ensures CanEnd(actors, history, script, secondary)
  {
    var start := AfterWaits(actors, history);
    if actors >= 2 && !HasAccepted(secondary) && script != [] {
      ClosedForm(actors, history, start);
      if history % actors == 1 {
        DueUnique(start, 1);
        assert [] + records == records;
        AllBlockedNeverEnds(start, [], records, script, secondary);
        NeverServed(records);
        assert false;
      }
      FirstStops(start, records, script, secondary);
    }
  }

  lemma {:induction false} NeverServed(records: seq<Record>)
    requires forall k :: 0 <= k < |records| ==> records[k].actor == 2
    ensures Count(records, 1) == 0
    decreases |records|
  {
    if records != [] {
      NeverServed(Front(records));
    }
  }

  /** Two actors without a history, a script of two waits, and only rejected secondary steps: nothing is a schedule. */
  lemma NoSchedule(records: seq<Record>, secondary: seq<Step>)
    requires forall k :: 0 <= k < |secondary| ==> IsBlocked(secondary[k])
    ensures !IsSchedule(AfterWaits(2, 0), records, [WAIT, WAIT], secondary)
  {
    assert !IsBlocked([WAIT, WAIT][0]);
    if IsSchedule(AfterWaits(2, 0), records, [WAIT, WAIT], secondary) {
      ScheduleCanEnd(2, 0, records, [WAIT, WAIT], secondary);
    }
  }

  /** How many turns of its round the second actor takes before the step at index goal. */
  function Ahead(at: nat, goal: nat, length: nat): nat
    requires at < length && goal < length
  {
    if at <= goal then goal - at else goal + length - at
  }

  method ExpectedActions(steps: seq<Step>, secondary: seq<Step>, regions: nat, actors: nat, history: nat, cycles: nat)
    returns (result: seq<Record>)
    requires actors > 0 && CanEnd(actors, history, Repeat(Enabled(steps, regions), cycles), secondary)
    ensures IsSchedule(AfterWaits(actors, history), result, Repeat(Enabled(steps, regions), cycles), secondary)
  {
    ghost var start, script := AfterWaits(actors, history), Repeat(Enabled(steps, regions), cycles);
    var ready := StartClocks(actors, history);
    StartsUnstuck(actors, history, script, secondary);
    result := [];
    var round := 0;
    for c := 0 to cycles
      invariant Follows(ready, start, result, script, secondary, |Repeat(Enabled(steps, regions), c)|, round)
      invariant Unstuck(ready[..], script, secondary, |Repeat(Enabled(steps, regions), c)|)
      invariant result != [] ==> Last(result).actor == 1
    {
      result, round := OneCycle(ready, result, round, steps, secondary, regions, start, c, cycles);
    }
  }

  /** The loop over the steps of one cycle. */
  method OneCycle(ready: array<nat>, before: seq<Record>, from: nat, steps: seq<Step>, secondary: seq<Step>, regions: nat,
                  ghost start: Clocks, ghost c: nat, ghost cycles: nat)
    returns (result: seq<Record>, round: nat)
    requires c < cycles
    requires Follows(ready, start, before, Repeat(Enabled(steps, regions), cycles), secondary,
                     |Repeat(Enabled(steps, regions), c)|, from)
    requires Unstuck(ready[..], Repeat(Enabled(steps, regions), cycles), secondary, |Repeat(Enabled(steps, regions), c)|)
    requires before != [] ==> Last(before).actor == 1
    modifies ready
    ensures Follows(ready, start, result, Repeat(Enabled(steps, regions), cycles), secondary,
                    |Repeat(Enabled(steps, regions), c + 1)|, round)
    ensures Unstuck(ready[..], Repeat(Enabled(steps, regions), cycles), secondary, |Repeat(Enabled(steps, regions), c + 1)|)
    ensures result != [] ==> Last(result).actor == 1
  {
    ghost var script := Repeat(Enabled(steps, regions), cycles);
    ghost var served := |Repeat(Enabled(steps, regions), c)|;
    result, round := before, from;
    for s := 0 to |steps|
      invariant served == |Repeat(Enabled(steps, regions), c)| + |Enabled(steps[..s], regions)|
      invariant Follows(ready, start, result, script, secondary, served, round) && Unstuck(ready[..], script, secondary, served)
      invariant result != [] ==> Last(result).actor == 1
    {
      StepsCount(steps, regions, s);
      if steps[s].minRegions > regions {
        continue;
      }
      ScriptAt(steps, regions, s, c, cycles);
      result, round := OneStep(ready, result, round, steps[s], start, script, secondary, served);
      served := served + 1;
    }
    CycleCount(steps, regions, c);
  }

  lemma StepsCount(steps: seq<Step>, regions: nat, s: nat)
    requires s < |steps|
    ensures |Enabled(steps[..s + 1], regions)| == |Enabled(steps[..s], regions)| + if steps[s].minRegions > regions then 0 else 1
  {
    assert Front(steps[..s + 1]) == steps[..s];
  }

  lemma CycleCount(steps: seq<Step>, regions: nat, c: nat)
    ensures |Repeat(Enabled(steps, regions), c + 1)| == |Repeat(Enabled(steps, regions), c)| + |Enabled(steps[..|steps|], regions)|
  {
    assert steps[..|steps|] == steps;
  }

  /** Whoever is due before the first actor, and then its step. */
  method OneStep(ready: array<nat>, before: seq<Record>, from: nat, step: Step,
                 ghost start: Clocks, ghost script: seq<Step>, secondary: seq<Step>, ghost first: nat)
    returns (result: seq<Record>, round: nat)
    requires Follows(ready, start, before, script, secondary, first, from) && Unstuck(ready[..], script, secondary, first)
    requires first < |script| && script[first] == step
    modifies ready
    ensures Follows(ready, start, result, script, secondary, first + 1, round) && Unstuck(ready[..], script, secondary, first + 1)
    ensures Last(result).actor == 1
  {
    result, round := ServeOthers(ready, before, from, start, script, secondary, first);
    assert Unstuck(ready[..], script, secondary, first);
    ghost var due := ready[..];
    result := Append(ready, result, 1, step, start, script, secondary, first, round);
    FirstMoves(due, step, script, secondary, first);
  }

  lemma FirstMoves(ready: Clocks, step: Step, script: seq<Step>, secondary: seq<Step>, first: nat)
    requires ready != [] && Unstuck(ready, script, secondary, first) && first < |script| && script[first] == step
    ensures Unstuck(Serve(ready, RecordOf(1, step)), script, secondary, first + 1)
  {
    OnlyBlockedIsFree(RecordOf(1, step));
  }

  /** The clocks and the counts agree with the records so far. */
  ghost predicate Follows(ready: array<nat>, start: Clocks, records: seq<Record>, script: seq<Step>, secondary: seq<Step>,
                          first: nat, second: nat)
    reads ready
  {
    && ready.Length == |start| > 0
    && ready[..] == Replay(start, records)
    && IsServed(start, records, script, secondary)
    && Count(records, 1) == first && Count(records, 2) == second
  }

  method StartClocks(actors: nat, history: nat) returns (ready: array<nat>)
    requires actors > 0
    ensures fresh(ready) && ready[..] == AfterWaits(actors, history)
  {
    var turns, extra := history / actors, history % actors;
    ready := new nat[actors](i => (turns + if i < extra then 1 else 0) * 100);
    ClosedForm(actors, history, ready[..]);
  }

  /** The source's local function `record`: note the action and charge its cost. */
  method Append(ready: array<nat>, records: seq<Record>, actor: nat, step: Step,
                ghost start: Clocks, ghost script: seq<Step>, ghost secondary: seq<Step>, ghost first: nat, ghost second: nat)
    returns (result: seq<Record>)
    requires Follows(ready, start, records, script, secondary, first, second)
    requires actor == MinIndex(ready[..]) + 1
    requires actor == 1 ==> first < |script| && step == script[first]
    requires actor == 2 ==> secondary != [] && step == secondary[second % |secondary|]
    requires actor > 2 ==> step == WAIT
    modifies ready
    ensures result == records + [RecordOf(actor, step)] && Last(result).actor == actor
    ensures ready[..] == Serve(old(ready[..]), RecordOf(actor, step))
    ensures Follows(ready, start, result, script, secondary,
                    first + if actor == 1 then 1 else 0, second + if actor == 2 then 1 else 0)
  {
    var record := RecordOf(actor, step);
    AppendRecord(start, records, record, Count(records, actor), script, secondary);
    result := records + [record];
    Charge(ready, record);
  }

  /** The clock of the actor that was served moves on. */
  method Charge(ready: array<nat>, record: Record)
    requires 1 <= record.actor <= ready.Length
    modifies ready
    ensures ready[..] == Serve(old(ready[..]), record)
  {
    ready[record.actor - 1] := ready[record.actor - 1] + Cost(record.expected, record.action);
  }

  /** Serving another actor for a positive cost brings the first one's turn closer. */
  lemma OtherProgress(ready: Clocks, i: nat, cost: nat)
    requires ready != [] && i == MinIndex(ready) && i > 0
    ensures cost > 0 ==> Gap(ready[i := ready[i] + cost], |ready|) < Gap(ready, |ready|)
    ensures cost == 0 ==> ready[i := ready[i] + cost] == ready
  {
    assert ready[i] < ready[0];
    GapShrinks(ready, i, cost, |ready|);
  }

  lemma OnlyBlockedIsFree(record: Record)
    ensures Cost(record.expected, record.action) == 0 <==> record.expected == "blocked"
  {
  }

  lemma OtherServed(ready: Clocks, record: Record)
    requires ready != [] && record.actor == MinIndex(ready) + 1 && record.actor > 1
    ensures record.expected != "blocked" ==> Gap(Serve(ready, record), |ready|) < Gap(ready, |ready|)
    ensures record.expected == "blocked" ==> Serve(ready, record) == ready
  {
    OnlyBlockedIsFree(record);
    OtherProgress(ready, record.actor - 1, Cost(record.expected, record.action));
  }

  lemma RoundProgress(at: nat, next: nat, goal: nat, length: nat)
    requires at < length && goal < length && at != goal
    requires next == if at + 1 == length then 0 else at + 1
    ensures Ahead(next, goal, length) < Ahead(at, goal, length)
  {
  }

  /** One pass of the inner loop: it brings the first actor's turn closer, or tries a blocked secondary step. */
  method ServeDue(ready: array<nat>, before: seq<Record>, from: nat, actor: nat,
                  ghost start: Clocks, ghost script: seq<Step>, secondary: seq<Step>, ghost first: nat)
    returns (result: seq<Record>, round: nat)
    requires Follows(ready, start, before, script, secondary, first, from)
    requires actor == MinIndex(ready[..]) + 1 && actor > 1 && (actor == 2 ==> secondary != [])
    modifies ready
    ensures Follows(ready, start, result, script, secondary, first, round)
    ensures round == from + if actor == 2 then 1 else 0
    ensures actor > 2 ==> ready[0] == old(ready[0]) && ready[1] == old(ready[1])
    ensures Gap(ready[..], ready.Length) < old(Gap(ready[..], ready.Length))
      || (ready[..] == old(ready[..]) && actor == 2 && secondary[from % |secondary|].expected == "blocked")
  {
    var other := WAIT;
    round := from;
    if actor == 2 {
      other := secondary[from % |secondary|];
      round := from + 1;
    }
    OtherServed(ready[..], RecordOf(actor, other));
    result := Append(ready, before, actor, other, start, script, secondary, first, from);
  }

  /** The inner loop: serve whoever is due until it is the first actor's turn. */
  method ServeOthers(ready: array<nat>, before: seq<Record>, from: nat,
                     ghost start: Clocks, ghost script: seq<Step>, secondary: seq<Step>, ghost first: nat)
    returns (result: seq<Record>, round: nat)
    requires ready.Length >= 2 ==> HasAccepted(secondary) || ready[0] <= ready[1]
    requires Follows(ready, start, before, script, secondary, first, from)
    modifies ready
    ensures Follows(ready, start, result, script, secondary, first, round) && MinIndex(ready[..]) == 0
  {
    result, round := before, from;
    var actor := MinIndex(ready[..]) + 1;
    ghost var goal: nat := 0;
    if HasAccepted(secondary) {
      goal :| 0 <= goal < |secondary| && !IsBlocked(secondary[goal]);
    }
    while actor != 1
      invariant Follows(ready, start, result, script, secondary, first, round)
      invariant actor == MinIndex(ready[..]) + 1
      invariant ready.Length >= 2 ==> HasAccepted(secondary) || ready[0] <= ready[1]
      decreases Gap(ready[..], ready.Length), ToGo(secondary, round, goal)
    {
      result, round := ServeToward(ready, result, round, actor, start, script, secondary, first, goal);
      actor := MinIndex(ready[..]) + 1;
    }
  }

  /** Turns of the second actor before its accepted step at index goal. */
  function ToGo(secondary: seq<Step>, round: nat, goal: nat): nat {
    if goal < |secondary| then Ahead(round % |secondary|, goal, |secondary|) else 0
  }

  method ServeToward(ready: array<nat>, before: seq<Record>, from: nat, actor: nat,
                     ghost start: Clocks, ghost script: seq<Step>, secondary: seq<Step>, ghost first: nat, ghost goal: nat)
    returns (result: seq<Record>, round: nat)
    requires HasAccepted(secondary) ==> goal < |secondary| && !IsBlocked(secondary[goal])
    requires ready.Length >= 2 ==> HasAccepted(secondary) || ready[0] <= ready[1]
    requires Follows(ready, start, before, script, secondary, first, from)
    requires actor == MinIndex(ready[..]) + 1 && actor > 1
    modifies ready
    ensures Follows(ready, start, result, script, secondary, first, round)
    ensures ready.Length >= 2 ==> HasAccepted(secondary) || ready[0] <= ready[1]
    ensures Gap(ready[..], ready.Length) < old(Gap(ready[..], ready.Length))
      || (ready[..] == old(ready[..]) && ToGo(secondary, round, goal) < ToGo(secondary, from, goal))
  {
    if actor == 2 && IsBlocked(secondary[from % |secondary|]) {
      Successor(|secondary|, from);
      RoundProgress(from % |secondary|, (from + 1) % |secondary|, goal, |secondary|);
    }
    result, round := ServeDue(ready, before, from, actor, start, script, secondary, first);
  }

  /** Without an accepted secondary step the loop above cannot end once the second actor is due:
      whatever it attempts leaves every clock, and so the actor due, as it was. */
  lemma {:induction false} AllBlockedNeverEnds(ready: Clocks, records: seq<Record>, more: seq<Record>, script: seq<Step>, secondary: seq<Step>)
    requires ready != [] && IsServed(ready, records + more, script, secondary) && !HasAccepted(secondary)
    requires MinIndex(Replay(ready, records)) == 1
    ensures Replay(ready, records + more) == Replay(ready, records)
    ensures forall k :: 0 <= k < |more| ==> more[k].actor == 2
    decreases |more|
  {
    if more == [] {
      assert records + more == records;
    } else {
      assert Front(records + more) == records + Front(more) && Last(records + more) == Last(more);
      AllBlockedNeverEnds(ready, records, Front(more), script, secondary);
      BlockedTurn(Replay(ready, records), Last(more), Count(records + Front(more), 2), script, secondary);
      assert more == Front(more) + [Last(more)];
    }
  }

  lemma BlockedTurn(ready: Clocks, record: Record, served: nat, script: seq<Step>, secondary: seq<Step>)
    requires !HasAccepted(secondary) && record.actor == 2 && IsTurn(record, served, script, secondary)
    ensures Serve(ready, record) == ready
  {
    assert 0 <= served % |secondary| < |secondary| && IsBlocked(secondary[served % |secondary|]);
  }
}
