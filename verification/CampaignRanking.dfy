/** Choosing finalists and a winner among trials (`finalists` and the winner of `run_campaign` in
    scripts/arena_search.py). */
module CampaignRanking {
  import opened Options

  /** `params` is the canonical text of the parameters; constraints are met when they are not positive. */
  datatype Record = Record(params: string, value: real, constraints: seq<real>)

  const FINALISTS := 3

  predicate Feasible(r: Record) {
    forall i :: 0 <= i < |r.constraints| ==> r.constraints[i] <= 0.0
  }

  /** Higher value first, then the earlier trial. */
  predicate Better(records: seq<Record>, i: nat, j: nat)
    requires i < |records| && j < |records|
  {
    records[i].value > records[j].value || (records[i].value == records[j].value && i < j)
  }

  predicate AreTrials(records: seq<Record>, order: seq<nat>) {
    forall k :: 0 <= k < |order| ==> order[k] < |records|
  }

  predicate Ordered(records: seq<Record>, order: seq<nat>) {
    AreTrials(records, order) && forall j, k :: 0 <= j < k < |order| ==> Better(records, order[j], order[k])
  }

  function Insert(records: seq<Record>, order: seq<nat>, trial: nat): (r: seq<nat>)
    requires Ordered(records, order) && trial < |records| && trial !in order
    ensures Ordered(records, r) && forall i :: i in r <==> i in order || i == trial
  {
    if order == [] then [trial]
    else if Better(records, trial, order[0]) then
      assert forall k :: 0 < k < |order| ==> Better(records, order[0], order[k]);
      [trial] + order
    else
      var rest := Insert(records, order[1..], trial);
      InsertedAfter(records, order, trial, rest);
      [order[0]] + rest
  }

  lemma InsertedAfter(records: seq<Record>, order: seq<nat>, trial: nat, rest: seq<nat>)
    requires Ordered(records, order) && order != [] && trial < |records| && trial !in order && !Better(records, trial, order[0])
    requires Ordered(records, rest) && forall i :: i in rest <==> i in order[1..] || i == trial
    ensures Ordered(records, [order[0]] + rest)
  {
    assert order[0] in order;
    forall k | 0 <= k < |rest|
      ensures Better(records, order[0], rest[k])
    {
      assert rest[k] in rest;
      if rest[k] != trial {
        var j :| 0 <= j < |order[1..]| && order[1..][j] == rest[k];
        assert order[j + 1] == rest[k];
      }
    }
  }

  /** `sorted(range(n), key=(-value, i))` for the first `n` trials. */
  function Ranking(records: seq<Record>, n: nat): (order: seq<nat>)
    requires n <= |records|
    ensures Ordered(records, order) && forall i: nat :: i in order <==> i < n
  {
    if n == 0 then [] else Insert(records, Ranking(records, n - 1), n - 1)
  }

  predicate Seen(records: seq<Record>, selected: seq<nat>, i: nat)
    requires AreTrials(records, selected) && i < |records|
  {
    exists k :: 0 <= k < |selected| && records[selected[k]].params == records[i].params
  }

  predicate Eligible(records: seq<Record>, selected: seq<nat>, i: nat)
    requires AreTrials(records, selected) && i < |records|
  {
    Feasible(records[i]) && !Seen(records, selected, i)
  }

  /** The best feasible trial with other parameters than those selected before. */
  predicate IsNext(records: seq<Record>, selected: seq<nat>, i: nat)
    requires AreTrials(records, selected)
  {
    && i < |records| && Eligible(records, selected, i)
    && forall j :: 0 <= j < |records| && j != i && Eligible(records, selected, j) ==> Better(records, i, j)
  }

  predicate AreFinalists(records: seq<Record>, selected: seq<nat>) {
    && AreTrials(records, selected) && |selected| == FINALISTS
    && forall k :: 0 <= k < FINALISTS ==> IsNext(records, selected[..k], selected[k])
  }

  predicate Greedy(records: seq<Record>, selected: seq<nat>) {
    && AreTrials(records, selected)
    && forall k :: 0 <= k < |selected| ==> IsNext(records, selected[..k], selected[k])
  }

  /** `finalists`: three trials, each the best feasible one with new parameters; an error exactly when there are no
      three such trials. */
  method Finalists(records: seq<Record>) returns (finalists: Option<seq<nat>>)
    ensures finalists.Some? ==> AreFinalists(records, finalists.value)
    ensures finalists.None? ==> forall other :: !AreFinalists(records, other)
  {
    var order := Ranking(records, |records|);
    var selected: seq<nat> := [];
    for k := 0 to |order|
      invariant Greedy(records, selected) && |selected| < FINALISTS
      invariant forall j :: 0 <= j < k ==> !Eligible(records, selected, order[j])
    {
      var i := order[k];
      if Eligible(records, selected, i) {
        NextInOrder(records, order, selected, k);
        GreedyAppend(records, selected, i);
        forall j | 0 <= j <= k
          ensures !Eligible(records, selected + [i], order[j])
        {
          StaysSeen(records, selected, i, order[j]);
        }
        selected := selected + [i];
        if |selected| == FINALISTS {
          return Some(selected);
        }
      }
    }
    forall other
      ensures !AreFinalists(records, other)
    {
      TooFew(records, order, selected, other);
    }
    return None;
  }

  lemma NextInOrder(records: seq<Record>, order: seq<nat>, selected: seq<nat>, k: nat)
    requires Ordered(records, order) && (forall i: nat :: i in order <==> i < |records|) && k < |order|
    requires AreTrials(records, selected)
    requires Eligible(records, selected, order[k]) && forall j :: 0 <= j < k ==> !Eligible(records, selected, order[j])
    ensures IsNext(records, selected, order[k])
  {
    forall j | 0 <= j < |records| && j != order[k] && Eligible(records, selected, j)
      ensures Better(records, order[k], j)
    {
      assert j in order;
      var at :| 0 <= at < |order| && order[at] == j;
      assert k < at;
    }
  }

  lemma GreedyAppend(records: seq<Record>, selected: seq<nat>, i: nat)
    requires Greedy(records, selected) && IsNext(records, selected, i)
    ensures Greedy(records, selected + [i])
  {
    var all := selected + [i];
    forall k | 0 <= k < |all|
      ensures IsNext(records, all[..k], all[k])
    {
      if k < |selected| {
        assert all[..k] == selected[..k];
      } else {
        assert all[..k] == selected;
      }
    }
  }

  lemma StaysSeen(records: seq<Record>, selected: seq<nat>, i: nat, j: nat)
    requires AreTrials(records, selected) && i < |records| && j < |records| && (j == i || !Eligible(records, selected, j))
    ensures !Eligible(records, selected + [i], j)
  {
    var all := selected + [i];
    assert all[|selected|] == i;
    if Seen(records, selected, j) {
      var k :| 0 <= k < |selected| && records[selected[k]].params == records[j].params;
      assert all[k] == selected[k];
    }
  }

  function Params(records: seq<Record>, selected: seq<nat>): set<string>
    requires AreTrials(records, selected)
  {
    set k | 0 <= k < |selected| :: records[selected[k]].params
  }

  lemma {:induction false} FewParams(records: seq<Record>, selected: seq<nat>)
    requires AreTrials(records, selected)
    ensures |Params(records, selected)| <= |selected|
    decreases |selected|
  {
    if selected != [] {
      var n := |selected| - 1;
      FewParams(records, selected[..n]);
      assert Params(records, selected) == Params(records, selected[..n]) + {records[selected[n]].params};
    }
  }

  /** When no trial is eligible any more, there are no three feasible trials with different parameters. */
  lemma TooFew(records: seq<Record>, order: seq<nat>, selected: seq<nat>, other: seq<nat>)
    requires order == Ranking(records, |records|) && AreTrials(records, selected) && |selected| < FINALISTS
    requires forall j :: 0 <= j < |order| ==> !Eligible(records, selected, order[j])
    ensures !AreFinalists(records, other)
  {
    if AreFinalists(records, other) {
      FewParams(records, selected);
      ThreeParams(records, other);
      forall p | p in Params(records, other)
        ensures p in Params(records, selected)
      {
        var k :| 0 <= k < |other| && records[other[k]].params == p;
        assert IsNext(records, other[..k], other[k]);
        assert other[k] in order;
        var at :| 0 <= at < |order| && order[at] == other[k];
        assert !Eligible(records, selected, order[at]);
      }
      Larger(Params(records, other), Params(records, selected));
    }
  }

  lemma Larger(a: set<string>, b: set<string>)
    requires a <= b
    ensures |a| <= |b|
  {
    assert b == a + (b - a);
  }

  lemma ThreeParams(records: seq<Record>, selected: seq<nat>)
    requires AreFinalists(records, selected)
    ensures |Params(records, selected)| == 3
  {
    var a, b, c := selected[0], selected[1], selected[2];
    assert IsNext(records, selected[..1], b) && IsNext(records, selected[..2], c);
    assert selected[..1][0] == a && selected[..2][0] == a && selected[..2][1] == b;
    assert !Seen(records, selected[..1], b) && !Seen(records, selected[..2], c);
    assert records[a].params != records[b].params && records[a].params != records[c].params && records[b].params != records[c].params;
    assert Params(records, selected) == {records[a].params, records[b].params, records[c].params};
  }

  /** The finalists are determined by the records. */
  lemma FinalistsUnique(records: seq<Record>, a: seq<nat>, b: seq<nat>)
    requires AreFinalists(records, a) && AreFinalists(records, b)
    ensures a == b
  {
    SameNext(records, a, b, 0);
    SameNext(records, a, b, 1);
    SameNext(records, a, b, 2);
  }

  lemma SameNext(records: seq<Record>, a: seq<nat>, b: seq<nat>, k: nat)
    requires AreFinalists(records, a) && AreFinalists(records, b) && k < FINALISTS && a[..k] == b[..k]
    ensures a[..k + 1] == b[..k + 1]
  {
    assert IsNext(records, a[..k], a[k]) && IsNext(records, b[..k], b[k]);
  }

  /** Every finalist meets all constraints, and no other trial that does, with parameters unlike those chosen before it, has
      a greater value, or the same value and an earlier place. */
  lemma FinalistsMean(records: seq<Record>, finalists: seq<nat>, k: nat)
    requires AreFinalists(records, finalists) && k < 3
    ensures |finalists| == 3 && finalists[k] < |records|
    ensures var chosen := records[finalists[k]];
      && (forall c :: c in chosen.constraints ==> c <= 0.0)
      && (forall j :: 0 <= j < k ==> records[finalists[j]].params != chosen.params)
      && forall i | 0 <= i < |records| && (forall c :: c in records[i].constraints ==> c <= 0.0)
                    && (forall j :: 0 <= j < k ==> records[finalists[j]].params != records[i].params)
         :: chosen.value > records[i].value || (chosen.value == records[i].value && finalists[k] <= i)
  {
    var before := finalists[..k];
    assert IsNext(records, before, finalists[k]);
    FeasibleExactly(records[finalists[k]]);
    forall i | 0 <= i < |records|
      ensures Eligible(records, before, i)
        <==> (forall c :: c in records[i].constraints ==> c <= 0.0)
             && (forall j :: 0 <= j < k ==> records[finalists[j]].params != records[i].params)
    {
      FeasibleExactly(records[i]);
      assert forall j :: 0 <= j < k ==> before[j] == finalists[j];
    }
    assert Eligible(records, before, finalists[k]);
  }

  lemma FeasibleExactly(r: Record)
    ensures Feasible(r) <==> forall c :: c in r.constraints ==> c <= 0.0
  {
    if forall c :: c in r.constraints ==> c <= 0.0 {
      forall i | 0 <= i < |r.constraints|
        ensures r.constraints[i] <= 0.0
      {
        assert r.constraints[i] in r.constraints;
      }
    }
  }
}
