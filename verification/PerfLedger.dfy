/** Percentiles and the append-only ledger of scripts/perf_ledger.py.
    A percentile is a nearest rank among sorted samples. The ledger is a text of lines, one entry each, with keys that
    are never used twice and dates that never go back. */
module PerfLedger {
  import opened Options
  import opened Permutations

  // ----- Nearest-rank percentiles

  predicate Sorted(s: seq<int>) {
    forall i, j :: 0 <= i < j < |s| ==> s[i] <= s[j]
  }

  function AtMost(s: seq<int>, v: int): nat {
    if s == [] then 0 else AtMost(s[..|s| - 1], v) + if s[|s| - 1] <= v then 1 else 0
  }

  function Rank(n: nat, percent: nat): int {
    (n * percent + 99) / 100 - 1
  }

  /** `nearest_rank`; `None` stands for its errors. */
  function NearestRank(ordered: seq<int>, percent: nat): Option<int> {
    var rank := if Rank(|ordered|, percent) > 0 then Rank(|ordered|, percent) else 0;
    if ordered == [] || rank >= |ordered| then None else Some(ordered[rank])
  }

  /** The least sample that at least `percent` percent of the samples do not exceed. */
  predicate IsPercentile(s: seq<int>, percent: nat, v: int) {
    && v in s && 100 * AtMost(s, v) >= percent * |s|
    && forall u :: u in s && 100 * AtMost(s, u) >= percent * |s| ==> v <= u
  }

  lemma {:induction false} AtMostSorted(s: seq<int>, v: int, k: nat)
    requires Sorted(s) && k <= |s|
    requires (forall i :: 0 <= i < k ==> s[i] <= v) && (forall i :: k <= i < |s| ==> s[i] > v)
    ensures AtMost(s, v) == k
    decreases |s|
  {
    if s != [] {
      AtMostSorted(s[..|s| - 1], v, if k == |s| then k - 1 else k);
    }
  }

  /** In a sorted list, the samples that do not exceed `v` are the first ones. */
  lemma Boundary(s: seq<int>, v: int) returns (k: nat)
    requires Sorted(s)
    ensures k <= |s| && AtMost(s, v) == k
    ensures (forall i :: 0 <= i < k ==> s[i] <= v) && (forall i :: k <= i < |s| ==> s[i] > v)
  {
    k := 0;
    while k < |s| && s[k] <= v
      invariant k <= |s| && forall i :: 0 <= i < k ==> s[i] <= v
    {
      k := k + 1;
    }
    AtMostSorted(s, v, k);
  }

  lemma RankBounds(n: nat, percent: nat, k: int)
    requires n > 0 && 1 <= percent <= 100 && k == Rank(n, percent)
    ensures 0 <= k < n && 100 * (k + 1) >= percent * n > 100 * k
  {
    ProductBounds(n, percent);
    CeilingBounds(n * percent, k);
  }

  lemma ProductBounds(n: nat, percent: nat)
    requires n > 0 && 1 <= percent <= 100
    ensures 1 <= n <= n * percent <= 100 * n && n * percent == percent * n
  {
    assert n * percent == n * (percent - 1) + n && n * (percent - 1) >= 0;
    assert 100 * n == n * percent + n * (100 - percent) && n * (100 - percent) >= 0;
  }

  lemma CeilingBounds(x: nat, k: int)
    requires x > 0 && k == (x + 99) / 100 - 1
    ensures k >= 0 && 100 * (k + 1) >= x > 100 * k
  {
  }

  /** For every percent from 1 to 100 the rank is in bounds and gives the percentile. */
  lemma NearestRankIs(ordered: seq<int>, percent: nat)
    requires Sorted(ordered) && ordered != [] && 1 <= percent <= 100
    ensures NearestRank(ordered, percent).Some? && IsPercentile(ordered, percent, NearestRank(ordered, percent).value)
  {
    var n, rank := |ordered|, Rank(|ordered|, percent);
    RankBounds(n, percent, rank);
    var v := ordered[rank];
    var k := Boundary(ordered, v);
    assert k > rank;
    forall u | u in ordered && 100 * AtMost(ordered, u) >= percent * n
      ensures v <= u
    {
      var j := Boundary(ordered, u);
      assert j > rank;
    }
  }

  function Insert(s: seq<int>, v: int): (r: seq<int>)
    requires Sorted(s)
    ensures Sorted(r) && multiset(r) == multiset(s) + multiset{v}
  {
    if s == [] || s[|s| - 1] <= v then s + [v]
    else
      var r := Insert(s[..|s| - 1], v);
      assert s == s[..|s| - 1] + [s[|s| - 1]];
      InsertBelow(s, v, r);
      r + [s[|s| - 1]]
  }

  lemma InsertBelow(s: seq<int>, v: int, r: seq<int>)
    requires Sorted(s) && s != [] && v < s[|s| - 1] && Sorted(r) && multiset(r) == multiset(s[..|s| - 1]) + multiset{v}
    ensures Sorted(r + [s[|s| - 1]])
  {
    forall i | 0 <= i < |r|
      ensures r[i] <= s[|s| - 1]
    {
      assert r[i] in multiset(r);
      assert r[i] in multiset(s[..|s| - 1]) || r[i] == v;
    }
  }

  /** `sorted`. */
  function Sort(values: seq<int>): (r: seq<int>)
    ensures Sorted(r) && multiset(r) == multiset(values)
  {
    if values == [] then []
    else
      assert values == values[..|values| - 1] + [values[|values| - 1]];
      Insert(Sort(values[..|values| - 1]), values[|values| - 1])
  }

  lemma {:induction false} AtMostAppend(s: seq<int>, t: seq<int>, v: int)
    ensures AtMost(s + t, v) == AtMost(s, v) + AtMost(t, v)
    decreases |t|
  {
    if t == [] {
      assert s + t == s;
    } else {
      assert (s + t)[..|s + t| - 1] == s + t[..|t| - 1];
      AtMostAppend(s, t[..|t| - 1], v);
    }
  }

  /** Counting does not depend on the order. */
  lemma {:induction false} AtMostPermuted(s: seq<int>, t: seq<int>, v: int)
    requires multiset(s) == multiset(t)
    ensures AtMost(s, v) == AtMost(t, v)
    decreases |s|
  {
    SameLength(s, t);
    if s != [] {
      var i := WithoutLast(s, t);
      AtMostPermuted(s[..|s| - 1], t[..i] + t[i + 1..], v);
      AtMostAppend(t[..i], t[i + 1..], v);
      AtMostAppend(t[..i] + [t[i]], t[i + 1..], v);
      AtMostAppend(t[..i], [t[i]], v);
    }
  }

  datatype Distribution = Distribution(n: nat, p50: int, p95: int, max: int)

  /** `distribution`: the percentiles of the samples in any order, in order of size. */
  method Distribute(values: seq<int>) returns (d: Option<Distribution>)
    ensures d.None? <==> values == []
    ensures d.Some? ==> d.value.n == |values| && d.value.p50 <= d.value.p95 <= d.value.max
    ensures d.Some? ==> IsPercentile(values, 50, d.value.p50) && IsPercentile(values, 95, d.value.p95) && IsPercentile(values, 100, d.value.max)
  {
    var ordered := Sort(values);
    SameLength(ordered, values);
    if ordered == [] {
      return None;
    }
    NearestRankIs(ordered, 50);
    NearestRankIs(ordered, 95);
    NearestRankIs(ordered, 100);
    var p50, p95, max := NearestRank(ordered, 50), NearestRank(ordered, 95), ordered[|ordered| - 1];
    assert NearestRank(ordered, 100) == Some(max);
    SamePercentile(ordered, values, 50, p50.value);
    SamePercentile(ordered, values, 95, p95.value);
    SamePercentile(ordered, values, 100, max);
    RanksGrow(|ordered|);
    return Some(Distribution(|ordered|, p50.value, p95.value, max));
  }

  lemma RanksGrow(n: nat)
    requires n > 0
    ensures Rank(n, 50) <= Rank(n, 95) <= Rank(n, 100) == n - 1
  {
  }

  lemma SamePercentile(s: seq<int>, t: seq<int>, percent: nat, v: int)
    requires multiset(s) == multiset(t) && IsPercentile(s, percent, v)
    ensures IsPercentile(t, percent, v)
  {
    SameLength(s, t);
    assert forall u :: (u in s <==> u in multiset(s)) && (u in t <==> u in multiset(t));
    forall u
      ensures AtMost(s, u) == AtMost(t, u)
    {
      AtMostPermuted(s, t, u);
    }
  }

  // ----- The ledger

  /** What identifies a measurement: commit, workload with version, case, metric, machine and build profile. */
  datatype Key = Key(commit: string, workload: string, version: int, case_: string, metric: string, machine: string, profile: string)

  /** A line of the ledger: `Bad` is blank, unreadable or an entry with problems of its own. Dates count days. */
  datatype Line = Bad | Entry(key: Key, date: nat, text: string)

  function Keys(lines: seq<Line>): set<Key> {
    set line | line in lines && line.Entry? :: line.key
  }

  /** No bad line, no key twice, dates in order. */
  predicate IsLedger(lines: seq<Line>) {
    && (forall i :: 0 <= i < |lines| ==> lines[i].Entry?)
    && (forall i, j :: 0 <= i < j < |lines| ==> lines[i].key != lines[j].key && lines[i].date <= lines[j].date)
  }

  /** How a text ends: with a newline, or empty; with another line break, such as a carriage return; with a blank remainder
      that JSON ignores, spaces or tabs; or within a line. */
  datatype End = Newline | OtherBreak | Blank | Within

  /** What the text parses to. A remainder after the last line break is its last line. */
  datatype Text = Text(lines: seq<Line>, end: End)

  predicate IsText(text: Text) {
    && (text.end.Blank? ==> text.lines != [] && text.lines[|text.lines| - 1] == Bad)
    && (text.end.Within? ==> text.lines != [])
  }

  /** The text with another line after it: a blank remainder becomes its indentation, and a line that was not ended is now
      one with it and unreadable. */
  function Joined(text: Text, line: Line): Text
    requires IsText(text)
  {
    match text.end
    case Newline => Text(text.lines + [line], Newline)
    case OtherBreak => Text(text.lines + [line], Newline)
    case Blank => Text(text.lines[..|text.lines| - 1] + [line], Newline)
    case Within => Text(text.lines[..|text.lines| - 1] + [Bad], Newline)
  }

  /** `validate_ledger`: the number of problems. */
  method ValidateLedger(text: Text) returns (problems: nat)
    ensures problems == 0 <==> IsLedger(text.lines) && text.end.Newline?
  {
    var lines := text.lines;
    var unended := if text.end.Newline? then 0 else 1;
    problems := 0;
    var keys: set<Key>, previous := {}, 0;
    for i := 0 to |lines|
      invariant keys == Keys(lines[..i])
      invariant problems == 0 <==> IsLedger(lines[..i])
      invariant forall j :: 0 <= j < i && lines[j].Entry? ==> lines[j].date <= previous
      invariant previous == 0 || exists j :: 0 <= j < i && lines[j].Entry? && lines[j].date == previous
    {
      var line := lines[i];
      LedgerAppend(lines[..i], line);
      assert lines[..i + 1] == lines[..i] + [line];
      if line.Bad? {
        problems := problems + 1;
        continue;
      }
      var found := 0;
      if line.key in keys {
        found := found + 1;
      }
      if line.date < previous {
        found := found + 1;
      }
      if IsLedger(lines[..i]) {
        assert found == 0 <==> Extends(lines[..i], line) by {
          FreshExactly(lines, i, previous);
        }
      }
      problems := problems + found;
      keys := keys + {line.key};
      previous := if line.date > previous then line.date else previous;
    }
    assert lines[..|lines|] == lines;
    problems := problems + unended;
  }

  /** A new key, and a date that is not before any other. */
  predicate Extends(lines: seq<Line>, line: Line) {
    line.Entry? && forall i :: 0 <= i < |lines| && lines[i].Entry? ==> lines[i].key != line.key && lines[i].date <= line.date
  }

  lemma LedgerAppend(lines: seq<Line>, line: Line)
    ensures IsLedger(lines + [line]) <==> IsLedger(lines) && Extends(lines, line)
    ensures Keys(lines + [line]) == Keys(lines) + if line.Entry? then {line.key} else {}
  {
    var all := lines + [line];
    assert forall l :: l in all <==> l in lines || l == line;
    if IsLedger(all) {
      LedgerPrefix(lines, line);
    }
  }

  lemma LedgerPrefix(lines: seq<Line>, line: Line)
    requires IsLedger(lines + [line])
    ensures IsLedger(lines) && Extends(lines, line)
  {
    var all := lines + [line];
    assert all[|lines|] == line;
    forall i | 0 <= i < |lines|
      ensures lines[i] == all[i] && lines[i].Entry?
    {
    }
    forall i | 0 <= i < |lines|
      ensures lines[i].key != line.key && lines[i].date <= line.date
    {
      assert all[i].key != all[|lines|].key;
    }
    forall i, j | 0 <= i < j < |lines|
      ensures lines[i].key != lines[j].key && lines[i].date <= lines[j].date
    {
      assert all[i].key != all[j].key;
    }
  }

  lemma FreshExactly(lines: seq<Line>, i: nat, previous: nat)
    requires i < |lines| && lines[i].Entry? && IsLedger(lines[..i])
    requires forall j :: 0 <= j < i && lines[j].Entry? ==> lines[j].date <= previous
    requires previous == 0 || exists j :: 0 <= j < i && lines[j].Entry? && lines[j].date == previous
    ensures Extends(lines[..i], lines[i]) <==> lines[i].key !in Keys(lines[..i]) && lines[i].date >= previous
  {
    var front := lines[..i];
    if Extends(front, lines[i]) && previous != 0 {
      var j :| 0 <= j < i && lines[j].Entry? && lines[j].date == previous;
      assert front[j] == lines[j];
    }
    if lines[i].key !in Keys(front) && lines[i].date >= previous {
      forall j | 0 <= j < |front|
        ensures front[j].key != lines[i].key && front[j].date <= lines[i].date
      {
        assert front[j] in front;
      }
    }
  }

  class Ledger {
    var text: Text

    constructor (text: Text)
      ensures this.text == text
    {
      this.text := text;
    }

    /** `append_entry`: the line is added exactly when the result is a ledger; else nothing changes. */
    method AppendEntry(line: Line) returns (ok: bool)
      requires IsText(text)
      modifies this
      ensures ok <==> IsLedger(Joined(old(text), line).lines)
      ensures text == (if ok then Joined(old(text), line) else old(text)) && IsText(text)
    {
      var longer := Joined(text, line);
      var problems := ValidateLedger(longer);
      ok := problems == 0;
      if ok {
        text := longer;
      }
    }
  }

  /** Nothing is ever appended to a text that ends within a line. */
  lemma NeverJoined(text: Text, line: Line)
    requires IsText(text) && text.end.Within?
    ensures !IsLedger(Joined(text, line).lines)
  {
    assert Joined(text, line).lines[|text.lines| - 1] == Bad;
  }

  /** The text after attempts to append these lines. */
  function After(text: Text, attempts: seq<Line>): (after: Text)
    requires IsText(text)
    ensures IsText(after)
  {
    if attempts == [] then text
    else
      var before := After(text, attempts[..|attempts| - 1]);
      var longer := Joined(before, attempts[|attempts| - 1]);
      if IsLedger(longer.lines) then longer else before
  }

  /** Any number of appends to a ledger keeps its text as a prefix, its keys distinct and its dates in order, and refuses
      exactly the lines with a known key or an earlier date. */
  lemma {:induction false} LedgerGrows(text: Text, attempts: seq<Line>)
    requires IsLedger(text.lines) && text.end.Newline?
    ensures var after := After(text, attempts);
      && text.lines <= after.lines && IsLedger(after.lines) && after.end.Newline?
      && forall line :: After(text, attempts + [line]) ==
           if Extends(after.lines, line) then Text(after.lines + [line], Newline) else after
    decreases |attempts|
  {
    if attempts != [] {
      LedgerGrows(text, attempts[..|attempts| - 1]);
      LedgerAppend(After(text, attempts[..|attempts| - 1]).lines, attempts[|attempts| - 1]);
    }
    var after := After(text, attempts);
    forall line
      ensures After(text, attempts + [line]) == if Extends(after.lines, line) then Text(after.lines + [line], Newline) else after
    {
      assert (attempts + [line])[..|attempts|] == attempts;
      LedgerAppend(after.lines, line);
    }
  }

  /** Appending one by one, to any text. */
  method AppendAll(ledger: Ledger, attempts: seq<Line>)
    requires IsText(ledger.text)
    modifies ledger
    ensures ledger.text == After(old(ledger.text), attempts)
  {
    for i := 0 to |attempts|
      invariant IsText(ledger.text) && ledger.text == After(old(ledger.text), attempts[..i])
    {
      assert attempts[..i + 1][..i] == attempts[..i];
      var _ := ledger.AppendEntry(attempts[i]);
    }
    assert attempts[..|attempts|] == attempts;
  }
}
