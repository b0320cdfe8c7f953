/** Reassembling the retained window of combat records from overlapping pages (scripts/combat_diagnostics.py), and
    comparing two windows by their numbers alone. */
module CombatWindow {
  import opened Options

  /** `intention` and `origin` are the payment owners; `content` is the rest of a receipt. */
  datatype Record = Record(sequence: nat, tick: nat, intention: Option<nat>, origin: Option<nat>, content: string)

  datatype Metadata = Metadata(enabled: bool, tick: nat, captured: nat, dropped: nat, retained: int)

  datatype Page = Page(metadata: Metadata, through: nat, records: seq<Record>)

  datatype Window = Window(metadata: Metadata, records: seq<Record>)

  const MAX_PAGES := 64
  const MAX_RETAINED := 64
  const PAGE := 8

  // ----- Windows and their pages

  predicate Consistent(m: Metadata) {
    0 <= m.retained <= MAX_RETAINED && m.captured - m.dropped == m.retained && (!m.enabled ==> m.captured == 0)
  }

  predicate ValidRecord(r: Record, m: Metadata) {
    m.dropped < r.sequence <= m.captured && r.tick <= m.tick && r.intention != Some(0) && r.origin != Some(0)
  }

  /** All records from the first that was not dropped to the last captured one, without a gap. */
  predicate IsWindow(w: Window) {
    && Consistent(w.metadata) && |w.records| == w.metadata.retained
    && forall i :: 0 <= i < |w.records| ==>
         ValidRecord(w.records[i], w.metadata) && w.records[i].sequence == w.metadata.dropped + 1 + i
  }

  /** A page shows at most eight consecutive records of the window, the last of them being number `through`. */
  predicate IsCut(p: Page, w: Window)
    requires IsWindow(w)
  {
    var last, count := p.through - w.metadata.dropped, |p.records|;
    && p.metadata == w.metadata && count <= PAGE
    && if count == 0 then w.metadata.captured == 0 && p.through == 0
       else count <= last <= |w.records| && p.records == w.records[last - count..last]
  }

  predicate Covered(pages: seq<Page>, r: Record) {
    exists p :: p in pages && r in p.records
  }

  /** The pages show exactly this window, its latest page included. */
  predicate Shows(pages: seq<Page>, w: Window) {
    && IsWindow(w) && 1 <= |pages| <= MAX_PAGES
    && (forall p :: p in pages ==> IsCut(p, w))
    && (exists p :: p in pages && p.through == w.metadata.captured)
    && forall r :: r in w.records ==> Covered(pages, r)
  }

  // ----- The checks of one page

  predicate PageOk(p: Page) {
    && Consistent(p.metadata) && |p.records| <= PAGE
    && (if p.records == [] then p.metadata.captured == 0 && p.through == 0
        else p.metadata.dropped < p.through <= p.metadata.captured)
    && forall i :: 0 <= i < |p.records| ==>
         ValidRecord(p.records[i], p.metadata) && p.records[i].sequence == p.through - |p.records| + 1 + i
  }

  predicate Agrees(r: Record, known: map<nat, Record>) {
    r.sequence in known ==> known[r.sequence] == r
  }

  function Learn(known: map<nat, Record>, records: seq<Record>): map<nat, Record> {
    if records == [] then known
    else Learn(known, records[..|records| - 1])[records[|records| - 1].sequence := records[|records| - 1]]
  }

  lemma {:induction false} LearnIs(known: map<nat, Record>, records: seq<Record>, k: nat)
    requires forall i, j :: 0 <= i < j < |records| ==> records[i].sequence != records[j].sequence
    ensures k in Learn(known, records) <==> k in known || exists i :: 0 <= i < |records| && records[i].sequence == k
    ensures forall i :: 0 <= i < |records| && records[i].sequence == k ==> Learn(known, records)[k] == records[i]
    ensures k in known && (forall i :: 0 <= i < |records| ==> records[i].sequence != k) ==> Learn(known, records)[k] == known[k]
    decreases |records|
  {
    if records != [] {
      LearnIs(known, records[..|records| - 1], k);
    }
  }

  predicate RecordOk(p: Page, i: nat, known: map<nat, Record>)
    requires i < |p.records|
  {
    && ValidRecord(p.records[i], p.metadata) && p.records[i].sequence == p.through - |p.records| + 1 + i
    && Agrees(p.records[i], known)
  }

  lemma RecordsOk(p: Page, known: map<nat, Record>)
    requires Consistent(p.metadata) && 0 < |p.records| <= PAGE && p.metadata.dropped < p.through <= p.metadata.captured
    ensures (forall i :: 0 <= i < |p.records| ==> RecordOk(p, i, known))
       <==> PageOk(p) && forall r :: r in p.records ==> Agrees(r, known)
  {
    if PageOk(p) && forall r :: r in p.records ==> Agrees(r, known) {
      forall i | 0 <= i < |p.records|
        ensures RecordOk(p, i, known)
      {
        assert p.records[i] in p.records;
      }
    }
    if forall i :: 0 <= i < |p.records| ==> RecordOk(p, i, known) {
      forall i | 0 <= i < |p.records|
        ensures ValidRecord(p.records[i], p.metadata) && p.records[i].sequence == p.through - |p.records| + 1 + i
        ensures Agrees(p.records[i], known)
      {
        assert RecordOk(p, i, known);
      }
    }
  }

  /** The loop over the records of a page. */
  method ReadRecords(p: Page, known: map<nat, Record>) returns (ok: bool, learned: map<nat, Record>)
    requires Consistent(p.metadata) && 0 < |p.records| <= PAGE && p.metadata.dropped < p.through <= p.metadata.captured
    ensures ok <==> forall i :: 0 <= i < |p.records| ==> RecordOk(p, i, known)
    ensures ok ==> learned == Learn(known, p.records)
  {
    learned := known;
    var start := p.through - |p.records| + 1;
    for offset := 0 to |p.records|
      invariant learned == Learn(known, p.records[..offset])
      invariant forall i :: 0 <= i < offset ==> RecordOk(p, i, known)
    {
      var record := p.records[offset];
      assert p.records[..offset + 1][..offset] == p.records[..offset];
      if record.sequence != start + offset || !(p.metadata.dropped < record.sequence <= p.metadata.captured)
         || record.tick > p.metadata.tick || record.intention == Some(0) || record.origin == Some(0) {
        assert !RecordOk(p, offset, known);
        return false, known;
      }
      EarlierLearned(p, known, offset);
      if record.sequence in learned && learned[record.sequence] != record {
        assert !RecordOk(p, offset, known);
        return false, known;
      }
      learned := learned[record.sequence := record];
    }
    assert p.records[..|p.records|] == p.records;
    return true, learned;
  }

  /** The earlier records of the page do not speak for the next number. */
  lemma EarlierLearned(p: Page, known: map<nat, Record>, offset: nat)
    requires offset < |p.records| && p.records[offset].sequence == p.through - |p.records| + 1 + offset
    requires forall i :: 0 <= i < offset ==> RecordOk(p, i, known)
    ensures var k, learned := p.records[offset].sequence, Learn(known, p.records[..offset]);
      (k in learned <==> k in known) && (k in known ==> learned[k] == known[k])
  {
    forall i | 0 <= i < offset
      ensures p.records[..offset][i].sequence == p.through - |p.records| + 1 + i
    {
      assert RecordOk(p, i, known);
    }
    LearnIs(known, p.records[..offset], p.records[offset].sequence);
  }

  /** The checks of one page against what earlier pages said. */
  method ReadPage(p: Page, known: map<nat, Record>) returns (ok: bool, learned: map<nat, Record>)
    ensures ok <==> PageOk(p) && forall r :: r in p.records ==> Agrees(r, known)
    ensures ok ==> learned == Learn(known, p.records)
  {
    var m := p.metadata;
    if !(0 <= m.retained <= MAX_RETAINED) || m.captured - m.dropped != m.retained || (!m.enabled && m.captured != 0) {
      return false, known;
    }
    if |p.records| > PAGE {
      return false, known;
    }
    if p.records == [] {
      return m.captured == 0 && p.through == 0, known;
    }
    if !(m.dropped < p.through <= m.captured) {
      return false, known;
    }
    RecordsOk(p, known);
    ok, learned := ReadRecords(p, known);
  }

  // ----- All pages

  ghost predicate Learned(pages: seq<Page>, known: map<nat, Record>) {
    forall p, r :: p in pages && r in p.records ==> r.sequence in known && known[r.sequence] == r
  }

  ghost predicate Sourced(pages: seq<Page>, known: map<nat, Record>) {
    forall k :: k in known ==> known[k].sequence == k && Covered(pages, known[k])
  }

  /** What is known after some pages. */
  ghost predicate Gathered(pages: seq<Page>, m: Metadata, known: map<nat, Record>, latest: bool) {
    && (forall p :: p in pages ==> PageOk(p) && p.metadata == m)
    && Learned(pages, known) && Sourced(pages, known)
    && (latest <==> exists p :: p in pages && p.through == m.captured)
  }

  lemma GatherNext(pages: seq<Page>, m: Metadata, known: map<nat, Record>, latest: bool, p: Page)
    requires Gathered(pages, m, known, latest) && PageOk(p) && p.metadata == m
    requires forall r :: r in p.records ==> Agrees(r, known)
    ensures Gathered(pages + [p], m, Learn(known, p.records), latest || p.through == m.captured)
  {
    var learned := Learn(known, p.records);
    assert forall q :: q in pages + [p] <==> q in pages || q == p;
    forall q, r | q in pages + [p] && r in q.records
      ensures r.sequence in learned && learned[r.sequence] == r
    {
      LearnIs(known, p.records, r.sequence);
      if q != p {
        assert r.sequence in known && known[r.sequence] == r;
        if j :| 0 <= j < |p.records| && p.records[j].sequence == r.sequence {
          assert Agrees(p.records[j], known);
        }
      }
    }
    forall k | k in learned
      ensures learned[k].sequence == k && Covered(pages + [p], learned[k])
    {
      LearnIs(known, p.records, k);
      if j :| 0 <= j < |p.records| && p.records[j].sequence == k {
        assert p.records[j] in p.records && p in pages + [p];
      } else {
        var q :| q in pages && known[k] in q.records;
        assert q in pages + [p];
      }
    }
  }

  lemma CutIsOk(p: Page, w: Window)
    requires IsWindow(w) && IsCut(p, w)
    ensures PageOk(p)
    ensures forall r :: r in p.records ==> r in w.records
  {
    var from := p.through - w.metadata.dropped - |p.records|;
    if p.records != [] {
      forall i | 0 <= i < |p.records|
        ensures p.records[i] == w.records[from + i]
      {
      }
    }
  }

  /** The pages of a window never conflict. */
  lemma CutAgrees(pages: seq<Page>, m: Metadata, known: map<nat, Record>, latest: bool, p: Page, w: Window)
    requires Gathered(pages, m, known, latest) && IsWindow(w) && IsCut(p, w)
    requires forall q :: q in pages ==> IsCut(q, w)
    ensures forall r :: r in p.records ==> Agrees(r, known)
  {
    CutIsOk(p, w);
    forall r | r in p.records && r.sequence in known
      ensures known[r.sequence] == r
    {
      var q :| q in pages && known[r.sequence] in q.records;
      CutIsOk(q, w);
      SameRecord(w, r, known[r.sequence]);
    }
  }

  lemma SameRecord(w: Window, a: Record, b: Record)
    requires IsWindow(w) && a in w.records && b in w.records && a.sequence == b.sequence
    ensures a == b
  {
  }

  function Range(low: nat, high: nat): (range: set<nat>)
    ensures forall k: nat :: k in range <==> low < k <= high
    ensures low <= high ==> |range| == high - low
    decreases high
  {
    if low < high then Range(low, high - 1) + {high} else {}
  }

  /** As many numbers of a range as it has are all of them. */
  lemma Pigeonhole(keys: set<nat>, range: set<nat>)
    requires keys <= range && |keys| == |range|
    ensures keys == range
  {
    assert range == keys + (range - keys);
    assert |range| == |keys| + |range - keys|;
  }

  /** The known records from `low` on, in order of sequence. */
  function Ordered(known: map<nat, Record>, low: nat, high: nat): (records: seq<Record>)
    requires low <= high && forall k: nat :: low < k <= high ==> k in known
    ensures |records| == high - low && forall i {:trigger records[i]} :: 0 <= i < |records| ==> records[i] == known[low + 1 + i]
    decreases high - low
  {
    if low == high then [] else [known[low + 1]] + Ordered(known, low + 1, high)
  }

  lemma KnownIsAll(pages: seq<Page>, m: Metadata, known: map<nat, Record>, latest: bool)
    requires Gathered(pages, m, known, latest) && |known| == m.retained && Consistent(m)
    ensures forall k :: k in known ==> ValidRecord(known[k], m)
    ensures forall k: nat :: m.dropped < k <= m.captured ==> k in known
  {
    forall k | k in known
      ensures k in Range(m.dropped, m.captured) && ValidRecord(known[k], m)
    {
      var p :| p in pages && known[k] in p.records;
      assert PageOk(p);
    }
    assert |known.Keys| == |known|;
    Pigeonhole(known.Keys, Range(m.dropped, m.captured));
  }

  /** The window of the known records. */
  function Known(m: Metadata, known: map<nat, Record>): Window
    requires m.dropped <= m.captured && forall k: nat :: m.dropped < k <= m.captured ==> k in known
  {
    Window(m, Ordered(known, m.dropped, m.captured))
  }

  lemma KnownIsValid(m: Metadata, known: map<nat, Record>)
    requires Consistent(m) && forall k: nat :: m.dropped < k <= m.captured ==> k in known
    requires forall k :: k in known ==> ValidRecord(known[k], m) && known[k].sequence == k
    ensures IsWindow(Known(m, known))
    ensures forall i :: 0 <= i < |Known(m, known).records| ==>
              var r := Known(m, known).records[i]; r.sequence in known && r == known[r.sequence]
  {
  }

  lemma KnownIsWindow(pages: seq<Page>, m: Metadata, known: map<nat, Record>, latest: bool)
    requires Gathered(pages, m, known, latest) && latest && |known| == m.retained && 1 <= |pages| <= MAX_PAGES
    ensures m.dropped <= m.captured && forall k: nat :: m.dropped < k <= m.captured ==> k in known
    ensures Shows(pages, Known(m, known))
  {
    assert PageOk(pages[0]);
    KnownIsAll(pages, m, known, latest);
    KnownIsValid(m, known);
    var w := Known(m, known);
    KnownCuts(pages, m, known, latest, w);
    KnownIsCovered(pages, known, w);
    ShowsWhole(pages, w);
  }

  lemma ShowsWhole(pages: seq<Page>, w: Window)
    requires IsWindow(w) && 1 <= |pages| <= MAX_PAGES
    requires forall p :: p in pages ==> IsCut(p, w)
    requires exists p :: p in pages && p.through == w.metadata.captured
    requires forall r :: r in w.records ==> Covered(pages, r)
    ensures Shows(pages, w)
  {
  }

  lemma KnownCuts(pages: seq<Page>, m: Metadata, known: map<nat, Record>, latest: bool, w: Window)
    requires Gathered(pages, m, known, latest) && IsWindow(w) && w.metadata == m
    requires forall i :: 0 <= i < |w.records| ==> w.records[i].sequence in known && w.records[i] == known[w.records[i].sequence]
    ensures forall p :: p in pages ==> IsCut(p, w)
  {
    forall p | p in pages
      ensures IsCut(p, w)
    {
      KnownCut(pages, m, known, latest, p, w);
    }
  }

  lemma KnownIsCovered(pages: seq<Page>, known: map<nat, Record>, w: Window)
    requires Sourced(pages, known)
    requires forall i :: 0 <= i < |w.records| ==> w.records[i].sequence in known && w.records[i] == known[w.records[i].sequence]
    ensures forall r :: r in w.records ==> Covered(pages, r)
  {
  }

  lemma KnownCut(pages: seq<Page>, m: Metadata, known: map<nat, Record>, latest: bool, p: Page, w: Window)
    requires Gathered(pages, m, known, latest) && p in pages && IsWindow(w) && w.metadata == m
    requires forall i :: 0 <= i < |w.records| ==> w.records[i].sequence in known && w.records[i] == known[w.records[i].sequence]
    ensures IsCut(p, w)
  {
    assert PageOk(p);
    if p.records != [] {
      var last, count := p.through - m.dropped, |p.records|;
      assert p.records[0] in p.records;
      forall i | 0 <= i < count
        ensures p.records[i] == w.records[last - count + i]
      {
        assert p.records[i] in p.records;
        assert w.records[last - count + i].sequence == p.records[i].sequence;
      }
    }
  }

  /** When the pages show a window, just its records are known in the end. */
  lemma ShownIsKnown(pages: seq<Page>, m: Metadata, known: map<nat, Record>, latest: bool, w: Window)
    requires Gathered(pages, m, known, latest) && Shows(pages, w)
    ensures latest && |known| == m.retained && w.metadata == m
  {
    assert IsCut(pages[0], w);
    ShownKeys(pages, known, w);
    assert |known| == |known.Keys|;
  }

  lemma ShownKeys(pages: seq<Page>, known: map<nat, Record>, w: Window)
    requires Learned(pages, known) && Sourced(pages, known) && Shows(pages, w)
    ensures known.Keys == Range(w.metadata.dropped, w.metadata.captured)
  {
    forall k: nat
      ensures k in known <==> k in Range(w.metadata.dropped, w.metadata.captured)
    {
      if k in known {
        KnownIsShown(pages, known, w, k);
      } else if k in Range(w.metadata.dropped, w.metadata.captured) {
        ShownInKnown(pages, known, w, k);
      }
    }
  }

  lemma KnownIsShown(pages: seq<Page>, known: map<nat, Record>, w: Window, k: nat)
    requires Sourced(pages, known) && Shows(pages, w) && k in known
    ensures w.metadata.dropped < k <= w.metadata.captured
  {
    var p :| p in pages && known[k] in p.records;
    CutIsOk(p, w);
  }

  lemma ShownInKnown(pages: seq<Page>, known: map<nat, Record>, w: Window, k: nat)
    requires Learned(pages, known) && Shows(pages, w) && w.metadata.dropped < k <= w.metadata.captured
    ensures k in known
  {
    assert Covered(pages, w.records[k - w.metadata.dropped - 1]);
  }

  /** A list of pages shows at most one window. */
  lemma ShowsOne(pages: seq<Page>, v: Window, w: Window)
    requires Shows(pages, v) && Shows(pages, w)
    ensures v == w
  {
    assert IsCut(pages[0], v) && IsCut(pages[0], w);
    forall i | 0 <= i < |v.records|
      ensures v.records[i] == w.records[i]
    {
      assert Covered(pages, v.records[i]);
      var p :| p in pages && v.records[i] in p.records;
      CutIsOk(p, w);
      SameRecordAt(w, v.records[i], i);
    }
  }

  lemma SameRecordAt(w: Window, r: Record, i: nat)
    requires IsWindow(w) && r in w.records && r.sequence == w.metadata.dropped + 1 + i && i < |w.records|
    ensures w.records[i] == r
  {
  }

  /** The loop over all pages. */
  method ReadPages(pages: seq<Page>, metadata: Metadata) returns (ok: bool, known: map<nat, Record>, latest: bool)
    requires pages != [] && metadata == pages[0].metadata
    ensures ok ==> Gathered(pages, metadata, known, latest)
    ensures !ok ==> forall w :: !Shows(pages, w)
  {
    known, latest := map[], false;
    for i := 0 to |pages|
      invariant Gathered(pages[..i], metadata, known, latest)
    {
      var page := pages[i];
      var good, learned := ReadPage(page, known);
      if !good || page.metadata != metadata {
        forall w
          ensures !Shows(pages, w)
        {
          RefusedPage(pages, i, metadata, known, latest, w);
        }
        return false, known, latest;
      }
      GatherNext(pages[..i], metadata, known, latest, page);
      assert pages[..i + 1] == pages[..i] + [page];
      known := learned;
      latest := latest || page.through == metadata.captured;
    }
    assert pages[..|pages|] == pages;
    return true, known, latest;
  }

  /** `collect_window`: the window that the pages show, and failure when they show none. */
  method CollectWindow(pages: seq<Page>) returns (window: Option<Window>)
    ensures window.Some? ==> Shows(pages, window.value)
    ensures window.None? ==> forall w :: !Shows(pages, w)
  {
    if !(1 <= |pages| <= MAX_PAGES) {
      return None;
    }
    var metadata := pages[0].metadata;
    var ok, known, latest := ReadPages(pages, metadata);
    if !ok {
      return None;
    }
    if !latest || |known| != metadata.retained {
      forall w
        ensures !Shows(pages, w)
      {
        if Shows(pages, w) {
          ShownIsKnown(pages, metadata, known, latest, w);
        }
      }
      return None;
    }
    KnownIsWindow(pages, metadata, known, latest);
    return Some(Known(metadata, known));
  }

  lemma RefusedPage(pages: seq<Page>, i: nat, m: Metadata, known: map<nat, Record>, latest: bool, w: Window)
    requires i < |pages| && m == pages[0].metadata && Gathered(pages[..i], m, known, latest)
    requires !(PageOk(pages[i]) && forall r :: r in pages[i].records ==> Agrees(r, known)) || pages[i].metadata != m
    ensures !Shows(pages, w)
  {
    if Shows(pages, w) {
      assert pages[i] in pages && pages[0] in pages;
      CutIsOk(pages[i], w);
      CutAgrees(pages[..i], m, known, latest, pages[i], w);
    }
  }

  // ----- Different pages of one window

  /** Permuting, repeating or re-cutting accepted pages changes nothing, as long as the records stay covered: every such
      list of pages shows the same window, and no other. */
  lemma RecutPages(pages: seq<Page>, others: seq<Page>, w: Window)
    requires Shows(pages, w) && 1 <= |others| <= MAX_PAGES
    requires forall p :: p in others ==> IsCut(p, w)
    requires exists p :: p in others && p.through == w.metadata.captured
    requires forall p, r :: p in pages && r in p.records ==> Covered(others, r)
    ensures Shows(others, w) && forall v :: Shows(others, v) ==> v == w
  {
    forall r | r in w.records
      ensures Covered(others, r)
    {
      assert Covered(pages, r);
    }
    forall v | Shows(others, v)
      ensures v == w
    {
      ShowsOne(others, v, w);
    }
  }

  lemma ReorderedPages(pages: seq<Page>, others: seq<Page>, w: Window)
    requires Shows(pages, w) && |others| <= MAX_PAGES && forall p :: p in pages <==> p in others
    ensures Shows(others, w) && forall v :: Shows(others, v) ==> v == w
  {
    assert pages[0] in others;
    forall p, r | p in pages && r in p.records
      ensures Covered(others, r)
    {
    }
    RecutPages(pages, others, w);
  }

  // ----- Exports

  /** A window in pages of eight, the oldest first. */
  function Chunks(m: Metadata, records: seq<Record>): seq<Page>
    requires records != []
  {
    if |records| <= PAGE then [Page(m, records[|records| - 1].sequence, records)]
    else [Page(m, records[PAGE - 1].sequence, records[..PAGE])] + Chunks(m, records[PAGE..])
  }

  function PagesOf(w: Window): seq<Page> {
    if w.records == [] then [Page(w.metadata, 0, [])] else Chunks(w.metadata, w.records)
  }

  /** Windows that pages can show: one with records, or one in which nothing was ever captured. */
  predicate Showable(w: Window) {
    IsWindow(w) && (w.records == [] ==> w.metadata.captured == 0)
  }

  lemma {:induction false} ChunksCut(w: Window, from: nat)
    requires IsWindow(w) && from < |w.records|
    ensures var pages := Chunks(w.metadata, w.records[from..]);
      && PAGE * (|pages| - 1) < |w.records| - from
      && (forall p :: p in pages ==> IsCut(p, w))
      && (exists p :: p in pages && p.through == w.metadata.captured)
    decreases |w.records| - from
  {
    ChunksStep(w, from);
    if |w.records| - from > PAGE {
      ChunksCut(w, from + PAGE);
    } else {
      var pages := Chunks(w.metadata, w.records[from..]);
      assert pages[0].through == w.metadata.captured;
    }
  }

  /** The first chunk, and the chunks after it. */
  lemma ChunksStep(w: Window, from: nat)
    requires IsWindow(w) && from < |w.records|
    ensures var pages := Chunks(w.metadata, w.records[from..]);
      if |w.records| - from > PAGE
      then pages == [pages[0]] + Chunks(w.metadata, w.records[from + PAGE..]) && pages[0].records == w.records[from..from + PAGE] && IsCut(pages[0], w)
      else |pages| == 1 && pages[0].records == w.records[from..] && IsCut(pages[0], w)
  {
    var rest := w.records[from..];
    if |rest| > PAGE {
      assert rest[PAGE..] == w.records[from + PAGE..];
      FirstChunk(w, from, from + PAGE);
      assert rest[..PAGE] == w.records[from..from + PAGE];
    } else {
      FirstChunk(w, from, |w.records|);
      assert w.records[from..|w.records|] == rest;
    }
  }

  lemma {:induction false} ChunksCover(w: Window, from: nat, i: nat)
    requires IsWindow(w) && from <= i < |w.records|
    ensures Covered(Chunks(w.metadata, w.records[from..]), w.records[i])
    decreases |w.records| - from
  {
    var pages := Chunks(w.metadata, w.records[from..]);
    ChunksStep(w, from);
    if |w.records| - from > PAGE && i >= from + PAGE {
      ChunksCover(w, from + PAGE, i);
      var p :| p in Chunks(w.metadata, w.records[from + PAGE..]) && w.records[i] in p.records;
      assert p in pages;
    } else {
      assert pages[0].records[i - from] == w.records[i];
      assert pages[0] in pages;
    }
  }

  lemma FirstChunk(w: Window, from: nat, to: nat)
    requires IsWindow(w) && from < to <= |w.records| && to - from <= PAGE
    ensures IsCut(Page(w.metadata, w.records[to - 1].sequence, w.records[from..to]), w)
  {
  }

  /** A window cut into such pages is shown by them. */
  lemma PagesShow(w: Window)
    requires Showable(w)
    ensures Shows(PagesOf(w), w)
  {
    if w.records == [] {
      assert IsCut(PagesOf(w)[0], w);
      assert PagesOf(w)[0] in PagesOf(w);
    } else {
      ChunksCut(w, 0);
      assert w.records[0..] == w.records;
      forall i | 0 <= i < |w.records|
        ensures Covered(PagesOf(w), w.records[i])
      {
        ChunksCover(w, 0, i);
      }
    }
  }

  /** Collected windows are showable. */
  lemma ShownIsShowable(pages: seq<Page>, w: Window)
    requires Shows(pages, w)
    ensures Showable(w)
  {
    assert IsCut(pages[0], w);
  }

  /** Some pages show a window unless records were captured and all of them dropped. */
  lemma ShownExactly(w: Window)
    requires IsWindow(w)
    ensures (exists pages :: Shows(pages, w)) <==> !(w.metadata.captured == w.metadata.dropped > 0)
  {
    if pages :| Shows(pages, w) {
      ShownIsShowable(pages, w);
    } else if Showable(w) {
      PagesShow(w);
    }
  }

  /** A window whose captured records were all dropped: it is consistent, but no pages show it. */
  lemma DroppedIsNeverShown(tick: nat, captured: nat, pages: seq<Page>)
    requires captured > 0
    ensures var w := Window(Metadata(true, tick, captured, captured, 0), []);
      IsWindow(w) && !Showable(w) && !Shows(pages, w)
  {
    ShownExactly(Window(Metadata(true, tick, captured, captured, 0), []));
  }

  /** A collected window has every number from the first that was not dropped to the last captured one, in order, none
      later than the window's tick and no owner zero, at most sixty-four of them. */
  lemma ShownMeans(pages: seq<Page>, w: Window)
    requires Shows(pages, w)
    ensures |w.records| == w.metadata.captured - w.metadata.dropped == w.metadata.retained <= 64
    ensures !w.metadata.enabled ==> w.metadata.captured == 0
    ensures forall i :: 0 <= i < |w.records| ==>
      && w.records[i].sequence == w.metadata.dropped + 1 + i && w.records[i].tick <= w.metadata.tick
      && w.records[i].intention != Some(0) && w.records[i].origin != Some(0)
    ensures |pages| <= 64 && forall p :: p in pages ==> p.metadata == w.metadata && |p.records| <= 8
    ensures forall p, r :: p in pages && r in p.records ==> r in w.records
  {
    forall p, r | p in pages && r in p.records
      ensures r in w.records
    {
      assert IsCut(p, w);
    }
  }

  // ----- Integrity hashes

  /** The payload for numerical comparison: owners only say whether they exist. */
  datatype Numerical = Numerical(metadata: Metadata, records: seq<NumericalRecord>)

  datatype NumericalRecord = NumericalRecord(sequence: nat, tick: nat, intended: bool, originated: bool, content: string)

  datatype Export = Export(window: Window, hash: int, numericalHash: int)

  /** The digests of the canonical JSON text of the two payloads. */
  datatype Hashes = Hashes(whole: Window -> int, numerical: Numerical -> int)

  function NormalizedRecord(r: Record): NumericalRecord {
    NumericalRecord(r.sequence, r.tick, r.intention.Some?, r.origin.Some?, r.content)
  }

  function NormalizedRecords(records: seq<Record>): (normalized: seq<NumericalRecord>)
    ensures |normalized| == |records|
    ensures forall i {:trigger normalized[i]} :: 0 <= i < |records| ==> normalized[i] == NormalizedRecord(records[i])
  {
    if records == [] then [] else NormalizedRecords(records[..|records| - 1]) + [NormalizedRecord(records[|records| - 1])]
  }

  function Normalized(w: Window): Numerical {
    Numerical(w.metadata, NormalizedRecords(w.records))
  }

  function ExportOf(h: Hashes, w: Window): Export {
    Export(w, h.whole(w), h.numerical(Normalized(w)))
  }

  /** `verify_export`: it accepts exactly the exports of windows that pages can show. */
  method VerifyExport(h: Hashes, value: Export) returns (ok: bool)
    ensures ok <==> Showable(value.window) && value == ExportOf(h, value.window)
  {
    if |value.window.records| > MAX_RETAINED {
      return false;
    }
    var collected := CollectWindow(PagesOf(value.window));
    if collected.None? {
      if Showable(value.window) {
        PagesShow(value.window);
      }
      return false;
    }
    ShownIsShowable(PagesOf(value.window), collected.value);
    if Showable(value.window) {
      PagesShow(value.window);
      ShowsOne(PagesOf(value.window), value.window, collected.value);
    }
    return ExportOf(h, collected.value) == value;
  }

  /** What was collected from pages always verifies. */
  method CollectAndVerify(h: Hashes, pages: seq<Page>) returns (result: Option<Export>)
    ensures result.Some? <==> exists w :: Shows(pages, w)
    ensures result.Some? ==> Shows(pages, result.value.window) && result.value == ExportOf(h, result.value.window)
  {
    var window := CollectWindow(pages);
    if window.None? {
      return None;
    }
    var e := ExportOf(h, window.value);
    ShownIsShowable(pages, window.value);
    var ok := VerifyExport(h, e);
    assert ok;
    return Some(e);
  }

  /** `numerical_equal`: an error for what does not verify, else whether the numerical digests agree. */
  method NumericalEqual(h: Hashes, left: Export, right: Export) returns (equal: Option<bool>)
    ensures equal.Some? <==> && Showable(left.window) && left == ExportOf(h, left.window)
                             && Showable(right.window) && right == ExportOf(h, right.window)
    ensures equal.Some? && (forall m, n :: h.numerical(m) == h.numerical(n) ==> m == n)
            ==> (equal.value <==> Normalized(left.window) == Normalized(right.window))
  {
    var first := VerifyExport(h, left);
    var second := VerifyExport(h, right);
    if !first || !second {
      return None;
    }
    return Some(left.numericalHash == right.numericalHash);
  }

  // ----- Payment owners

  /** Another name for each owner. */
  function Renamed(r: Record, name: nat -> nat): Record {
    r.(intention := if r.intention.Some? then Some(name(r.intention.value)) else None,
       origin := if r.origin.Some? then Some(name(r.origin.value)) else None)
  }

  function RenamedAll(records: seq<Record>, name: nat -> nat): (renamed: seq<Record>)
    ensures |renamed| == |records|
    ensures forall i {:trigger renamed[i]} :: 0 <= i < |records| ==> renamed[i] == Renamed(records[i], name)
  {
    if records == [] then [] else RenamedAll(records[..|records| - 1], name) + [Renamed(records[|records| - 1], name)]
  }

  /** Renaming owners gives a window with the same numerical payload. */
  lemma RenamingIsInvisible(w: Window, name: nat -> nat)
    requires IsWindow(w) && forall owner :: owner != 0 ==> name(owner) != 0
    ensures var renamed := Window(w.metadata, RenamedAll(w.records, name));
      IsWindow(renamed) && (Showable(w) ==> Showable(renamed)) && Normalized(renamed) == Normalized(w)
  {
    var renamed := Window(w.metadata, RenamedAll(w.records, name));
    forall i | 0 <= i < |w.records|
      ensures ValidRecord(renamed.records[i], renamed.metadata) && NormalizedRecord(renamed.records[i]) == NormalizedRecord(w.records[i])
    {
      assert ValidRecord(w.records[i], w.metadata);
    }
    assert NormalizedRecords(renamed.records) == NormalizedRecords(w.records);
  }

  /** Windows with the same numerical payload differ in nothing but the names of owners. */
  lemma SameNumbers(v: Window, w: Window)
    requires Normalized(v) == Normalized(w)
    ensures v.metadata == w.metadata && |v.records| == |w.records|
    ensures forall i :: 0 <= i < |v.records| ==>
              && v.records[i].(intention := None, origin := None) == w.records[i].(intention := None, origin := None)
              && (v.records[i].intention.Some? <==> w.records[i].intention.Some?)
              && (v.records[i].origin.Some? <==> w.records[i].origin.Some?)
  {
    forall i | 0 <= i < |v.records|
      ensures NormalizedRecord(v.records[i]) == NormalizedRecord(w.records[i])
    {
      assert NormalizedRecords(v.records)[i] == NormalizedRecords(w.records)[i];
    }
  }
}
