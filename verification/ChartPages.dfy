/** The strict oracle for a transfer of chart pages (`validate_pages` in scripts/detection_process_package.py): which
    lists of pages are a paging of one well-formed list of records. */
module ChartPages {
  import opened Options
  import opened WireNumbers

  datatype Kind = Monsters | Food | Magic | Mapping | OtherKind(name: string)
  datatype Mode = Live | Historical | OtherMode(name: string)
  datatype Alignment = Aligned | Inconsistent | OtherAlignment(name: string)

  datatype Fact = WallFace(normal: Option<seq<int>>) | Passage | Doorway | Stairs | SecretDoor | TrapPresence | OtherFact(name: string)

  /** What a row shows; `OtherMark` is any mark with other fields. */
  datatype Mark = MonsterMark(name: string, asset: string) | FoodMark | MagicMark | MappingMark(fact: Fact) | OtherMark

  /** `OtherRecord` is any record with other fields. */
  datatype Record =
    | Component(component: string, alignment: Alignment)
    | Row(component: string, position: Option<seq<string>>, mark: Mark)
    | OtherRecord

  /** The request that a transfer answers: its context, branch, base and chart. */
  datatype Identity = Identity(context: string, branch: string, base: string, chart: string)

  /** What all pages of a transfer share. */
  datatype Header = Header(identity: Identity, kind: Kind, mode: Mode, acquiredAt: string, totalComponents: string, totalRecords: string)

  datatype Page = Page(header: Header, start: string, records: seq<Record>, next: Option<string>)

  const PAGE := 512

  // ----- Order of rows

  /** Lexicographic order, a prefix first. */
  predicate AtMost(a: seq<int>, b: seq<int>) {
    a == [] || (b != [] && (a[0] < b[0] || (a[0] == b[0] && AtMost(a[1..], b[1..]))))
  }

  lemma {:induction false} AtMostTransitive(a: seq<int>, b: seq<int>, c: seq<int>)
    requires AtMost(a, b) && AtMost(b, c)
    ensures AtMost(a, c)
  {
    if a != [] && a[0] == b[0] == c[0] {
      AtMostTransitive(a[1..], b[1..], c[1..]);
    }
  }

  lemma {:induction false} AtMostAntisymmetric(a: seq<int>, b: seq<int>)
    requires AtMost(a, b) && AtMost(b, a)
    ensures a == b
  {
    if a != [] {
      AtMostAntisymmetric(a[1..], b[1..]);
      assert a == [a[0]] + a[1..] && b == [b[0]] + b[1..];
    }
  }

  /** The parts of a row's sort key. */
  type Key = seq<seq<int>>

  predicate KeyAtMost(a: Key, b: Key) {
    a == [] || (b != [] && AtMost(a[0], b[0]) && (a[0] == b[0] ==> KeyAtMost(a[1..], b[1..])))
  }

  lemma {:induction false} KeyTransitive(a: Key, b: Key, c: Key)
    requires KeyAtMost(a, b) && KeyAtMost(b, c)
    ensures KeyAtMost(a, c)
  {
    if a != [] {
      AtMostTransitive(a[0], b[0], c[0]);
      if a[0] == c[0] {
        AtMostAntisymmetric(a[0], b[0]);
        KeyTransitive(a[1..], b[1..], c[1..]);
      }
    }
  }

  function Codes(text: string): seq<int> {
    if text == [] then [] else Codes(text[..|text| - 1]) + [text[|text| - 1] as int]
  }

  // ----- Records

  /** The three coordinates of a position. */
  function Coordinates(position: seq<string>): Option<seq<int>> {
    if |position| != 3 then None
    else
      var x, y, z := WireInteger(position[0], true), WireInteger(position[1], true), WireInteger(position[2], true);
      if x.Some? && y.Some? && z.Some? then Some([x.value, y.value, z.value]) else None
  }

  predicate Cardinal(normal: seq<int>) {
    |normal| == 3 && normal in {[1, 0, 0], [-1, 0, 0], [0, 1, 0], [0, -1, 0], [0, 0, 1], [0, 0, -1]}
  }

  predicate ValidFact(fact: Fact, placed: bool) {
    match fact
    case WallFace(normal) => if placed then normal.Some? && Cardinal(normal.value) else normal.None?
    case OtherFact(_) => false
    case _ => true
  }

  predicate ValidMark(kind: Kind, mark: Mark, placed: bool) {
    match kind
    case Monsters => mark.MonsterMark?
    case Food => mark.FoodMark?
    case Magic => mark.MagicMark?
    case Mapping => mark.MappingMark? && ValidFact(mark.fact, placed)
    case OtherKind(_) => false
  }

  predicate ValidComponent(record: Record, ordinal: nat) {
    record.Component? && record.component == Decimal(ordinal) && (record.alignment.Aligned? || record.alignment.Inconsistent?)
  }

  /** The place of a row: its coordinates in an aligned component, none in an inconsistent one. */
  function Place(record: Record, alignment: Alignment): Option<seq<int>>
    requires record.Row?
  {
    if alignment.Aligned? then (if record.position.Some? then Coordinates(record.position.value) else None)
    else if record.position.None? then Some([]) else None
  }

  /** The sort key of a row of a declared component; `None` for a row that is refused. */
  function RowKey(kind: Kind, record: Record, alignments: map<string, Alignment>): Option<Key> {
    if !record.Row? || record.component !in alignments then None
    else
      var alignment, component := alignments[record.component], WireInteger(record.component, false);
      var place := Place(record, alignment);
      if place.None? || component.None? || !ValidMark(kind, record.mark, alignment.Aligned?) then None
      else
        Some([[component.value], place.value,
              if record.mark.MonsterMark? then Codes(record.mark.name) else [],
              if record.mark.MonsterMark? then Codes(record.mark.asset) else []])
  }

  function RowKeys(kind: Kind, rows: seq<Record>, alignments: map<string, Alignment>): (keys: Option<seq<Key>>)
    ensures keys.Some? ==> |keys.value| == |rows|
  {
    if rows == [] then Some([])
    else
      var front, last := RowKeys(kind, rows[..|rows| - 1], alignments), RowKey(kind, rows[|rows| - 1], alignments);
      if front.Some? && last.Some? then Some(front.value + [last.value]) else None
  }

  predicate Ordered(keys: seq<Key>) {
    forall i, j :: 0 <= i < j < |keys| ==> KeyAtMost(keys[i], keys[j])
  }

  /** Comparing each key with the one before it orders them all. */
  lemma OrderedAppend(keys: seq<Key>, key: Key)
    ensures Ordered(keys + [key]) <==> Ordered(keys) && (keys != [] ==> KeyAtMost(keys[|keys| - 1], key))
  {
    var all := keys + [key];
    if Ordered(all) {
      forall i, j | 0 <= i < j < |keys|
        ensures KeyAtMost(keys[i], keys[j])
      {
        assert KeyAtMost(all[i], all[j]);
      }
      assert keys != [] ==> KeyAtMost(all[|keys| - 1], all[|keys|]);
    }
    if Ordered(keys) && keys != [] && KeyAtMost(keys[|keys| - 1], key) {
      forall i | 0 <= i < |keys|
        ensures KeyAtMost(keys[i], key)
      {
        if i < |keys| - 1 {
          KeyTransitive(keys[i], keys[|keys| - 1], key);
        }
      }
    }
  }

  /** Every row has a key, and the keys are in order. */
  predicate ValidRows(kind: Kind, rows: seq<Record>, alignments: map<string, Alignment>) {
    RowKeys(kind, rows, alignments).Some? && Ordered(RowKeys(kind, rows, alignments).value)
  }

  /** The rows up to `i` do as well as all. */
  lemma {:induction false} RowsPrefix(kind: Kind, rows: seq<Record>, alignments: map<string, Alignment>, i: nat)
    requires i <= |rows| && ValidRows(kind, rows, alignments)
    ensures ValidRows(kind, rows[..i], alignments)
    decreases |rows|
  {
    if i < |rows| {
      var front := RowKeys(kind, rows[..|rows| - 1], alignments).value;
      OrderedAppend(front, RowKey(kind, rows[|rows| - 1], alignments).value);
      RowsPrefix(kind, rows[..|rows| - 1], alignments, i);
      assert rows[..|rows| - 1][..i] == rows[..i];
    } else {
      assert rows[..i] == rows;
    }
  }

  /** One more row. */
  lemma NextRow(kind: Kind, rows: seq<Record>, alignments: map<string, Alignment>, i: nat, keys: seq<Key>, key: Option<Key>)
    requires i < |rows| && RowKeys(kind, rows[..i], alignments) == Some(keys) && Ordered(keys)
    requires key == RowKey(kind, rows[i], alignments)
    ensures if key.Some? && (keys != [] ==> KeyAtMost(keys[|keys| - 1], key.value))
            then RowKeys(kind, rows[..i + 1], alignments) == Some(keys + [key.value]) && Ordered(keys + [key.value])
            else !ValidRows(kind, rows, alignments)
  {
    assert rows[..i + 1][..i] == rows[..i];
    if ValidRows(kind, rows, alignments) {
      RowsPrefix(kind, rows, alignments, i + 1);
    }
    if key.Some? {
      OrderedAppend(keys, key.value);
    }
  }

  /** The alignments that the first records declare. */
  function Alignments(records: seq<Record>): map<string, Alignment>
    requires forall i :: 0 <= i < |records| ==> ValidComponent(records[i], i)
  {
    if records == [] then map[]
    else
      var last := |records| - 1;
      assert ValidComponent(records[last], last);
      Alignments(records[..last])[records[last].component := records[last].alignment]
  }

  predicate Declares(records: seq<Record>, components: nat) {
    components <= |records| && forall i :: 0 <= i < components ==> ValidComponent(records[i], i)
  }

  /** The declarations of components 0, 1, ..., then rows of declared components in order; equal rows stay. */
  predicate WellFormed(kind: Kind, components: nat, records: seq<Record>) {
    && Declares(records, components)
    && ValidRows(kind, records[components..], Alignments(records[..components]))
  }

  /** `validate_pages`, the loop over the rows. */
  method CheckRows(kind: Kind, rows: seq<Record>, alignments: map<string, Alignment>) returns (ok: bool)
    ensures ok <==> ValidRows(kind, rows, alignments)
  {
    var previous: Key := [];
    ghost var keys: seq<Key> := [];
    for i := 0 to |rows|
      invariant RowKeys(kind, rows[..i], alignments) == Some(keys) && Ordered(keys)
      invariant i > 0 ==> previous == keys[i - 1]
    {
      var key := RowKey(kind, rows[i], alignments);
      NextRow(kind, rows, alignments, i, keys, key);
      if key.None? || (i > 0 && !KeyAtMost(previous, key.value)) {
        return false;
      }
      previous := key.value;
      keys := keys + [key.value];
    }
    assert rows[..|rows|] == rows;
    return true;
  }

  /** `validate_pages`, the loop over the records. */
  method CheckRecords(kind: Kind, components: nat, records: seq<Record>) returns (ok: bool)
    requires components <= |records| && components <= UNSIGNED_MAX
    ensures ok <==> WellFormed(kind, components, records)
  {
    var alignments: map<string, Alignment> := map[];
    for ordinal := 0 to components
      invariant Declares(records, ordinal) && alignments == Alignments(records[..ordinal])
    {
      var record := records[ordinal];
      if !(record.Component? && WireInteger(record.component, false) == Some(ordinal)
           && (record.alignment.Aligned? || record.alignment.Inconsistent?)) {
        if record.Component? {
          WireIntegerExactly(record.component, ordinal, false);
        }
        return false;
      }
      assert records[..ordinal + 1][..ordinal] == records[..ordinal];
      WireIntegerExactly(record.component, ordinal, false);
      alignments := alignments[record.component := record.alignment];
    }
    ok := CheckRows(kind, records[components..], alignments);
  }

  // ----- Pages

  function Total(header: Header): (total: Option<nat>)
  {
    match WireInteger(header.totalRecords, false)
    case Some(n) => Some(n)
    case None => None
  }

  function Components(header: Header): (components: Option<nat>)
  {
    match WireInteger(header.totalComponents, false)
    case Some(n) => Some(n)
    case None => None
  }

  predicate ValidHeader(header: Header, requested: Identity) {
    && !header.kind.OtherKind? && header.mode == (if header.kind.Monsters? then Live else Historical)
    && header.identity == requested && WireInteger(header.acquiredAt, false).Some?
    && Components(header).Some? && Total(header).Some? && 0 < Components(header).value <= Total(header).value
  }

  function Sum(sizes: seq<nat>): nat {
    if sizes == [] then 0 else sizes[0] + Sum(sizes[1..])
  }

  /** The pages in these sizes of the records that follow the first `count`. */
  function Paging(header: Header, records: seq<Record>, count: nat, sizes: seq<nat>): (pages: seq<Page>)
    requires Sum(sizes) == |records|
    ensures |pages| == |sizes|
    decreases |sizes|
  {
    if sizes == [] then []
    else
      var size, to := sizes[0], count + sizes[0];
      [Page(header, Decimal(count), records[..size], if size < |records| then Some(Decimal(to)) else None)]
      + Paging(header, records[size..], to, sizes[1..])
  }

  /** Page sizes that a transfer of `total` records may have. */
  predicate LegalSizes(sizes: seq<nat>, total: nat) {
    Sum(sizes) == total && forall i :: 0 <= i < |sizes| ==> 1 <= sizes[i] <= PAGE
  }

  function SizesOf(pages: seq<Page>): (sizes: seq<nat>)
    ensures |sizes| == |pages|
  {
    if pages == [] then [] else [|pages[0].records|] + SizesOf(pages[1..])
  }

  function RecordsOf(pages: seq<Page>): seq<Record> {
    if pages == [] then [] else pages[0].records + RecordsOf(pages[1..])
  }

  /** The pages are the records in pages of legal sizes. */
  predicate IsPaged(header: Header, pages: seq<Page>, records: seq<Record>) {
    LegalSizes(SizesOf(pages), |records|) && pages == Paging(header, records, 0, SizesOf(pages))
  }

  /** The pages are a legal paging of one well-formed list of records, as the request asked for. */
  predicate IsTransfer(pages: seq<Page>, requested: Identity, records: seq<Record>) {
    && pages != [] && ValidHeader(pages[0].header, requested)
    && |records| == Total(pages[0].header).value
    && WellFormed(pages[0].header.kind, Components(pages[0].header).value, records)
    && IsPaged(pages[0].header, pages, records)
  }

  predicate PageAt(header: Header, page: Page, count: nat, total: nat, last: bool) {
    var to := count + |page.records|;
    && page.header == header && page.start == Decimal(count) && 1 <= |page.records| <= PAGE
    && to <= total && page.next == (if to < total then Some(Decimal(to)) else None) && (last <==> page.next.None?)
  }

  /** The remaining pages carry on after `count` records and end with the last. */
  predicate CarryOn(header: Header, pages: seq<Page>, count: nat, total: nat) {
    if pages == [] then count == total
    else PageAt(header, pages[0], count, total, |pages| == 1) && CarryOn(header, pages[1..], count + |pages[0].records|, total)
  }

  lemma {:induction false} CarryOnIsPaging(header: Header, pages: seq<Page>, count: nat, total: nat)
    requires CarryOn(header, pages, count, total)
    ensures count + |RecordsOf(pages)| == total && LegalSizes(SizesOf(pages), |RecordsOf(pages)|)
    ensures pages == Paging(header, RecordsOf(pages), count, SizesOf(pages))
    decreases |pages|
  {
    SumSizes(pages);
    if pages != [] {
      var page, rest := pages[0], pages[1..];
      CarryOnIsPaging(header, rest, count + |page.records|, total);
      SizesTail(pages);
      assert RecordsOf(pages)[..|page.records|] == page.records && RecordsOf(pages)[|page.records|..] == RecordsOf(rest);
      assert pages == [page] + rest;
    }
  }

  lemma SizesTail(pages: seq<Page>)
    requires pages != [] && 1 <= |pages[0].records| <= PAGE
    requires forall i :: 0 <= i < |pages[1..]| ==> 1 <= SizesOf(pages[1..])[i] <= PAGE
    ensures SizesOf(pages)[1..] == SizesOf(pages[1..])
    ensures forall i :: 0 <= i < |pages| ==> 1 <= SizesOf(pages)[i] <= PAGE
  {
    forall i | 0 <= i < |pages|
      ensures 1 <= SizesOf(pages)[i] <= PAGE
    {
      if i > 0 {
        assert SizesOf(pages)[i] == SizesOf(pages[1..])[i - 1];
      }
    }
  }

  lemma LegalTail(sizes: seq<nat>, total: nat)
    requires LegalSizes(sizes, total) && sizes != []
    ensures 1 <= sizes[0] <= PAGE && sizes[0] <= total && LegalSizes(sizes[1..], total - sizes[0])
    ensures sizes[1..] == [] <==> sizes[0] == total
  {
    assert forall i :: 0 <= i < |sizes[1..]| ==> sizes[1..][i] == sizes[i + 1];
    if sizes[1..] != [] {
      assert sizes[1..][0] >= 1;
    }
  }

  lemma PagingTail(header: Header, records: seq<Record>, count: nat, sizes: seq<nat>)
    requires LegalSizes(sizes, |records|) && sizes != []
    ensures var size, pages := sizes[0], Paging(header, records, count, sizes);
      && 1 <= size <= PAGE && size <= |records| && LegalSizes(sizes[1..], |records[size..]|)
      && pages != [] && pages[1..] == Paging(header, records[size..], count + size, sizes[1..])
      && pages[0] == Page(header, Decimal(count), records[..size], if size < |records| then Some(Decimal(count + size)) else None)
      && (sizes[1..] == [] <==> size == |records|)
  {
    LegalTail(sizes, |records|);
  }

  /** The pages of a legal paging hold the records in these sizes. */
  lemma {:induction false} PagingHolds(header: Header, records: seq<Record>, count: nat, sizes: seq<nat>)
    requires LegalSizes(sizes, |records|)
    ensures RecordsOf(Paging(header, records, count, sizes)) == records
    decreases |sizes|
  {
    if sizes != [] {
      LegalTail(sizes, |records|);
      PagingHolds(header, records[sizes[0]..], count + sizes[0], sizes[1..]);
      HoldsMore(header, records, count, sizes);
    }
  }

  lemma HoldsMore(header: Header, records: seq<Record>, count: nat, sizes: seq<nat>)
    requires LegalSizes(sizes, |records|) && sizes != []
    requires LegalSizes(sizes[1..], |records[sizes[0]..]|)
    requires RecordsOf(Paging(header, records[sizes[0]..], count + sizes[0], sizes[1..])) == records[sizes[0]..]
    ensures RecordsOf(Paging(header, records, count, sizes)) == records
  {
    PagingTail(header, records, count, sizes);
    assert records == records[..sizes[0]] + records[sizes[0]..];
  }

  lemma {:induction false} PagingSizes(header: Header, records: seq<Record>, count: nat, sizes: seq<nat>)
    requires LegalSizes(sizes, |records|)
    ensures SizesOf(Paging(header, records, count, sizes)) == sizes
    decreases |sizes|
  {
    if sizes != [] {
      PagingTail(header, records, count, sizes);
      PagingSizes(header, records[sizes[0]..], count + sizes[0], sizes[1..]);
      assert sizes == [sizes[0]] + sizes[1..];
    }
  }

  lemma FirstPageAt(header: Header, records: seq<Record>, count: nat, sizes: seq<nat>)
    requires LegalSizes(sizes, |records|) && sizes != []
    ensures PageAt(header, Paging(header, records, count, sizes)[0], count, count + |records|, |sizes| == 1)
  {
    PagingTail(header, records, count, sizes);
  }

  /** Any legal paging carries on to the end. */
  lemma {:induction false} PagingGoesOn(header: Header, records: seq<Record>, count: nat, sizes: seq<nat>, total: nat)
    requires LegalSizes(sizes, |records|) && total == count + |records|
    ensures CarryOn(header, Paging(header, records, count, sizes), count, total)
    decreases |sizes|
  {
    if sizes == [] {
      NothingLeft(header, records, count, total);
    } else {
      var pages := Paging(header, records, count, sizes);
      PagingTail(header, records, count, sizes);
      PagingGoesOn(header, records[sizes[0]..], count + sizes[0], sizes[1..], total);
      FirstPageAt(header, records, count, sizes);
      TailGoesOn(header, pages, count, sizes[0], total);
    }
  }

  lemma NothingLeft(header: Header, records: seq<Record>, count: nat, total: nat)
    requires |records| == 0 && total == count
    ensures CarryOn(header, Paging(header, records, count, []), count, total)
  {
  }

  lemma TailGoesOn(header: Header, pages: seq<Page>, count: nat, size: nat, total: nat)
    requires pages != [] && PageAt(header, pages[0], count, total, |pages| == 1) && |pages[0].records| == size
    requires CarryOn(header, pages[1..], count + size, total)
    ensures CarryOn(header, pages, count, total)
  {
  }

  lemma PagingCarriesOn(header: Header, records: seq<Record>, count: nat, sizes: seq<nat>)
    requires LegalSizes(sizes, |records|)
    ensures var pages := Paging(header, records, count, sizes);
      && CarryOn(header, pages, count, count + |records|) && RecordsOf(pages) == records && SizesOf(pages) == sizes
      && |pages| == |sizes|
  {
    PagingHolds(header, records, count, sizes);
    PagingSizes(header, records, count, sizes);
    PagingGoesOn(header, records, count, sizes, count + |records|);
  }

  lemma {:induction false} SumSizes(pages: seq<Page>)
    ensures Sum(SizesOf(pages)) == |RecordsOf(pages)|
    decreases |pages|
  {
    if pages != [] {
      SumSizes(pages[1..]);
      assert SizesOf(pages)[1..] == SizesOf(pages[1..]);
    }
  }

  lemma PagedExactly(header: Header, pages: seq<Page>, records: seq<Record>)
    ensures IsPaged(header, pages, records) <==> CarryOn(header, pages, 0, |records|) && records == RecordsOf(pages)
  {
    if IsPaged(header, pages, records) {
      PagingCarriesOn(header, records, 0, SizesOf(pages));
    }
    if CarryOn(header, pages, 0, |records|) {
      CarryOnIsPaging(header, pages, 0, |records|);
    }
  }

  /** `validate_pages`: the records of the transfer that the pages are, and an error when they are none. */
  method ValidatePages(pages: seq<Page>, requested: Identity) returns (records: Option<seq<Record>>)
    ensures records.Some? ==> IsTransfer(pages, requested, records.value)
    ensures records.None? ==> forall r :: !IsTransfer(pages, requested, r)
  {
    if pages == [] || !ValidHeader(pages[0].header, requested) {
      return None;
    }
    var header := pages[0].header;
    var total := Total(header).value;
    forall r
      ensures IsPaged(header, pages, r) <==> CarryOn(header, pages, 0, |r|) && r == RecordsOf(pages)
    {
      PagedExactly(header, pages, r);
    }
    var all := ReadPages(header, pages, total);
    if all.None? {
      return None;
    }
    CarryOnIsPaging(header, pages, 0, total);
    var ok := CheckRecords(header.kind, Components(header).value, all.value);
    return if ok then all else None;
  }

  /** The checks of one page after `count` records. */
  method CheckPage(header: Header, page: Page, count: nat, total: nat, last: bool) returns (ok: bool)
    requires total <= UNSIGNED_MAX
    ensures ok <==> PageAt(header, page, count, total, last)
  {
    WireIntegerExactly(page.start, count, false);
    if page.header != header || WireInteger(page.start, false) != Some(count) {
      return false;
    }
    if !(1 <= |page.records| <= PAGE) {
      return false;
    }
    var read := count + |page.records|;
    if page.next != (if read < total then Some(Decimal(read)) else None) || read > total {
      return false;
    }
    return last == page.next.None?;
  }

  /** The loop over the pages. */
  method ReadPages(header: Header, pages: seq<Page>, total: nat) returns (records: Option<seq<Record>>)
    requires total <= UNSIGNED_MAX && pages != []
    ensures records.Some? <==> CarryOn(header, pages, 0, total)
    ensures records.Some? ==> records.value == RecordsOf(pages)
  {
    var all: seq<Record> := [];
    ghost var goal := CarryOn(header, pages, 0, total);
    assert pages[0..] == pages;
    for index := 0 to |pages|
      invariant goal == CarryOn(header, pages[index..], |all|, total)
      invariant all + RecordsOf(pages[index..]) == RecordsOf(pages)
    {
      var page := pages[index];
      assert pages[index..][1..] == pages[index + 1..];
      var ok := CheckPage(header, page, |all|, total, index + 1 == |pages|);
      if !ok {
        return None;
      }
      assert all + RecordsOf(pages[index..]) == (all + page.records) + RecordsOf(pages[index + 1..]);
      all := all + page.records;
    }
    if |all| != total {
      return None;
    }
    assert all + [] == all;
    return Some(all);
  }

  // ----- Re-paging

  /** The records of an accepted transfer are its pages' records, and in any legal page sizes they are accepted again and
      returned unchanged. */
  lemma Repaged(pages: seq<Page>, requested: Identity, records: seq<Record>, sizes: seq<nat>)
    requires IsTransfer(pages, requested, records) && LegalSizes(sizes, |records|)
    ensures records == RecordsOf(pages)
    ensures var others := Paging(pages[0].header, records, 0, sizes);
      IsTransfer(others, requested, records) && forall r :: IsTransfer(others, requested, r) ==> r == records
  {
    var header := pages[0].header;
    PagingCarriesOn(header, records, 0, SizesOf(pages));
    PagingCarriesOn(header, records, 0, sizes);
    var others := Paging(header, records, 0, sizes);
    assert sizes != [];
    assert others[0].header == header;
    forall r | IsTransfer(others, requested, r)
      ensures r == records
    {
      PagingCarriesOn(header, r, 0, SizesOf(others));
    }
  }

  // ----- What a paging and an order are

  /** The page of `size` records from the one at `from` on, of a transfer of which `count` records were sent before. */
  function PageOf(header: Header, records: seq<Record>, count: nat, from: nat, size: nat): Option<Page> {
    if from + size > |records| then None
    else
      Some(Page(header, Decimal(count + from), records[from..from + size],
                if from + size < |records| then Some(Decimal(count + from + size)) else None))
  }

  /** A later page, counted from the first page's end or from its start. */
  lemma PageLater(header: Header, records: seq<Record>, count: nat, sizes: seq<nat>, k: nat)
    requires 0 < k < |sizes| && sizes[0] <= |records|
    ensures PageOf(header, records[sizes[0]..], count + sizes[0], Sum(sizes[1..][..k - 1]), sizes[1..][k - 1])
         == PageOf(header, records, count, Sum(sizes[..k]), sizes[k])
  {
    SumFirst(sizes, k);
    SlicePage(header, records, count, Sum(sizes[1..][..k - 1]), sizes[k], sizes[0]);
  }

  lemma SlicePage(header: Header, records: seq<Record>, count: nat, from: nat, size: nat, first: nat)
    requires first <= |records|
    ensures PageOf(header, records[first..], count + first, from, size) == PageOf(header, records, count, first + from, size)
  {
    assert count + first + from == count + (first + from);
    if first + from + size <= |records| {
      assert records[first..][from..from + size] == records[first + from..first + from + size];
    }
  }

  lemma SumFirst(sizes: seq<nat>, k: nat)
    requires 0 < k <= |sizes|
    ensures Sum(sizes[..k]) == sizes[0] + Sum(sizes[1..][..k - 1])
  {
    assert sizes[..k][0] == sizes[0] && sizes[..k][1..] == sizes[1..][..k - 1];
  }

  lemma FirstPage(header: Header, records: seq<Record>, count: nat, sizes: seq<nat>)
    requires LegalSizes(sizes, |records|) && sizes != []
    ensures Some(Paging(header, records, count, sizes)[0]) == PageOf(header, records, count, Sum(sizes[..0]), sizes[0])
  {
    assert sizes[..0] == [];
    assert records[0..sizes[0]] == records[..sizes[0]];
  }

  lemma LaterPage(header: Header, records: seq<Record>, count: nat, sizes: seq<nat>, k: nat)
    requires LegalSizes(sizes, |records|) && 0 < k < |sizes|
    ensures sizes[0] <= |records| && LegalSizes(sizes[1..], |records[sizes[0]..]|)
    ensures Paging(header, records, count, sizes)[k] == Paging(header, records[sizes[0]..], count + sizes[0], sizes[1..])[k - 1]
  {
    PagingTail(header, records, count, sizes);
    assert Paging(header, records, count, sizes)[k] == Paging(header, records, count, sizes)[1..][k - 1];
  }

  lemma LaterAt(header: Header, records: seq<Record>, count: nat, sizes: seq<nat>, k: nat)
    requires LegalSizes(sizes, |records|) && 0 < k < |sizes|
    requires sizes[0] <= |records| && LegalSizes(sizes[1..], |records[sizes[0]..]|)
    requires Some(Paging(header, records[sizes[0]..], count + sizes[0], sizes[1..])[k - 1])
          == PageOf(header, records[sizes[0]..], count + sizes[0], Sum(sizes[1..][..k - 1]), sizes[1..][k - 1])
    ensures Some(Paging(header, records, count, sizes)[k]) == PageOf(header, records, count, Sum(sizes[..k]), sizes[k])
  {
    LaterPage(header, records, count, sizes, k);
    PageLater(header, records, count, sizes, k);
  }

  /** Page `k` starts at the number of records before it, holds the next ones, and names where to go on, if there are more. */
  lemma {:induction false} PagingAt(header: Header, records: seq<Record>, count: nat, sizes: seq<nat>, k: nat)
    requires LegalSizes(sizes, |records|) && k < |sizes|
    ensures Some(Paging(header, records, count, sizes)[k]) == PageOf(header, records, count, Sum(sizes[..k]), sizes[k])
    decreases k
  {
    if k > 0 {
      LegalTail(sizes, |records|);
      PagingAt(header, records[sizes[0]..], count + sizes[0], sizes[1..], k - 1);
      LaterAt(header, records, count, sizes, k);
    } else {
      FirstPage(header, records, count, sizes);
    }
  }

  /** A prefix, or less at the first difference. */
  ghost predicate IsNoGreater(a: seq<int>, b: seq<int>) {
    a <= b || IsLess(a, b)
  }

  ghost predicate IsLess(a: seq<int>, b: seq<int>) {
    exists k :: 0 <= k < |a| && k < |b| && a[..k] == b[..k] && a[k] < b[k]
  }

  lemma LessTail(a: seq<int>, b: seq<int>)
    requires a != [] && b != []
    ensures IsLess(a, b) <==> a[0] < b[0] || (a[0] == b[0] && IsLess(a[1..], b[1..]))
  {
    if k :| 0 <= k < |a| && k < |b| && a[..k] == b[..k] && a[k] < b[k] {
      if k > 0 {
        assert a[..k][0] == b[..k][0];
        assert a[1..][..k - 1] == a[..k][1..] == b[..k][1..] == b[1..][..k - 1] && a[1..][k - 1] < b[1..][k - 1];
      }
    }
    if a[0] < b[0] {
      assert a[..0] == b[..0];
    }
    if a[0] == b[0] && IsLess(a[1..], b[1..]) {
      var k :| 0 <= k < |a[1..]| && k < |b[1..]| && a[1..][..k] == b[1..][..k] && a[1..][k] < b[1..][k];
      assert a[..k + 1] == [a[0]] + a[1..][..k] == [b[0]] + b[1..][..k] == b[..k + 1];
    }
  }

  lemma {:induction false} AtMostExactly(a: seq<int>, b: seq<int>)
    ensures AtMost(a, b) <==> IsNoGreater(a, b)
    decreases |a|
  {
    if a != [] && b != [] {
      AtMostExactly(a[1..], b[1..]);
      LessTail(a, b);
      assert a == [a[0]] + a[1..] && b == [b[0]] + b[1..];
    }
  }

  /** Rows are ordered by the number of their component, then by their coordinates, then by the names they show. */
  lemma RowOrder(kind: Kind, first: Record, second: Record, alignments: map<string, Alignment>)
    requires RowKey(kind, first, alignments).Some? && RowKey(kind, second, alignments).Some?
    requires KeyAtMost(RowKey(kind, first, alignments).value, RowKey(kind, second, alignments).value)
    ensures var c, d := WireInteger(first.component, false), WireInteger(second.component, false);
      && c.Some? && d.Some? && c.value <= d.value
      && (c == d ==>
            var a, b := Place(first, alignments[first.component]), Place(second, alignments[second.component]);
            && a.Some? && b.Some? && IsNoGreater(a.value, b.value)
            && (a == b && first.mark.MonsterMark? && second.mark.MonsterMark? ==>
                  && IsNoGreater(Codes(first.mark.name), Codes(second.mark.name))
                  && (first.mark.name == second.mark.name ==> IsNoGreater(Codes(first.mark.asset), Codes(second.mark.asset)))))
  {
    var k, l := RowKey(kind, first, alignments).value, RowKey(kind, second, alignments).value;
    assert AtMost(k[0], l[0]);
    if k[0] == l[0] {
      assert KeyAtMost(k[1..], l[1..]) && AtMost(k[1], l[1]);
      AtMostExactly(k[1], l[1]);
      if k[1] == l[1] {
        assert KeyAtMost(k[1..][1..], l[1..][1..]) && AtMost(k[2], l[2]);
        AtMostExactly(k[2], l[2]);
        if k[2] == l[2] {
          assert KeyAtMost(k[1..][1..][1..], l[1..][1..][1..]) && AtMost(k[3], l[3]);
          AtMostExactly(k[3], l[3]);
        }
      }
    }
  }

  /** A row belongs to a declared component. In an aligned one it has three coordinates of 64 signed bits, in another none. */
  lemma RowMeans(kind: Kind, record: Record, alignments: map<string, Alignment>)
    requires RowKey(kind, record, alignments).Some?
    ensures record.Row? && record.component in alignments
    ensures var position := record.position;
      if alignments[record.component].Aligned? then
        && position.Some? && |position.value| == 3
        && WireInteger(position.value[0], true).Some? && WireInteger(position.value[1], true).Some?
        && WireInteger(position.value[2], true).Some?
      else position.None?
  {
  }

  lemma MarkMeans(kind: Kind, record: Record, alignments: map<string, Alignment>)
    requires RowKey(kind, record, alignments).Some?
    ensures match kind
      case Monsters => record.mark.MonsterMark?
      case Food => record.mark == FoodMark
      case Magic => record.mark == MagicMark
      case Mapping => record.mark.MappingMark? && !record.mark.fact.OtherFact?
      case OtherKind(_) => false
    ensures record.mark.MappingMark? && record.mark.fact.WallFace? ==>
      var normal := record.mark.fact.normal;
      if alignments[record.component].Aligned? then normal.Some? && IsUnit(normal.value) else normal.None?
  {
    if record.mark.MappingMark? && record.mark.fact.WallFace? && record.mark.fact.normal.Some? {
      CardinalExactly(record.mark.fact.normal.value);
    }
  }

  predicate IsUnit(normal: seq<int>) {
    |normal| == 3 && normal[0] * normal[0] + normal[1] * normal[1] + normal[2] * normal[2] == 1
  }

  /** Normals along an axis are the vectors of whole numbers of length one. */
  lemma CardinalExactly(normal: seq<int>)
    ensures Cardinal(normal) <==> IsUnit(normal)
  {
    if |normal| == 3 {
      var x, y, z := normal[0], normal[1], normal[2];
      Square(x);
      Square(y);
      Square(z);
      assert normal == [x, y, z];
    }
  }

  lemma Square(x: int)
    ensures x * x >= 0 && (x * x <= 1 <==> x in {-1, 0, 1})
  {
    if x > 1 {
      assert x * x > x;
    } else if x < -1 {
      assert x * x > -x;
    }
  }
}
