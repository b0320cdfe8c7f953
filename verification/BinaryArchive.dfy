/** The exact archive of executables of scripts/ci_binary_artifact.py: its writer and its strict reader. */
module BinaryArchive {
  // Header bytes and digests are parameters; the size arithmetic between writer and reader is not.

  import opened Options

  type Byte = b: int | 0 <= b < 256 witness 0
  type Bytes = seq<Byte>

  /** The ustar header block of a member and the digest of its contents. */
  datatype Format = Format(header: (string, nat) -> Bytes, digest: Bytes -> Bytes)

  /** What the manifest says of one executable; the rows come in the order of their names. */
  datatype Row = Row(path: string, size: nat, digest: Bytes)

  const HEADER := 512
  const RECORD := 10240
  const BLOCK := 1024 * 1024
  const MAX_EXECUTABLE := 256 * 1024 * 1024
  const MAX_ARCHIVE := 1024 * 1024 * 1024

  ghost predicate Valid(f: Format) {
    forall path, size :: |f.header(path, size)| == HEADER
  }

  /** No two contents share a digest. */
  ghost predicate CollisionFree(f: Format) {
    forall a, b :: f.digest(a) == f.digest(b) ==> a == b
  }

  // ----- The encoding

  function Zeros(n: nat): (zeros: Bytes)
    ensures |zeros| == n && forall i {:trigger zeros[i]} :: 0 <= i < n ==> zeros[i] == 0
  {
    seq(n, _ => 0)
  }

  function Padding(size: nat): nat {
    (-(size as int)) % HEADER
  }

  function Tail(position: nat): nat {
    1024 + (-((position + 1024) as int)) % RECORD
  }

  function Member(f: Format, row: Row, content: Bytes): Bytes {
    f.header(row.path, row.size) + content + Zeros(Padding(row.size))
  }

  function Body(f: Format, rows: seq<Row>, contents: seq<Bytes>): Bytes
    requires |rows| == |contents|
  {
    if rows == [] then []
    else Body(f, rows[..|rows| - 1], contents[..|rows| - 1]) + Member(f, rows[|rows| - 1], contents[|rows| - 1])
  }

  function Encode(f: Format, rows: seq<Row>, contents: seq<Bytes>): Bytes
    requires |rows| == |contents|
  {
    var body := Body(f, rows, contents);
    body + Zeros(Tail(|body|))
  }

  predicate Sized(rows: seq<Row>, contents: seq<Bytes>) {
    |rows| == |contents| && forall i :: 0 <= i < |rows| ==> |contents[i]| == rows[i].size
  }

  /** The contents that the manifest declares. */
  predicate Declared(f: Format, rows: seq<Row>, contents: seq<Bytes>) {
    Sized(rows, contents) && forall i :: 0 <= i < |rows| ==> f.digest(contents[i]) == rows[i].digest
  }

  /** The bytes of the members, as the check before writing computes them. */
  function MemberBytes(rows: seq<Row>): nat {
    if rows == [] then 0
    else MemberBytes(rows[..|rows| - 1]) + HEADER + rows[|rows| - 1].size + Padding(rows[|rows| - 1].size)
  }

  /** The bounds on each file: none is empty or too large. */
  predicate AreExecutables(rows: seq<Row>) {
    forall i :: 0 <= i < |rows| ==> 0 < rows[i].size <= MAX_EXECUTABLE
  }

  // ----- Where the members are

  /** The padding of a member ends at the next multiple of a block. */
  lemma PaddingExactly(size: nat)
    ensures Padding(size) < 512 && (size + Padding(size)) % 512 == 0
  {
  }

  /** Member `i` of a tar archive: its header starts at `at`, its contents follow, and the next block boundary is `next`. */
  ghost predicate IsMemberAt(f: Format, rows: seq<Row>, contents: seq<Bytes>, archive: Bytes, i: nat, at: nat, next: nat)
    requires i < |rows| == |contents|
  {
    && at % 512 == 0 && at + 512 + |contents[i]| <= next <= |archive|
    && archive[at..at + 512] == f.header(rows[i].path, rows[i].size)
    && archive[at + 512..at + 512 + |contents[i]|] == contents[i]
    && next % 512 == 0 && next < at + 512 + |contents[i]| + 512
    && forall k :: at + 512 + |contents[i]| <= k < next ==> archive[k] == 0
  }

  /** The members follow each other from the start, each at the least block boundary after the one before it. */
  ghost predicate IsTar(f: Format, rows: seq<Row>, contents: seq<Bytes>, archive: Bytes, starts: seq<nat>) {
    && |rows| == |contents| && |starts| == |rows| + 1 && starts[0] == 0
    && (forall i :: 0 <= i < |rows| ==> IsMemberAt(f, rows, contents, archive, i, starts[i], starts[i + 1]))
    && starts[|rows|] <= |archive|
    && forall k :: starts[|rows|] <= k < |archive| ==> archive[k] == 0
  }

  ghost function Starts(rows: seq<Row>): (starts: seq<nat>)
    ensures |starts| == |rows| + 1 && forall i {:trigger starts[i]} :: 0 <= i <= |rows| ==> starts[i] == MemberBytes(rows[..i])
  {
    seq(|rows| + 1, i requires 0 <= i <= |rows| => MemberBytes(rows[..i]))
  }

  /** An archive is its members one after the other and zeros, at least two blocks of them, up to a whole record. */
  lemma EncodedIsTar(f: Format, rows: seq<Row>, contents: seq<Bytes>)
    requires Valid(f) && Sized(rows, contents)
    ensures var archive := Encode(f, rows, contents);
      && IsTar(f, rows, contents, archive, Starts(rows))
      && Starts(rows)[|rows|] + 1024 <= |archive| < Starts(rows)[|rows|] + 1024 + 10240 && |archive| % 10240 == 0
  {
    var archive, body := Encode(f, rows, contents), Body(f, rows, contents);
    BodyLength(f, rows, contents);
    TailRounds(|body|);
    assert rows[..|rows|] == rows && rows[..0] == [];
    forall i | 0 <= i < |rows|
      ensures IsMemberAt(f, rows, contents, archive, i, Starts(rows)[i], Starts(rows)[i + 1])
    {
      EncodedMemberAt(f, rows, contents, i);
    }
    assert archive[|body|..] == Zeros(Tail(|body|));
    forall k | |body| <= k < |archive|
      ensures archive[k] == 0
    {
      assert archive[k] == archive[|body|..][k - |body|];
    }
  }

  lemma EncodedMemberAt(f: Format, rows: seq<Row>, contents: seq<Bytes>, i: nat)
    requires Valid(f) && Sized(rows, contents) && i < |rows|
    ensures IsMemberAt(f, rows, contents, Encode(f, rows, contents), i, MemberBytes(rows[..i]), MemberBytes(rows[..i + 1]))
  {
    var archive, at, size := Encode(f, rows, contents), MemberBytes(rows[..i]), rows[i].size;
    EncodedMember(f, rows, contents, i);
    MemberBytesSplit(rows, i);
    MembersAligned(rows[..i]);
    MembersAligned(rows[..i + 1]);
    PaddingExactly(size);
    MemberParts(f, rows[i], contents[i], archive[at..]);
    var rest := archive[at..];
    assert rest[..512] == archive[at..at + 512] && rest[512..512 + size] == archive[at + 512..at + 512 + size];
    forall k | at + 512 + size <= k < at + 512 + size + Padding(size)
      ensures archive[k] == 0
    {
      assert archive[k] == rest[512 + size..512 + size + Padding(size)][k - at - 512 - size];
    }
  }

  lemma BoundaryUnique(from: nat, a: nat, b: nat)
    requires a % 512 == 0 && b % 512 == 0 && from <= a < from + 512 && from <= b < from + 512
    ensures a == b
  {
  }

  /** The members' places follow from their sizes. */
  lemma {:induction false} StartsUnique(f: Format, rows: seq<Row>, contents: seq<Bytes>, archive: Bytes, starts: seq<nat>, i: nat)
    requires Sized(rows, contents) && IsTar(f, rows, contents, archive, starts) && i <= |rows|
    ensures starts[i] == MemberBytes(rows[..i])
    decreases i
  {
    if i > 0 {
      StartsUnique(f, rows, contents, archive, starts, i - 1);
      MemberBytesSplit(rows, i - 1);
      assert IsMemberAt(f, rows, contents, archive, i - 1, starts[i - 1], starts[i]);
      var end := starts[i - 1] + 512 + rows[i - 1].size;
      PaddingExactly(rows[i - 1].size);
      BoundaryUnique(end, starts[i], end + Padding(rows[i - 1].size));
    } else {
      assert rows[..0] == [];
    }
  }

  lemma {:induction false} WhichMember(starts: seq<nat>, n: nat, k: nat) returns (i: nat)
    requires n < |starts| && starts[0] <= k < starts[n]
    ensures i < n && starts[i] <= k < starts[i + 1]
    decreases n
  {
    if starts[n - 1] <= k {
      i := n - 1;
    } else {
      i := WhichMember(starts, n - 1, k);
    }
  }

  lemma SameMember(f: Format, rows: seq<Row>, contents: seq<Bytes>, a: Bytes, b: Bytes, i: nat, at: nat, next: nat, k: nat)
    requires i < |rows| == |contents| && at <= k < next
    requires IsMemberAt(f, rows, contents, a, i, at, next) && IsMemberAt(f, rows, contents, b, i, at, next)
    ensures a[k] == b[k]
  {
    var from := at + 512;
    if k < from {
      assert a[k] == a[at..from][k - at] && b[k] == b[at..from][k - at];
    } else if k < from + |contents[i]| {
      assert a[k] == a[from..from + |contents[i]|][k - from] && b[k] == b[from..from + |contents[i]|][k - from];
    }
  }

  /** An archive with its members in these places, zeros after them and the right length is the encoding. */
  lemma TarIsEncoded(f: Format, rows: seq<Row>, contents: seq<Bytes>, archive: Bytes, starts: seq<nat>)
    requires Valid(f) && Sized(rows, contents) && IsTar(f, rows, contents, archive, starts)
    requires starts[|rows|] + 1024 <= |archive| < starts[|rows|] + 1024 + 10240 && |archive| % 10240 == 0
    ensures archive == Encode(f, rows, contents)
  {
    var other := Encode(f, rows, contents);
    EncodedIsTar(f, rows, contents);
    forall i | 0 <= i <= |rows|
      ensures starts[i] == Starts(rows)[i]
    {
      StartsUnique(f, rows, contents, archive, starts, i);
    }
    assert |archive| == |other|;
    forall k | 0 <= k < |archive|
      ensures archive[k] == other[k]
    {
      if k < starts[|rows|] {
        var i := WhichMember(starts, |rows|, k);
        assert IsMemberAt(f, rows, contents, other, i, Starts(rows)[i], Starts(rows)[i + 1]);
        SameMember(f, rows, contents, archive, other, i, starts[i], starts[i + 1], k);
      }
    }
  }

  /** A tar archive of whole records, with the least number of zeros at its end. */
  ghost predicate IsArchive(f: Format, rows: seq<Row>, contents: seq<Bytes>, archive: Bytes) {
    exists starts :: IsTar(f, rows, contents, archive, starts)
      && starts[|rows|] + 1024 <= |archive| < starts[|rows|] + 1024 + 10240 && |archive| % 10240 == 0
  }

  /** The encoding is that archive, and the only one. */
  lemma EncodedExactly(f: Format, rows: seq<Row>, contents: seq<Bytes>, archive: Bytes)
    requires Valid(f) && Sized(rows, contents)
    ensures IsArchive(f, rows, contents, archive) <==> archive == Encode(f, rows, contents)
  {
    EncodedIsTar(f, rows, contents);
    if IsArchive(f, rows, contents, archive) {
      var starts :| IsTar(f, rows, contents, archive, starts)
        && starts[|rows|] + 1024 <= |archive| < starts[|rows|] + 1024 + 10240 && |archive| % 10240 == 0;
      TarIsEncoded(f, rows, contents, archive, starts);
    }
  }

  // ----- Sizes

  lemma {:induction false} BodyLength(f: Format, rows: seq<Row>, contents: seq<Bytes>)
    requires Valid(f) && Sized(rows, contents)
    ensures |Body(f, rows, contents)| == MemberBytes(rows)
    decreases |rows|
  {
    if rows != [] {
      BodyLength(f, rows[..|rows| - 1], contents[..|rows| - 1]);
    }
  }

  /** Members fill whole header blocks. */
  lemma {:induction false} MembersAligned(rows: seq<Row>)
    ensures MemberBytes(rows) % HEADER == 0
    decreases |rows|
  {
    if rows != [] {
      MembersAligned(rows[..|rows| - 1]);
      var before, size := MemberBytes(rows[..|rows| - 1]), rows[|rows| - 1].size;
      assert (size + Padding(size)) % HEADER == 0;
      assert (before + HEADER + (size + Padding(size))) % HEADER == 0;
    }
  }

  lemma TailRounds(position: nat)
    ensures (position + Tail(position)) % RECORD == 0 && 1024 <= Tail(position) < 1024 + RECORD
  {
  }

  /** Every archive fills whole records. */
  lemma WholeRecords(f: Format, rows: seq<Row>, contents: seq<Bytes>)
    requires |rows| == |contents|
    ensures |Encode(f, rows, contents)| % RECORD == 0
  {
    TailRounds(|Body(f, rows, contents)|);
  }

  /** What passes the size check before writing stays within the bound: the bound itself leaves room for the record. */
  lemma SizeCheckSuffices(f: Format, rows: seq<Row>, contents: seq<Bytes>)
    requires Valid(f) && Sized(rows, contents) && MemberBytes(rows) + RECORD <= MAX_ARCHIVE
    ensures |Encode(f, rows, contents)| <= MAX_ARCHIVE
  {
    BodyLength(f, rows, contents);
    var n := MemberBytes(rows);
    TailRounds(n);
    var records := (n + Tail(n)) / RECORD;
    assert n + Tail(n) == records * RECORD;
    assert n + Tail(n) < 104858 * RECORD;
  }

  /** The size check allows one record for the end of an archive. The zeros there take more exactly when the members end
      one block before a record does, and then one block more. */
  lemma TailExceedsAllowance(f: Format, rows: seq<Row>, contents: seq<Bytes>)
    requires Valid(f) && Sized(rows, contents)
    ensures |Encode(f, rows, contents)| > MemberBytes(rows) + RECORD <==> MemberBytes(rows) % RECORD == RECORD - HEADER
    ensures |Encode(f, rows, contents)| > MemberBytes(rows) + RECORD ==> |Encode(f, rows, contents)| == MemberBytes(rows) + RECORD + HEADER
  {
    BodyLength(f, rows, contents);
    MembersAligned(rows);
    TailAligned(MemberBytes(rows));
  }

  lemma TailAligned(position: nat)
    requires position % HEADER == 0
    ensures Tail(position) > RECORD <==> position % RECORD == RECORD - HEADER
    ensures Tail(position) > RECORD ==> Tail(position) == RECORD + HEADER
  {
  }

  /** Six executables of which one fills eight blocks and the others one each have such an archive: together with the
      headers their members take nineteen blocks, and `package` accepts their sizes. */
  lemma SomeTailExceeds(f: Format, rows: seq<Row>, contents: seq<Bytes>)
    requires Valid(f) && Declared(f, rows, contents) && |rows| == 6
    requires rows[0].size == 8 * HEADER && forall i :: 1 <= i < 6 ==> rows[i].size == HEADER
    ensures AreExecutables(rows) && MemberBytes(rows) == 19 * HEADER && MemberBytes(rows) + RECORD <= MAX_ARCHIVE
    ensures |Encode(f, rows, contents)| > MemberBytes(rows) + RECORD
  {
    assert rows[..1] + rows[1..] == rows && rows[..1][..0] == [];
    assert MemberBytes(rows[..1]) == 9 * HEADER;
    for i := 1 to 6
      invariant MemberBytes(rows[..i]) == 7 * HEADER + 2 * i * HEADER
    {
      MemberBytesSplit(rows, i);
    }
    assert rows[..6] == rows;
    TailExceedsAllowance(f, rows, contents);
  }

  // ----- Streams

  class Source {
    const data: Bytes
    var position: nat

    constructor (data: Bytes)
      ensures this.data == data && position == 0
    {
      this.data, position := data, 0;
    }

    predicate Valid()
      reads this
    {
      position <= |data|
    }

    /** At most `count` bytes; fewer only at the end. */
    method Read(count: nat) returns (block: Bytes)
      requires Valid()
      modifies this
      ensures Valid() && position == old(position) + |block|
      ensures |block| == if old(position) + count <= |data| then count else |data| - old(position)
      ensures block == data[old(position)..position]
    {
      var end := if position + count <= |data| then position + count else |data|;
      block := data[position..end];
      position := end;
    }
  }

  class Sink {
    var written: Bytes

    constructor ()
      ensures written == []
    {
      written := [];
    }

    method Write(block: Bytes)
      modifies this
      ensures written == old(written) + block
    {
      written := written + block;
    }
  }

  /** Reads exactly `size` bytes in blocks, or fails at the end of the source. */
  method ReadBlocks(source: Source, size: nat) returns (content: Option<Bytes>)
    requires source.Valid()
    modifies source
    ensures source.Valid()
    ensures content.Some? <==> old(source.position) + size <= |source.data|
    ensures content.Some? ==> source.position == old(source.position) + size
    ensures content.Some? ==> content.value == source.data[old(source.position)..source.position]
  {
    var remaining, read: Bytes := size, [];
    while remaining > 0
      invariant source.Valid() && 0 <= remaining == size - |read| && source.position == old(source.position) + |read|
      invariant read == source.data[old(source.position)..source.position]
      decreases remaining
    {
      var block := source.Read(if remaining < BLOCK then remaining else BLOCK);
      if block == [] {
        return None;
      }
      remaining := remaining - |block|;
      read := read + block;
    }
    return Some(read);
  }

  // ----- The writer

  /** One member of `package`; `false` when its file no longer has the size of the manifest. */
  method WriteMember(f: Format, row: Row, file: Bytes, sink: Sink) returns (ok: bool)
    modifies sink
    ensures ok <==> |file| == row.size
    ensures ok ==> sink.written == old(sink.written) + Member(f, row, file)
  {
    sink.Write(f.header(row.path, row.size));
    var source := new Source(file);
    var remaining := row.size;
    while remaining > 0
      invariant source.Valid() && 0 <= remaining == row.size - source.position && source.data == file && fresh(source)
      invariant sink.written == old(sink.written) + f.header(row.path, row.size) + file[..source.position]
      decreases remaining
    {
      var block := source.Read(if remaining < BLOCK then remaining else BLOCK);
      if block == [] {
        return false;
      }
      sink.Write(block);
      remaining := remaining - |block|;
    }
    var more := source.Read(1);
    if more != [] {
      return false;
    }
    sink.Write(Zeros(Padding(row.size)));
    assert file[..|file|] == file;
    return true;
  }

  /** The archive-writing part of `package`: `files` is what the executables contain while they are copied. */
  method WriteArchive(f: Format, rows: seq<Row>, files: seq<Bytes>) returns (archive: Option<Bytes>)
    requires |rows| == |files|
    ensures archive.Some? <==> MemberBytes(rows) + RECORD <= MAX_ARCHIVE && Sized(rows, files)
    ensures archive.Some? ==> archive.value == Encode(f, rows, files)
  {
    if MemberBytes(rows) + RECORD > MAX_ARCHIVE {
      return None;
    }
    var sink := new Sink();
    for i := 0 to |rows|
      invariant sink.written == Body(f, rows[..i], files[..i]) && fresh(sink)
      invariant Sized(rows[..i], files[..i])
    {
      assert rows[..i + 1][..i] == rows[..i] && files[..i + 1][..i] == files[..i];
      var ok := WriteMember(f, rows[i], files[i], sink);
      if !ok {
        return None;
      }
    }
    assert rows[..|rows|] == rows && files[..|rows|] == files;
    sink.Write(Zeros(Tail(|sink.written|)));
    return Some(sink.written);
  }

  // ----- The reader

  /** One member of `check_archive`: it fails exactly when no declared member comes next. */
  method CheckMember(f: Format, row: Row, source: Source) returns (content: Option<Bytes>)
    requires Valid(f) && source.Valid()
    modifies source
    ensures source.Valid()
    ensures content.Some? ==> old(source.position) <= source.position && |content.value| == row.size && f.digest(content.value) == row.digest
    ensures content.Some? ==> source.data[old(source.position)..source.position] == Member(f, row, content.value)
    ensures content.None? ==> forall c :: |c| == row.size && f.digest(c) == row.digest ==>
                                !(Member(f, row, c) <= source.data[old(source.position)..])
  {
    ghost var rest, start := source.data[source.position..], source.position;
    var head := source.Read(HEADER);
    if head != f.header(row.path, row.size) {
      forall c | Member(f, row, c) <= rest
        ensures false
      {
        MemberParts(f, row, c, rest);
      }
      return None;
    }
    var body := ReadBlocks(source, row.size);
    if body.None? || f.digest(body.value) != row.digest {
      assert body.Some? ==> body.value == rest[HEADER..HEADER + row.size];
      forall c | |c| == row.size && f.digest(c) == row.digest && Member(f, row, c) <= rest
        ensures false
      {
        MemberParts(f, row, c, rest);
      }
      return None;
    }
    var padding := source.Read(Padding(row.size));
    if padding != Zeros(Padding(row.size)) {
      assert |rest| >= HEADER + row.size + Padding(row.size) ==> padding == rest[HEADER + row.size..HEADER + row.size + Padding(row.size)];
      forall c | |c| == row.size && Member(f, row, c) <= rest
        ensures false
      {
        MemberParts(f, row, c, rest);
      }
      return None;
    }
    assert source.data[start..source.position] == head + body.value + padding;
    return body;
  }

  /** Where the parts of a member are. */
  lemma MemberParts(f: Format, row: Row, c: Bytes, rest: Bytes)
    requires Valid(f) && |f.header(row.path, row.size)| == HEADER && Member(f, row, c) <= rest
    ensures |rest| >= HEADER + |c| + Padding(row.size)
    ensures rest[..HEADER] == f.header(row.path, row.size)
    ensures rest[HEADER..HEADER + |c|] == c
    ensures rest[HEADER + |c|..HEADER + |c| + Padding(row.size)] == Zeros(Padding(row.size))
  {
    var m := Member(f, row, c);
    assert m == rest[..|m|];
    assert m[..HEADER] == f.header(row.path, row.size);
    assert m[HEADER..HEADER + |c|] == c;
    assert m[HEADER + |c|..] == Zeros(Padding(row.size));
  }

  lemma {:induction false} MemberBytesSplit(rows: seq<Row>, i: nat)
    requires i < |rows|
    ensures MemberBytes(rows[..i]) + HEADER + rows[i].size + Padding(rows[i].size) == MemberBytes(rows[..i + 1])
  {
    assert rows[..i + 1][..i] == rows[..i];
  }

  /** Member `i` starts after the bytes of the members before it. */
  lemma {:induction false} MemberAt(f: Format, rows: seq<Row>, contents: seq<Bytes>, i: nat)
    requires Valid(f) && Sized(rows, contents) && i < |rows|
    ensures var body := Body(f, rows, contents);
      MemberBytes(rows[..i]) <= |body| && Member(f, rows[i], contents[i]) <= body[MemberBytes(rows[..i])..]
    decreases |rows|
  {
    var n := |rows| - 1;
    var front := Body(f, rows[..n], contents[..n]);
    BodyLength(f, rows[..n], contents[..n]);
    if i == n {
      assert Body(f, rows, contents)[|front|..] == Member(f, rows[n], contents[n]);
    } else {
      MemberAt(f, rows[..n], contents[..n], i);
      assert rows[..n][..i] == rows[..i];
      PrefixOfMore(Member(f, rows[i], contents[i]), front, MemberBytes(rows[..i]), Member(f, rows[n], contents[n]));
    }
  }

  lemma PrefixOfMore(part: Bytes, whole: Bytes, start: nat, more: Bytes)
    requires start <= |whole| && part <= whole[start..]
    ensures part <= (whole + more)[start..]
  {
    assert (whole + more)[start..] == whole[start..] + more;
  }

  /** `check_archive`: the contents of an archive that is the encoding of declared contents, and failure for any other. */
  method CheckArchive(f: Format, archive: Bytes, rows: seq<Row>) returns (extracted: Option<seq<Bytes>>)
    requires Valid(f)
    ensures extracted.Some? ==> Declared(f, rows, extracted.value) && archive == Encode(f, rows, extracted.value)
    ensures extracted.None? ==> forall contents :: Declared(f, rows, contents) ==> archive != Encode(f, rows, contents)
    ensures extracted.Some? ==> IsArchive(f, rows, extracted.value, archive)
    ensures extracted.None? ==> forall contents :: Declared(f, rows, contents) ==> !IsArchive(f, rows, contents, archive)
  {
    extracted := ReadArchive(f, archive, rows);
    forall contents | Declared(f, rows, contents)
      ensures IsArchive(f, rows, contents, archive) <==> archive == Encode(f, rows, contents)
    {
      EncodedExactly(f, rows, contents, archive);
    }
  }

  method ReadArchive(f: Format, archive: Bytes, rows: seq<Row>) returns (extracted: Option<seq<Bytes>>)
    requires Valid(f)
    ensures extracted.Some? ==> Declared(f, rows, extracted.value) && archive == Encode(f, rows, extracted.value)
    ensures extracted.None? ==> forall contents :: Declared(f, rows, contents) ==> archive != Encode(f, rows, contents)
  {
    var source := new Source(archive);
    var contents: seq<Bytes> := [];
    for i := 0 to |rows|
      invariant source.Valid() && source.data == archive && fresh(source)
      invariant Declared(f, rows[..i], contents)
      invariant source.position == MemberBytes(rows[..i]) && archive[..source.position] == Body(f, rows[..i], contents)
    {
      ghost var start := source.position;
      var content := CheckMember(f, rows[i], source);
      if content.None? {
        forall other | Declared(f, rows, other)
          ensures archive != Encode(f, rows, other)
        {
          NoMember(f, rows, other, i, archive);
        }
        return None;
      }
      BodyAppend(f, rows, i, contents, content.value, archive, source.position);
      MemberBytesSplit(rows, i);
      contents := contents + [content.value];
    }
    assert rows[..|rows|] == rows;
    BodyLength(f, rows, contents);
    var ended := CheckTail(source);
    if !ended {
      forall other | Declared(f, rows, other)
        ensures archive != Encode(f, rows, other)
      {
        BodyLength(f, rows, other);
        OtherTail(archive, Body(f, rows, other));
      }
      return None;
    }
    assert archive == Body(f, rows, contents) + Zeros(Tail(|Body(f, rows, contents)|));
    return Some(contents);
  }

  lemma OtherTail(archive: Bytes, body: Bytes)
    requires |body| <= |archive| && archive[|body|..] != Zeros(Tail(|body|))
    ensures archive != body + Zeros(Tail(|body|))
  {
  }

  /** The zeros at the end, and nothing after them. */
  method CheckTail(source: Source) returns (ok: bool)
    requires source.Valid()
    modifies source
    ensures ok <==> source.data[old(source.position)..] == Zeros(Tail(old(source.position)))
  {
    ghost var end, rest := source.position, source.data[source.position..];
    var tail := Tail(source.position);
    var zeros := source.Read(tail);
    var more := source.Read(1);
    assert more == [] ==> rest == zeros;
    return zeros == Zeros(tail) && more == [];
  }

  lemma NoMember(f: Format, rows: seq<Row>, contents: seq<Bytes>, i: nat, archive: Bytes)
    requires Valid(f) && Declared(f, rows, contents) && i < |rows| && MemberBytes(rows[..i]) <= |archive|
    requires forall c :: |c| == rows[i].size && f.digest(c) == rows[i].digest ==>
                           !(Member(f, rows[i], c) <= archive[MemberBytes(rows[..i])..])
    ensures archive != Encode(f, rows, contents)
  {
    MemberAt(f, rows, contents, i);
    var body := Body(f, rows, contents);
    PrefixOfMore(Member(f, rows[i], contents[i]), body, MemberBytes(rows[..i]), Zeros(Tail(|body|)));
  }

  lemma BodyAppend(f: Format, rows: seq<Row>, i: nat, contents: seq<Bytes>, content: Bytes, archive: Bytes, position: nat)
    requires i < |rows| && i == |contents| && MemberBytes(rows[..i]) <= position <= |archive|
    requires archive[..MemberBytes(rows[..i])] == Body(f, rows[..i], contents)
    requires archive[MemberBytes(rows[..i])..position] == Member(f, rows[i], content)
    ensures archive[..position] == Body(f, rows[..i + 1], contents + [content])
  {
    assert rows[..i + 1][..i] == rows[..i] && (contents + [content])[..i] == contents;
    assert archive[..position] == archive[..MemberBytes(rows[..i])] + archive[MemberBytes(rows[..i])..position];
  }

  // ----- Round trip

  /** An archive has only one reading. */
  lemma {:induction false} OneReading(f: Format, rows: seq<Row>, a: seq<Bytes>, b: seq<Bytes>)
    requires Valid(f) && Sized(rows, a) && Sized(rows, b) && Encode(f, rows, a) == Encode(f, rows, b)
    ensures a == b
  {
    forall i | 0 <= i < |rows|
      ensures a[i] == b[i]
    {
      var whole := Encode(f, rows, a);
      EncodedMember(f, rows, a, i);
      EncodedMember(f, rows, b, i);
      MemberParts(f, rows[i], a[i], whole[MemberBytes(rows[..i])..]);
      MemberParts(f, rows[i], b[i], whole[MemberBytes(rows[..i])..]);
    }
  }

  lemma EncodedMember(f: Format, rows: seq<Row>, contents: seq<Bytes>, i: nat)
    requires Valid(f) && Sized(rows, contents) && i < |rows|
    ensures var whole := Encode(f, rows, contents);
      MemberBytes(rows[..i]) <= |whole| && Member(f, rows[i], contents[i]) <= whole[MemberBytes(rows[..i])..]
  {
    MemberAt(f, rows, contents, i);
    var body := Body(f, rows, contents);
    PrefixOfMore(Member(f, rows[i], contents[i]), body, MemberBytes(rows[..i]), Zeros(Tail(|body|)));
  }

  /** With collision-free digests a manifest admits one archive, and extracting it gives one set of contents. */
  lemma OneArchive(f: Format, rows: seq<Row>, a: seq<Bytes>, b: seq<Bytes>)
    requires CollisionFree(f) && Declared(f, rows, a) && Declared(f, rows, b)
    ensures a == b && Encode(f, rows, a) == Encode(f, rows, b)
  {
    forall i | 0 <= i < |rows|
      ensures a[i] == b[i]
    {
      assert f.digest(a[i]) == f.digest(b[i]);
    }
  }

  /** `package` with its final check: it produces the archive exactly when every size and all together are within the
      bounds and the files were as declared while they were copied, and reading it back gives these files. */
  method Package(f: Format, rows: seq<Row>, files: seq<Bytes>) returns (archive: Option<Bytes>, extracted: seq<Bytes>)
    requires Valid(f) && |rows| == |files|
    ensures archive.Some? <==> AreExecutables(rows) && MemberBytes(rows) + RECORD <= MAX_ARCHIVE && Declared(f, rows, files)
    ensures archive.Some? ==> archive.value == Encode(f, rows, files) && extracted == files && |archive.value| <= MAX_ARCHIVE
    ensures archive.Some? ==> IsArchive(f, rows, files, archive.value)
  {
    extracted := [];
    if exists i :: 0 <= i < |rows| && !(0 < rows[i].size <= MAX_EXECUTABLE) {
      return None, extracted;
    }
    archive := WriteArchive(f, rows, files);
    if archive.Some? {
      var contents := CheckArchive(f, archive.value, rows);
      if contents.None? {
        return None, [];
      }
      extracted := contents.value;
      OneReading(f, rows, extracted, files);
      SizeCheckSuffices(f, rows, files);
      EncodedExactly(f, rows, files, archive.value);
    }
  }
}
