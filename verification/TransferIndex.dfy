/**
 The unsigned transfer index of an object, and the object assembled from it out
 of chunks the device holds and chunks it fetches.
 */
module TransferIndex {
  import opened Base
  import opened Integers
  import opened Strings
  import opened Chunker

  const INDEX_HEADER: nat := 84
  const INDEX_ENTRY: nat := 68
  /** `MICAIDX1` */
  const MAGIC: Bytes := [77, 73, 67, 65, 73, 68, 88, 49]
  const U32: nat := 0x1_0000_0000
  const U64: nat := 0x1_0000_0000_0000_0000

  datatype Artifact = Artifact(sha256: Bytes, bytes: nat)

  /** A chunk's digest and length. */
  datatype Entry = Entry(sha: Bytes, length: nat)

  function Total(es: seq<Entry>): nat {
    if es == [] then 0 else Total(es[..|es| - 1]) + es[|es| - 1].length
  }

  function DivCeil(n: nat, d: nat): nat
    requires d > 0
  {
    (n + d - 1) / d
  }

  /** The largest legal index of an object of so many bytes. */
  function IndexLimit(bytes: nat): nat {
    INDEX_HEADER + INDEX_ENTRY * DivCeil(bytes, MIN_CHUNK)
  }

  // ----- writing

  function EntryBytes(e: Entry): Bytes { e.sha + ToBe(e.length, 4) }

  function Body(es: seq<Entry>): Bytes {
    if es == [] then [] else Body(es[..|es| - 1]) + EntryBytes(es[|es| - 1])
  }

  function Header(o: Artifact, count: nat): Bytes {
    MAGIC + o.sha256 + ToBe(o.bytes, 8) + ToBe(count, 4)
  }

  function Index(o: Artifact, es: seq<Entry>): Bytes { Header(o, |es|) + Body(es) }

  method WriteIndex(o: Artifact, es: seq<Entry>) returns (bytes: Bytes)
    ensures bytes == Index(o, es)
  {
    bytes := MAGIC + o.sha256 + ToBe(o.bytes, 8) + ToBe(|es|, 4);
    var i := 0;
    assert bytes == Header(o, |es|) + Body(es[..0]);
    while i < |es|
      invariant 0 <= i <= |es| && bytes == Header(o, |es|) + Body(es[..i])
    {
      assert es[..i + 1][..i] == es[..i];
      bytes := bytes + es[i].sha + ToBe(es[i].length, 4);
      i := i + 1;
    }
    assert es[..i] == es;
  }

  // ----- reading

  function ParseEntry(b: Bytes): Option<Entry>
    requires |b| == INDEX_ENTRY
  {
    var e := Entry(b[..64], FromBe(b[64..]));
    if Hex64(e.sha) && 0 < e.length <= MAX_CHUNK then Some(e) else None
  }

  /** The first `n` entries of a body. */
  function ParseEntries(body: Bytes, n: nat): Option<seq<Entry>>
    requires INDEX_ENTRY * n <= |body|
  {
    if n == 0 then Some([])
    else
      var before := ParseEntries(body, n - 1);
      var e := ParseEntry(body[INDEX_ENTRY * (n - 1)..INDEX_ENTRY * n]);
      if before.None? || e.None? then None else Some(before.value + [e.value])
  }

  /** The header of an index that is for `o` and as long as it says. */
  predicate HeaderFits(b: Bytes, o: Artifact) {
    && |b| <= IndexLimit(o.bytes)
    && |b| >= INDEX_HEADER && b[..8] == MAGIC
    && b[8..72] == o.sha256
    && FromBe(b[72..80]) == o.bytes
    && INDEX_HEADER + INDEX_ENTRY * FromBe(b[80..84]) == |b|
  }

  function Parsed(b: Bytes, o: Artifact): Result<seq<Entry>> {
    if !HeaderFits(b, o) then Err
    else
      var es := ParseEntries(b[INDEX_HEADER..], FromBe(b[80..84]));
      if es.None? || Total(es.value) != o.bytes then Err else Ok(es.value)
  }

  lemma EntryAt(b: Bytes, n: nat)
    requires INDEX_HEADER + INDEX_ENTRY * (n + 1) <= |b|
    ensures var at := INDEX_HEADER + n * INDEX_ENTRY;
            b[at..at + INDEX_ENTRY] == b[INDEX_HEADER..][INDEX_ENTRY * n..INDEX_ENTRY * (n + 1)]
  {
    NestedSlice(b, INDEX_HEADER, |b|, INDEX_ENTRY * n, INDEX_ENTRY * (n + 1));
    assert b[INDEX_HEADER..] == b[INDEX_HEADER..|b|];
  }

  /** Read the entries one by one, and their total. */
  method ReadEntries(b: Bytes, count: nat) returns (found: Option<seq<Entry>>, total: nat)
    requires |b| == INDEX_HEADER + INDEX_ENTRY * count
    ensures found == ParseEntries(b[INDEX_HEADER..], count)
    ensures found.Some? ==> total == Total(found.value)
  {
    ghost var body := b[INDEX_HEADER..];
    var es: seq<Entry> := [];
    total := 0;
    var n := 0;
    while n < count
      invariant 0 <= n <= count
      invariant ParseEntries(body, n) == Some(es) && total == Total(es)
    {
      var at := INDEX_HEADER + n * INDEX_ENTRY;
      EntryAt(b, n);
      var e := ParseEntry(b[at..at + INDEX_ENTRY]);
      if e.None? {
        EntryRefused(body, n + 1, count);
        return None, total;
      }
      assert (es + [e.value])[..|es|] == es;
      total := total + e.value.length;
      es := es + [e.value];
      n := n + 1;
    }
    found := Some(es);
  }

  method ParseIndex(b: Bytes, o: Artifact) returns (index: Result<seq<Entry>>)
    ensures index == Parsed(b, o)
  {
    if !HeaderFits(b, o) {
      return Err;
    }
    var found, total := ReadEntries(b, FromBe(b[80..84]));
    index := if found.Some? && total == o.bytes then Ok(found.value) else Err;
  }

  lemma {:induction false} EntryRefused(body: Bytes, n: nat, count: nat)
    requires n <= count && INDEX_ENTRY * count <= |body| && ParseEntries(body, n).None?
    ensures ParseEntries(body, count).None?
    decreases count
  {
    if n < count { EntryRefused(body, n, count - 1); }
  }

  /** An accepted index sums to the signed length and has chunks of legal size. */
  lemma {:induction false} EntriesAreLegal(body: Bytes, n: nat)
    requires INDEX_ENTRY * n <= |body| && ParseEntries(body, n).Some?
    ensures |ParseEntries(body, n).value| == n && Legal(ParseEntries(body, n).value)
  {
    if n > 0 { EntriesAreLegal(body, n - 1); }
  }

  predicate Legal(es: seq<Entry>) {
    forall i :: 0 <= i < |es| ==> Hex64(es[i].sha) && 0 < es[i].length <= MAX_CHUNK
  }

  // ----- round trip

  lemma EntryRoundTrip(e: Entry)
    requires Hex64(e.sha) && 0 < e.length <= MAX_CHUNK
    ensures |EntryBytes(e)| == INDEX_ENTRY && ParseEntry(EntryBytes(e)) == Some(e)
  {
    SmallBe32(e.length);
    EntryReads(e, ToBe(e.length, 4));
  }

  lemma EntryReads(e: Entry, field: Bytes)
    requires Hex64(e.sha) && 0 < e.length <= MAX_CHUNK && |field| == 4 && FromBe(field) == e.length
    ensures ParseEntry(e.sha + field) == Some(e)
  {
    var b := e.sha + field;
    assert b[..64] == e.sha && b[64..] == field;
  }

  lemma {:induction false} BodyLength(es: seq<Entry>)
    requires Legal(es)
    ensures |Body(es)| == INDEX_ENTRY * |es|
  {
    if es != [] {
      BodyLength(es[..|es| - 1]);
      EntryRoundTrip(es[|es| - 1]);
    }
  }

  lemma {:induction false} BodyRoundTrip(es: seq<Entry>, rest: Bytes)
    requires Legal(es)
    ensures |Body(es)| == INDEX_ENTRY * |es|
    ensures ParseEntries(Body(es) + rest, |es|) == Some(es)
  {
    BodyLength(es);
    if es != [] {
      var n, init, last := |es| - 1, es[..|es| - 1], es[|es| - 1];
      EntryRoundTrip(last);
      BodyRoundTrip(init, EntryBytes(last) + rest);
      EntryAppended(Body(init), EntryBytes(last), rest, n, init, last);
      assert es == init + [last];
    }
  }

  lemma EntryAppended(before: Bytes, bytes: Bytes, rest: Bytes, n: nat, es: seq<Entry>, e: Entry)
    requires |before| == INDEX_ENTRY * n && |bytes| == INDEX_ENTRY && ParseEntry(bytes) == Some(e)
    requires ParseEntries(before + (bytes + rest), n) == Some(es)
    ensures ParseEntries(before + bytes + rest, n + 1) == Some(es + [e])
  {
    InTheMiddle(before, bytes, rest, n);
    EntryFollows(before + bytes + rest, n, es, e);
  }

  lemma InTheMiddle(before: Bytes, bytes: Bytes, rest: Bytes, n: nat)
    requires |before| == INDEX_ENTRY * n && |bytes| == INDEX_ENTRY
    ensures before + bytes + rest == before + (bytes + rest)
    ensures (before + bytes + rest)[INDEX_ENTRY * n..INDEX_ENTRY * (n + 1)] == bytes
  {
    assert before + bytes + rest == before + (bytes + rest);
    MiddleSlice(before, bytes, rest);
  }

  lemma EntryFollows(body: Bytes, n: nat, es: seq<Entry>, e: Entry)
    requires INDEX_ENTRY * (n + 1) <= |body| && ParseEntries(body, n) == Some(es)
    requires ParseEntry(body[INDEX_ENTRY * n..INDEX_ENTRY * (n + 1)]) == Some(e)
    ensures ParseEntries(body, n + 1) == Some(es + [e])
  {
  }

  lemma HeaderParts(o: Artifact, count: nat, body: Bytes)
    requires |o.sha256| == 64
    ensures var b := Header(o, count) + body;
            && |Header(o, count)| == INDEX_HEADER
            && b[..8] == MAGIC && b[8..72] == o.sha256 && b[72..80] == ToBe(o.bytes, 8)
            && b[80..84] == ToBe(count, 4) && b[INDEX_HEADER..] == body
  {
  }

  /** A chunk list of an object: legal entries that sum to its length, no more of
      them than the smallest chunks would make. */
  predicate ChunkListOf(o: Artifact, es: seq<Entry>) {
    && |o.sha256| == 64 && o.bytes < U64
    && Legal(es) && Total(es) == o.bytes && |es| <= DivCeil(o.bytes, MIN_CHUNK)
  }

  lemma HeaderReads(o: Artifact, count: nat, body: Bytes)
    requires |o.sha256| == 64 && o.bytes < U64
    ensures var b := Header(o, count) + body;
            HeaderFits(b, o) <==>
                 |b| <= IndexLimit(o.bytes) && INDEX_HEADER + INDEX_ENTRY * (count % U32) == |b|
    ensures var b := Header(o, count) + body;
            |b| == INDEX_HEADER + |body| && FromBe(b[80..84]) == count % U32 && b[INDEX_HEADER..] == body
  {
    HeaderParts(o, count, body);
    Be64(o.bytes);
    Be32(count);
  }

  /** A written index keeps within its object's limit, and reads back as the
      chunks exactly when their number fits the 32 bits it is written in. */
  lemma IndexRoundTrip(o: Artifact, es: seq<Entry>)
    requires ChunkListOf(o, es)
    ensures |Index(o, es)| <= IndexLimit(o.bytes)
    ensures Parsed(Index(o, es), o) == Ok(es) <==> |es| < U32
    ensures |es| >= U32 ==> Parsed(Index(o, es), o) == Err
  {
    HeaderReads(o, |es|, Body(es));
    BodyLength(es);
    if |es| < U32 { IndexReads(o, es); }
  }

  lemma IndexReads(o: Artifact, es: seq<Entry>)
    requires ChunkListOf(o, es) && |es| < U32
    ensures Parsed(Index(o, es), o) == Ok(es)
  {
    SmallHeaderReads(o, |es|, Body(es));
    BodyLength(es);
    FittingIndexReads(o, es, Index(o, es));
  }

  // ----- what is accepted was written so

  lemma EntryIsWritten(b: Bytes)
    requires |b| == INDEX_ENTRY && ParseEntry(b).Some?
    ensures EntryBytes(ParseEntry(b).value) == b
  {
    BeInverse(b[64..]);
    assert b == b[..64] + b[64..];
  }

  lemma {:induction false} BodyIsWritten(body: Bytes, n: nat)
    requires INDEX_ENTRY * n <= |body| && ParseEntries(body, n).Some?
    ensures Body(ParseEntries(body, n).value) == body[..INDEX_ENTRY * n]
  {
    if n > 0 {
      var es := ParseEntries(body, n).value;
      var before := ParseEntries(body, n - 1).value;
      var piece := body[INDEX_ENTRY * (n - 1)..INDEX_ENTRY * n];
      BodyIsWritten(body, n - 1);
      EntryIsWritten(piece);
      assert es == before + [ParseEntry(piece).value];
      BodyAppend(before, ParseEntry(piece).value);
      Lengthened(body, INDEX_ENTRY * (n - 1), INDEX_ENTRY * n);
    }
  }

  lemma Lengthened(body: Bytes, i: nat, j: nat)
    requires i <= j <= |body|
    ensures body[..j] == body[..i] + body[i..j]
  {
  }

  lemma BodyAppend(es: seq<Entry>, e: Entry)
    ensures Body(es + [e]) == Body(es) + EntryBytes(e)
  {
    assert (es + [e])[..|es|] == es;
  }

  lemma HeaderIsWritten(b: Bytes, o: Artifact)
    requires HeaderFits(b, o)
    ensures b[..INDEX_HEADER] == Header(o, FromBe(b[80..84]))
  {
    BeInverse(b[72..80]);
    BeInverse(b[80..84]);
    HeaderPieces(b, o.sha256, ToBe(o.bytes, 8), ToBe(FromBe(b[80..84]), 4));
  }

  lemma HeaderPieces(b: Bytes, sha: Bytes, eight: Bytes, four: Bytes)
    requires |b| >= INDEX_HEADER && b[..8] == MAGIC && b[8..72] == sha && b[72..80] == eight && b[80..84] == four
    ensures b[..INDEX_HEADER] == MAGIC + sha + eight + four
  {
  }

  /** Every accepted buffer is the index of its entries: there is no other spelling. */
  lemma AcceptedIsIndex(b: Bytes, o: Artifact)
    requires Parsed(b, o).Ok?
    ensures b == Index(o, Parsed(b, o).value)
  {
    var body, n := b[INDEX_HEADER..], FromBe(b[80..84]);
    HeaderIsWritten(b, o);
    BodyIsWritten(body, n);
    EntriesAreLegal(body, n);
    assert body[..INDEX_ENTRY * n] == body;
    assert b == b[..INDEX_HEADER] + body;
  }

  /** An index that is read is no longer than its object allows: a header of 84 bytes and 68
      for each chunk of the least size. */
  lemma AcceptedFits(b: Bytes, o: Artifact)
    requires Parsed(b, o).Ok?
    ensures 84 <= |b| <= 84 + 68 * ((o.bytes + 4095) / 4096) && |b| == 84 + 68 * |Parsed(b, o).value|
  {
    EntriesAreLegal(b[INDEX_HEADER..], FromBe(b[80..84]));
  }

  /** An entry's digest and then its length are at `at`. */
  predicate EntryIs(b: Bytes, at: nat, e: Entry) {
    at + 68 <= |b| && b[at..at + 64] == e.sha && FromBe(b[at + 64..at + 68]) == e.length
  }

  /** Where everything is in an index: `MICAIDX1`, the object's digest, its length and the
      number of entries, and of each entry the digest and the length; the highest byte of a
      number comes first. */
  lemma IndexLayout(o: Artifact, es: seq<Entry>, k: nat)
    requires |o.sha256| == 64 && o.bytes < 0x1_0000_0000_0000_0000 && |es| < 0x1_0000_0000 && Legal(es) && k < |es|
    ensures var b := Index(o, es);
            && |b| == 84 + 68 * |es| && b[..8] == [77, 73, 67, 65, 73, 68, 88, 49] && b[8..72] == o.sha256
            && FromBe(b[72..80]) == o.bytes && FromBe(b[80..84]) == |es|
            && EntryIs(b, 84 + 68 * k, es[k])
  {
    HeaderParts(o, |es|, Body(es));
    SmallBe32(|es|);
    Be64(o.bytes);
    BodyLength(es);
    BodyLayout(es, k);
    EntryMoves(Header(o, |es|), Body(es), 68 * k, es[k]);
  }

  lemma EntryMoves(header: Bytes, body: Bytes, at: nat, e: Entry)
    requires EntryIs(body, at, e)
    ensures EntryIs(header + body, |header| + at, e)
  {
    SliceAfter(header, body, at, at + 64);
    SliceAfter(header, body, at + 64, at + 68);
  }

  lemma EntryStays(before: Bytes, more: Bytes, at: nat, e: Entry)
    requires EntryIs(before, at, e)
    ensures EntryIs(before + more, at, e)
  {
    FrontSlice(before, more, at, at + 64);
    FrontSlice(before, more, at + 64, at + 68);
  }

  lemma EntryEnds(before: Bytes, e: Entry)
    requires |e.sha| == 64 && e.length <= MAX_CHUNK
    ensures EntryIs(before + EntryBytes(e), |before|, e)
  {
    SmallBe32(e.length);
    var field := ToBe(e.length, 4);
    assert (e.sha + field)[0..64] == e.sha && (e.sha + field)[64..68] == field;
    assert EntryIs(EntryBytes(e), 0, e);
    EntryMoves(before, EntryBytes(e), 0, e);
  }

  lemma {:induction false} BodyLayout(es: seq<Entry>, k: nat)
    requires Legal(es) && k < |es|
    ensures EntryIs(Body(es), 68 * k, es[k])
  {
    var n := |es| - 1;
    if k < n {
      BodyLayout(es[..n], k);
      EntryStays(Body(es[..n]), EntryBytes(es[n]), 68 * k, es[k]);
    } else {
      BodyLength(es[..n]);
      EntryEnds(Body(es[..n]), es[n]);
    }
  }

  lemma SmallHeaderReads(o: Artifact, count: nat, body: Bytes)
    requires |o.sha256| == 64 && o.bytes < U64 && count < U32
    ensures var b := Header(o, count) + body;
            && |b| == INDEX_HEADER + |body| && FromBe(b[80..84]) == count && b[INDEX_HEADER..] == body
            && (|b| <= IndexLimit(o.bytes) && INDEX_ENTRY * count == |body| ==> HeaderFits(b, o))
  {
    HeaderParts(o, count, body);
    Be64(o.bytes);
    SmallBe32(count);
  }

  lemma FittingIndexReads(o: Artifact, es: seq<Entry>, b: Bytes)
    requires Legal(es) && Total(es) == o.bytes && HeaderFits(b, o)
    requires b[INDEX_HEADER..] == Body(es) && FromBe(b[80..84]) == |es|
    ensures Parsed(b, o) == Ok(es)
  {
    BodyReads(es, b[INDEX_HEADER..]);
  }

  lemma BodyReads(es: seq<Entry>, body: Bytes)
    requires Legal(es) && body == Body(es)
    ensures INDEX_ENTRY * |es| <= |body| && ParseEntries(body, |es|) == Some(es)
  {
    BodyRoundTrip(es, []);
    assert Body(es) + [] == Body(es);
  }

  // ----- the chunker's own index

  function EntriesOf(digest: Digest, parts: seq<Bytes>): seq<Entry> {
    seq(|parts|, i requires 0 <= i < |parts| => Entry(digest(parts[i]), |parts[i]|))
  }

  lemma {:induction false} TotalOf(digest: Digest, parts: seq<Bytes>)
    ensures Total(EntriesOf(digest, parts)) == |Concat(parts)|
  {
    if parts != [] {
      var n := |parts| - 1;
      TotalOf(digest, parts[..n]);
      assert EntriesOf(digest, parts)[..n] == EntriesOf(digest, parts[..n]);
      ConcatAppend(parts[..n], [parts[n]]);
      assert parts == parts[..n] + [parts[n]];
      assert Concat([parts[n]]) == parts[n] + Concat([]);
    }
  }

  lemma {:induction false} ManyChunksAreLong(parts: seq<Bytes>)
    requires parts != []
    requires forall i :: 0 <= i < |parts| ==> 0 < |parts[i]|
    requires forall i :: 0 <= i < |parts| - 1 ==> MIN_CHUNK <= |parts[i]|
    ensures |Concat(parts)| >= MIN_CHUNK * (|parts| - 1) + 1
  {
    if |parts| > 1 { ManyChunksAreLong(parts[1..]); }
  }

  /**
   The index of an object's own chunks: it is within the limit, and it reads
   back for every object of up to 2^32 - 1 smallest chunks, 2^44 - 4096 bytes.
   */
  lemma OwnIndexRoundTrip<H>(gear: Rolling<H>, digest: Digest, content: Bytes)
    requires forall b :: Hex64(digest(b))
    requires |content| < U64
    ensures var o, es := Artifact(digest(content), |content|), EntriesOf(digest, Chunks(gear, content));
            && ChunkListOf(o, es) && |Index(o, es)| <= IndexLimit(|content|)
            && (Parsed(Index(o, es), o) == Ok(es) <==> |es| < U32)
            && (|content| <= (U32 - 1) * MIN_CHUNK ==> Parsed(Index(o, es), o) == Ok(es))
  {
    var parts := Chunks(gear, content);
    var o, es := Artifact(digest(content), |content|), EntriesOf(digest, parts);
    ChunksTile(gear, content);
    TotalOf(digest, parts);
    if parts != [] { ManyChunksAreLong(parts); }
    IndexRoundTrip(o, es);
  }

  lemma {:induction false} FewChunksAreShort(parts: seq<Bytes>)
    requires forall i :: 0 <= i < |parts| ==> |parts[i]| <= MAX_CHUNK
    ensures |Concat(parts)| <= MAX_CHUNK * |parts|
  {
    if parts != [] { FewChunksAreShort(parts[1..]); }
  }

  /** Any content of 2^48 bytes or more is cut into too many chunks for its own index. */
  lemma HugeIndexIsRefused<H>(gear: Rolling<H>, digest: Digest, content: Bytes)
    requires forall b :: Hex64(digest(b))
    requires U32 * MAX_CHUNK <= |content| < U64
    ensures var o, es := Artifact(digest(content), |content|), EntriesOf(digest, Chunks(gear, content));
            ChunkListOf(o, es) && |es| >= U32 && Parsed(Index(o, es), o) == Err
  {
    ChunksTile(gear, content);
    FewChunksAreShort(Chunks(gear, content));
    OwnIndexRoundTrip(gear, digest, content);
    IndexRoundTrip(Artifact(digest(content), |content|), EntriesOf(digest, Chunks(gear, content)));
  }
}
