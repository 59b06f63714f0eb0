/**
 An object assembled from its index: each chunk copied out of a file the device
 holds or fetched, and checked by digest either way.
 */
module DeltaAssembly {
  import opened Base
  import opened Strings
  import opened Integers
  import opened Chunker
  import opened TransferIndex

  /** Where a chunk can be read: a file, an offset and a length. */
  datatype Seed = Seed(file: nat, offset: nat, length: nat)

  /** The files on the device; one that cannot be opened is passed over. */
  type Files = seq<Option<Bytes>>

  function ReadAt(files: Files, s: Seed): Option<Bytes> {
    if s.file < |files| && files[s.file].Some? && s.offset + s.length <= |files[s.file].value|
    then Some(files[s.file].value[s.offset..s.offset + s.length])
    else None
  }

  // ----- the seed map

  ghost predicate SoundSeeds(digest: Digest, files: Files, seeds: map<Bytes, Seed>) {
    forall sha :: sha in seeds ==>
      ReadAt(files, seeds[sha]).Some? && digest(ReadAt(files, seeds[sha]).value) == sha
  }

  lemma {:induction false} ReportedAt(digest: Digest, parts: seq<Bytes>, i: nat)
    requires i < |parts|
    ensures |Report(digest, parts)| == |parts|
    ensures var f := Report(digest, parts)[i];
            && f.offset + f.length <= |Concat(parts)|
            && Concat(parts)[f.offset..f.offset + f.length] == parts[i]
            && f.length == |parts[i]| && f.sha == digest(parts[i])
    decreases |parts|
  {
    var n := |parts| - 1;
    var init, last := parts[..n], parts[n];
    assert parts == init + [last];
    ReportStep(digest, init, last);
    if n > 0 { ReportedAt(digest, init, if i < n then i else 0); }
    if i < n {
      var f := Report(digest, init)[i];
      FrontSlice(Concat(init), last, f.offset, f.offset + f.length);
    } else {
      BackSlice(Concat(init), last);
    }
  }

  /** The chunks of a file that opens can all be looked up. */
  ghost predicate Seeded<H>(gear: Rolling<H>, digest: Digest, file: Option<Bytes>, seeds: map<Bytes, Seed>) {
    file.Some? ==> forall c :: c in Chunks(gear, file.value) ==> digest(c) in seeds
  }

  lemma StaysSeeded<H>(gear: Rolling<H>, digest: Digest, file: Option<Bytes>, before: map<Bytes, Seed>, seeds: map<Bytes, Seed>)
    requires Seeded(gear, digest, file, before) && before.Keys <= seeds.Keys
    ensures Seeded(gear, digest, file, seeds)
  {
  }

  /** How each file that opens is read: a read that gets through gives its content. */
  ghost predicate ReadsOf(files: Files, blocks: seq<seq<Read>>) {
    |blocks| == |files| && forall i :: 0 <= i < |files| && files[i].Some? && ReadsThrough(blocks[i]) ==>
      Stream(blocks[i]) == files[i].value
  }

  /** Cut one file and add what is found to the map. */
  method SeedFile<H>(gear: Rolling<H>, digest: Digest, files: Files, i: nat, blocks: seq<Read>, before: map<Bytes, Seed>)
    returns (seeds: Result<map<Bytes, Seed>>)
    requires i < |files| && files[i].Some? && SoundSeeds(digest, files, before)
    requires ReadsThrough(blocks) ==> Stream(blocks) == files[i].value
    ensures seeds.Ok? <==> ReadsThrough(blocks)
    ensures seeds.Ok? ==>
              && SoundSeeds(digest, files, seeds.value) && before.Keys <= seeds.value.Keys
              && Seeded(gear, digest, files[i], seeds.value)
  {
    var found, total := Chunk(gear, digest, blocks);
    if total.Err? { return Err; }
    var more := AddSeeds(gear, digest, files, i, found, before);
    seeds := Ok(more);
  }

  /** Every chunk of every file that opens, by its digest; the first place a digest is
      found at is kept. One file that opens and cannot be read through fails it all. */
  method SeedMap<H>(gear: Rolling<H>, digest: Digest, files: Files, blocks: seq<seq<Read>>)
    returns (seedMap: Result<map<Bytes, Seed>>)
    requires ReadsOf(files, blocks)
    ensures seedMap.Ok? <==> forall i :: 0 <= i < |files| && files[i].Some? ==> ReadsThrough(blocks[i])
    ensures seedMap.Ok? ==> SoundSeeds(digest, files, seedMap.value)
    ensures seedMap.Ok? ==> forall i :: 0 <= i < |files| ==> Seeded(gear, digest, files[i], seedMap.value)
  {
    var seeds: map<Bytes, Seed> := map[];
    var i := 0;
    while i < |files|
      invariant 0 <= i <= |files| && SoundSeeds(digest, files, seeds)
      invariant forall j :: 0 <= j < i && files[j].Some? ==> ReadsThrough(blocks[j])
      invariant forall j :: 0 <= j < i ==> Seeded(gear, digest, files[j], seeds)
    {
      if files[i].Some? {
        var more := SeedFile(gear, digest, files, i, blocks[i], seeds);
        if more.Err? { return Err; }
        forall j | 0 <= j < i ensures Seeded(gear, digest, files[j], more.value) {
          StaysSeeded(gear, digest, files[j], seeds, more.value);
        }
        seeds := more.value;
      }
      i := i + 1;
    }
    seedMap := Ok(seeds);
  }

  /** Where a reported chunk of a file is, that chunk can be read. */
  lemma ReportedSeed<H>(gear: Rolling<H>, digest: Digest, files: Files, i: nat, k: nat)
    requires i < |files| && files[i].Some? && k < |Chunks(gear, files[i].value)|
    ensures |Report(digest, Chunks(gear, files[i].value))| == |Chunks(gear, files[i].value)|
    ensures var parts := Chunks(gear, files[i].value);
            var f := Report(digest, parts)[k];
            f.sha == digest(parts[k]) && ReadAt(files, Seed(i, f.offset, f.length)) == Some(parts[k])
  {
    ChunksTile(gear, files[i].value);
    ReportedAt(digest, Chunks(gear, files[i].value), k);
  }

  method AddSeeds<H>(gear: Rolling<H>, digest: Digest, files: Files, i: nat, found: seq<Found>, before: map<Bytes, Seed>)
    returns (seeds: map<Bytes, Seed>)
    requires i < |files| && files[i].Some? && found == Report(digest, Chunks(gear, files[i].value)) && SoundSeeds(digest, files, before)
    ensures SoundSeeds(digest, files, seeds)
    ensures forall sha :: sha in before ==> sha in seeds && seeds[sha] == before[sha]
    ensures Seeded(gear, digest, files[i], seeds)
  {
    ghost var parts := Chunks(gear, files[i].value);
    if parts != [] { ReportedSeed(gear, digest, files, i, 0); }
    seeds := before;
    var k := 0;
    while k < |found|
      invariant 0 <= k <= |found| == |parts|
      invariant SoundSeeds(digest, files, seeds)
      invariant forall sha :: sha in before ==> sha in seeds && seeds[sha] == before[sha]
      invariant forall m :: 0 <= m < k ==> digest(parts[m]) in seeds
    {
      ReportedSeed(gear, digest, files, i, k);
      var f := found[k];
      if f.sha !in seeds {
        seeds := seeds[f.sha := Seed(i, f.offset, f.length)];
      }
      k := k + 1;
    }
  }

  // ----- assembling

  /** The chunk of an entry: from the seed of its digest when that is as long as
      the entry says, otherwise fetched; refused unless its digest is right. */
  function Piece(digest: Digest, e: Entry, seeds: map<Bytes, Seed>, files: Files, remote: map<Bytes, Bytes>): Option<Bytes> {
    var bytes :=
      if e.sha in seeds && seeds[e.sha].length == e.length then ReadAt(files, seeds[e.sha])
      else if e.sha in remote && |remote[e.sha]| == e.length then Some(remote[e.sha])
      else None;
    if bytes.Some? && digest(bytes.value) == e.sha then bytes else None
  }

  method Assemble(digest: Digest, index: seq<Entry>, seeds: map<Bytes, Seed>, files: Files, remote: map<Bytes, Bytes>)
    returns (output: Result<Bytes>, ghost parts: seq<Bytes>)
    ensures output.Ok? <==> forall i :: 0 <= i < |index| ==> Piece(digest, index[i], seeds, files, remote).Some?
    ensures output.Ok? ==> output.value == Concat(parts) && EntriesOf(digest, parts) == index
    ensures output.Ok? ==> |output.value| == Total(index)
  {
    var file: Bytes := [];
    parts := [];
    var i := 0;
    while i < |index|
      invariant 0 <= i <= |index| && |parts| == i
      invariant file == Concat(parts) && EntriesOf(digest, parts) == index[..i]
      invariant forall j :: 0 <= j < i ==> Piece(digest, index[j], seeds, files, remote).Some?
    {
      var piece := Piece(digest, index[i], seeds, files, remote);
      if piece.None? {
        return Err, parts;
      }
      assert |piece.value| == index[i].length;
      ConcatAppend(parts, [piece.value]);
      assert Concat([piece.value]) == piece.value + Concat([]);
      assert EntriesOf(digest, parts + [piece.value]) == EntriesOf(digest, parts) + [index[i]];
      parts := parts + [piece.value];
      file := file + piece.value;
      i := i + 1;
    }
    assert index[..i] == index;
    TotalOf(digest, parts);
    output := Ok(file);
  }

  /** For every accepted index, hostile or not, and any seeds, an assembled file
      is exactly as long as the signed object. */
  lemma AcceptedIndexLength(b: Bytes, o: Artifact)
    requires Parsed(b, o).Ok?
    ensures Total(Parsed(b, o).value) == o.bytes && Legal(Parsed(b, o).value)
  {
    EntriesAreLegal(b[INDEX_HEADER..], FromBe(b[80..84]));
  }

  /** Two texts the digest does not tell apart. */
  predicate Collide(digest: Digest, a: Bytes, b: Bytes) { a != b && digest(a) == digest(b) }

  /** Whatever was assembled by the origin's own index is the object, unless one of its
      pieces collides with the chunk in its place. */
  lemma AssembledIsObject<H>(gear: Rolling<H>, digest: Digest, content: Bytes, parts: seq<Bytes>)
    requires EntriesOf(digest, parts) == EntriesOf(digest, Chunks(gear, content))
    ensures |parts| == |Chunks(gear, content)|
    ensures Concat(parts) == content || exists k :: 0 <= k < |parts| && Collide(digest, parts[k], Chunks(gear, content)[k])
  {
    var own := Chunks(gear, content);
    assert |EntriesOf(digest, parts)| == |EntriesOf(digest, own)|;
    ChunksTile(gear, content);
    if parts != own {
      var k :| 0 <= k < |parts| && parts[k] != own[k];
      assert EntriesOf(digest, parts)[k] == EntriesOf(digest, own)[k];
      assert Collide(digest, parts[k], own[k]);
    }
  }

  /** From the origin's index as it was written to the object: what is assembled by the
      entries it is read as is the object, or a piece collides with a chunk of it. */
  lemma DeltaIsObject<H>(gear: Rolling<H>, digest: Digest, content: Bytes, parts: seq<Bytes>)
    requires (forall b :: Hex64(digest(b))) && |content| <= (U32 - 1) * MIN_CHUNK
    requires var o := Artifact(digest(content), |content|);
             Parsed(Index(o, EntriesOf(digest, Chunks(gear, content))), o) == Ok(EntriesOf(digest, parts))
    ensures |parts| == |Chunks(gear, content)|
    ensures Concat(parts) == content || exists k :: 0 <= k < |parts| && Collide(digest, parts[k], Chunks(gear, content)[k])
  {
    OwnIndexRoundTrip(gear, digest, content);
    AssembledIsObject(gear, digest, content, parts);
  }

  /** The seed of a chunk's digest names other bytes. */
  predicate SeedCollides(digest: Digest, c: Bytes, files: Files, seeds: map<Bytes, Seed>) {
    digest(c) in seeds && ReadAt(files, seeds[digest(c)]).Some? && Collide(digest, c, ReadAt(files, seeds[digest(c)]).value)
  }

  /** An object all of whose chunks are chunks of files on the device is assembled without
      fetching anything, unless the seed of one of them collides with it. */
  lemma HeldObjectNeedsNoFetch<H>(gear: Rolling<H>, digest: Digest, content: Bytes, files: Files, seeds: map<Bytes, Seed>)
    requires SoundSeeds(digest, files, seeds)
    requires forall i :: 0 <= i < |files| ==> Seeded(gear, digest, files[i], seeds)
    requires forall c :: c in Chunks(gear, content) ==>
               exists i :: 0 <= i < |files| && files[i].Some? && c in Chunks(gear, files[i].value)
    ensures forall k :: 0 <= k < |Chunks(gear, content)| ==>
              var c := Chunks(gear, content)[k];
              Piece(digest, Entry(digest(c), |c|), seeds, files, map[]).Some? || SeedCollides(digest, c, files, seeds)
  {
    var own := Chunks(gear, content);
    forall k | 0 <= k < |own|
      ensures Piece(digest, Entry(digest(own[k]), |own[k]|), seeds, files, map[]).Some? || SeedCollides(digest, own[k], files, seeds)
    {
      var c := own[k];
      assert c in own;
      assert digest(c) in seeds;
    }
  }

  /** Promotion into the verified store: a partial file of the signed length and
      digest is stored under its digest, any other is dropped. */
  function Promote(digest: Digest, store: map<Bytes, Bytes>, partial: Bytes, o: Artifact): Result<map<Bytes, Bytes>> {
    if |partial| == o.bytes && digest(partial) == o.sha256 then Ok(store[o.sha256 := partial]) else Err
  }

  /** What is promoted for a signed object is the object, whatever index and chunks it was
      assembled from, if and only if it is not another text of the same length and digest. */
  lemma PromotedIsObject(digest: Digest, store: map<Bytes, Bytes>, partial: Bytes, content: Bytes)
    ensures var stored := Promote(digest, store, partial, Artifact(digest(content), |content|));
            && (stored.Ok? ==> stored.value == store[digest(content) := partial])
            && ((stored.Ok? <==> partial == content) <==> !(|partial| == |content| && Collide(digest, partial, content)))
  {
  }
}
