/**
 Cutting files at places their own bytes choose, so that two parties who never talk
 cut equal stretches alike.
 */
module Chunker {
  import opened Base

  const MIN_CHUNK: nat := 4096
  const MAX_CHUNK: nat := 65536
  const MASK: bv64 := 0xFFFC_0000_0000_0000

  /** A rolling hash: where it starts, how a byte moves it, and where it cuts. */
  datatype Rolling<!H> = Rolling(start: H, roll: (H, bv8) -> H, cuts: H -> bool)

  /** The pinned one, over a table with a word for each byte. */
  function GearHash(table: bv8 -> bv64): Rolling<bv64> {
    Rolling(0, (h: bv64, b: bv8) => Sum(Twice(h), table(b)), TopBitsClear)
  }

  function Twice(h: bv64): bv64 { h << 1 }

  function Sum(a: bv64, b: bv64): bv64 { a + b }

  predicate TopBitsClear(h: bv64) { h & MASK == 0 }

  function Hash<H>(gear: Rolling<H>, c: Bytes): H {
    if c == [] then gear.start else gear.roll(Hash(gear, c[..|c| - 1]), c[|c| - 1])
  }

  // ----- the pinned hash looks at the last 64 bytes

  /** The `k` low bits. */
  function LowBits(k: nat): bv64 {
    if k == 0 then 0 else Widened(LowBits(k - 1))
  }

  function Widened(m: bv64): bv64 { (m << 1) | 1 }

  lemma FourBits(k: nat)
    ensures LowBits(k + 4) == (LowBits(k) << 4) | 0xF
  {
    FourSteps(k);
    FourWider(LowBits(k));
  }

  lemma FourSteps(k: nat)
    ensures LowBits(k + 4) == Widened(Widened(Widened(Widened(LowBits(k)))))
  {
    assert LowBits(k + 1) == Widened(LowBits(k));
    assert LowBits(k + 2) == Widened(LowBits(k + 1));
    assert LowBits(k + 3) == Widened(LowBits(k + 2));
    assert LowBits(k + 4) == Widened(LowBits(k + 3));
  }

  lemma FourWider(m: bv64)
    ensures Widened(Widened(Widened(Widened(m)))) == (m << 4) | 0xF
  {
  }

  lemma SixteenBits(k: nat)
    ensures LowBits(k + 16) == (LowBits(k) << 16) | 0xFFFF
  {
    FourBits(k);
    FourBits(k + 4);
    FourBits(k + 8);
    FourBits(k + 12);
    SixteenWider(LowBits(k));
  }

  lemma SixteenWider(m: bv64)
    ensures (((((((m << 4) | 0xF) << 4) | 0xF) << 4) | 0xF) << 4) | 0xF == (m << 16) | 0xFFFF
  {
  }

  lemma AllBits()
    ensures LowBits(64) == 0xFFFF_FFFF_FFFF_FFFF
  {
    SixteenBits(0);
    SixteenBits(16);
    SixteenBits(32);
    SixteenBits(48);
  }

  /** Two hashes that agree in their low bits agree in one more after any byte. */
  predicate AgreeIn(h: bv64, g: bv64, m: bv64) { (h - g) & m == 0 }

  predicate IsTwice(t: bv64, h: bv64) { t == h << 1 }

  predicate IsSum(s: bv64, a: bv64, b: bv64) { s == a + b }

  lemma TwiceIs(h: bv64)
    ensures IsTwice(Twice(h), h)
  {
  }

  lemma SumIs(a: bv64, b: bv64)
    ensures IsSum(Sum(a, b), a, b)
  {
  }

  lemma AgreeInMore(h: bv64, g: bv64, word: bv64, m: bv64)
    requires AgreeIn(h, g, m)
    ensures AgreeIn(Sum(Twice(h), word), Sum(Twice(g), word), Widened(m))
  {
    TwiceIs(h);
    TwiceIs(g);
    TwiceAgree(h, g, m, Twice(h), Twice(g));
    SumIs(Twice(h), word);
    SumIs(Twice(g), word);
    SumsAgree(Twice(h), Twice(g), word, Widened(m), Sum(Twice(h), word), Sum(Twice(g), word));
  }

  lemma TwiceAgree(h: bv64, g: bv64, m: bv64, t: bv64, u: bv64)
    requires AgreeIn(h, g, m) && IsTwice(t, h) && IsTwice(u, g)
    ensures AgreeIn(t, u, Widened(m))
  {
  }

  lemma SumsAgree(t: bv64, u: bv64, word: bv64, m: bv64, x: bv64, y: bv64)
    requires AgreeIn(t, u, m) && IsSum(x, t, word) && IsSum(y, u, word)
    ensures AgreeIn(x, y, m)
  {
    SameDifference(t, u, word, m);
  }

  lemma SameDifference(t: bv64, u: bv64, word: bv64, m: bv64)
    requires (t - u) & m == 0
    ensures ((t + word) - (u + word)) & m == 0
  {
  }

  lemma {:induction false} HashesAgree(table: bv8 -> bv64, a: Bytes, b: Bytes, c: Bytes)
    ensures AgreeIn(Hash(GearHash(table), a + c), Hash(GearHash(table), b + c), LowBits(|c|))
    decreases |c|
  {
    if c != [] {
      var init, x := c[..|c| - 1], c[|c| - 1];
      HashesAgree(table, a, b, init);
      AgreeAfter(table, a, b, init, x);
      assert c == init + [x];
    }
  }

  lemma AgreeAfter(table: bv8 -> bv64, a: Bytes, b: Bytes, c: Bytes, x: bv8)
    requires AgreeIn(Hash(GearHash(table), a + c), Hash(GearHash(table), b + c), LowBits(|c|))
    ensures AgreeIn(Hash(GearHash(table), a + (c + [x])), Hash(GearHash(table), b + (c + [x])), LowBits(|c + [x]|))
  {
    HashAppends(table, a, c, x);
    HashAppends(table, b, c, x);
    AgreeInMore(Hash(GearHash(table), a + c), Hash(GearHash(table), b + c), table(x), LowBits(|c|));
  }

  lemma HashAppends(table: bv8 -> bv64, a: Bytes, c: Bytes, b: bv8)
    ensures Hash(GearHash(table), a + (c + [b])) == Sum(Twice(Hash(GearHash(table), a + c)), table(b))
  {
    assert a + (c + [b]) == (a + c) + [b];
    HashStep(GearHash(table), a + c, b);
  }

  lemma AgreeInAll(h: bv64, g: bv64)
    requires AgreeIn(h, g, 0xFFFF_FFFF_FFFF_FFFF)
    ensures h == g
  {
  }

  /** The hash of 64 bytes or more is that of the last 64. */
  lemma HashIsOfTheWindow(table: bv8 -> bv64, before: Bytes, window: Bytes)
    requires |window| == 64
    ensures Hash(GearHash(table), before + window) == Hash(GearHash(table), window)
  {
    HashesAgree(table, before, [], window);
    AllBits();
    AgreeInAll(Hash(GearHash(table), before + window), Hash(GearHash(table), [] + window));
    assert [] + window == window;
  }

  /** Short of the largest chunk, whether a chunk ends depends on its last 64 bytes alone:
      so two parties that share 64 bytes are likely to cut there alike. */
  lemma CutIsOfTheWindow(table: bv8 -> bv64, a: Bytes, b: Bytes, window: Bytes)
    requires |window| == 64 && 4096 <= |a + window| < 65536 && 4096 <= |b + window| < 65536
    ensures Cuts(GearHash(table), a + window) <==> Cuts(GearHash(table), b + window)
  {
    HashIsOfTheWindow(table, a, window);
    HashIsOfTheWindow(table, b, window);
  }

  // ----- what the pinned hash is

  // Addition and doubling are parameters of what is only about the order of the bytes.

  type Plus = (bv64, bv64) -> bv64

  type Double = bv64 -> bv64

  function Doubled(twice: Double, word: bv64, k: nat): bv64 {
    if k == 0 then word else twice(Doubled(twice, word, k - 1))
  }

  /** The sum of the bytes' words, each doubled once for every byte that follows it. */
  function GearSum(plus: Plus, twice: Double, table: bv8 -> bv64, c: Bytes): bv64 {
    if c == [] then 0 else plus(Doubled(twice, table(c[0]), |c| - 1), GearSum(plus, twice, table, c[1..]))
  }

  predicate DistributesAt(plus: Plus, twice: Double, a: bv64, b: bv64, word: bv64) {
    plus(twice(plus(a, b)), word) == plus(twice(a), plus(twice(b), word))
  }

  predicate UnitAt(plus: Plus, twice: Double, word: bv64) { plus(word, 0) == word == plus(twice(0), word) }

  ghost predicate Distributes(plus: Plus, twice: Double) {
    && (forall a, b, word {:trigger DistributesAt(plus, twice, a, b, word)} :: DistributesAt(plus, twice, a, b, word))
    && (forall word {:trigger UnitAt(plus, twice, word)} :: UnitAt(plus, twice, word))
  }

  lemma TwiceOfSum(s: bv64, a: bv64, b: bv64, s2: bv64, a2: bv64, b2: bv64)
    requires IsSum(s, a, b) && IsTwice(s2, s) && IsTwice(a2, a) && IsTwice(b2, b)
    ensures IsSum(s2, a2, b2)
  {
  }

  lemma SumsRegroup(x: bv64, y: bv64, z: bv64, word: bv64, u: bv64, v: bv64)
    requires IsSum(x, y, z) && IsSum(u, x, word) && IsSum(v, z, word)
    ensures IsSum(u, y, v)
  {
  }

  lemma SumOf(s: bv64, a: bv64, b: bv64)
    requires IsSum(s, a, b)
    ensures s == Sum(a, b)
  {
  }

  lemma SumsDistribute()
    ensures Distributes(Sum, Twice)
  {
    forall a, b, word ensures DistributesAt(Sum, Twice, a, b, word) { SumDistributes(a, b, word); }
    forall word ensures UnitAt(Sum, Twice, word) { SumOfNone(word); }
  }

  lemma SumDistributes(a: bv64, b: bv64, word: bv64)
    ensures DistributesAt(Sum, Twice, a, b, word)
  {
    var s := Sum(a, b);
    SumIs(a, b);
    TwiceIs(s);
    TwiceIs(a);
    TwiceIs(b);
    TwiceOfSum(s, a, b, Twice(s), Twice(a), Twice(b));
    SumIs(Twice(s), word);
    SumIs(Twice(b), word);
    SumsRegroup(Twice(s), Twice(a), Twice(b), word, Sum(Twice(s), word), Sum(Twice(b), word));
    SumOf(Sum(Twice(s), word), Twice(a), Sum(Twice(b), word));
  }

  lemma SumOfNone(word: bv64)
    ensures UnitAt(Sum, Twice, word)
  {
  }

  lemma {:induction false} SumAppends(plus: Plus, twice: Double, table: bv8 -> bv64, c: Bytes, b: bv8)
    requires Distributes(plus, twice)
    ensures GearSum(plus, twice, table, c + [b]) == plus(twice(GearSum(plus, twice, table, c)), table(b))
  {
    if c == [] {
      assert c + [b] == [b] && [b][1..] == [];
      assert UnitAt(plus, twice, table(b));
    } else {
      assert (c + [b])[1..] == c[1..] + [b];
      SumAppends(plus, twice, table, c[1..], b);
      assert DistributesAt(plus, twice, Doubled(twice, table(c[0]), |c| - 1), GearSum(plus, twice, table, c[1..]), table(b));
    }
  }

  predicate RollsAt(plus: Plus, twice: Double, table: bv8 -> bv64, gear: Rolling<bv64>, h: bv64, b: bv8) {
    gear.roll(h, b) == plus(twice(h), table(b))
  }

  lemma {:induction false} HashSums(plus: Plus, twice: Double, table: bv8 -> bv64, gear: Rolling<bv64>, c: Bytes)
    requires Distributes(plus, twice) && gear.start == 0
    requires forall h, b {:trigger RollsAt(plus, twice, table, gear, h, b)} :: RollsAt(plus, twice, table, gear, h, b)
    ensures Hash(gear, c) == GearSum(plus, twice, table, c)
  {
    if c != [] {
      var init, b := c[..|c| - 1], c[|c| - 1];
      HashSums(plus, twice, table, gear, init);
      assert c == init + [b];
      SumAppends(plus, twice, table, init, b);
      assert RollsAt(plus, twice, table, gear, Hash(gear, init), b);
    }
  }

  lemma HashIsSum(table: bv8 -> bv64, c: Bytes)
    ensures Hash(GearHash(table), c) == GearSum(Sum, Twice, table, c)
  {
    SumsDistribute();
    forall h, b ensures RollsAt(Sum, Twice, table, GearHash(table), h, b) { RollsSum(table, h, b); }
    HashSums(Sum, Twice, table, GearHash(table), c);
  }

  lemma RollsSum(table: bv8 -> bv64, h: bv64, b: bv8)
    ensures RollsAt(Sum, Twice, table, GearHash(table), h, b)
  {
  }

  lemma TopBits(h: bv64)
    ensures TopBitsClear(h) <==> h < 0x0004_0000_0000_0000
  {
  }

  /** Where the pinned chunker cuts: nowhere before 4096 bytes, always at 65536, and between
      them where the sum is below 2^50, that is, has its top fourteen bits clear. */
  lemma CutsExactly(table: bv8 -> bv64, c: Bytes)
    requires |c| <= 65536
    ensures Cuts(GearHash(table), c) <==>
              |c| == 65536 || (|c| >= 4096 && GearSum(Sum, Twice, table, c) < 0x0004_0000_0000_0000)
  {
    HashIsSum(table, c);
    TopBits(Hash(GearHash(table), c));
  }

  /** Whether a chunk ends with the last byte of `c`, having begun with its first. */
  predicate Cuts<H>(gear: Rolling<H>, c: Bytes) {
    (|c| >= MIN_CHUNK && gear.cuts(Hash(gear, c))) || |c| == MAX_CHUNK
  }

  predicate NoCutWithin<H>(gear: Rolling<H>, s: Bytes, k: nat)
    requires k <= |s|
  {
    forall m :: 0 < m <= k ==> !Cuts(gear, s[..m])
  }

  /** The length of the first chunk of `s`, of which `k` bytes bring no cut. */
  function FirstLength<H>(gear: Rolling<H>, s: Bytes, k: nat): (n: nat)
    requires k <= |s| && NoCutWithin(gear, s, k)
    ensures k <= n <= |s| && (k < |s| ==> k < n)
    ensures n < |s| ==> Cuts(gear, s[..n])
    ensures n == 0 || NoCutWithin(gear, s, n - 1)
    decreases |s| - k
  {
    if k == |s| then k
    else if Cuts(gear, s[..k + 1]) then k + 1
    else FirstLength(gear, s, k + 1)
  }

  /** The chunks of a byte sequence, as a function of the bytes alone. */
  function Chunks<H>(gear: Rolling<H>, s: Bytes): seq<Bytes>
    decreases |s|
  {
    if s == [] then []
    else
      var n := FirstLength(gear, s, 0);
      [s[..n]] + Chunks(gear, s[n..])
  }

  function Concat(parts: seq<Bytes>): Bytes {
    if parts == [] then [] else parts[0] + Concat(parts[1..])
  }

  lemma {:induction false} ConcatAppend(a: seq<Bytes>, b: seq<Bytes>)
    ensures Concat(a + b) == Concat(a) + Concat(b)
  {
    if a == [] {
      assert a + b == b;
    } else {
      assert (a + b)[1..] == a[1..] + b;
      ConcatAppend(a[1..], b);
    }
  }

  // ----- what the chunks of any input are like

  lemma FirstAtMost<H>(gear: Rolling<H>, s: Bytes)
    ensures FirstLength(gear, s, 0) <= MAX_CHUNK
  {
    var n := FirstLength(gear, s, 0);
    if n > MAX_CHUNK { assert Cuts(gear, s[..MAX_CHUNK]); }
  }

  /** The chunks tile the input in order, and all but the last are of legal size. */
  lemma {:induction false} ChunksTile<H>(gear: Rolling<H>, s: Bytes)
    ensures Concat(Chunks(gear, s)) == s
    ensures forall i :: 0 <= i < |Chunks(gear, s)| ==> 0 < |Chunks(gear, s)[i]| <= MAX_CHUNK
    ensures forall i :: 0 <= i < |Chunks(gear, s)| - 1 ==> MIN_CHUNK <= |Chunks(gear, s)[i]|
    decreases |s|
  {
    if s != [] {
      var n := FirstLength(gear, s, 0);
      var rest := Chunks(gear, s[n..]);
      ChunksTile(gear, s[n..]);
      FirstAtMost(gear, s);
      assert Chunks(gear, s)[1..] == rest;
      assert s == s[..n] + s[n..];
    }
  }

  /** If the chunk that begins `s` is `c` and nothing more, `s` is cut after it. */
  lemma FirstChunkIs<H>(gear: Rolling<H>, c: Bytes, rest: Bytes)
    requires c != [] && NoCutWithin(gear, c, |c| - 1) && (Cuts(gear, c) || rest == [])
    ensures Chunks(gear, c + rest) == [c] + Chunks(gear, rest)
  {
    var s, n := c + rest, FirstLength(gear, c + rest, 0);
    assert forall m :: 0 <= m <= |c| ==> s[..m] == c[..m];
    assert c[..|c|] == c;
    assert s[|c|..] == rest;
  }

  // ----- resynchronisation

  /** Whether a chunk of `s` begins at `k`, or the last one ends there. */
  predicate CutAt<H>(gear: Rolling<H>, s: Bytes, k: nat)
    decreases |s|
  {
    k == 0 || (s != [] && var n := FirstLength(gear, s, 0); n <= k && CutAt(gear, s[n..], k - n))
  }

  lemma {:induction false} ChunksFromCut<H>(gear: Rolling<H>, s: Bytes, k: nat) returns (j: nat)
    requires CutAt(gear, s, k)
    ensures k <= |s| && j <= |Chunks(gear, s)|
    ensures Chunks(gear, s)[j..] == Chunks(gear, s[k..]) && Concat(Chunks(gear, s)[..j]) == s[..k]
    decreases |s|
  {
    if k == 0 {
      j := 0;
      assert s[0..] == s;
    } else {
      var n := FirstLength(gear, s, 0);
      var i := ChunksFromCut(gear, s[n..], k - n);
      j := i + 1;
      SplitLater(s, n, k);
      ConsSlices(s[..n], Chunks(gear, s[n..]), i);
    }
  }

  lemma SplitLater(s: Bytes, n: nat, k: nat)
    requires n <= k <= |s|
    ensures s[n..][k - n..] == s[k..] && s[..n] + s[n..][..k - n] == s[..k]
  {
  }

  lemma ConsSlices(first: Bytes, parts: seq<Bytes>, i: nat)
    requires i <= |parts|
    ensures ([first] + parts)[i + 1..] == parts[i..]
    ensures Concat(([first] + parts)[..i + 1]) == first + Concat(parts[..i])
  {
    assert ([first] + parts)[..i + 1][1..] == parts[..i];
  }

  /** Two inputs with an equal suffix that are both cut where it begins have the
      same chunks from there on. */
  lemma SuffixResynchronises<H>(gear: Rolling<H>, a: Bytes, b: Bytes, suffix: Bytes) returns (i: nat, j: nat)
    requires CutAt(gear, a + suffix, |a|) && CutAt(gear, b + suffix, |b|)
    ensures i <= |Chunks(gear, a + suffix)| && j <= |Chunks(gear, b + suffix)|
    ensures Concat(Chunks(gear, a + suffix)[..i]) == a && Concat(Chunks(gear, b + suffix)[..j]) == b
    ensures Chunks(gear, a + suffix)[i..] == Chunks(gear, b + suffix)[j..]
  {
    i := ChunksFromCut(gear, a + suffix, |a|);
    j := ChunksFromCut(gear, b + suffix, |b|);
    assert (a + suffix)[|a|..] == suffix && (b + suffix)[|b|..] == suffix;
    assert (a + suffix)[..|a|] == a && (b + suffix)[..|b|] == b;
  }

  // ----- the streaming loop

  /** One answer of the reader: some bytes, none at the end, or an error. */
  datatype Read = Got(bytes: Bytes) | Broken

  /** The bytes read up to the end, or up to an error. */
  function Stream(blocks: seq<Read>): Bytes {
    if blocks == [] || blocks[0].Broken? || blocks[0].bytes == [] then []
    else blocks[0].bytes + Stream(blocks[1..])
  }

  predicate ReadsThrough(blocks: seq<Read>) {
    blocks == [] || (blocks[0].Got? && (blocks[0].bytes == [] || ReadsThrough(blocks[1..])))
  }

  type Digest = Bytes -> Bytes

  datatype Found = Found(offset: nat, length: nat, sha: Bytes)

  function Report(digest: Digest, parts: seq<Bytes>): seq<Found> {
    if parts == [] then []
    else
      var n := |parts| - 1;
      Report(digest, parts[..n]) + [Found(|Concat(parts[..n])|, |parts[n]|, digest(parts[n]))]
  }

  /** The open chunk of a stream, after chunks `closed`, with `rest` to come. */
  ghost predicate Midway<H>(gear: Rolling<H>, all: Bytes, closed: seq<Bytes>, chunk: Bytes, rest: Bytes) {
    && Chunks(gear, all) == closed + Chunks(gear, chunk + rest)
    && NoCutWithin(gear, chunk, |chunk|)
  }

  lemma OneMoreByte<H>(gear: Rolling<H>, all: Bytes, closed: seq<Bytes>, chunk: Bytes, rest: Bytes)
    requires rest != [] && Midway(gear, all, closed, chunk, rest)
    ensures var c := chunk + [rest[0]];
            if Cuts(gear, c) then Midway(gear, all, closed + [c], [], rest[1..])
            else Midway(gear, all, closed, c, rest[1..])
  {
    var c := chunk + [rest[0]];
    assert chunk + rest == c + rest[1..];
    assert forall m :: 0 <= m <= |chunk| ==> c[..m] == chunk[..m];
    if Cuts(gear, c) {
      FirstChunkIs(gear, c, rest[1..]);
      assert [] + rest[1..] == rest[1..];
      assert closed + ([c] + Chunks(gear, rest[1..])) == closed + [c] + Chunks(gear, rest[1..]);
    } else {
      assert c[..|c|] == c;
    }
  }

  lemma HashStep<H>(gear: Rolling<H>, chunk: Bytes, b: bv8)
    ensures Hash(gear, chunk + [b]) == gear.roll(Hash(gear, chunk), b)
  {
    assert (chunk + [b])[..|chunk|] == chunk;
  }

  lemma ReportStep(digest: Digest, closed: seq<Bytes>, c: Bytes)
    ensures Report(digest, closed + [c]) == Report(digest, closed) + [Found(|Concat(closed)|, |c|, digest(c))]
    ensures Concat(closed + [c]) == Concat(closed) + c
  {
    assert (closed + [c])[..|closed|] == closed;
    ConcatAppend(closed, [c]);
    assert Concat([c]) == c + Concat([]);
  }

  /** Where the loop stands: the chunks closed are reported, and the open one hashed. */
  ghost predicate Standing<H>(gear: Rolling<H>, digest: Digest, all: Bytes, closed: seq<Bytes>, rest: Bytes,
                              chunk: Bytes, hash: H, offset: nat, found: seq<Found>) {
    && Midway(gear, all, closed, chunk, rest)
    && hash == Hash(gear, chunk) && found == Report(digest, closed) && offset == |Concat(closed)|
    && offset + |chunk| + |rest| == |all|
  }

  /** Take one block byte by byte. */
  method ChunkBlock<H>(gear: Rolling<H>, digest: Digest, buffer: Bytes, chunk: Bytes, hash: H, offset: nat,
                       found: seq<Found>, ghost all: Bytes, ghost closed: seq<Bytes>, ghost later: Bytes)
    returns (chunk': Bytes, hash': H, offset': nat, found': seq<Found>, ghost closed': seq<Bytes>)
    requires Standing(gear, digest, all, closed, buffer + later, chunk, hash, offset, found)
    ensures Standing(gear, digest, all, closed', later, chunk', hash', offset', found')
  {
    chunk', hash', offset', found', closed' := chunk, hash, offset, found, closed;
    var i := 0;
    assert buffer[0..] == buffer;
    while i < |buffer|
      invariant 0 <= i <= |buffer|
      invariant Standing(gear, digest, all, closed', buffer[i..] + later, chunk', hash', offset', found')
    {
      OneMoreByte(gear, all, closed', chunk', buffer[i..] + later);
      assert (buffer[i..] + later)[1..] == buffer[i + 1..] + later;
      HashStep(gear, chunk', buffer[i]);
      chunk' := chunk' + [buffer[i]];
      hash' := gear.roll(hash', buffer[i]);
      var length := |chunk'|;
      if (length >= MIN_CHUNK && gear.cuts(hash')) || length == MAX_CHUNK {
        ReportStep(digest, closed', chunk');
        closed' := closed' + [chunk'];
        found' := found' + [Found(offset', length, digest(chunk'))];
        offset' := offset' + length;
        chunk' := [];
        hash' := gear.start;
      }
      i := i + 1;
    }
    assert buffer[i..] + later == later;
  }

  /**
   Cut what the reader gives, however it splits it: the chunks reported, in
   order and at their offsets, are those of the bytes read.
   */
  method Chunk<H>(gear: Rolling<H>, digest: Digest, blocks: seq<Read>) returns (found: seq<Found>, total: Result<nat>)
    ensures total.Ok? <==> ReadsThrough(blocks)
    ensures total.Ok? ==> found == Report(digest, Chunks(gear, Stream(blocks))) && total.value == |Stream(blocks)|
  {
    ghost var all, closed: seq<Bytes> := Stream(blocks), [];
    var chunk: Bytes, offset: nat, hash := [], 0, gear.start;
    found := [];
    var r := 0;
    assert blocks[0..] == blocks;
    StandsAtStart(gear, digest, all);
    while r < |blocks|
      invariant 0 <= r <= |blocks|
      invariant Standing(gear, digest, all, closed, Stream(blocks[r..]), chunk, hash, offset, found)
      invariant ReadsThrough(blocks) == ReadsThrough(blocks[r..])
    {
      StreamStep(blocks, r);
      if blocks[r].Broken? {
        return found, Err;
      }
      var buffer := blocks[r].bytes;
      if buffer == [] {
        break;
      }
      chunk, hash, offset, found, closed :=
        ChunkBlock(gear, digest, buffer, chunk, hash, offset, found, all, closed, Stream(blocks[r + 1..]));
      r := r + 1;
    }
    Ends(gear, digest, all, closed, chunk, hash, offset, found);
    if chunk != [] {
      found := found + [Found(offset, |chunk|, digest(chunk))];
      offset := offset + |chunk|;
    }
    total := Ok(offset);
  }

  lemma Ends<H>(gear: Rolling<H>, digest: Digest, all: Bytes, closed: seq<Bytes>,
                chunk: Bytes, hash: H, offset: nat, found: seq<Found>)
    requires Standing(gear, digest, all, closed, [], chunk, hash, offset, found)
    ensures Report(digest, Chunks(gear, all)) ==
              if chunk == [] then found else found + [Found(offset, |chunk|, digest(chunk))]
    ensures offset + |chunk| == |all|
  {
    LastChunk(gear, all, closed, chunk);
    ReportStep(digest, closed, chunk);
  }

  lemma StandsAtStart<H>(gear: Rolling<H>, digest: Digest, all: Bytes)
    ensures Standing(gear, digest, all, [], all, [], gear.start, 0, [])
  {
    assert [] + all == all;
    assert [] + Chunks(gear, all) == Chunks(gear, all);
  }

  lemma StreamStep(blocks: seq<Read>, r: nat)
    requires r < |blocks|
    ensures blocks[r].Broken? ==> !ReadsThrough(blocks[r..])
    ensures !blocks[r].Broken? && blocks[r].bytes == [] ==> Stream(blocks[r..]) == [] && ReadsThrough(blocks[r..])
    ensures !blocks[r].Broken? && blocks[r].bytes != [] ==>
              && Stream(blocks[r..]) == blocks[r].bytes + Stream(blocks[r + 1..])
              && ReadsThrough(blocks[r..]) == ReadsThrough(blocks[r + 1..])
  {
    assert blocks[r..][1..] == blocks[r + 1..];
  }

  lemma LastChunk<H>(gear: Rolling<H>, all: Bytes, closed: seq<Bytes>, chunk: Bytes)
    requires Midway(gear, all, closed, chunk, [])
    ensures Chunks(gear, all) == if chunk == [] then closed else closed + [chunk]
  {
    assert chunk + [] == chunk;
    if chunk != [] { FirstChunkIs(gear, chunk, []); }
  }
}
