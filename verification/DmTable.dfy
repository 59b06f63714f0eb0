/**
 Device-mapper replies: the checked status of a mapped device, and the table of
 targets the kernel appends to it as records linked by offsets.
 */
module DmTable {
  import opened Base
  import opened Integers
  import opened LinkedRecords
  import opened Strings

  /** Flags, by the number of their bit. */
  type Flags = set<nat>

  const READONLY: nat := 0
  const TABLE: nat := 4
  const ACTIVE: nat := 5
  const FULL: nat := 8

  const HEADER: nat := 312
  const RECORD: nat := 40
  const U64: nat := 0x1_0000_0000_0000_0000

  /** How the machine reads the bytes of a number: its own byte order. */
  type Numbers = Bytes -> nat

  datatype Reply = Reply(
    version: nat, dataSize: nat, dataStart: nat, targetCount: nat, openCount: int, flags: Flags,
    event: nat, padding: nat, device: nat, name: Bytes, uuid: Bytes, data: Bytes)

  datatype Status = Status(device: nat, name: Bytes, uuid: Bytes, targets: nat, openCount: int, event: nat)

  datatype Target = Target(sector: nat, length: nat, kind: Bytes, parameters: Bytes)

  predicate Graphic(b: bv8) { 33 <= b <= 126 }

  predicate AllGraphic(s: Bytes) { forall i :: 0 <= i < |s| ==> Graphic(s[i]) }

  predicate PlainParameters(s: Bytes) { forall i :: 0 <= i < |s| ==> Graphic(s[i]) || s[i] == 32 }

  function RoundUp8(n: nat): (r: nat)
    ensures n <= r < n + 8 && r % 8 == 0
  {
    (n + 7) / 8 * 8
  }

  // ----- fixed-width strings

  /** `field` starts with the non-empty graphic text `s` and a NUL. */
  predicate Holds(field: Bytes, s: Bytes) {
    && |s| < |field| && s != [] && field[..|s|] == s && field[|s|] == 0
    && forall i :: 0 <= i < |s| ==> 33 <= s[i] <= 126
  }

  function DmString(field: Bytes): Result<Bytes> {
    var end := IndexOf(field, 0);
    if end == |field| || end == 0 || !AllGraphic(field[..end]) then Err else Ok(field[..end])
  }

  function PutString(width: nat, value: Bytes): Result<Bytes> {
    if value == [] || |value| >= width || !AllGraphic(value) then Err
    else Ok(value + seq(width - |value|, _ => 0))
  }

  lemma NoNulBefore(s: Bytes, i: nat, n: nat)
    requires i <= |s| && 0 !in s[..i] && n < |s| && s[n] == 0
    ensures i <= n
  {
    assert forall k :: 0 <= k < i ==> s[k] == s[..i][k];
  }

  lemma NulIsAt(s: Bytes, n: nat)
    requires n < |s| && s[n] == 0 && forall i :: 0 <= i < n ==> s[i] != 0
    ensures IndexOf(s, 0) == n
  {
    var i := IndexOf(s, 0);
    NoNulBefore(s, i, n);
  }

  lemma StringReads(field: Bytes, s: Bytes)
    ensures DmString(field) == Ok(s) <==> Holds(field, s)
  {
    if Holds(field, s) {
      assert forall i :: 0 <= i < |s| ==> field[i] == s[i];
      NulIsAt(field, |s|);
    }
  }

  /** What fits the field is read back from it, and nothing else is put there. */
  lemma PutStringReadsBack(width: nat, value: Bytes)
    ensures PutString(width, value).Ok? <==>
              0 < |value| < width && forall i :: 0 <= i < |value| ==> 33 <= value[i] <= 126
    ensures PutString(width, value).Ok? ==>
              |PutString(width, value).value| == width && DmString(PutString(width, value).value) == Ok(value)
  {
    if PutString(width, value).Ok? {
      StringReads(PutString(width, value).value, value);
    }
  }

  // ----- the status

  predicate ValidHeader(r: Reply, capacity: nat) {
    r.version == 4 && 305 <= r.dataSize <= capacity && r.dataStart == HEADER && r.padding == 0
  }

  function ParseStatus(r: Reply, capacity: nat, table: bool): Result<Status> {
    var required := {READONLY, ACTIVE} + if table then {TABLE} else {};
    var allowed := required + if table then {FULL} else {};
    if !ValidHeader(r, capacity) || !(required <= r.flags <= allowed)
       || !(1 <= r.targetCount <= 16) || r.openCount < 0 || (!table && r.dataSize != 305) || r.device == 0
    then Err
    else
      match (DmString(r.name), DmString(r.uuid))
      case (Ok(name), Ok(uuid)) => Ok(Status(r.device, name, uuid, r.targetCount, r.openCount, r.event))
      case _ => Err
  }

  /** A reply is accepted exactly when it is of an active, read-only device, with no flag but
      those asked for, and its texts are the ones its fields hold. The flags are by their
      bits: read-only is 0 and active 5; with a table, 4 asks for it and 8 says it did not
      fit. */
  lemma StatusIsChecked(r: Reply, capacity: nat, table: bool, s: Status)
    ensures ParseStatus(r, capacity, table) == Ok(s) <==>
              && r.version == 4 && r.dataStart == 312 && r.padding == 0
              && (if table then 305 <= r.dataSize <= capacity else r.dataSize == 305 <= capacity)
              && 0 in r.flags && 5 in r.flags && (4 in r.flags <==> table)
              && (forall bit :: bit in r.flags ==> bit == 0 || bit == 4 || bit == 5 || (bit == 8 && table))
              && 1 <= r.targetCount <= 16 && r.openCount >= 0 && r.device != 0
              && Holds(r.name, s.name) && Holds(r.uuid, s.uuid)
              && s == Status(r.device, s.name, s.uuid, r.targetCount, r.openCount, r.event)
  {
    StringReads(r.name, s.name);
    StringReads(r.uuid, s.uuid);
    FlagsRead(r.flags, table);
  }

  lemma FlagsRead(flags: Flags, table: bool)
    ensures var required := {READONLY, ACTIVE} + if table then {TABLE} else {};
            var allowed := required + if table then {FULL} else {};
            required <= flags <= allowed <==>
              && 0 in flags && 5 in flags && (4 in flags <==> table)
              && forall bit :: bit in flags ==> bit == 0 || bit == 4 || bit == 5 || (bit == 8 && table)
  {
  }

  // ----- what a table says

  /** Where a record's text ends, and where the next record starts. */
  function UsedAt(at: nat, t: Target): nat { at + RECORD + |t.parameters| + 1 }

  function NextAt(at: nat, t: Target): nat { RoundUp8(UsedAt(at, t)) }

  /** The bytes at `at` are the record of `t`: both numbers, a zero status, the next
      record's offset, and the kind and parameters up to their NULs. */
  ghost predicate RecordBytes(num: Numbers, data: Bytes, at: nat, t: Target) {
    && UsedAt(at, t) <= |data|
    && num(data[at..at + 8]) == t.sector
    && num(data[at + 8..at + 16]) == t.length
    && num(data[at + 16..at + 20]) == 0
    && num(data[at + 20..at + 24]) == NextAt(at, t)
    && Holds(data[at + 24..at + 40], t.kind)
    && data[at + 40..at + 40 + |t.parameters|] == t.parameters
    && data[at + 40 + |t.parameters|] == 0
  }

  /** The record fits where it is: it continues the sectors without overflow, and
      the last one ends the data while any other is followed by more. */
  ghost predicate RecordFits(end: nat, limit: nat, at: nat, sector: nat, t: Target, last: bool) {
    && t.sector == sector && t.length > 0 && sector + t.length < 0x1_0000_0000_0000_0000
    && (forall i :: 0 <= i < |t.parameters| ==> 32 <= t.parameters[i] <= 126)
    && NextAt(at, t) <= limit
    && (if last then UsedAt(at, t) == end else NextAt(at, t) < end)
  }

  ghost predicate RecordAt(num: Numbers, data: Bytes, limit: nat, at: nat, sector: nat, t: Target, last: bool) {
    RecordBytes(num, data, at, t) && RecordFits(|data|, limit, at, sector, t, last)
  }

  /** Of two plain texts at the head of `s`, one ended by a NUL is not the shorter. */
  lemma NotLonger(s: Bytes, a: Bytes, b: Bytes)
    requires |a| < |s| && |b| < |s| && s[..|a|] == a && s[..|b|] == b && s[|a|] == 0 && PlainParameters(b)
    ensures |b| <= |a|
  {
    assert forall k :: 0 <= k < |b| ==> b[k] == s[k];
  }

  lemma RecordIsUnique(num: Numbers, data: Bytes, limit: nat, at: nat, sector: nat, t: Target, u: Target, last: bool)
    requires RecordAt(num, data, limit, at, sector, t, last) && RecordAt(num, data, limit, at, sector, u, last)
    ensures t == u
  {
    StringReads(data[at + 24..at + 40], t.kind);
    StringReads(data[at + 24..at + 40], u.kind);
    NotLonger(data[at + 40..], t.parameters, u.parameters);
    NotLonger(data[at + 40..], u.parameters, t.parameters);
  }

  /** Where a record is, and the sector it must continue at. */
  datatype Place = Place(at: nat, sector: nat)

  function Advance(p: Place, t: Target): Place {
    Place(NextAt(p.at, t), p.sector + t.length)
  }

  const START := Place(0, 0)

  function Follow(ts: seq<Target>, k: nat): Place
    requires k <= |ts|
  {
    PlaceOf(START, Advance, ts, k)
  }

  ghost function ReaderOf(num: Numbers, data: Bytes, limit: nat): Reader<Place, Target> {
    Reader(START, Advance, (p: Place, t: Target, last: bool) => RecordAt(num, data, limit, p.at, p.sector, t, last))
  }

  lemma RecordsDecide(num: Numbers, data: Bytes, limit: nat)
    ensures Decides(ReaderOf(num, data, limit))
  {
    forall p: Place, t, u, last |
      RecordAt(num, data, limit, p.at, p.sector, t, last) && RecordAt(num, data, limit, p.at, p.sector, u, last)
      ensures t == u
    {
      RecordIsUnique(num, data, limit, p.at, p.sector, t, u, last);
    }
  }

  /** The reply is the expected device's whole table. */
  ghost predicate IsTableOf(r: Reply, capacity: nat, expected: Status) {
    && ParseStatus(r, capacity, true) == Ok(expected) && 8 !in r.flags
    && 312 <= r.dataSize && r.dataSize - 312 <= |r.data|
  }

  /** The reply is the expected device's whole table, and says its targets are `ts`. */
  ghost predicate TableIs(num: Numbers, r: Reply, capacity: nat, expected: Status, ts: seq<Target>) {
    && IsTableOf(r, capacity, expected)
    && Spells(ReaderOf(num, r.data[..r.dataSize - 312], capacity - 312), expected.targets, ts)
  }

  // ----- the parser

  /** The checks on a record's numbers. */
  predicate NumbersPass(num: Numbers, data: Bytes, limit: nat, at: nat, sector: nat, last: bool)
    requires at + RECORD <= |data|
  {
    var length, next := num(data[at + 8..at + 16]), num(data[at + 20..at + 24]);
    && num(data[at..at + 8]) == sector && length != 0 && num(data[at + 16..at + 20]) == 0
    && at + RECORD < next <= limit && next % 8 == 0
    && (if last then next == RoundUp8(|data|) else next < |data|)
    && sector + length < U64
  }

  /** The bytes a record's parameters are looked for in. */
  function Rest(num: Numbers, data: Bytes, at: nat, last: bool): Bytes
    requires at + RECORD <= |data|
    requires var next := num(data[at + 20..at + 24]); at + RECORD < next && (!last ==> next < |data|)
  {
    data[at + RECORD..if last then |data| else num(data[at + 20..at + 24])]
  }

  /** The checks on a record's texts. */
  predicate TextsPass(num: Numbers, data: Bytes, limit: nat, at: nat, sector: nat, last: bool)
    requires at + RECORD <= |data| && NumbersPass(num, data, limit, at, sector, last)
  {
    var rest := Rest(num, data, at, last);
    var nul := IndexOf(rest, 0);
    && nul < |rest| && PlainParameters(rest[..nul])
    && (last ==> at + RECORD + nul + 1 == |data|)
    && RoundUp8(at + RECORD + nul + 1) == num(data[at + 20..at + 24])
    && DmString(data[at + 24..at + 40]).Ok?
  }

  lemma RecordNumbersPass(num: Numbers, data: Bytes, limit: nat, at: nat, sector: nat, t: Target, last: bool)
    requires RecordAt(num, data, limit, at, sector, t, last)
    ensures at + RECORD <= |data| && NumbersPass(num, data, limit, at, sector, last)
  {
  }

  lemma ParametersEnd(num: Numbers, data: Bytes, limit: nat, at: nat, sector: nat, t: Target, last: bool)
    requires RecordAt(num, data, limit, at, sector, t, last)
    requires at + RECORD <= |data| && NumbersPass(num, data, limit, at, sector, last)
    ensures var rest := Rest(num, data, at, last);
            IndexOf(rest, 0) == |t.parameters| < |rest| && rest[..|t.parameters|] == t.parameters
  {
    var rest := Rest(num, data, at, last);
    NestedSlice(data, at + 40, at + 40 + |rest|, 0, |t.parameters|);
    assert data[at + 40 + |t.parameters|] == rest[|t.parameters|];
    assert forall i :: 0 <= i < |t.parameters| ==> rest[i] == t.parameters[i];
    NulIsAt(rest, |t.parameters|);
  }

  lemma RecordTextsPass(num: Numbers, data: Bytes, limit: nat, at: nat, sector: nat, t: Target, last: bool)
    requires RecordAt(num, data, limit, at, sector, t, last)
    requires at + RECORD <= |data| && NumbersPass(num, data, limit, at, sector, last)
    ensures TextsPass(num, data, limit, at, sector, last)
  {
    ParametersEnd(num, data, limit, at, sector, t, last);
    StringReads(data[at + 24..at + 40], t.kind);
  }

  /** The target a record's bytes are read as. */
  function TargetRead(num: Numbers, data: Bytes, limit: nat, at: nat, sector: nat, last: bool): Target
    requires at + RECORD <= |data| && NumbersPass(num, data, limit, at, sector, last)
    requires TextsPass(num, data, limit, at, sector, last)
  {
    var rest := Rest(num, data, at, last);
    Target(sector, num(data[at + 8..at + 16]), DmString(data[at + 24..at + 40]).value, rest[..IndexOf(rest, 0)])
  }

  lemma PassedFits(num: Numbers, data: Bytes, limit: nat, at: nat, sector: nat, last: bool)
    requires at + RECORD <= |data| && NumbersPass(num, data, limit, at, sector, last)
    requires TextsPass(num, data, limit, at, sector, last)
    ensures var t := TargetRead(num, data, limit, at, sector, last);
            RecordFits(|data|, limit, at, sector, t, last) && NextAt(at, t) == num(data[at + 20..at + 24])
  {
  }

  lemma PassedTexts(num: Numbers, data: Bytes, limit: nat, at: nat, sector: nat, last: bool)
    requires at + RECORD <= |data| && NumbersPass(num, data, limit, at, sector, last)
    requires TextsPass(num, data, limit, at, sector, last)
    ensures var t := TargetRead(num, data, limit, at, sector, last);
            && UsedAt(at, t) <= |data| && Holds(data[at + 24..at + 40], t.kind)
            && data[at + 40..at + 40 + |t.parameters|] == t.parameters && data[at + 40 + |t.parameters|] == 0
  {
    var rest := Rest(num, data, at, last);
    StringReads(data[at + 24..at + 40], DmString(data[at + 24..at + 40]).value);
    ParametersAt(data, at + 40, |rest|, rest, IndexOf(rest, 0));
  }

  lemma PassedIsRecord(num: Numbers, data: Bytes, limit: nat, at: nat, sector: nat, last: bool)
    requires at + RECORD <= |data| && NumbersPass(num, data, limit, at, sector, last)
    requires TextsPass(num, data, limit, at, sector, last)
    ensures var t := TargetRead(num, data, limit, at, sector, last);
            RecordAt(num, data, limit, at, sector, t, last) && NextAt(at, t) == num(data[at + 20..at + 24])
  {
    PassedFits(num, data, limit, at, sector, last);
    PassedTexts(num, data, limit, at, sector, last);
  }

  lemma ParametersAt(data: Bytes, from: nat, n: nat, rest: Bytes, nul: nat)
    requires from + n <= |data| && rest == data[from..from + n] && nul < n && rest[nul] == 0
    ensures data[from..from + nul] == rest[..nul] && data[from + nul] == 0
  {
    NestedSlice(data, from, from + n, 0, nul);
  }

  ghost predicate NoRecordAt(num: Numbers, data: Bytes, limit: nat, at: nat, sector: nat, last: bool) {
    forall t :: !RecordAt(num, data, limit, at, sector, t, last)
  }

  lemma RecordPasses(num: Numbers, data: Bytes, limit: nat, at: nat, sector: nat, last: bool)
    ensures NoRecordAt(num, data, limit, at, sector, last)
            || (&& at + RECORD <= |data| && NumbersPass(num, data, limit, at, sector, last)
                && TextsPass(num, data, limit, at, sector, last))
  {
    if t :| RecordAt(num, data, limit, at, sector, t, last) {
      RecordNumbersPass(num, data, limit, at, sector, t, last);
      RecordTextsPass(num, data, limit, at, sector, t, last);
    }
  }

  /** Read the record at `at`: the one target it can be of, or none. */
  method ReadRecord(num: Numbers, data: Bytes, limit: nat, at: nat, sector: nat, last: bool)
    returns (r: Result<Target>, next: nat)
    requires sector < U64
    ensures r.Ok? ==> RecordAt(num, data, limit, at, sector, r.value, last) && next == NextAt(at, r.value)
    ensures r.Err? ==> NoRecordAt(num, data, limit, at, sector, last)
  {
    RecordPasses(num, data, limit, at, sector, last);
    if at + RECORD > |data| || !NumbersPass(num, data, limit, at, sector, last) { return Err, 0; }
    if !TextsPass(num, data, limit, at, sector, last) { return Err, 0; }
    PassedIsRecord(num, data, limit, at, sector, last);
    r := Ok(TargetRead(num, data, limit, at, sector, last));
    next := num(data[at + 20..at + 24]);
  }

  /** Follow `n` records: the one list of targets they spell, or none. */
  method ReadRecords(num: Numbers, data: Bytes, limit: nat, n: nat) returns (result: Result<seq<Target>>)
    ensures forall ts :: Spells(ReaderOf(num, data, limit), n, ts) <==> result == Ok(ts)
  {
    ghost var f := ReaderOf(num, data, limit);
    RecordsDecide(num, data, limit);
    var at, sectorEnd, targets := 0, 0, [];
    for number := 0 to n
      invariant |targets| == number && SpellsFirst(f, n, targets, number)
      invariant 0 <= sectorEnd < U64 && Place(at, sectorEnd) == Follow(targets, number)
    {
      var record, next := ReadRecord(num, data, limit, at, sectorEnd, number + 1 == n);
      if record.Err? {
        assert AcceptsNone(f, Place(at, sectorEnd), number + 1 == n);
        forall ts ensures !Spells(f, n, ts) { SpellsNothing(f, n, targets, ts); }
        return Err;
      }
      SpellsOneMore(f, n, targets, record.value);
      targets := targets + [record.value];
      at, sectorEnd := next, sectorEnd + record.value.length;
    }
    forall ts | Spells(f, n, ts) ensures ts == targets { SpelledIsAll(f, n, targets, ts); }
    result := Ok(targets);
  }

  /** A table reply is read as the targets it says, and refused when it says none. */
  method ParseTable(num: Numbers, r: Reply, capacity: nat, expected: Status) returns (result: Result<seq<Target>>)
    ensures forall ts :: TableIs(num, r, capacity, expected, ts) <==> result == Ok(ts)
  {
    if ParseStatus(r, capacity, true) != Ok(expected) || FULL in r.flags
       || r.dataSize < HEADER || r.dataSize - HEADER > |r.data|
    {
      return Err;
    }
    var end := r.dataSize - HEADER;
    result := ReadRecords(num, r.data[..end], capacity - HEADER, expected.targets);
  }

  // ----- what follows for an accepted table

  lemma SpelledRecord(num: Numbers, data: Bytes, limit: nat, ts: seq<Target>, k: nat)
    requires Spells(ReaderOf(num, data, limit), |ts|, ts) && k < |ts|
    ensures ts[k].sector == Follow(ts, k).sector && ts[k].length > 0 && ts[k].sector + ts[k].length < U64
  {
    var f := ReaderOf(num, data, limit);
    assert Accepted(f, |ts|, ts, k);
  }

  lemma SpelledTile(num: Numbers, data: Bytes, limit: nat, ts: seq<Target>, k: nat)
    requires Spells(ReaderOf(num, data, limit), |ts|, ts) && k < |ts|
    ensures ts[k].sector == if k == 0 then 0 else ts[k - 1].sector + ts[k - 1].length
    ensures ts[k].length > 0 && ts[k].sector + ts[k].length < U64
  {
    SpelledRecord(num, data, limit, ts, k);
    if k > 0 { SpelledRecord(num, data, limit, ts, k - 1); }
  }

  /** The targets are as many as expected and tile the sectors from 0 without a gap or overflow. */
  lemma TargetsTile(num: Numbers, r: Reply, capacity: nat, expected: Status, ts: seq<Target>, k: nat)
    requires TableIs(num, r, capacity, expected, ts) && k < |ts|
    ensures 1 <= |ts| == r.targetCount <= 16
    ensures ts[k].sector == if k == 0 then 0 else ts[k - 1].sector + ts[k - 1].length
    ensures ts[k].length > 0 && ts[k].sector + ts[k].length < 0x1_0000_0000_0000_0000
  {
    SpelledTile(num, r.data[..r.dataSize - HEADER], capacity - HEADER, ts, k);
  }

  // ----- the kernel's encoding

  /** A target the kernel can report: its numbers fit, its kind fits 16 bytes. */
  predicate Reportable(t: Target) {
    && 0 < t.length && t.sector + t.length < U64
    && 0 < |t.kind| < 16 && AllGraphic(t.kind) && PlainParameters(t.parameters)
  }

  /** A byte order reads back the 32- and 64-bit numbers it writes. */
  datatype ByteOrder = ByteOrder(read: Numbers, write: (nat, nat) -> Bytes) {
    ghost predicate Sound() {
      && (forall n: nat, k: nat :: |write(n, k)| == k)
      && (forall n: nat :: n < U64 ==> read(write(n, 8)) == n)
      && (forall n: nat :: n < 0x1_0000_0000 ==> read(write(n, 4)) == n)
    }
  }

  lemma LittleEndianIsSound()
    ensures ByteOrder(FromLe, ToLe).Sound()
  {
    forall n: nat | n < U64 ensures FromLe(ToLe(n, 8)) == n { Le64(n); }
    forall n: nat | n < 0x1_0000_0000 ensures FromLe(ToLe(n, 4)) == n { Le32(n); }
  }

  lemma BigEndianIsSound()
    ensures ByteOrder(FromBe, ToBe).Sound()
  {
    forall n: nat | n < U64 ensures FromBe(ToBe(n, 8)) == n { Be64(n); }
    forall n: nat | n < 0x1_0000_0000 ensures FromBe(ToBe(n, 4)) == n { SmallBe32(n); }
  }

  function Record(order: ByteOrder, t: Target, next: nat): Bytes
    requires |t.kind| < 16
  {
    order.write(t.sector, 8) + order.write(t.length, 8) + order.write(0, 4) + order.write(next, 4)
    + t.kind + seq(16 - |t.kind|, _ => 0) + t.parameters + [0]
  }

  /** Records are aligned to 8 bytes, with whatever the gaps hold; the last is not padded. */
  ghost predicate KernelWrote(order: ByteOrder, data: Bytes, ts: seq<Target>) {
    && ts != [] && |data| == UsedAt(Follow(ts, |ts| - 1).at, ts[|ts| - 1])
    && forall k {:trigger Continues(ts, k)} :: 0 <= k < |ts| ==>
         Continues(ts, k) && WroteRecord(order, data, Follow(ts, k).at, ts[k])
  }

  /** Target `k` is one the kernel can report, and starts where those before it end. */
  predicate Continues(ts: seq<Target>, k: nat)
    requires k < |ts|
  {
    Reportable(ts[k]) && ts[k].sector == Follow(ts, k).sector
  }

  ghost predicate WroteRecord(order: ByteOrder, data: Bytes, at: nat, t: Target)
    requires |t.kind| < 16
  {
    UsedAt(at, t) <= |data| && data[at..UsedAt(at, t)] == Record(order, t, NextAt(at, t))
  }

  lemma RecordLayout(order: ByteOrder, t: Target, next: nat)
    requires |t.kind| < 16 && order.Sound()
    ensures var b := Record(order, t, next);
            && |b| == 41 + |t.parameters| && b[0..8] == order.write(t.sector, 8) && b[8..16] == order.write(t.length, 8)
            && b[16..20] == order.write(0, 4) && b[20..24] == order.write(next, 4)
            && b[24..24 + |t.kind|] == t.kind && (forall i :: 24 + |t.kind| <= i < 40 ==> b[i] == 0)
            && b[40..40 + |t.parameters|] == t.parameters && b[40 + |t.parameters|] == 0
  {
  }

  lemma WrittenIsRecord(order: ByteOrder, data: Bytes, at: nat, t: Target)
    requires order.Sound() && Reportable(t) && WroteRecord(order, data, at, t) && NextAt(at, t) < 0x1_0000_0000
    ensures RecordBytes(order.read, data, at, t)
  {
    var next := NextAt(at, t);
    var b := Record(order, t, next);
    RecordLayout(order, t, next);
    var end := UsedAt(at, t);
    NestedSlice(data, at, end, 0, 8);
    NestedSlice(data, at, end, 8, 16);
    NestedSlice(data, at, end, 16, 20);
    NestedSlice(data, at, end, 20, 24);
    NestedSlice(data, at, end, 24, 40);
    NestedSlice(data, at, end, 40, 40 + |t.parameters|);
    NestedSlice(b, 24, 40, 0, |t.kind|);
    assert data[at + 40 + |t.parameters|] == b[40 + |t.parameters|];
    assert Holds(data[at + 24..at + 40], t.kind);
  }

  lemma {:induction false} OffsetsGrow(ts: seq<Target>, j: nat, k: nat)
    requires j <= k <= |ts|
    ensures Follow(ts, j).at <= Follow(ts, k).at
  {
    if j < k { OffsetsGrow(ts, j, k - 1); }
  }

  lemma KernelFits(order: ByteOrder, data: Bytes, limit: nat, ts: seq<Target>, k: nat)
    requires KernelWrote(order, data, ts) && Follow(ts, |ts|).at <= limit && k < |ts|
    ensures RecordFits(|data|, limit, Follow(ts, k).at, Follow(ts, k).sector, ts[k], k + 1 == |ts|)
    ensures NextAt(Follow(ts, k).at, ts[k]) <= limit && Reportable(ts[k]) && WroteRecord(order, data, Follow(ts, k).at, ts[k])
  {
    assert Continues(ts, k);
    assert Follow(ts, k + 1).at == NextAt(Follow(ts, k).at, ts[k]);
    OffsetsGrow(ts, k + 1, |ts|);
    if k + 1 < |ts| { OffsetsGrow(ts, k + 1, |ts| - 1); }
  }

  lemma KernelRecord(order: ByteOrder, data: Bytes, limit: nat, ts: seq<Target>, k: nat)
    requires order.Sound() && KernelWrote(order, data, ts) && Follow(ts, |ts|).at <= limit < 0x1_0000_0000 && k < |ts|
    ensures RecordAt(order.read, data, limit, Follow(ts, k).at, Follow(ts, k).sector, ts[k], k + 1 == |ts|)
  {
    KernelFits(order, data, limit, ts, k);
    WrittenIsRecord(order, data, Follow(ts, k).at, ts[k]);
  }

  lemma KernelSpells(order: ByteOrder, data: Bytes, limit: nat, ts: seq<Target>)
    requires order.Sound() && KernelWrote(order, data, ts) && Follow(ts, |ts|).at <= limit < 0x1_0000_0000
    ensures Spells(ReaderOf(order.read, data, limit), |ts|, ts)
  {
    var f := ReaderOf(order.read, data, limit);
    forall k | 0 <= k < |ts| ensures Accepted(f, |ts|, ts, k) {
      KernelRecord(order, data, limit, ts, k);
    }
  }

  /** Every table the kernel can report in the capacity is read back exactly. */
  lemma KernelTableReads(order: ByteOrder, r: Reply, capacity: nat, expected: Status, ts: seq<Target>)
    requires IsTableOf(r, capacity, expected) && |ts| == expected.targets
    requires order.Sound() && KernelWrote(order, r.data[..r.dataSize - HEADER], ts)
    requires HEADER + Follow(ts, |ts|).at <= capacity < 0x1_0000_0000
    ensures TableIs(order.read, r, capacity, expected, ts)
  {
    KernelSpells(order, r.data[..r.dataSize - HEADER], capacity - HEADER, ts);
  }

  /** A zero-padded image of the first `n` records. */
  ghost function Image(order: ByteOrder, ts: seq<Target>, n: nat): (b: Bytes)
    requires order.Sound() && n <= |ts| && forall k :: 0 <= k < |ts| ==> Reportable(ts[k])
    ensures n > 0 ==> |b| == UsedAt(Follow(ts, n - 1).at, ts[n - 1])
    ensures n == 0 ==> b == []
  {
    if n == 0 then []
    else
      var before := Image(order, ts, n - 1);
      before + seq(Follow(ts, n - 1).at - |before|, _ => 0) + Record(order, ts[n - 1], Follow(ts, n).at)
  }

  lemma ImageEnds(order: ByteOrder, ts: seq<Target>, n: nat)
    requires order.Sound() && 0 < n <= |ts| && forall i :: 0 <= i < |ts| ==> Reportable(ts[i])
    ensures var before := Image(order, ts, n - 1);
            && before <= Image(order, ts, n)
            && WroteRecord(order, Image(order, ts, n), Follow(ts, n - 1).at, ts[n - 1])
  {
    var b, before, t, at := Image(order, ts, n), Image(order, ts, n - 1), ts[n - 1], Follow(ts, n - 1).at;
    var gap, last := seq(at - |before|, _ => 0), Record(order, t, Follow(ts, n).at);
    assert b == before + gap + last == before + (gap + last);
    RecordLayout(order, t, NextAt(at, t));
    BackSlice(before + gap, last);
  }

  lemma WroteBefore(order: ByteOrder, a: Bytes, b: Bytes, at: nat, t: Target)
    requires Reportable(t) && WroteRecord(order, a, at, t) && a <= b
    ensures WroteRecord(order, b, at, t)
  {
    FrontSlice(a, b[|a|..], at, UsedAt(at, t));
    assert b == a + b[|a|..];
  }

  lemma {:induction false} ImageRecords(order: ByteOrder, ts: seq<Target>, n: nat, k: nat)
    requires order.Sound() && k < n <= |ts| && forall i :: 0 <= i < |ts| ==> Reportable(ts[i])
    ensures WroteRecord(order, Image(order, ts, n), Follow(ts, k).at, ts[k])
    decreases n
  {
    ImageEnds(order, ts, n);
    if k < n - 1 {
      ImageRecords(order, ts, n - 1, k);
      WroteBefore(order, Image(order, ts, n - 1), Image(order, ts, n), Follow(ts, k).at, ts[k]);
    }
  }

  /** The zero-padded image of any contiguous target list is one the kernel can write. */
  lemma ImageIsWritten(order: ByteOrder, ts: seq<Target>)
    requires order.Sound() && ts != [] && forall k {:trigger Continues(ts, k)} :: 0 <= k < |ts| ==> Continues(ts, k)
    ensures (forall k :: 0 <= k < |ts| ==> Reportable(ts[k])) && KernelWrote(order, Image(order, ts, |ts|), ts)
  {
    forall k | 0 <= k < |ts| ensures Reportable(ts[k]) { assert Continues(ts, k); }
    forall k | 0 <= k < |ts|
      ensures Continues(ts, k) && WroteRecord(order, Image(order, ts, |ts|), Follow(ts, k).at, ts[k])
    {
      ImageRecords(order, ts, |ts|, k);
    }
  }
}
