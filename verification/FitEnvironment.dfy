/**
 The boot records inside U-Boot's redundant environment: two copies, each with
 a CRC and an 8-bit flag that wraps, of which a save writes the inactive one.
 */
module FitEnvironment {
  import opened Base
  import opened Strings
  import opened BootRecords
  import opened Crc32

  const ENV_SIZE: nat := 65536
  /** `mica_entries=` */
  const KEY: Bytes := [109, 105, 99, 97, 95, 101, 110, 116, 114, 105, 101, 115, 61]
  /** The CRC and the flag. */
  const HEADER: nat := 5

  // ----- one copy

  function Zeros(n: nat): Bytes { seq(n, _ => 0) }

  function LeBytes(c: bv32): Bytes {
    [(c & 0xff) as bv8, ((c >> 8) & 0xff) as bv8, ((c >> 16) & 0xff) as bv8, ((c >> 24) & 0xff) as bv8]
  }

  /** A copy of `data` under `flag`. */
  function Sealed(flag: bv8, data: Bytes): Bytes {
    LeBytes(Crc(data)) + [flag] + data
  }

  function Data(text: Bytes): Bytes
    requires |text| <= MAX_TEXT
  {
    KEY + text + Zeros(ENV_SIZE - HEADER - |KEY| - |text|)
  }

  function Encode(rs: seq<Record>, flag: bv8): Result<Bytes> {
    var text := Render(rs);
    if text.Err? then Err else Ok(Sealed(flag, Data(text.value)))
  }

  predicate ValidCrc(b: Bytes) {
    |b| == ENV_SIZE && b[..4] == LeBytes(Crc(b[HEADER..]))
  }

  /** The key holds no zero, so the first zero of data that starts with it is
      after it. */
  lemma ZeroIsPastKey(data: Bytes)
    requires KEY <= data
    ensures |KEY| <= IndexOf(data, 0)
  {
    assert data == KEY + data[|KEY|..];
    assert 0 !in KEY;
    IndexOfAppend(KEY, data[|KEY|..], 0);
  }

  function DecodeData(data: Bytes): Result<seq<Record>> {
    if !(KEY <= data) then Err
    else
      ZeroIsPastKey(data);
      var end := IndexOf(data, 0);
      if end + 1 >= |data| || exists i :: end <= i < |data| && data[i] != 0 then Err
      else Parse(data[|KEY|..end])
  }

  function Decode(b: Bytes): Result<seq<Record>>
    requires |b| == ENV_SIZE
  {
    DecodeData(b[HEADER..])
  }

  lemma WrittenDataReads(text: Bytes)
    requires |text| <= MAX_TEXT && 0 !in text
    ensures DecodeData(Data(text)) == Parse(text)
  {
    TextEnds(text, Zeros(ENV_SIZE - HEADER - |KEY| - |text|));
  }

  lemma TextEnds(text: Bytes, zeros: Bytes)
    requires 0 !in text && |zeros| > 1 && forall i :: 0 <= i < |zeros| ==> zeros[i] == 0
    ensures DecodeData(KEY + text + zeros) == Parse(text)
  {
    var head := KEY + text;
    var data := head + zeros;
    assert 0 !in head;
    IndexOfAppend(head, zeros, 0);
    assert IndexOf(zeros, 0) == 0;
    assert data[|KEY|..|head|] == text;
    assert forall i :: |head| <= i < |data| ==> data[i] == zeros[i - |head|];
  }

  lemma DataShape(data: Bytes, end: nat)
    requires |data| == ENV_SIZE - HEADER && KEY <= data && |KEY| <= end <= |data| && end - |KEY| <= MAX_TEXT
    requires forall i :: end <= i < |data| ==> data[i] == 0
    ensures data == Data(data[|KEY|..end])
  {
    var zeros := data[end..];
    assert zeros == Zeros(|data| - end);
    assert data == data[..|KEY|] + data[|KEY|..end] + zeros;
  }

  lemma ReadDataIsWritten(data: Bytes) returns (text: Bytes)
    requires |data| == ENV_SIZE - HEADER && DecodeData(data).Ok?
    ensures |text| <= MAX_TEXT && data == Data(text) && Parse(text) == DecodeData(data)
  {
    ZeroIsPastKey(data);
    var end := IndexOf(data, 0);
    text := data[|KEY|..end];
    DataShape(data, end);
  }

  lemma DataReads(data: Bytes, rs: seq<Record>)
    requires |data| == ENV_SIZE - HEADER
    ensures DecodeData(data) == Ok(rs) <==> ValidRecords(rs) && |Text(rs)| <= MAX_TEXT && data == Data(Text(rs))
  {
    if ValidRecords(rs) && |Text(rs)| <= MAX_TEXT && data == Data(Text(rs)) {
      WrittenText(rs);
      TextReads(Text(rs), rs);
      WrittenDataReads(Text(rs));
    }
    if DecodeData(data) == Ok(rs) {
      var text := ReadDataIsWritten(data);
      TextReads(text, rs);
    }
  }

  lemma LeBytesInjective(a: bv32, b: bv32)
    requires LeBytes(a) == LeBytes(b)
    ensures a == b
  {
    assert LeBytes(a)[0] == LeBytes(b)[0] && LeBytes(a)[1] == LeBytes(b)[1];
    assert LeBytes(a)[2] == LeBytes(b)[2] && LeBytes(a)[3] == LeBytes(b)[3];
    SameBytes(a, b);
  }

  lemma SameBytes(a: bv32, b: bv32)
    requires (a & 0xff) as bv8 == (b & 0xff) as bv8 && ((a >> 8) & 0xff) as bv8 == ((b >> 8) & 0xff) as bv8
    requires ((a >> 16) & 0xff) as bv8 == ((b >> 16) & 0xff) as bv8
    requires ((a >> 24) & 0xff) as bv8 == ((b >> 24) & 0xff) as bv8
    ensures a == b
  {
  }

  lemma SealedCopy(b: Bytes, flag: bv8, data: Bytes)
    requires |b| == ENV_SIZE && |data| == ENV_SIZE - HEADER
    ensures ValidCrc(b) && b[4] == flag && b[HEADER..] == data <==> b == Sealed(flag, data)
  {
    if ValidCrc(b) && b[4] == flag && b[HEADER..] == data {
      assert b == b[..4] + [b[4]] + b[HEADER..];
    }
    if b == Sealed(flag, data) {
      assert b[..4] == LeBytes(Crc(data)) && b[4] == flag && b[HEADER..] == data;
    }
  }

  /**
   The bytes of a copy and its records under a flag determine each other: a copy
   passes its CRC and reads as a list exactly when the list is valid and the
   copy is how it is encoded.
   */
  lemma CopyReads(b: Bytes, flag: bv8, rs: seq<Record>)
    requires |b| == ENV_SIZE
    ensures ValidCrc(b) && b[4] == flag && Decode(b) == Ok(rs) <==> ValidRecords(rs) && Encode(rs, flag) == Ok(b)
  {
    DataReads(b[HEADER..], rs);
    TextReads(Text(rs), rs);
    if ValidRecords(rs) {
      WrittenText(rs);
      SealedCopy(b, flag, Data(Text(rs)));
    }
  }

  lemma EncodedCopy(rs: seq<Record>, flag: bv8)
    requires ValidRecords(rs)
    ensures Encode(rs, flag).Ok? && |Encode(rs, flag).value| == ENV_SIZE
    ensures var b := Encode(rs, flag).value;
            ValidCrc(b) && b[4] == flag && Decode(b) == Ok(rs)
  {
    TextReads(Text(rs), rs);
    WrittenText(rs);
    var b := Encode(rs, flag).value;
    CopyReads(b, flag, rs);
  }

  /** The word four bytes spell, the lowest first. */
  function LeWord(a: bv8, b: bv8, c: bv8, d: bv8): bv32 {
    (a as bv32) | ((b as bv32) << 8) | ((c as bv32) << 16) | ((d as bv32) << 24)
  }

  lemma LeBytesSpell(c: bv32)
    ensures LeWord(LeBytes(c)[0], LeBytes(c)[1], LeBytes(c)[2], LeBytes(c)[3]) == c
  {
    WordRestored(c);
  }

  lemma WordRestored(c: bv32)
    ensures LeWord((c & 0xff) as bv8, ((c >> 8) & 0xff) as bv8, ((c >> 16) & 0xff) as bv8, ((c >> 24) & 0xff) as bv8) == c
  {
  }

  /** Where everything is in a copy: the CRC of all that follows the flag, lowest byte first,
      the flag, `mica_entries=`, the records' text, and zeros up to 65536 bytes. */
  lemma CopyLayout(rs: seq<Record>, flag: bv8)
    requires ValidRecords(rs)
    ensures Encode(rs, flag).Ok? && |Encode(rs, flag).value| == 65536
    ensures var b, n := Encode(rs, flag).value, |Text(rs)|;
            && LeWord(b[0], b[1], b[2], b[3]) == Crc(b[5..]) && b[4] == flag && n < 1000
            && b[5..18] == [109, 105, 99, 97, 95, 101, 110, 116, 114, 105, 101, 115, 61]
            && b[18..18 + n] == Text(rs) && (forall i :: 18 + n <= i < 65536 ==> b[i] == 0)
  {
    EncodedCopy(rs, flag);
    WrittenText(rs);
    TextReads(Text(rs), rs);
    SealedLayout(flag, Text(rs));
  }

  lemma SealedLayout(flag: bv8, text: Bytes)
    requires |text| <= MAX_TEXT
    ensures var b, n := Sealed(flag, Data(text)), |text|;
            && |b| == 65536 && LeWord(b[0], b[1], b[2], b[3]) == Crc(b[5..]) && b[4] == flag
            && b[5..18] == [109, 105, 99, 97, 95, 101, 110, 116, 114, 105, 101, 115, 61]
            && b[18..18 + n] == text && (forall i :: 18 + n <= i < 65536 ==> b[i] == 0)
  {
    var data := Data(text);
    var b := Sealed(flag, data);
    assert b[5..] == data;
    LeBytesSpell(Crc(data));
    DataLayout(text);
    assert b[5..18] == data[..13] && b[18..18 + |text|] == data[13..13 + |text|];
    assert forall i :: 18 + |text| <= i < 65536 ==> b[i] == data[i - 5];
  }

  lemma DataLayout(text: Bytes)
    requires |text| <= MAX_TEXT
    ensures var d := Data(text);
            && |d| == 65531 && d[..13] == KEY && d[13..13 + |text|] == text
            && (forall i :: 13 + |text| <= i < 65531 ==> d[i] == 0)
  {
  }

  /** A copy damaged within four consecutive bytes of its data fails its CRC. */
  lemma DamageIsSeen(flag: bv8, before: Bytes, u: Bytes, v: Bytes, after: Bytes)
    requires |u| == |v| <= 4 && u != v
    ensures var damaged := LeBytes(Crc(before + u + after)) + [flag] + (before + v + after);
            !ValidCrc(damaged)
  {
    var damaged := LeBytes(Crc(before + u + after)) + [flag] + (before + v + after);
    assert damaged[HEADER..] == before + v + after;
    assert damaged[..4] == LeBytes(Crc(before + u + after));
    CrcSeparates(before, u, v, after);
    if ValidCrc(damaged) { LeBytesInjective(Crc(before + u + after), Crc(before + v + after)); }
  }

  // ----- the two copies

  datatype Environment = Environment(records: seq<Record>, slot: nat, flag: bv8)

  /** U-Boot's rule for two valid copies, wrap included. */
  predicate SecondIsNewer(a: bv8, b: bv8) {
    (a == 255 && b == 0) || (b > a && !(b == 255 && a == 0))
  }

  /** What a loader makes of one copy. */
  datatype View = View(valid: bool, flag: bv8, records: Result<seq<Record>>)

  function ViewOf(copy: Bytes): View {
    if ValidCrc(copy) then View(true, copy[4], Decode(copy)) else View(false, 0, Err)
  }

  /** The environment of the copy that is valid, or of the newer of two. */
  function Choose(a: View, b: View): Result<Environment> {
    var slot := if a.valid && b.valid then (if SecondIsNewer(a.flag, b.flag) then 1 else 0)
                else if b.valid then 1 else 0;
    var view := if slot == 0 then a else b;
    if !view.valid || view.records.Err? then Err else Ok(Environment(view.records.value, slot, view.flag))
  }

  function Load(copies: seq<Bytes>): Result<Environment>
    requires |copies| == 2
  {
    Choose(ViewOf(copies[0]), ViewOf(copies[1]))
  }

  lemma ChosenSlot(a: View, b: View)
    requires Choose(a, b).Ok?
    ensures var e := Choose(a, b).value;
            e.slot < 2 && (if e.slot == 0 then a else b) == View(true, e.flag, Ok(e.records))
  {
  }

  /** Of two flags that differ exactly one is newer. That is the larger, except that 0 comes
      after 255. */
  lemma FlagsDecide(a: bv8, b: bv8)
    ensures a != b ==> (SecondIsNewer(a, b) <==> !SecondIsNewer(b, a))
    ensures !SecondIsNewer(a, a) && SecondIsNewer(a, a + 1)
    ensures a < b && (a != 0 || b != 255) ==> SecondIsNewer(a, b)
  {
  }

  /** What is loaded: nothing without a valid copy, a lone valid one, or the newer of two.
      One whose records cannot be read is not replaced by the other. */
  lemma LoadedExactly(a: View, b: View)
    ensures !a.valid && !b.valid ==> Choose(a, b) == Err
    ensures a.valid && (!b.valid || a.flag == b.flag || SecondIsNewer(b.flag, a.flag)) ==>
              Choose(a, b) == if a.records.Ok? then Ok(Environment(a.records.value, 0, a.flag)) else Err
    ensures b.valid && (!a.valid || SecondIsNewer(a.flag, b.flag)) ==>
              Choose(a, b) == if b.records.Ok? then Ok(Environment(b.records.value, 1, b.flag)) else Err
  {
    FlagsDecide(a.flag, b.flag);
  }

  /** The flag after the active one wins, wrap included, in either slot; and a
      copy that is not valid loses to the active one. */
  lemma NextFlagIsChosen(a: View, b: View, rs: seq<Record>)
    requires Choose(a, b).Ok?
    ensures var e := Choose(a, b).value;
            var next := View(true, e.flag + 1, Ok(rs));
            && (if e.slot == 0 then Choose(a, next) else Choose(next, b)) == Ok(Environment(rs, 1 - e.slot, e.flag + 1))
            && forall bad: View :: !bad.valid ==> (if e.slot == 0 then Choose(a, bad) else Choose(bad, b)) == Ok(e)
  {
  }

  lemma EncodedView(rs: seq<Record>, flag: bv8)
    requires ValidRecords(rs)
    ensures Encode(rs, flag).Ok? && ViewOf(Encode(rs, flag).value) == View(true, flag, Ok(rs))
  {
    EncodedCopy(rs, flag);
  }

  /** A save in full is what the next load returns, whatever the other copy held
      and wherever the flag stands. */
  lemma SavedIsLoaded(copies: seq<Bytes>, rs: seq<Record>)
    requires |copies| == 2 && Load(copies).Ok? && ValidRecords(rs)
    ensures var e := Load(copies).value;
            && e.slot < 2 && Encode(rs, e.flag + 1).Ok?
            && Load(copies[1 - e.slot := Encode(rs, e.flag + 1).value]) ==
                 Ok(Environment(rs, 1 - e.slot, e.flag + 1))
  {
    var a, b := ViewOf(copies[0]), ViewOf(copies[1]);
    var e := Choose(a, b).value;
    ChosenSlot(a, b);
    EncodedView(rs, e.flag + 1);
    NextFlagIsChosen(a, b, rs);
  }

  /** What a write that was cut short leaves in the copy: the old bytes, the new
      ones, or bytes that fail their CRC. */
  predicate Torn(left: Bytes, was: Bytes, wanted: Bytes) {
    left == was || left == wanted || !ValidCrc(left)
  }

  lemma TornIsOldOrNew(copies: seq<Bytes>, rs: seq<Record>, left: Bytes)
    requires |copies| == 2 && Load(copies).Ok? && ValidRecords(rs) && Load(copies).value.slot < 2
    requires Encode(rs, Load(copies).value.flag + 1).Ok?
    requires Torn(left, copies[1 - Load(copies).value.slot], Encode(rs, Load(copies).value.flag + 1).value)
    ensures var e := Load(copies).value;
            var after := Load(copies[1 - e.slot := left]);
            after == Ok(e) || after == Ok(Environment(rs, 1 - e.slot, e.flag + 1))
  {
    var e := Load(copies).value;
    SavedIsLoaded(copies, rs);
    if left == copies[1 - e.slot] {
      assert copies[1 - e.slot := left] == copies;
    } else if !ValidCrc(left) {
      NextFlagIsChosen(ViewOf(copies[0]), ViewOf(copies[1]), rs);
      assert !ViewOf(left).valid;
    }
  }

  // ----- runs of saves

  /** A save that completed, or one that was cut and what it left. */
  datatype Attempt = Completed(records: seq<Record>) | CutShort(records: seq<Record>, left: Bytes)

  ghost predicate Possible(copies: seq<Bytes>, a: Attempt)
    requires |copies| == 2
  {
    && Load(copies).Ok? && Load(copies).value.slot < 2 && ValidRecords(a.records)
    && var e := Load(copies).value;
       var wanted := Encode(a.records, e.flag + 1);
       wanted.Ok? && (a.CutShort? ==> Torn(a.left, copies[1 - e.slot], wanted.value))
  }

  function Written(copies: seq<Bytes>, a: Attempt): (after: seq<Bytes>)
    requires |copies| == 2 && Load(copies).Ok? && Load(copies).value.slot < 2
    requires Encode(a.records, Load(copies).value.flag + 1).Ok?
    ensures |after| == 2
  {
    var e := Load(copies).value;
    copies[1 - e.slot := if a.CutShort? then a.left else Encode(a.records, e.flag + 1).value]
  }

  ghost predicate History(copies: seq<Bytes>, attempts: seq<Attempt>)
    requires |copies| == 2
    decreases |attempts|
  {
    attempts != [] ==> Possible(copies, attempts[0]) && History(Written(copies, attempts[0]), attempts[1..])
  }

  ghost function Outcome(copies: seq<Bytes>, attempts: seq<Attempt>): (after: seq<Bytes>)
    requires |copies| == 2 && History(copies, attempts)
    ensures |after| == 2
    decreases |attempts|
  {
    if attempts == [] then copies else Outcome(Written(copies, attempts[0]), attempts[1..])
  }

  /** The records of the last completed save, and of the saves cut after it. */
  function Allowed(first: seq<Record>, attempts: seq<Attempt>): set<seq<Record>> {
    if attempts == [] then {first}
    else
      var a := attempts[|attempts| - 1];
      if a.Completed? then {a.records} else Allowed(first, attempts[..|attempts| - 1]) + {a.records}
  }

  /**
   Over any run of saves, each completed or cut short, the records loaded next
   are those of the last completed save or of one cut after it -- across any
   number of wraps of the flag.
   */
  lemma {:induction false} LoadsLastSave(copies: seq<Bytes>, attempts: seq<Attempt>)
    requires |copies| == 2 && Load(copies).Ok? && History(copies, attempts)
    ensures Load(Outcome(copies, attempts)).Ok?
    ensures Load(Outcome(copies, attempts)).value.records in Allowed(Load(copies).value.records, attempts)
    decreases |attempts|
  {
    if attempts != [] {
      var a := attempts[0];
      var next := Written(copies, a);
      SavedIsLoaded(copies, a.records);
      if a.CutShort? { TornIsOldOrNew(copies, a.records, a.left); }
      LoadsLastSave(next, attempts[1..]);
      AllowedGrows(Load(copies).value.records, Load(next).value.records, attempts);
    }
  }

  lemma {:induction false} AllowedGrows(first: seq<Record>, second: seq<Record>, attempts: seq<Attempt>)
    requires attempts != [] && (second == attempts[0].records || (attempts[0].CutShort? && second == first))
    ensures Allowed(second, attempts[1..]) <= Allowed(first, attempts)
  {
    var n := |attempts| - 1;
    if n == 0 {
      assert attempts[1..] == [] && attempts[..0] == [];
    } else {
      assert attempts[1..][..n - 1] == attempts[..n][1..];
      assert attempts[1..][n - 1] == attempts[n];
      if attempts[n].CutShort? { AllowedGrows(first, second, attempts[..n]); }
    }
  }

  // ----- retaining entries

  /** The records of the ids to keep, in their order. */
  function Retained(rs: seq<Record>, keep: set<Bytes>): seq<Record> {
    if rs == [] then []
    else Retained(rs[..|rs| - 1], keep) + if rs[|rs| - 1].id in keep then [rs[|rs| - 1]] else []
  }

  lemma RetainedAreValid(rs: seq<Record>, keep: set<Bytes>)
    requires ValidRecords(rs)
    ensures Retained(rs, keep) == [] || ValidRecords(Retained(rs, keep))
    ensures forall r :: r in Retained(rs, keep) <==> r in rs && r.id in keep
  {
    RetainedMembers(rs, keep);
    OneIsValid(rs[0]);
    RetainedOne(rs[0], keep);
    if |rs| == 1 {
      assert rs == [rs[0]];
    } else {
      OneIsValid(rs[1]);
      RetainedTwo(rs, keep);
    }
  }

  lemma RetainedTwo(rs: seq<Record>, keep: set<Bytes>)
    requires |rs| == 2
    ensures Retained(rs, keep) ==
              if rs[0].id in keep then (if rs[1].id in keep then rs else [rs[0]])
              else if rs[1].id in keep then [rs[1]] else []
  {
    RetainedOne(rs[0], keep);
    assert rs[..1] == [rs[0]] && rs == [rs[0]] + [rs[1]];
    assert Retained(rs, keep) == Retained([rs[0]], keep) + if rs[1].id in keep then [rs[1]] else [];
  }

  lemma {:induction false} RetainedMembers(rs: seq<Record>, keep: set<Bytes>)
    ensures forall r :: r in Retained(rs, keep) <==> r in rs && r.id in keep
  {
    if rs != [] {
      RetainedMembers(rs[..|rs| - 1], keep);
      assert rs == rs[..|rs| - 1] + [rs[|rs| - 1]];
    }
  }

  lemma RetainedOne(r: Record, keep: set<Bytes>)
    ensures Retained([r], keep) == if r.id in keep then [r] else []
  {
    assert [r][..0] == [];
  }

  lemma OneIsValid(r: Record)
    ensures ValidRecords([r]) <==> ValidRecord(r)
  {
    assert [r][..0] == [];
  }

  /** Two saves of the same records in a row leave them in both copies. */
  lemma TwoSavesReachBothCopies(copies: seq<Bytes>, rs: seq<Record>)
    requires |copies| == 2 && Load(copies).Ok? && ValidRecords(rs)
    ensures Possible(copies, Completed(rs))
    ensures var once := Written(copies, Completed(rs));
            Load(once).Ok? && Load(once).value.records == rs && Possible(once, Completed(rs))
    ensures var twice := Written(Written(copies, Completed(rs)), Completed(rs));
            ViewOf(twice[0]).records == Ok(rs) && ViewOf(twice[1]).records == Ok(rs)
  {
    var e := Load(copies).value;
    SavedIsLoaded(copies, rs);
    var once := Written(copies, Completed(rs));
    EncodedView(rs, e.flag + 1);
    SavedIsLoaded(once, rs);
    EncodedView(rs, Load(once).value.flag + 1);
  }

  /** After the two saves of a retention, both copies hold the retained records
      and no other: neither can bring a retired one back. */
  lemma RetentionReachesBothCopies(copies: seq<Bytes>, keep: set<Bytes>)
    requires |copies| == 2 && Load(copies).Ok? && ValidRecords(Load(copies).value.records)
    requires exists r :: r in Load(copies).value.records && r.id in keep
    ensures var kept := Completed(Retained(Load(copies).value.records, keep));
            && Possible(copies, kept) && Possible(Written(copies, kept), kept)
            && ViewOf(Written(Written(copies, kept), kept)[0]).records == Ok(kept.records)
            && ViewOf(Written(Written(copies, kept), kept)[1]).records == Ok(kept.records)
  {
    var rs := Load(copies).value.records;
    assert ValidRecords(Retained(rs, keep)) by { RetainedAreValid(rs, keep); }
    TwoSavesReachBothCopies(copies, Retained(rs, keep));
  }

  // ----- the region, written in place

  /** An environment is changed from the one that is loaded. */
  ghost predicate Current(copies: seq<Bytes>, env: Environment)
    requires |copies| == 2
  {
    && Load(copies).Ok? && Load(copies).value.slot == env.slot < 2
    && Load(copies).value.flag == env.flag
  }

  lemma StopIsOldOrNew(copies: seq<Bytes>, env: Environment, left: Bytes)
    requires |copies| == 2 && Current(copies, env) && PlainIds(env.records)
    requires Encode(env.records, env.flag + 1).Ok?
    requires Torn(left, copies[1 - env.slot], Encode(env.records, env.flag + 1).value)
    ensures var after := Load(copies[1 - env.slot := left]);
            after == Load(copies) || after == Ok(Environment(env.records, 1 - env.slot, env.flag + 1))
  {
    RenderReadsBack(env.records);
    TornIsOldOrNew(copies, env.records, left);
  }

  /** A save is confirmed by its read-back, refused, or cut by a power failure. */
  datatype SaveResult = Saved | Refused | Cut

  class Region {
    var copies: seq<Bytes>

    constructor (first: Bytes, second: Bytes)
      ensures copies == [first, second]
    {
      copies := [first, second];
    }

    method LoadEnvironment() returns (e: Result<Environment>)
      requires |copies| == 2
      ensures e == Load(copies)
    {
      var views: seq<View> := [];
      var i := 0;
      while i < 2
        invariant 0 <= i <= 2 && |views| == i
        invariant forall k :: 0 <= k < i ==> views[k] == ViewOf(copies[k])
      {
        views := views + [ViewOf(copies[i])];
        i := i + 1;
      }
      e := Choose(views[0], views[1]);
    }

    /** Write one copy and flush it; stopped on the way, it is torn. */
    method WriteCopy(slot: nat, bytes: Bytes) returns (o: SaveResult, left: Bytes)
      requires |copies| == 2 && slot < 2
      modifies this
      ensures copies == old(copies)[slot := left]
      ensures Torn(left, old(copies)[slot], bytes)
      ensures o == Saved ==> left == bytes
    {
      o, left := *, *;
      if o == Saved {
        left := bytes;
      } else if !Torn(left, copies[slot], bytes) {
        left := copies[slot];
      }
      copies := copies[slot := left];
    }

    /**
     Write the inactive copy, flush, and require an identical read-back. Saved,
     the records are what is loaded next. Refused or cut, an environment that was
     the loaded one is still loaded, or the new one is: the active copy is never
     written.
     */
    method SaveEnvironment(env: Environment) returns (o: SaveResult)
      requires |copies| == 2
      modifies this
      ensures |copies| == 2
      ensures env.slot >= 2 ==> o == Refused && copies == old(copies)
      ensures env.slot < 2 ==> copies[env.slot] == old(copies)[env.slot]
      ensures o == Saved ==>
                env.slot < 2 && Load(copies) == Ok(Environment(env.records, 1 - env.slot, env.flag + 1))
      ensures Current(old(copies), env) && PlainIds(env.records) ==>
                || Load(copies) == Load(old(copies))
                || Load(copies) == Ok(Environment(env.records, 1 - env.slot, env.flag + 1))
    {
      if env.slot >= 2 {
        return Refused;
      }
      var slot, flag := 1 - env.slot, env.flag + 1;
      var bytes := Encode(env.records, flag);
      if bytes.Err? {
        return Refused;
      }
      var left;
      o, left := WriteCopy(slot, bytes.value);
      if Current(old(copies), env) && PlainIds(env.records) {
        StopIsOldOrNew(old(copies), env, left);
      }
      if o == Saved {
        var back := LoadEnvironment();
        o := if back == Ok(Environment(env.records, slot, flag)) then Saved else Refused;
      }
    }

    /** Forget every record but those to keep, in both copies: the second save
        rewrites what the first left in the other copy. */
    method Retain(keep: set<Bytes>) returns (o: SaveResult)
      requires |copies| == 2
      modifies this
      ensures |copies| == 2
      ensures o == Saved ==>
                && Load(old(copies)).Ok?
                && var kept := Ok(Retained(Load(old(copies)).value.records, keep));
                   ViewOf(copies[0]).records == kept && ViewOf(copies[1]).records == kept
    {
      var env := LoadEnvironment();
      if env.Err? {
        return Refused;
      }
      var kept := Retained(env.value.records, keep);
      o := SaveEnvironment(env.value.(records := kept));
      if o != Saved {
        return;
      }
      ChosenSlot(ViewOf(copies[0]), ViewOf(copies[1]));
      env := LoadEnvironment();
      if env.Err? {
        return Refused;
      }
      o := SaveEnvironment(env.value);
      if o == Saved { ChosenSlot(ViewOf(copies[0]), ViewOf(copies[1])); }
    }
  }
}
