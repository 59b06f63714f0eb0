/**
 The text of the boot records: `v1|` and one or two rows
 `id,kernel,generation,tries`, separated by `;`.
 */
module BootRecords {
  import opened Base
  import opened Integers
  import opened Strings

  const MAX_TEXT: nat := 512
  const MAX_GENERATION: nat := 9_007_199_254_740_991
  const MAX_U64: nat := 0xffff_ffff_ffff_ffff

  const COMMA: bv8 := 44
  const PLUS: bv8 := 43
  const DASH: bv8 := 45
  const SEMICOLON: bv8 := 59
  /** `v1|` */
  const VERSION: Bytes := [118, 49, 124]

  datatype Record = Record(id: Bytes, kernelId: Bytes, generation: nat, triesLeft: Option<nat>)

  // ----- decimal numbers

  function DigitByte(d: nat): bv8
    requires d < 10
  {
    if d == 0 then 48 else if d == 1 then 49 else if d == 2 then 50 else if d == 3 then 51 else if d == 4 then 52
    else if d == 5 then 53 else if d == 6 then 54 else if d == 7 then 55 else if d == 8 then 56 else 57
  }

  predicate IsDigit(b: bv8) { 48 <= b <= 57 }

  function Digit(b: bv8): (d: nat)
    requires IsDigit(b)
    ensures d < 10 && DigitByte(d) == b
  {
    if b == 48 then 0 else if b == 49 then 1 else if b == 50 then 2 else if b == 51 then 3 else if b == 52 then 4
    else if b == 53 then 5 else if b == 54 then 6 else if b == 55 then 7 else if b == 56 then 8 else 9
  }

  predicate AllDigits(s: Bytes) { forall i :: 0 <= i < |s| ==> IsDigit(s[i]) }

  function Value(s: Bytes): nat
    requires AllDigits(s)
  {
    if s == [] then 0 else Value(s[..|s| - 1]) * 10 + Digit(s[|s| - 1])
  }

  /** A number as it is printed. */
  function Decimal(n: nat): (s: Bytes)
    ensures s != [] && AllDigits(s)
  {
    if n < 10 then [DigitByte(n)] else Decimal(n / 10) + [DigitByte(n % 10)]
  }

  lemma {:induction false} DecimalValue(n: nat)
    ensures Value(Decimal(n)) == n
  {
    if n >= 10 {
      DecimalValue(n / 10);
      assert Decimal(n)[..|Decimal(n)| - 1] == Decimal(n / 10);
    } else {
      assert Decimal(n)[..0] == [];
    }
  }

  lemma {:induction false} DecimalLength(n: nat, k: nat)
    requires k > 0 && n < Pow10(k)
    ensures |Decimal(n)| <= k
  {
    if n >= 10 {
      DecimalLength(n / 10, k - 1);
    }
  }

  lemma GenerationLength(n: nat)
    requires n <= MAX_GENERATION
    ensures |Decimal(n)| <= 16
  {
    assert Pow10(4) == 10_000;
    assert Pow10(8) == 100_000_000;
    assert Pow10(12) == 1_000_000_000_000;
    assert Pow10(16) == 10_000_000_000_000_000;
    DecimalLength(n, 16);
  }

  /** The standard reader of an unsigned number: digits, with a `+` allowed
      before them, of a value that fits. */
  function ParseU64(field: Bytes): Option<nat> {
    var digits := if field != [] && field[0] == PLUS then field[1..] else field;
    if digits == [] || !AllDigits(digits) || Value(digits) > MAX_U64 then None else Some(Value(digits))
  }

  // ----- one row

  predicate ValidId(id: Bytes) { Hex64(id) }

  function ParseGeneration(field: Bytes): Option<nat> {
    var g := ParseU64(field);
    if g.Some? && 0 < g.value <= MAX_GENERATION && Decimal(g.value) == field then g else None
  }

  function ParseTries(field: Bytes): Option<Option<nat>> {
    if field == [DASH] then Some(None)
    else if field == [48] then Some(Some(0))
    else if field == [49] then Some(Some(1))
    else if field == [50] then Some(Some(2))
    else if field == [51] then Some(Some(3))
    else None
  }

  function TriesText(tries: Option<nat>): Bytes {
    if tries.None? then [DASH] else Decimal(tries.value)
  }

  function ParseRow(row: Bytes): Result<Record> {
    var fields := Split(row, COMMA);
    if |fields| != 4 || !ValidId(fields[0]) || !ValidId(fields[1]) then Err
    else
      var generation, tries := ParseGeneration(fields[2]), ParseTries(fields[3]);
      if generation.None? || tries.None? then Err
      else Ok(Record(fields[0], fields[1], generation.value, tries.value))
  }

  function Fields(r: Record): seq<Bytes> {
    [r.id, r.kernelId, Decimal(r.generation), TriesText(r.triesLeft)]
  }

  function RowText(r: Record): Bytes { Join(Fields(r), COMMA) }

  predicate ValidRecord(r: Record) {
    && ValidId(r.id) && ValidId(r.kernelId)
    && 0 < r.generation <= MAX_GENERATION
    && (r.triesLeft.None? || r.triesLeft.value <= 3)
  }

  lemma GenerationText(field: Bytes, g: nat)
    ensures ParseGeneration(field) == Some(g) <==> 0 < g <= MAX_GENERATION && field == Decimal(g)
  {
    DecimalValue(g);
    var d := Decimal(g);
    assert IsDigit(d[0]);
  }

  lemma TriesTexts(field: Bytes, tries: Option<nat>)
    ensures ParseTries(field) == Some(tries) <==>
              (tries.None? || tries.value <= 3) && field == TriesText(tries)
  {
  }

  lemma NoSeparators(r: Record)
    requires ValidRecord(r)
    ensures forall i :: 0 <= i < 4 ==> COMMA !in Fields(r)[i] && SEMICOLON !in Fields(r)[i] && 0 !in Fields(r)[i]
  {
    var f := Fields(r);
    assert AllDigits(f[2]) && (f[3] == [DASH] || AllDigits(f[3]));
    forall i | 0 <= i < 4 ensures COMMA !in f[i] && SEMICOLON !in f[i] && 0 !in f[i] {
      if i < 2 { assert ValidId(f[i]); } else if f[i] != [DASH] { assert AllDigits(f[i]); }
    }
  }

  /** A row reads as a record exactly when it is the text of a valid one. */
  lemma RowReads(row: Bytes, r: Record)
    ensures ParseRow(row) == Ok(r) <==> ValidRecord(r) && row == RowText(r)
  {
    if ValidRecord(r) && row == RowText(r) {
      NoSeparators(r);
      SplitJoin(Fields(r), COMMA);
      GenerationText(Fields(r)[2], r.generation);
      TriesTexts(Fields(r)[3], r.triesLeft);
    }
    if ParseRow(row) == Ok(r) {
      var fields := Split(row, COMMA);
      GenerationText(fields[2], r.generation);
      TriesTexts(fields[3], r.triesLeft);
      assert fields == Fields(r);
      JoinSplit(row, COMMA);
    }
  }

  lemma RowLength(r: Record)
    requires ValidRecord(r)
    ensures |RowText(r)| <= 148 && SEMICOLON !in RowText(r) && 0 !in RowText(r)
  {
    NoSeparators(r);
    GenerationLength(r.generation);
    var f := Fields(r);
    var end := Join(f[3..], COMMA);
    assert f[1..][1..] == f[2..] && f[2..][1..] == f[3..];
    assert end == f[3];
    assert Join(f[2..], COMMA) == f[2] + [COMMA] + end;
    assert Join(f[1..], COMMA) == f[1] + [COMMA] + Join(f[2..], COMMA);
    assert RowText(r) == f[0] + [COMMA] + Join(f[1..], COMMA);
    assert |f[3]| == 1;
  }

  // ----- the whole text

  /** A row that may follow `soFar`: there are at most two, of distinct ids, the
      newest first. */
  predicate Follows(soFar: seq<Record>, r: Record) {
    |soFar| < 2 && forall i :: 0 <= i < |soFar| ==> soFar[i].id != r.id && soFar[i].generation > r.generation
  }

  function ParseRows(rows: seq<Bytes>, soFar: seq<Record>): Result<seq<Record>>
    decreases |rows|
  {
    if rows == [] then Ok(soFar)
    else
      var r := ParseRow(rows[0]);
      if r.Err? || !Follows(soFar, r.value) then Err else ParseRows(rows[1..], soFar + [r.value])
  }

  function Parse(text: Bytes): Result<seq<Record>> {
    if |text| > MAX_TEXT || !(VERSION <= text) then Err
    else ParseRows(Split(text[|VERSION|..], SEMICOLON), [])
  }

  method ParseRecords(text: Bytes) returns (records: Result<seq<Record>>)
    ensures records == Parse(text)
  {
    if |text| > MAX_TEXT || !(VERSION <= text) {
      return Err;
    }
    var rows := Split(text[|VERSION|..], SEMICOLON);
    var found: seq<Record> := [];
    var i := 0;
    assert rows[0..] == rows;
    while i < |rows|
      invariant 0 <= i <= |rows|
      invariant Parse(text) == ParseRows(rows[i..], found)
    {
      assert rows[i..][1..] == rows[i + 1..];
      var r := ParseRow(rows[i]);
      if r.Err? || !Follows(found, r.value) {
        return Err;
      }
      found := found + [r.value];
      i := i + 1;
    }
    records := Ok(found);
  }

  function Rows(rs: seq<Record>): seq<Bytes> {
    seq(|rs|, i requires 0 <= i < |rs| => RowText(rs[i]))
  }

  function Text(rs: seq<Record>): Bytes {
    VERSION + if rs == [] then [] else Join(Rows(rs), SEMICOLON)
  }

  function Render(rs: seq<Record>): Result<Bytes> {
    if Parse(Text(rs)).Ok? then Ok(Text(rs)) else Err
  }

  predicate ValidRecords(rs: seq<Record>) {
    && 1 <= |rs| <= 2
    && ValidFrom(rs, 0)
  }

  /** The records from `n` on are valid and each may follow those before it. */
  predicate ValidFrom(rs: seq<Record>, n: nat) {
    forall i :: n <= i < |rs| ==> ValidRecord(rs[i]) && Follows(rs[..i], rs[i])
  }

  lemma {:induction false} RowsAreSound(rows: seq<Bytes>, soFar: seq<Record>)
    requires ParseRows(rows, soFar).Ok?
    ensures var rs := ParseRows(rows, soFar).value;
            soFar <= rs && rows == Rows(rs[|soFar|..]) && ValidFrom(rs, |soFar|)
    decreases |rows|
  {
    var n, rs := |soFar|, ParseRows(rows, soFar).value;
    if rows == [] {
      assert rs == soFar && rs[n..] == [];
    } else {
      var r := ParseRow(rows[0]).value;
      RowReads(rows[0], r);
      RowsAreSound(rows[1..], soFar + [r]);
      assert rs[n] == r && rs[..n] == soFar;
      assert rs[n..] == [r] + rs[n + 1..];
      assert Rows(rs[n..]) == [RowText(r)] + Rows(rs[n + 1..]);
      assert rows == [rows[0]] + rows[1..];
    }
  }

  lemma {:induction false} RowsAreComplete(soFar: seq<Record>, rs: seq<Record>)
    requires soFar <= rs && ValidFrom(rs, |soFar|)
    ensures ParseRows(Rows(rs[|soFar|..]), soFar) == Ok(rs)
    decreases |rs| - |soFar|
  {
    var n := |soFar|;
    if n == |rs| {
      assert rs == soFar && Rows(rs[n..]) == [];
    } else {
      var rows := Rows(rs[n..]);
      assert rs[..n] == soFar;
      assert rows[0] == RowText(rs[n]) && rows[1..] == Rows(rs[n + 1..]);
      RowReads(rows[0], rs[n]);
      RowsAreComplete(soFar + [rs[n]], rs);
    }
  }

  /** The text and the records determine each other: a text reads as a list
      exactly when the list is valid and the text is how it is written. */
  lemma TextReads(text: Bytes, rs: seq<Record>)
    ensures Parse(text) == Ok(rs) <==> ValidRecords(rs) && text == Text(rs)
  {
    var v := |VERSION|;
    if Parse(text) == Ok(rs) {
      assert text == VERSION + text[v..];
      RowsAreSound(Split(text[v..], SEMICOLON), []);
      assert rs[0..] == rs;
      JoinSplit(text[v..], SEMICOLON);
      assert rs != [] && Follows(rs[..|rs| - 1], rs[|rs| - 1]);
    }
    if ValidRecords(rs) && text == Text(rs) {
      WrittenText(rs);
      assert text[v..] == Join(Rows(rs), SEMICOLON);
      SplitJoin(Rows(rs), SEMICOLON);
      RowsAreComplete([], rs);
      assert rs[0..] == rs;
    }
  }

  lemma WrittenText(rs: seq<Record>)
    requires ValidRecords(rs)
    ensures |Text(rs)| <= MAX_TEXT && 0 !in Text(rs)
    ensures forall i :: 0 <= i < |rs| ==> SEMICOLON !in Rows(rs)[i]
  {
    forall i | 0 <= i < |rs| ensures SEMICOLON !in Rows(rs)[i] && |Rows(rs)[i]| <= 148 && 0 !in Rows(rs)[i] {
      RowLength(rs[i]);
    }
    if |rs| == 2 {
      assert Rows(rs)[1..] == [Rows(rs)[1]];
      assert Join(Rows(rs), SEMICOLON) == Rows(rs)[0] + [SEMICOLON] + Rows(rs)[1];
    }
  }

  // ----- the format, spelled out

  lemma DigitBytes(d: nat)
    requires d < 10
    ensures DigitByte(d) as int == 48 + d
  {
  }

  /** 64 digits from `0` to `9` and `a` to `f`. */
  predicate HexText(s: Bytes) {
    |s| == 64 && forall i :: 0 <= i < |s| ==> 48 <= s[i] <= 57 || 97 <= s[i] <= 102
  }

  /** A record that may be stored. */
  predicate Storable(r: Record) {
    && HexText(r.id) && HexText(r.kernelId) && 1 <= r.generation <= 9_007_199_254_740_991
    && (r.triesLeft.Some? ==> r.triesLeft.value <= 3)
  }

  /** `id,kernel,generation,tries`, with `-` for no tries. */
  function Spelled(r: Record): Bytes {
    r.id + [44] + r.kernelId + [44] + Decimal(r.generation) + [44]
    + if r.triesLeft.None? then [45] else Decimal(r.triesLeft.value)
  }

  lemma RowIsSpelled(r: Record)
    ensures RowText(r) == Spelled(r)
    ensures ValidRecord(r) <==> Storable(r)
  {
    var f := Fields(r);
    assert f[1..][1..] == f[2..] && f[2..][1..] == f[3..] == [f[3]];
    assert Join(f[2..], COMMA) == f[2] + [COMMA] + f[3];
    assert Join(f[1..], COMMA) == f[1] + [COMMA] + Join(f[2..], COMMA);
    assert RowText(r) == f[0] + [COMMA] + Join(f[1..], COMMA);
  }

  /** A text reads as records exactly when it is `v1|` and one row, or two rows with a `;`
      between them, of distinct ids and falling generations. */
  lemma RecordsAreSpelled(text: Bytes, rs: seq<Record>)
    ensures Parse(text) == Ok(rs) <==>
              || (|rs| == 1 && Storable(rs[0]) && text == [118, 49, 124] + Spelled(rs[0]))
              || (|rs| == 2 && Storable(rs[0]) && Storable(rs[1]) && rs[0].id != rs[1].id
                  && rs[0].generation > rs[1].generation
                  && text == [118, 49, 124] + Spelled(rs[0]) + [59] + Spelled(rs[1]))
  {
    TextReads(text, rs);
    if |rs| == 1 {
      OneFollows(rs);
      OneText(rs);
    } else if |rs| == 2 {
      TwoFollow(rs);
      TwoTexts(rs);
    }
  }

  lemma OneText(rs: seq<Record>)
    requires |rs| == 1
    ensures Text(rs) == [118, 49, 124] + Spelled(rs[0]) && (ValidRecord(rs[0]) <==> Storable(rs[0]))
  {
    RowIsSpelled(rs[0]);
    assert Rows(rs) == [RowText(rs[0])];
  }

  lemma TwoTexts(rs: seq<Record>)
    requires |rs| == 2
    ensures Text(rs) == [118, 49, 124] + Spelled(rs[0]) + [59] + Spelled(rs[1])
    ensures (ValidRecord(rs[0]) <==> Storable(rs[0])) && (ValidRecord(rs[1]) <==> Storable(rs[1]))
  {
    RowIsSpelled(rs[0]);
    RowIsSpelled(rs[1]);
    assert Rows(rs)[1..] == [RowText(rs[1])];
    assert Join(Rows(rs), SEMICOLON) == RowText(rs[0]) + [SEMICOLON] + RowText(rs[1]);
  }

  lemma OneFollows(rs: seq<Record>)
    requires |rs| == 1
    ensures ValidRecords(rs) <==> ValidRecord(rs[0])
  {
    assert rs[..0] == [];
  }

  lemma TwoFollow(rs: seq<Record>)
    requires |rs| == 2
    ensures ValidRecords(rs) <==>
              ValidRecord(rs[0]) && ValidRecord(rs[1]) && rs[0].id != rs[1].id && rs[0].generation > rs[1].generation
  {
    assert rs[..0] == [] && rs[..1] == [rs[0]];
    if ValidRecords(rs) { assert Follows(rs[..1], rs[1]) && rs[..1][0] == rs[0]; }
  }

  // ----- what writing promises

  /** Ids that cannot be mistaken for more of the text. */
  predicate PlainIds(rs: seq<Record>) {
    forall i :: 0 <= i < |rs| ==>
      && COMMA !in rs[i].id && SEMICOLON !in rs[i].id
      && COMMA !in rs[i].kernelId && SEMICOLON !in rs[i].kernelId
  }

  lemma PlainFields(r: Record)
    requires COMMA !in r.id && SEMICOLON !in r.id && COMMA !in r.kernelId && SEMICOLON !in r.kernelId
    ensures forall i :: 0 <= i < 4 ==> COMMA !in Fields(r)[i] && SEMICOLON !in Fields(r)[i]
    ensures SEMICOLON !in RowText(r)
  {
    var f := Fields(r);
    assert AllDigits(f[2]) && (f[3] == [DASH] || AllDigits(f[3]));
    JoinHasNo(f, COMMA, SEMICOLON);
  }

  lemma {:induction false} JoinHasNo(parts: seq<Bytes>, c: bv8, x: bv8)
    requires parts != [] && c != x && forall i :: 0 <= i < |parts| ==> x !in parts[i]
    ensures x !in Join(parts, c)
  {
    if |parts| > 1 { JoinHasNo(parts[1..], c, x); }
  }

  /** A row is written by one record with plain ids only. */
  lemma RowIsInjective(a: Record, b: Record)
    requires RowText(a) == RowText(b) && ValidRecord(b)
    requires COMMA !in a.id && SEMICOLON !in a.id && COMMA !in a.kernelId && SEMICOLON !in a.kernelId
    ensures a == b
  {
    PlainFields(a);
    NoSeparators(b);
    SplitJoin(Fields(a), COMMA);
    SplitJoin(Fields(b), COMMA);
    assert Fields(a) == Fields(b);
    assert Fields(a)[0] == Fields(b)[0] && Fields(a)[1] == Fields(b)[1];
    assert Fields(a)[2] == Fields(b)[2] && Fields(a)[3] == Fields(b)[3];
    DecimalValue(a.generation);
    DecimalValue(b.generation);
    if a.triesLeft.Some? { DecimalValue(a.triesLeft.value); assert IsDigit(Decimal(a.triesLeft.value)[0]); }
    if b.triesLeft.Some? { DecimalValue(b.triesLeft.value); assert IsDigit(Decimal(b.triesLeft.value)[0]); }
  }

  /**
   A list that `Render` accepts reads back as itself exactly when no id in it
   holds a separator; and then the list is valid.
   */
  lemma RenderReadsBack(rs: seq<Record>)
    requires Render(rs).Ok?
    ensures Parse(Render(rs).value) == Ok(rs) <==> PlainIds(rs)
    ensures PlainIds(rs) ==> ValidRecords(rs)
  {
    var text := Text(rs);
    var back := Parse(text).value;
    TextReads(text, back);
    TextReads(text, rs);
    if ValidRecords(rs) {
      forall i | 0 <= i < |rs| ensures COMMA !in Fields(rs[i])[0] && COMMA !in Fields(rs[i])[1] { NoSeparators(rs[i]); }
      forall i | 0 <= i < |rs| ensures SEMICOLON !in Fields(rs[i])[0] && SEMICOLON !in Fields(rs[i])[1] { NoSeparators(rs[i]); }
    }
    if PlainIds(rs) {
      assert Text(rs)[|VERSION|..] == Text(back)[|VERSION|..];
      if rs == [] {
        NotEmpty(back);
      } else {
        SameRows(rs, back);
        forall i | 0 <= i < |rs| ensures rs[i] == back[i] {
          assert Rows(rs)[i] == Rows(back)[i];
          RowIsInjective(rs[i], back[i]);
        }
        assert rs == back;
      }
    }
  }

  lemma NotEmpty(rs: seq<Record>)
    requires ValidRecords(rs)
    ensures |Text(rs)| > |VERSION|
  {
    assert Rows(rs)[0] == RowText(rs[0]);
    assert |RowText(rs[0])| >= |Fields(rs[0])[0]| by { assert RowText(rs[0]) == Fields(rs[0])[0] + [COMMA] + Join(Fields(rs[0])[1..], COMMA); }
  }

  lemma SameRows(a: seq<Record>, b: seq<Record>)
    requires a != [] && PlainIds(a) && ValidRecords(b) && Text(a) == Text(b)
    ensures Rows(a) == Rows(b)
  {
    forall i | 0 <= i < |a| ensures SEMICOLON !in Rows(a)[i] { PlainFields(a[i]); }
    WrittenText(b);
    SplitJoin(Rows(a), SEMICOLON);
    SplitJoin(Rows(b), SEMICOLON);
    assert Join(Rows(a), SEMICOLON) == Text(a)[|VERSION|..];
    assert Join(Rows(b), SEMICOLON) == Text(b)[|VERSION|..];
  }

  /** Not every accepted list reads back: one record whose id carries a first row
      and the start of a second is written as two rows, and read as two. */
  lemma InjectedRowIsAccepted()
    ensures var a := Record(seq(64, _ => 97), seq(64, _ => 97), 9, Some(3));
            var b := Record(seq(64, _ => 98), seq(64, _ => 98), 5, None);
            var one := [b.(id := RowText(a) + [SEMICOLON] + b.id)];
            Render(one).Ok? && Parse(Render(one).value) == Ok([a, b])
  {
    var a := Record(seq(64, _ => 97), seq(64, _ => 97), 9, Some(3));
    var b := Record(seq(64, _ => 98), seq(64, _ => 98), 5, None);
    var one := [b.(id := RowText(a) + [SEMICOLON] + b.id)];
    assert a.id[0] == 97 && b.id[0] == 98;
    assert [a, b][..1] == [a] && [a, b][..0] == [];
    assert ValidRecords([a, b]);
    InjectedText(a, b);
    TextReads(Text(one), [a, b]);
  }

  lemma InjectedText(a: Record, b: Record)
    ensures Text([b.(id := RowText(a) + [SEMICOLON] + b.id)]) == Text([a, b])
  {
    var c := b.(id := RowText(a) + [SEMICOLON] + b.id);
    var tail := Join(Fields(b)[1..], COMMA);
    assert Fields(c)[1..] == Fields(b)[1..];
    assert RowText(c) == c.id + [COMMA] + tail;
    assert RowText(b) == b.id + [COMMA] + tail;
    assert RowText(c) == RowText(a) + [SEMICOLON] + RowText(b);
    assert Rows([a, b])[1..] == [RowText(b)];
    assert Join(Rows([a, b]), SEMICOLON) == RowText(a) + [SEMICOLON] + RowText(b);
    assert Rows([c]) == [RowText(c)];
  }
}
