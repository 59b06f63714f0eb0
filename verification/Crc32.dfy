/**
 The bitwise CRC-32 of the boot environment (the 32-bit check sequence of
 section 8.1.1.6.2 of ITU-T V.42, reflected), and what it is certain to catch.

 The division's bit step is a parameter `f` of the register's specification:
 what is proved of it needs only that the step is linear, loses nothing, and
 shifts while the low bit is clear.
 */
module Crc32 {
  import opened Base

  type BitStep = bv32 -> bv32

  function Iterate(f: BitStep, c: bv32, n: nat): bv32 {
    if n == 0 then c else f(Iterate(f, c, n - 1))
  }

  /** The register after eight steps of `c` and a byte. */
  function Byte(f: BitStep, c: bv32, b: bv8): bv32 {
    Iterate(f, c ^ (b as bv32), 8)
  }

  function Register(f: BitStep, c: bv32, bytes: Bytes): bv32
    decreases |bytes|
  {
    if bytes == [] then c else Register(f, Byte(f, c, bytes[0]), bytes[1..])
  }

  // ----- the step

  const POLYNOMIAL: bv32 := 0xedb8_8320

  /** One bit of the division. */
  function Step(c: bv32): bv32 {
    if c & 1 == 0 then c >> 1 else (c >> 1) ^ POLYNOMIAL
  }

  function Crc(bytes: Bytes): bv32 {
    Register(Step, 0xffff_ffff, bytes) ^ 0xffff_ffff
  }

  lemma LowBit(c: bv32)
    ensures c & 1 == 0 || c & 1 == 1
  {
  }

  /** The step without a branch: the low bit, negated, masks the polynomial. */
  lemma MaskedStep(c: bv32)
    ensures (c >> 1) ^ (POLYNOMIAL & (0 - (c & 1))) == Step(c)
  {
    LowBit(c);
    if c & 1 == 0 {
      assert 0 - (c & 1) == 0;
    } else {
      assert 0 - (c & 1) == 0xffff_ffff;
    }
  }

  method StepOnce(c: bv32) returns (r: bv32)
    ensures IsStepOf(Step, c, r)
  {
    MaskedStep(c);
    r := (c >> 1) ^ (POLYNOMIAL & (0 - (c & 1)));
  }

  predicate IsStepOf(f: BitStep, c: bv32, r: bv32) { r == f(c) }

  method Divide(ghost f: BitStep, c: bv32) returns (r: bv32)
    requires f == Step
    ensures r == Iterate(f, c, 8)
  {
    r := c;
    var n := 0;
    while n < 8
      invariant 0 <= n <= 8 && r == Iterate(f, c, n)
    {
      r := StepOnce(r);
      n := n + 1;
    }
  }

  method Compute(bytes: Bytes) returns (crc: bv32)
    ensures crc == Crc(bytes)
  {
    ghost var f: BitStep := Step;
    crc := 0xffff_ffff;
    var i := 0;
    assert bytes[0..] == bytes;
    while i < |bytes|
      invariant 0 <= i <= |bytes|
      invariant Register(f, crc, bytes[i..]) == Register(f, 0xffff_ffff, bytes)
    {
      RegisterStep(f, crc, bytes, i);
      crc := TakeByte(f, crc, bytes[i]);
      i := i + 1;
    }
    crc := crc ^ 0xffff_ffff;
  }

  method TakeByte(ghost f: BitStep, c: bv32, b: bv8) returns (r: bv32)
    requires f == Step
    ensures r == Byte(f, c, b)
  {
    r := Divide(f, c ^ (b as bv32));
  }

  lemma RegisterStep(f: BitStep, c: bv32, bytes: Bytes, i: nat)
    requires i < |bytes|
    ensures Register(f, c, bytes[i..]) == Register(f, Byte(f, c, bytes[i]), bytes[i + 1..])
  {
    assert bytes[i..][1..] == bytes[i + 1..];
  }

  // ----- what the step is like

  /** `d` is the difference of two registers. */
  predicate IsXor(a: bv32, b: bv32, d: bv32) { d == a ^ b }

  predicate LinearAt(f: BitStep, a: bv32, b: bv32, d: bv32) {
    IsXor(a, b, d) ==> IsXor(f(a), f(b), f(d))
  }

  predicate LosslessAt(f: BitStep, a: bv32) { f(a) == 0 ==> a == 0 }

  predicate ShiftsAt(f: BitStep, a: bv32) { a & 1 == 0 ==> f(a) == a >> 1 }

  /** The step is linear, loses nothing, and shifts while the low bit is clear. */
  ghost predicate Divides(f: BitStep) {
    && (forall a, b, d {:trigger LinearAt(f, a, b, d)} :: LinearAt(f, a, b, d))
    && (forall a {:trigger LosslessAt(f, a)} :: LosslessAt(f, a))
    && (forall a {:trigger ShiftsAt(f, a)} :: ShiftsAt(f, a))
  }

  lemma ShiftXor(a: bv32, b: bv32)
    ensures (a ^ b) >> 1 == (a >> 1) ^ (b >> 1)
    ensures (a ^ b) & 1 == (a & 1) ^ (b & 1)
  {
  }

  lemma XorTwice(a: bv32, b: bv32, p: bv32)
    ensures (a ^ p) ^ (b ^ p) == a ^ b
    ensures (a ^ p) ^ b == (a ^ b) ^ p == a ^ (b ^ p)
  {
  }

  lemma StepLinear(a: bv32, b: bv32, d: bv32)
    ensures LinearAt(Step, a, b, d)
  {
    ShiftXor(a, b);
    LowBit(a);
    LowBit(b);
    XorTwice(a >> 1, b >> 1, POLYNOMIAL);
  }

  lemma StepLossless(a: bv32)
    ensures LosslessAt(Step, a)
  {
  }

  lemma StepShifts(a: bv32)
    ensures ShiftsAt(Step, a)
  {
  }

  lemma StepDivides()
    ensures Divides(Step)
  {
    forall a, b, d ensures LinearAt(Step, a, b, d) { StepLinear(a, b, d); }
    forall a ensures LosslessAt(Step, a) { StepLossless(a); }
    forall a ensures ShiftsAt(Step, a) { StepShifts(a); }
  }

  // ----- what follows of the register

  lemma {:induction false} IterateLinear(f: BitStep, a: bv32, b: bv32, d: bv32, n: nat)
    requires Divides(f) && IsXor(a, b, d)
    ensures IsXor(Iterate(f, a, n), Iterate(f, b, n), Iterate(f, d, n))
  {
    if n > 0 {
      IterateLinear(f, a, b, d, n - 1);
      assert LinearAt(f, Iterate(f, a, n - 1), Iterate(f, b, n - 1), Iterate(f, d, n - 1));
    }
  }

  lemma {:induction false} IterateLossless(f: BitStep, a: bv32, n: nat)
    requires Divides(f) && Iterate(f, a, n) == 0
    ensures a == 0
  {
    if n > 0 {
      assert LosslessAt(f, Iterate(f, a, n - 1));
      IterateLossless(f, a, n - 1);
    }
  }

  lemma {:induction false} IterateAdds(f: BitStep, a: bv32, m: nat, n: nat)
    ensures Iterate(f, Iterate(f, a, m), n) == Iterate(f, a, m + n)
  {
    if n > 0 { IterateAdds(f, a, m, n - 1); }
  }

  /** Eight steps only shift a register whose low byte is clear. */
  lemma IterateShifts(f: BitStep, a: bv32)
    requires Divides(f) && a & 0xff == 0
    ensures Iterate(f, a, 8) == a >> 8
  {
    ShiftFacts(a);
    assert ShiftsAt(f, a);
    assert Iterate(f, a, 1) == a >> 1;
    assert ShiftsAt(f, a >> 1);
    assert Iterate(f, a, 2) == a >> 2;
    assert ShiftsAt(f, a >> 2);
    assert Iterate(f, a, 3) == a >> 3;
    assert ShiftsAt(f, a >> 3);
    assert Iterate(f, a, 4) == a >> 4;
    assert ShiftsAt(f, a >> 4);
    assert Iterate(f, a, 5) == a >> 5;
    assert ShiftsAt(f, a >> 5);
    assert Iterate(f, a, 6) == a >> 6;
    assert ShiftsAt(f, a >> 6);
    assert Iterate(f, a, 7) == a >> 7;
    assert ShiftsAt(f, a >> 7);
  }

  lemma ShiftFacts(a: bv32)
    requires a & 0xff == 0
    ensures a & 1 == 0 && (a >> 1) & 1 == 0 && (a >> 2) & 1 == 0 && (a >> 3) & 1 == 0
    ensures (a >> 4) & 1 == 0 && (a >> 5) & 1 == 0 && (a >> 6) & 1 == 0 && (a >> 7) & 1 == 0
    ensures (a >> 1) >> 1 == a >> 2 && (a >> 2) >> 1 == a >> 3 && (a >> 3) >> 1 == a >> 4
    ensures (a >> 4) >> 1 == a >> 5 && (a >> 5) >> 1 == a >> 6 && (a >> 6) >> 1 == a >> 7
    ensures (a >> 7) >> 1 == a >> 8
  {
  }

  // ----- differences within four bytes

  /** The difference of two bytes. */
  function Delta(a: bv8, b: bv8): bv32 { (a as bv32) ^ (b as bv32) }

  /** The bits a word of `n` bytes leaves clear. */
  function Above(n: nat): bv32 {
    if n == 0 then 0xffff_ffff
    else if n == 1 then 0xffff_ff00
    else if n == 2 then 0xffff_0000
    else if n == 3 then 0xff00_0000
    else 0
  }

  /** Put a byte below a word. */
  function Under(w: bv32, x: bv32): bv32 { (w << 8) ^ x }

  /** The difference of two strings of bytes as one word, the first byte lowest. */
  function Word(u: Bytes, v: Bytes): bv32
    requires |u| == |v|
  {
    if u == [] then 0 else Under(Word(u[1..], v[1..]), Delta(u[0], v[0]))
  }

  lemma DeltaFits(a: bv8, b: bv8)
    ensures Delta(a, b) & Above(1) == 0
    ensures Delta(a, b) == 0 ==> a == b
  {
  }

  lemma UnderFits(w: bv32, x: bv32, n: nat)
    requires n <= 3 && w & Above(n) == 0 && x & Above(1) == 0
    ensures Under(w, x) & Above(n + 1) == 0
  {
  }

  lemma NarrowerFits(w: bv32, n: nat)
    requires n <= 3 && w & Above(n) == 0
    ensures w & Above(3) == 0
  {
  }

  lemma UnderIsZero(w: bv32, x: bv32)
    requires w & Above(3) == 0 && x & Above(1) == 0 && Under(w, x) == 0
    ensures w == 0 && x == 0
  {
  }

  lemma UnderRestored(w: bv32)
    requires w & Above(3) == 0
    ensures Under(w, 0) & 0xff == 0 && Under(w, 0) >> 8 == w
  {
  }

  lemma {:induction false} WordFits(u: Bytes, v: Bytes)
    requires |u| == |v| <= 4
    ensures Word(u, v) & Above(|u|) == 0
  {
    if u != [] {
      WordFits(u[1..], v[1..]);
      DeltaFits(u[0], v[0]);
      UnderFits(Word(u[1..], v[1..]), Delta(u[0], v[0]), |u| - 1);
    }
  }

  /** Up to four bytes differ exactly when their difference is not zero. */
  lemma {:induction false} WordIsZero(u: Bytes, v: Bytes)
    requires |u| == |v| <= 4 && Word(u, v) == 0
    ensures u == v
  {
    if u != [] {
      WordFits(u[1..], v[1..]);
      NarrowerFits(Word(u[1..], v[1..]), |u| - 1);
      DeltaFits(u[0], v[0]);
      UnderIsZero(Word(u[1..], v[1..]), Delta(u[0], v[0]));
      WordIsZero(u[1..], v[1..]);
      assert u == [u[0]] + u[1..] && v == [v[0]] + v[1..];
    }
  }

  // ----- the register's difference

  lemma {:induction false} RegisterConcat(f: BitStep, c: bv32, s: Bytes, t: Bytes)
    ensures Register(f, c, s + t) == Register(f, Register(f, c, s), t)
    decreases |s|
  {
    if s == [] {
      assert s + t == t;
    } else {
      assert (s + t)[1..] == s[1..] + t;
      RegisterConcat(f, Byte(f, c, s[0]), s[1..], t);
    }
  }

  /** Feeding two bytes: the difference takes in theirs and goes eight steps. */
  lemma ByteDifference(f: BitStep, a: bv32, b: bv32, d: bv32, x: bv8, y: bv8, e: bv32)
    requires Divides(f) && IsXor(a, b, d) && IsXor(d, Delta(x, y), e)
    ensures IsXor(Byte(f, a, x), Byte(f, b, y), Iterate(f, e, 8))
  {
    FedDifference(a, b, d, x, y, e);
    IterateLinear(f, a ^ (x as bv32), b ^ (y as bv32), e, 8);
  }

  lemma FedDifference(a: bv32, b: bv32, d: bv32, x: bv8, y: bv8, e: bv32)
    requires IsXor(a, b, d) && IsXor(d, Delta(x, y), e)
    ensures IsXor(a ^ (x as bv32), b ^ (y as bv32), e)
  {
  }

  /** Registers that differ still differ after the same bytes. */
  lemma {:induction false} DifferenceStays(f: BitStep, a: bv32, b: bv32, d: bv32, s: Bytes)
    requires Divides(f) && IsXor(a, b, d) && d != 0
    ensures Register(f, a, s) != Register(f, b, s)
    decreases |s|
  {
    if s == [] {
      SameIsZero(a, b, d);
    } else {
      SameByte(s[0], d);
      ByteDifference(f, a, b, d, s[0], s[0], d);
      if Iterate(f, d, 8) == 0 { IterateLossless(f, d, 8); }
      DifferenceStays(f, Byte(f, a, s[0]), Byte(f, b, s[0]), Iterate(f, d, 8), s[1..]);
    }
  }

  lemma SameIsZero(a: bv32, b: bv32, d: bv32)
    requires IsXor(a, b, d)
    ensures d == 0 <==> a == b
  {
  }

  lemma SameByte(x: bv8, d: bv32)
    ensures IsXor(d, Delta(x, x), d)
  {
  }

  /** Through up to four bytes, the difference is that of the bytes' word, as far
      on as the division went. */
  lemma {:induction false} WindowDifference(f: BitStep, a: bv32, b: bv32, d: bv32, u: Bytes, v: Bytes, e: bv32)
    requires Divides(f) && |u| == |v| <= 4 && IsXor(a, b, d) && IsXor(d, Word(u, v), e)
    ensures IsXor(Register(f, a, u), Register(f, b, v), Iterate(f, e, 8 * |u|))
    decreases |u|
  {
    if u == [] {
      NothingAdded(d, e);
    } else {
      var next := FirstOfWindow(f, a, b, d, u, v, e);
      WindowDifference(f, Byte(f, a, u[0]), Byte(f, b, v[0]), next, u[1..], v[1..], Iterate(f, e, 8));
      IterateAdds(f, e, 8, 8 * |u[1..]|);
    }
  }

  /** After the window's first byte, the difference and the word of the other
      bytes still make up the whole word, eight steps on. */
  lemma FirstOfWindow(f: BitStep, a: bv32, b: bv32, d: bv32, u: Bytes, v: Bytes, e: bv32) returns (next: bv32)
    requires Divides(f) && 0 < |u| == |v| <= 4 && IsXor(a, b, d) && IsXor(d, Word(u, v), e)
    ensures IsXor(Byte(f, a, u[0]), Byte(f, b, v[0]), next)
    ensures IsXor(next, Word(u[1..], v[1..]), Iterate(f, e, 8))
  {
    var w, x := Word(u[1..], v[1..]), Delta(u[0], v[0]);
    var first := d ^ x;
    next := Iterate(f, first, 8);
    ByteDifference(f, a, b, d, u[0], v[0], first);
    WordFits(u[1..], v[1..]);
    NarrowerFits(w, |u| - 1);
    Regrouped(d, x, w, first, e);
    ShiftedWord(f, first, w, e);
  }

  lemma ShiftedWord(f: BitStep, first: bv32, w: bv32, e: bv32)
    requires Divides(f) && w & Above(3) == 0 && IsXor(first, Under(w, 0), e)
    ensures IsXor(Iterate(f, first, 8), w, Iterate(f, e, 8))
  {
    UnderRestored(w);
    IterateShifts(f, Under(w, 0));
    IterateLinear(f, first, Under(w, 0), e, 8);
  }

  lemma NothingAdded(d: bv32, e: bv32)
    requires IsXor(d, 0, e)
    ensures d == e
  {
  }

  lemma Regrouped(d: bv32, x: bv32, w: bv32, first: bv32, e: bv32)
    requires IsXor(d, x, first) && IsXor(d, Under(w, x), e)
    ensures IsXor(first, Under(w, 0), e)
  {
  }

  /** The CRC tells apart any two byte strings of one length that differ only
      within four consecutive bytes. */
  lemma CrcSeparates(before: Bytes, u: Bytes, v: Bytes, after: Bytes)
    requires |u| == |v| <= 4 && u != v
    ensures Crc(before + u + after) != Crc(before + v + after)
  {
    StepDivides();
    RegistersSeparate(Step, 0xffff_ffff, before, u, v, after);
    FinalXor(Register(Step, 0xffff_ffff, before + u + after), Register(Step, 0xffff_ffff, before + v + after));
  }

  lemma FinalXor(a: bv32, b: bv32)
    requires a != b
    ensures a ^ 0xffff_ffff != b ^ 0xffff_ffff
  {
  }

  lemma RegistersSeparate(f: BitStep, c: bv32, before: Bytes, u: Bytes, v: Bytes, after: Bytes)
    requires Divides(f) && |u| == |v| <= 4 && u != v
    ensures Register(f, c, before + u + after) != Register(f, c, before + v + after)
  {
    var r := Register(f, c, before);
    RegisterConcat(f, c, before + u, after);
    RegisterConcat(f, c, before, u);
    RegisterConcat(f, c, before + v, after);
    RegisterConcat(f, c, before, v);
    var e := Word(u, v);
    if e == 0 { WordIsZero(u, v); }
    SameIsZero(r, r, 0);
    FromNothing(e);
    WindowDifference(f, r, r, 0, u, v, e);
    if Iterate(f, e, 8 * |u|) == 0 { IterateLossless(f, e, 8 * |u|); }
    DifferenceStays(f, Register(f, r, u), Register(f, r, v), Iterate(f, e, 8 * |u|), after);
  }

  lemma FromNothing(e: bv32)
    ensures IsXor(0, e, e) && forall r :: IsXor(r, r, 0)
  {
  }
}
