/**
 The CRC as a remainder: the bits of a message, in the order they are sent and with the
 first 32 complemented, are a polynomial over the integers modulo 2; the CRC is the
 complement of what is left of it after division by the generator polynomial of section
 8.1.1.6.2 of ITU-T V.42.

 A polynomial is the sequence of its coefficients, that of the highest power first.
 */
module CrcRemainder {
  import opened Base
  import opened Crc32

  type Poly = seq<bool>

  /** The powers of the generator polynomial. */
  const POWERS: set<nat> := {32, 26, 23, 22, 16, 12, 11, 10, 8, 7, 5, 4, 2, 1, 0}

  function Generator(): (g: Poly)
    ensures |g| == 33
  {
    seq(33, i requires 0 <= i < 33 => 32 - i in POWERS)
  }

  function Zeros(n: nat): Poly { seq(n, _ => false) }

  function Ones(n: nat): Poly { seq(n, _ => true) }

  /** The sum, which is also the difference. */
  function Plus(a: Poly, b: Poly): (c: Poly)
    requires |a| == |b|
    ensures |c| == |a|
  {
    seq(|a|, i requires 0 <= i < |a| => a[i] != b[i])
  }

  function Scaled(b: bool): (c: Poly)
    ensures |c| == 33
  {
    if b then Generator() else Zeros(33)
  }

  /** The product of a polynomial and the generator. */
  function Product(q: Poly): (c: Poly)
    ensures |c| == |q| + 32
  {
    if q == [] then Zeros(32)
    else
      var n := |q| - 1;
      Plus(Product(q[..n]) + [false], Zeros(n) + Scaled(q[n]))
  }

  /** `r` is what is left of `s`, divided by the generator. */
  ghost predicate IsRemainder(s: Poly, r: Poly) {
    && |r| == 32 <= |s|
    && exists q :: IsQuotient(s, q, r)
  }

  predicate IsQuotient(s: Poly, q: Poly, r: Poly) {
    |r| == 32 && |s| == |q| + 32 && s == Plus(Product(q), Zeros(|q|) + r)
  }

  // ----- the remainder is one

  /** A multiple of the generator of which nothing is left above the 32 lowest powers is 0. */
  lemma {:induction false} SmallMultiple(q: Poly)
    requires Product(q)[..|q|] == Zeros(|q|)
    ensures q == Zeros(|q|) && Product(q) == Zeros(|q| + 32)
  {
    if q != [] {
      var n := |q| - 1;
      var init := q[..n];
      assert forall i :: 0 <= i < n ==> Product(q)[i] == Product(init)[i];
      forall i | 0 <= i < n ensures Product(init)[i] == false {
        assert Product(q)[..|q|][i] == Zeros(|q|)[i];
      }
      assert Product(init)[..n] == Zeros(n);
      SmallMultiple(init);
      assert Product(q)[n] == Scaled(q[n])[0];
      assert Product(q)[..|q|][n] == false;
      assert q == init + [q[n]];
    }
  }

  lemma {:induction false} ProductOfSum(p: Poly, q: Poly)
    requires |p| == |q|
    ensures Product(Plus(p, q)) == Plus(Product(p), Product(q))
  {
    if p != [] {
      var n := |p| - 1;
      ProductOfSum(p[..n], q[..n]);
      assert Plus(p, q)[..n] == Plus(p[..n], q[..n]);
      SumOfScaled(p[n], q[n]);
      SumsRegrouped(Product(p[..n]), Product(q[..n]), Scaled(p[n]), Scaled(q[n]));
    }
  }

  lemma SumsRegrouped(a: Poly, b: Poly, x: Poly, y: Poly)
    requires |a| == |b| >= 32 && |x| == |y| == 33
    ensures var z := Zeros(|a| - 32);
            Plus(Plus(a, b) + [false], z + Plus(x, y)) == Plus(Plus(a + [false], z + x), Plus(b + [false], z + y))
  {
  }

  lemma SumOfScaled(a: bool, b: bool)
    ensures Scaled(a != b) == Plus(Scaled(a), Scaled(b))
  {
  }

  lemma RemainderIsUnique(s: Poly, r: Poly, t: Poly)
    requires IsRemainder(s, r) && IsRemainder(s, t)
    ensures r == t
  {
    var p :| IsQuotient(s, p, r);
    var q :| IsQuotient(s, q, t);
    var n := |p|;
    var d := Plus(p, q);
    ProductOfSum(p, q);
    forall i | 0 <= i < n + 32 ensures Product(d)[i] == ((Zeros(n) + r)[i] != (Zeros(n) + t)[i]) {
      assert s[i] == (Product(p)[i] != (Zeros(n) + r)[i]);
      assert s[i] == (Product(q)[i] != (Zeros(n) + t)[i]);
    }
    assert Product(d)[..n] == Zeros(n);
    SmallMultiple(d);
    forall k | 0 <= k < 32 ensures r[k] == t[k] {
      assert Product(d)[n + k] == false;
    }
  }

  // ----- registers as polynomials

  // As the division's bit step is in `Crc32`, halving and the test of the low bit are
  // parameters of what is only about lists of bits.

  type BitTest = bv32 -> bool

  predicate Low(c: bv32) { c & 1 == 1 }

  function Half(c: bv32): bv32 { c >> 1 }

  /** The `n` low bits of a word, the lowest first. */
  function Bits(h: BitStep, l: BitTest, c: bv32, n: nat): (b: Poly)
    ensures |b| == n
    decreases n
  {
    if n == 0 then [] else [l(c)] + Bits(h, l, h(c), n - 1)
  }

  /** The register as a polynomial: its lowest bit is the coefficient of the highest power. */
  function Coefficients(c: bv32): (b: Poly)
    ensures |b| == 32
  {
    Bits(Half, Low, c, 32)
  }

  /** The bits of a byte as they are sent, the lowest first. */
  function ByteBits(b: bv8): (p: Poly)
    ensures |p| == 8
  {
    Bits(Half, Low, b as bv32, 8)
  }

  function Sent(m: Bytes): (b: Poly)
    ensures |b| == 8 * |m|
  {
    if m == [] then [] else Sent(m[..|m| - 1]) + ByteBits(m[|m| - 1])
  }

  /** What is divided: the bits and 32 zeros, the first 32 complemented. */
  function Dividend(bits: Poly): (s: Poly)
    ensures |s| == |bits| + 32
  {
    Plus(bits + Zeros(32), Ones(32) + Zeros(|bits|))
  }

  /** One bit of the division of polynomials. */
  function Fed(r: Poly, b: bool): (t: Poly)
    requires |r| == 32
    ensures |t| == 32
  {
    Plus(r[1..] + [false], Scaled(r[0] != b)[1..])
  }

  lemma FedDivides(bits: Poly, b: bool, r: Poly)
    requires IsRemainder(Dividend(bits), r)
    ensures IsRemainder(Dividend(bits + [b]), Fed(r, b))
  {
    var n := |bits|;
    var q :| IsQuotient(Dividend(bits), q, r);
    var q' := q + [r[0] != b];
    assert q'[..n] == q;
    var t := Dividend(bits + [b]);
    var left := Plus(Product(q'), Zeros(n + 1) + Fed(r, b));
    forall i | 0 <= i < n + 33 ensures t[i] == left[i] {
      FedAt(bits, b, q, r, i);
    }
    assert t == left;
    assert IsQuotient(t, q', Fed(r, b));
  }

  lemma FedAt(bits: Poly, b: bool, q: Poly, r: Poly, i: nat)
    requires IsQuotient(Dividend(bits), q, r) && i < |bits| + 33
    ensures Dividend(bits + [b])[i] == Plus(Product(q + [r[0] != b]), Zeros(|bits| + 1) + Fed(r, b))[i]
  {
    var n, x := |bits|, r[0] != b;
    ProductLast(q, x, i);
    DividendLast(bits, b, i);
    if i < n + 32 { QuotientAt(Dividend(bits), q, r, i); }
    if i > n { FedBelow(r, b, i - n); }
  }

  lemma QuotientAt(s: Poly, q: Poly, r: Poly, i: nat)
    requires IsQuotient(s, q, r) && i < |s|
    ensures s[i] == if i < |q| then Product(q)[i] else (Product(q)[i] != r[i - |q|])
  {
  }

  lemma FedBelow(r: Poly, b: bool, k: nat)
    requires |r| == 32 && 0 < k < 33
    ensures Fed(r, b)[k - 1] == ((k < 32 && r[k]) != Scaled(r[0] != b)[k])
  {
  }

  lemma ProductLast(q: Poly, x: bool, i: nat)
    requires i < |q| + 33
    ensures Product(q + [x])[i] == ((Product(q) + [false])[i] != (Zeros(|q|) + Scaled(x))[i])
  {
    assert (q + [x])[..|q|] == q;
  }

  lemma DividendLast(bits: Poly, b: bool, i: nat)
    requires i < |bits| + 33
    ensures Dividend(bits + [b])[i] == ((Dividend(bits) + [false])[i] != (i == |bits| && b))
  {
  }

  // ----- lists of bits

  predicate XorAt(h: BitStep, l: BitTest, a: bv32, b: bv32, d: bv32) {
    IsXor(a, b, d) ==> IsXor(h(a), h(b), h(d)) && (l(d) <==> l(a) != l(b))
  }

  ghost predicate TakesXor(h: BitStep, l: BitTest) {
    forall a, b, d {:trigger XorAt(h, l, a, b, d)} :: XorAt(h, l, a, b, d)
  }

  lemma HalvesTakeXor()
    ensures TakesXor(Half, Low)
  {
    forall a, b, d ensures XorAt(Half, Low, a, b, d) { HalfOfXor(a, b, d); }
  }

  lemma HalfOfXor(a: bv32, b: bv32, d: bv32)
    ensures XorAt(Half, Low, a, b, d)
  {
    if IsXor(a, b, d) {
      HalvesXor(a, b);
      LowsXor(a, b);
    }
  }

  lemma HalvesXor(a: bv32, b: bv32)
    ensures Half(a ^ b) == Half(a) ^ Half(b)
  {
  }

  lemma LowsXor(a: bv32, b: bv32)
    ensures Low(a ^ b) <==> Low(a) != Low(b)
  {
  }

  lemma {:induction false} BitsOfXor(h: BitStep, l: BitTest, a: bv32, b: bv32, d: bv32, n: nat)
    requires TakesXor(h, l) && IsXor(a, b, d)
    ensures Bits(h, l, d, n) == Plus(Bits(h, l, a, n), Bits(h, l, b, n))
    decreases n
  {
    if n > 0 {
      assert XorAt(h, l, a, b, d);
      BitsOfXor(h, l, h(a), h(b), h(d), n - 1);
      PlusFirst(l(a), l(b), Bits(h, l, h(a), n - 1), Bits(h, l, h(b), n - 1));
    }
  }

  lemma PlusFirst(x: bool, y: bool, a: Poly, b: Poly)
    requires |a| == |b|
    ensures Plus([x] + a, [y] + b) == [x != y] + Plus(a, b)
  {
  }

  lemma {:induction false} BitsSplit(h: BitStep, l: BitTest, c: bv32, n: nat)
    ensures Bits(h, l, c, n + 1) == Bits(h, l, c, n) + [l(Iterate(h, c, n))]
    decreases n
  {
    if n > 0 {
      BitsSplit(h, l, h(c), n - 1);
      IterateAdds(h, c, 1, n - 1);
      assert Iterate(h, c, 1) == h(Iterate(h, c, 0)) == h(c);
    }
  }

  lemma BitsOfNext(h: BitStep, l: BitTest, c: bv32, n: nat)
    requires n > 0
    ensures Bits(h, l, h(c), n) == Bits(h, l, c, n)[1..] + [l(Iterate(h, c, n))]
  {
    BitsSplit(h, l, c, n);
    var bits := Bits(h, l, c, n);
    assert Bits(h, l, c, n + 1) == [l(c)] + Bits(h, l, h(c), n);
    assert Bits(h, l, h(c), n) == Bits(h, l, c, n + 1)[1..];
    assert (bits + [l(Iterate(h, c, n))])[1..] == bits[1..] + [l(Iterate(h, c, n))];
  }

  lemma FourBits(h: BitStep, l: BitTest, c: bv32, c1: bv32, c2: bv32, c3: bv32, c4: bv32, n: nat)
    requires h(c) == c1 && h(c1) == c2 && h(c2) == c3 && h(c3) == c4
    ensures Bits(h, l, c, n + 4) == [l(c), l(c1), l(c2), l(c3)] + Bits(h, l, c4, n)
  {
    assert Bits(h, l, c, n + 4) == [l(c)] + Bits(h, l, c1, n + 3);
    assert Bits(h, l, c1, n + 3) == [l(c1)] + Bits(h, l, c2, n + 2);
    assert Bits(h, l, c2, n + 2) == [l(c2)] + Bits(h, l, c3, n + 1);
  }

  lemma FourHalves(h: BitStep, c: bv32, c1: bv32, c2: bv32, c3: bv32, c4: bv32)
    requires h(c) == c1 && h(c1) == c2 && h(c2) == c3 && h(c3) == c4
    ensures Iterate(h, c, 4) == c4
  {
    assert Iterate(h, c, 1) == c1;
    assert Iterate(h, c, 2) == c2;
    assert Iterate(h, c, 3) == c3;
  }

  // ----- words

  lemma HalvesOf(c: bv32)
    ensures Half(c) == c >> 1 && Half(c >> 1) == c >> 2 && Half(c >> 2) == c >> 3 && Half(c >> 3) == c >> 4
  {
  }

  function Nibble(c: bv32): bv32 { c >> 4 }

  lemma HalvedNibble(c: bv32)
    ensures Iterate(Half, c, 4) == Nibble(c)
  {
    HalvesOf(c);
    FourHalves(Half, c, c >> 1, c >> 2, c >> 3, c >> 4);
  }

  lemma HalvedByte(c: bv32)
    ensures Iterate(Half, c, 8) == Nibble(Nibble(c))
  {
    HalvedNibble(c);
    HalvedNibble(Nibble(c));
    IterateAdds(Half, c, 4, 4);
  }

  lemma HalvedAway(c: bv32)
    ensures Iterate(Half, c, 32) == 0
  {
    var c1 := Nibble(Nibble(c));
    var c2 := Nibble(Nibble(c1));
    var c3 := Nibble(Nibble(c2));
    HalvedByte(c);
    HalvedByte(c1);
    HalvedByte(c2);
    HalvedByte(c3);
    IterateAdds(Half, c, 8, 8);
    IterateAdds(Half, c, 16, 8);
    IterateAdds(Half, c, 24, 8);
    NibblesAway(c);
  }

  lemma NibblesAway(c: bv32)
    ensures Nibble(Nibble(Nibble(Nibble(Nibble(Nibble(Nibble(Nibble(c)))))))) == 0
  {
  }

  lemma WordOfHalf(c: bv32)
    ensures Coefficients(Half(c)) == Coefficients(c)[1..] + [false]
  {
    BitsOfNext(Half, Low, c, 32);
    HalvedAway(c);
  }

  lemma NibbleBits(c: bv32, rest: bv32, w: bool, x: bool, y: bool, z: bool, n: nat)
    requires w == Low(c) && x == Low(c >> 1) && y == Low(c >> 2) && z == Low(c >> 3) && rest == Nibble(c)
    ensures Bits(Half, Low, c, n + 4) == [w, x, y, z] + Bits(Half, Low, rest, n)
  {
    HalvesOf(c);
    FourBits(Half, Low, c, c >> 1, c >> 2, c >> 3, c >> 4, n);
  }

  lemma PolynomialLow(n: nat)
    ensures var t, f := true, false;
            Bits(Half, Low, POLYNOMIAL, n + 16) ==
              [f, f, f, f] + ([f, t, f, f] + ([t, t, f, f] + ([f, f, f, t] + Bits(Half, Low, 0xedb8, n))))
  {
    NibbleBits(0xedb8_8320, 0x0edb_8832, false, false, false, false, n + 12);
    NibbleBits(0x0edb_8832, 0x00ed_b883, false, true, false, false, n + 8);
    NibbleBits(0x00ed_b883, 0x000e_db88, true, true, false, false, n + 4);
    NibbleBits(0x000e_db88, 0x0000_edb8, false, false, false, true, n);
  }

  lemma PolynomialHigh()
    ensures var t, f := true, false;
            Bits(Half, Low, 0xedb8, 16) == [f, f, f, t] + ([t, t, f, t] + ([t, f, t, t] + [f, t, t, t]))
  {
    NibbleBits(0xedb8, 0x0edb, false, false, false, true, 12);
    NibbleBits(0x0edb, 0x00ed, true, true, false, true, 8);
    NibbleBits(0x00ed, 0x000e, true, false, true, true, 4);
    NibbleBits(0x000e, 0x0000, false, true, true, true, 0);
  }

  lemma GeneratorSpelled()
    ensures var t, f := true, false;
            Generator()[1..] ==
              [f, f, f, f] + ([f, t, f, f] + ([t, t, f, f] + ([f, f, f, t] +
                ([f, f, f, t] + ([t, t, f, t] + ([t, f, t, t] + [f, t, t, t]))))))
  {
  }

  /** The polynomial's word is the generator without its highest power. */
  lemma GeneratorBits()
    ensures Coefficients(POLYNOMIAL) == Generator()[1..]
  {
    PolynomialLow(16);
    PolynomialHigh();
    GeneratorSpelled();
  }

  lemma OnesLow(n: nat)
    ensures Bits(Half, Low, 0xffff_ffff, n + 16) == Ones(16) + Bits(Half, Low, 0xffff, n)
  {
    NibbleBits(0xffff_ffff, 0x0fff_ffff, true, true, true, true, n + 12);
    NibbleBits(0x0fff_ffff, 0x00ff_ffff, true, true, true, true, n + 8);
    NibbleBits(0x00ff_ffff, 0x000f_ffff, true, true, true, true, n + 4);
    NibbleBits(0x000f_ffff, 0x0000_ffff, true, true, true, true, n);
  }

  lemma OnesHigh()
    ensures Bits(Half, Low, 0xffff, 16) == Ones(16)
  {
    NibbleBits(0xffff, 0x0fff, true, true, true, true, 12);
    NibbleBits(0x0fff, 0x00ff, true, true, true, true, 8);
    NibbleBits(0x00ff, 0x000f, true, true, true, true, 4);
    NibbleBits(0x000f, 0x0000, true, true, true, true, 0);
  }

  lemma AllOnes()
    ensures Coefficients(0xffff_ffff) == Ones(32)
  {
    OnesLow(16);
    OnesHigh();
    assert Ones(16) + Ones(16) == Ones(32);
  }

  // ----- the register is the remainder

  /** A bit joins the register at its low end. */
  function Joined(c: bv32, b: bool): bv32 { if b then c ^ 1 else c }

  lemma JoinedBits(c: bv32, b: bool)
    ensures Half(Joined(c, b)) == Half(c) && (Low(Joined(c, b)) <==> Low(c) != b)
  {
    LowBit(c);
  }

  lemma StepHalves(c: bv32)
    ensures if Low(c) then IsXor(Half(c), POLYNOMIAL, Step(c)) else Step(c) == Half(c)
  {
    LowBit(c);
  }

  /** The step divides as polynomials do. */
  lemma StepFeeds(c: bv32, b: bool)
    ensures Coefficients(Step(Joined(c, b))) == Fed(Coefficients(c), b)
  {
    var j := Joined(c, b);
    JoinedBits(c, b);
    StepHalves(j);
    WordOfHalf(c);
    assert Coefficients(c)[0] == Low(c);
    if Low(j) {
      HalvesTakeXor();
      BitsOfXor(Half, Low, Half(j), POLYNOMIAL, Step(j), 32);
      GeneratorBits();
    } else {
      assert Plus(Coefficients(Half(c)), Zeros(33)[1..]) == Coefficients(Half(c));
    }
  }

  /** The register after bits one by one, each by the step `f` and joined by `g`. */
  function Taken(f: BitStep, g: Join, c: bv32, bits: Poly): bv32 {
    if bits == [] then c else f(g(Taken(f, g, c, bits[..|bits| - 1]), bits[|bits| - 1]))
  }

  type Join = (bv32, bool) -> bv32

  predicate TakesBitAt(f: BitStep, g: Join, h: BitStep, l: BitTest, a: bv32, y: bv32, d: bv32) {
    IsXor(a, y, d) ==> IsXor(f(g(a, l(y))), h(y), f(d))
  }

  ghost predicate TakesBits(f: BitStep, g: Join, h: BitStep, l: BitTest) {
    forall a, y, d {:trigger TakesBitAt(f, g, h, l, a, y, d)} :: TakesBitAt(f, g, h, l, a, y, d)
  }

  lemma StepTakesBit(a: bv32, y: bv32, d: bv32)
    ensures TakesBitAt(Step, Joined, Half, Low, a, y, d)
  {
    var j := Joined(a, Low(y));
    JoinedBits(a, Low(y));
    HalfOfXor(a, y, d);
    StepHalves(j);
    StepHalves(d);
    BothTake(Half(a), Half(y), Half(d), POLYNOMIAL, Step(j), Step(d));
  }

  lemma StepTakesBits()
    ensures TakesBits(Step, Joined, Half, Low)
  {
    forall a, y, d ensures TakesBitAt(Step, Joined, Half, Low, a, y, d) { StepTakesBit(a, y, d); }
  }

  lemma BothTake(a: bv32, y: bv32, d: bv32, p: bv32, s: bv32, t: bv32)
    ensures IsXor(a, y, d) && IsXor(a, p, s) && IsXor(d, p, t) ==> IsXor(s, y, t)
  {
  }

  /** Steps of the register and a byte take the byte's bits one by one. */
  lemma {:induction false} BitsAreTaken(f: BitStep, g: Join, h: BitStep, l: BitTest, c: bv32, x: bv32, d: bv32, n: nat)
    requires IsXor(c, x, d) && TakesBits(f, g, h, l)
    ensures IsXor(Taken(f, g, c, Bits(h, l, x, n)), Iterate(h, x, n), Iterate(f, d, n))
  {
    if n > 0 {
      BitsAreTaken(f, g, h, l, c, x, d, n - 1);
      var bits := Bits(h, l, x, n - 1);
      BitsSplit(h, l, x, n - 1);
      TakenLast(f, g, c, bits, l(Iterate(h, x, n - 1)));
      assert TakesBitAt(f, g, h, l, Taken(f, g, c, bits), Iterate(h, x, n - 1), Iterate(f, d, n - 1));
    }
  }

  lemma TakenLast(f: BitStep, g: Join, c: bv32, bits: Poly, b: bool)
    ensures Taken(f, g, c, bits + [b]) == f(g(Taken(f, g, c, bits), b))
  {
    assert (bits + [b])[..|bits|] == bits;
  }

  lemma ByteTakes(c: bv32, b: bv8)
    ensures Byte(Step, c, b) == Taken(Step, Joined, c, ByteBits(b))
  {
    WordTakes(c, b as bv32, c ^ (b as bv32));
    ByteIsTwoNibbles(b);
  }

  lemma WordTakes(c: bv32, x: bv32, d: bv32)
    requires IsXor(c, x, d)
    ensures Nibble(Nibble(x)) == 0 ==> Iterate(Step, d, 8) == Taken(Step, Joined, c, Bits(Half, Low, x, 8))
  {
    StepTakesBits();
    BitsAreTaken(Step, Joined, Half, Low, c, x, d, 8);
    HalvedByte(x);
    if Nibble(Nibble(x)) == 0 { NothingAdded(Taken(Step, Joined, c, Bits(Half, Low, x, 8)), Iterate(Step, d, 8)); }
  }

  lemma ByteIsTwoNibbles(b: bv8)
    ensures Nibble(Nibble(b as bv32)) == 0
  {
  }

  predicate FeedsAt(f: BitStep, g: Join, w: bv32 -> Poly, c: bv32, b: bool) {
    |w(c)| == 32 && w(f(g(c, b))) == Fed(w(c), b)
  }

  ghost predicate Feeds(f: BitStep, g: Join, w: bv32 -> Poly) {
    forall c, b {:trigger FeedsAt(f, g, w, c, b)} :: FeedsAt(f, g, w, c, b)
  }

  lemma StepFeedsWords()
    ensures Feeds(Step, Joined, Coefficients)
  {
    forall c, b ensures FeedsAt(Step, Joined, Coefficients, c, b) { StepFeeds(c, b); }
  }

  lemma {:induction false} TakenDivides(f: BitStep, g: Join, w: bv32 -> Poly, c: bv32, before: Poly, bits: Poly)
    requires Feeds(f, g, w) && IsRemainder(Dividend(before), w(c))
    ensures IsRemainder(Dividend(before + bits), w(Taken(f, g, c, bits)))
  {
    if bits == [] {
      assert before + bits == before;
    } else {
      var n := |bits| - 1;
      var r := Taken(f, g, c, bits[..n]);
      TakenDivides(f, g, w, c, before, bits[..n]);
      FedDivides(before + bits[..n], bits[n], w(r));
      assert FeedsAt(f, g, w, r, bits[n]);
      assert before + bits[..n] + [bits[n]] == before + bits;
    }
  }

  lemma RegisterLast(f: BitStep, c: bv32, m: Bytes)
    requires m != []
    ensures Register(f, c, m) == Byte(f, Register(f, c, m[..|m| - 1]), m[|m| - 1])
  {
    var n := |m| - 1;
    assert m == m[..n] + [m[n]];
    RegisterConcat(f, c, m[..n], [m[n]]);
    RegisterOfOne(f, Register(f, c, m[..n]), m[n]);
  }

  lemma RegisterOfOne(f: BitStep, c: bv32, b: bv8)
    ensures Register(f, c, [b]) == Byte(f, c, b)
  {
    assert [b][1..] == [];
  }

  lemma NothingSent()
    ensures IsRemainder(Dividend([]), Coefficients(0xffff_ffff))
  {
    AllOnes();
    assert IsQuotient(Dividend([]), [], Ones(32));
  }

  lemma {:induction false} RegisterDivides(c: bv32, m: Bytes)
    requires IsRemainder(Dividend([]), Coefficients(c))
    ensures IsRemainder(Dividend(Sent(m)), Coefficients(Register(Step, c, m)))
  {
    if m != [] {
      var n := |m| - 1;
      RegisterDivides(c, m[..n]);
      RegisterLast(Step, c, m);
      ByteTakes(Register(Step, c, m[..n]), m[n]);
      StepFeedsWords();
      TakenDivides(Step, Joined, Coefficients, Register(Step, c, m[..n]), Sent(m[..n]), ByteBits(m[n]));
    }
  }

  lemma SameComplement(r: Poly, t: Poly)
    requires |r| == |t| == 32 && Plus(r, Ones(32)) == Plus(t, Ones(32))
    ensures r == t
  {
    forall i | 0 <= i < 32 ensures r[i] == t[i] {
      assert Plus(r, Ones(32))[i] == Plus(t, Ones(32))[i];
    }
  }

  lemma ComplementExactly(s: Poly, w: Poly, crc: Poly, r: Poly)
    requires IsRemainder(s, w) && crc == Plus(w, Ones(32))
    ensures IsRemainder(s, r) <==> |r| == 32 && crc == Plus(r, Ones(32))
  {
    if IsRemainder(s, r) { RemainderIsUnique(s, r, w); }
    if |r| == 32 && crc == Plus(r, Ones(32)) { SameComplement(r, w); }
  }

  lemma WordOfComplement(c: bv32, d: bv32)
    requires IsXor(c, 0xffff_ffff, d)
    ensures Coefficients(d) == Plus(Coefficients(c), Ones(32))
  {
    HalvesTakeXor();
    BitsOfXor(Half, Low, c, 0xffff_ffff, d, 32);
    AllOnes();
  }

  lemma DividedFrom(f: BitStep, init: bv32, m: Bytes, crc: bv32, r: Poly)
    requires f == Step && IsRemainder(Dividend([]), Coefficients(init)) && IsXor(Register(f, init, m), 0xffff_ffff, crc)
    ensures IsRemainder(Dividend(Sent(m)), r) <==> |r| == 32 && Coefficients(crc) == Plus(r, Ones(32))
  {
    var c := Register(f, init, m);
    RegisterDivides(init, m);
    WordOfComplement(c, crc);
    ComplementExactly(Dividend(Sent(m)), Coefficients(c), Coefficients(crc), r);
  }

  /**
   The CRC of a message is the complement of the remainder, and of nothing else: the 32
   coefficients that are left, complemented, are the CRC's bits from the lowest up.
   */
  lemma CrcIsComplementOfRemainder(m: Bytes, r: Poly)
    ensures IsRemainder(Dividend(Sent(m)), r) <==> |r| == 32 && Coefficients(Crc(m)) == Plus(r, Ones(32))
  {
    NothingSent();
    DividedFrom(Step, 0xffff_ffff, m, Crc(m), r);
  }
}
