/** Powers of the two bases, and unsigned integers as bytes in both byte orders. */
module Integers {
  import opened Base

  function NatOf(b: bv8): nat {
    if b == 0 then 0 else 1 + NatOf(b - 1)
  }

  lemma {:induction false} NatOfIs(b: bv8)
    ensures NatOf(b) == b as int < 256
  {
    if b != 0 { NatOfIs(b - 1); }
  }

  function ByteOf(n: nat): (b: bv8)
    requires n < 256
    ensures NatOf(b) == n
  {
    if n == 0 then 0
    else
      NatOfIs(ByteOf(n - 1));
      ByteOf(n - 1) + 1
  }

  lemma {:induction false} ByteOfNat(b: bv8)
    ensures NatOf(b) < 256 && ByteOf(NatOf(b)) == b
  {
    NatOfIs(b);
    if b != 0 { ByteOfNat(b - 1); }
  }

  function Pow10(n: nat): (p: nat)
    ensures p > 0
  {
    if n == 0 then 1 else 10 * Pow10(n - 1)
  }

  function Pow256(k: nat): (p: nat)
    ensures p > 0
  {
    if k == 0 then 1 else 256 * Pow256(k - 1)
  }

  /** The `k` low bytes of a number, the highest first: what a cast to that width
      and a big-endian encoding give. */
  function ToBe(n: nat, k: nat): (b: Bytes)
    ensures |b| == k
  {
    if k == 0 then [] else ToBe(n / 256, k - 1) + [ByteOf(n % 256)]
  }

  function FromBe(b: Bytes): nat {
    if b == [] then 0 else FromBe(b[..|b| - 1]) * 256 + NatOf(b[|b| - 1])
  }

  lemma {:induction false} BeRoundTrip(n: nat, k: nat)
    ensures FromBe(ToBe(n, k)) == n % Pow256(k)
  {
    if k > 0 {
      BeRoundTrip(n / 256, k - 1);
      assert ToBe(n, k)[..k - 1] == ToBe(n / 256, k - 1);
      ModSplits(n, Pow256(k - 1));
    }
  }

  lemma {:induction false} BeInverse(b: Bytes)
    ensures ToBe(FromBe(b), |b|) == b
  {
    if b != [] {
      var n := |b| - 1;
      BeInverse(b[..n]);
      BeAppend(FromBe(b[..n]), n, b[n]);
      assert b == b[..n] + [b[n]];
    }
  }

  lemma BeAppend(high: nat, k: nat, b: bv8)
    ensures ToBe(high * 256 + NatOf(b), k + 1) == ToBe(high, k) + [b]
  {
    ByteOfNat(b);
    BeAppendNat(high, k, NatOf(b));
  }

  lemma BeAppendNat(high: nat, k: nat, low: nat)
    requires low < 256
    ensures ToBe(high * 256 + low, k + 1) == ToBe(high, k) + [ByteOf(low)]
  {
    Digits256(high, low);
  }

  lemma Digits256(high: nat, low: nat)
    requires low < 256
    ensures (high * 256 + low) / 256 == high && (high * 256 + low) % 256 == low
  {
  }

  lemma ModSplits(n: nat, p: nat)
    requires p > 0
    ensures n / 256 % p * 256 + n % 256 == n % (256 * p)
  {
    var q, r := n / 256, n % 256;
    var a, b := q / p, q % p;
    assert q == a * p + b;
    var m := 256 * p;
    assert n == a * m + (b * 256 + r) by {
      assert n == 256 * q + r;
      assert 256 * (a * p) == a * m;
    }
    DivideUniquely(n, m, a, b * 256 + r);
  }

  lemma DivideUniquely(n: nat, m: nat, a: nat, r: nat)
    requires m > 0 && n == a * m + r && r < m
    ensures n % m == r
  {
    var q, s := n / m, n % m;
    assert n == q * m + s;
    assert (q - a) * m == r - s;
    if q > a { AtLeastOnce(q - a, m); } else if a > q { AtLeastOnce(a - q, m); }
  }

  lemma AtLeastOnce(k: nat, m: nat)
    requires k >= 1
    ensures k * m >= m
  {
  }

  function ToLe(n: nat, k: nat): (b: Bytes)
    ensures |b| == k
  {
    if k == 0 then [] else [ByteOf(n % 256)] + ToLe(n / 256, k - 1)
  }

  function FromLe(b: Bytes): nat {
    if b == [] then 0 else NatOf(b[0]) + 256 * FromLe(b[1..])
  }

  lemma {:induction false} LeRoundTrip(n: nat, k: nat)
    ensures FromLe(ToLe(n, k)) == n % Pow256(k)
  {
    if k > 0 {
      LeRoundTrip(n / 256, k - 1);
      assert ToLe(n, k)[1..] == ToLe(n / 256, k - 1);
      ModSplits(n, Pow256(k - 1));
    }
  }

  /** The first byte counts most. */
  lemma {:induction false} BeFirst(x: bv8, rest: Bytes)
    ensures FromBe([x] + rest) == NatOf(x) * Pow256(|rest|) + FromBe(rest)
    decreases |rest|
  {
    if rest == [] {
      assert [x] + rest == [x] && [x][..0] == [];
    } else {
      var n := |rest| - 1;
      assert ([x] + rest)[..n + 1] == [x] + rest[..n];
      BeFirst(x, rest[..n]);
      Distribute(NatOf(x), Pow256(n), FromBe(rest[..n]));
    }
  }

  lemma Distribute(x: nat, p: nat, y: nat)
    ensures (x * p + y) * 256 == x * (256 * p) + y * 256
  {
  }

  lemma Widths()
    ensures Pow256(4) == 0x1_0000_0000
    ensures Pow256(8) == 0x1_0000_0000_0000_0000
  {
    assert Pow256(2) == 65536;
    assert Pow256(6) == 0x1_0000_0000_0000;
  }

  lemma SmallMod(n: nat, m: nat)
    requires n < m
    ensures n % m == n
  {
  }

  lemma BeFits(n: nat, k: nat)
    requires n < Pow256(k)
    ensures FromBe(ToBe(n, k)) == n
  {
    BeRoundTrip(n, k);
    SmallMod(n, Pow256(k));
  }

  lemma LeFits(n: nat, k: nat)
    requires n < Pow256(k)
    ensures FromLe(ToLe(n, k)) == n
  {
    LeRoundTrip(n, k);
    SmallMod(n, Pow256(k));
  }

  lemma Be32(n: nat)
    ensures FromBe(ToBe(n, 4)) == n % 0x1_0000_0000
  {
    BeRoundTrip(n, 4);
    Widths();
  }

  lemma SmallBe32(n: nat)
    requires n < 0x1_0000_0000
    ensures FromBe(ToBe(n, 4)) == n
  {
    Widths();
    BeFits(n, 4);
  }

  lemma Be64(n: nat)
    requires n < 0x1_0000_0000_0000_0000
    ensures FromBe(ToBe(n, 8)) == n
  {
    Widths();
    BeFits(n, 8);
  }

  lemma Le32(n: nat)
    requires n < 0x1_0000_0000
    ensures FromLe(ToLe(n, 4)) == n
  {
    Widths();
    LeFits(n, 4);
  }

  lemma Le64(n: nat)
    requires n < 0x1_0000_0000_0000_0000
    ensures FromLe(ToLe(n, 8)) == n
  {
    Widths();
    LeFits(n, 8);
  }
}
