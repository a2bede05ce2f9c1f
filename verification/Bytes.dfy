/**
 Bytes, big-endian integers and exclusive or, shared by every codec of the sensor.
 Bit operations are written as division and remainder by powers of two.
 */
module Bytes {

  type Byte = x: int | 0 <= x < 0x100
  type Uint16 = x: int | 0 <= x < 0x1_0000
  type Uint32 = x: int | 0 <= x < 0x1_0000_0000
  type Uint64 = x: int | 0 <= x < 0x1_0000_0000_0000_0000
  type Octets = seq<Byte>

  datatype Option<+T> = None | Some(value: T)

  datatype Result<+T, +E> = Success(value: T) | Failure(error: E)

  function Min(a: int, b: int): int { if a < b then a else b }

  function Max(a: int, b: int): int { if a < b then b else a }

  function Pow256(n: nat): (p: nat)
    ensures p > 0
  {
    if n == 0 then 1 else 256 * Pow256(n - 1)
  }

  /** The low `n` bytes of `v`, most significant first. */
  function BigEndian(v: nat, n: nat): (s: Octets)
    ensures |s| == n
  {
    if n == 0 then [] else BigEndian(v / 256, n - 1) + [v % 256]
  }

  /** The number whose big-endian digits are `s`. */
  function FromBigEndian(s: Octets): nat {
    if s == [] then 0 else 256 * FromBigEndian(s[..|s| - 1]) + s[|s| - 1]
  }

  lemma {:induction false} BigEndianInverse(v: nat, n: nat)
    requires v < Pow256(n)
    ensures FromBigEndian(BigEndian(v, n)) == v
    decreases n
  {
    hide BigEndian, FromBigEndian, Pow256;
    if n == 0 {
      NoDigits(v);
    } else {
      OneDigitLess(v, n);
      BigEndianInverse(v / 256, n - 1);
      LastDigit(BigEndian(v / 256, n - 1), v % 256);
    }
  }

  lemma NoDigits(v: nat)
    requires v < Pow256(0)
    ensures FromBigEndian(BigEndian(v, 0)) == v
  {
  }

  lemma OneDigitLess(v: nat, n: nat)
    requires v < Pow256(n) && n > 0
    ensures v / 256 < Pow256(n - 1) && BigEndian(v, n) == BigEndian(v / 256, n - 1) + [v % 256]
  {
  }

  /** Each big-endian digit is its power's. */
  lemma {:induction false} BigEndianAt(v: nat, n: nat, i: nat)
    requires i < n
    ensures BigEndian(v, n)[i] == v / Pow256(n - 1 - i) % 256
    decreases n
  {
    if i == n - 1 {
      assert Pow256(0) == 1 && v / 1 == v;
    } else {
      BigEndianAt(v / 256, n - 1, i);
      DivTwice(v, Pow256(n - 2 - i));
      assert Pow256(n - 1 - i) == 256 * Pow256(n - 2 - i);
    }
  }

  lemma DivTwice(v: nat, k: nat)
    requires k > 0
    ensures v / 256 / k == v / (256 * k)
  {
    var q, r := v / 256 / k, v / 256 % k;
    assert v == 256 * (q * k + r) + v % 256;
    assert v == q * (256 * k) + (256 * r + v % 256);
    assert 0 <= 256 * r + v % 256 < 256 * k;
    QuotientIs(v, 256 * k, q, 256 * r + v % 256);
  }

  lemma QuotientIs(v: nat, d: nat, q: nat, r: nat)
    requires d > 0 && v == q * d + r && r < d
    ensures v / d == q
  {
    var k := v / d - q;
    assert k * d == r - v % d;
    if k >= 1 {
      AtLeast(k, d);
    } else if k <= -1 {
      AtLeast(-k, d);
    }
  }

  lemma AtLeast(k: int, d: nat)
    requires k >= 1
    ensures k * d >= d
  {
    assert k * d == (k - 1) * d + d;
  }

  lemma LastDigit(s: Octets, b: Byte)
    ensures FromBigEndian(s + [b]) == 256 * FromBigEndian(s) + b
  {
    assert (s + [b])[..|s|] == s;
  }

  /** The first digit weighs as much as there are digits after it. */
  lemma {:induction false} FirstDigit(b: Byte, s: Octets)
    ensures FromBigEndian([b] + s) == b * Pow256(|s|) + FromBigEndian(s)
  {
    if s == [] {
      assert ([b] + s)[..0] == [];
    } else {
      var init, last := s[..|s| - 1], s[|s| - 1];
      FirstDigit(b, init);
      FrontDigits(b, init, last);
      assert s == init + [last];
    }
  }

  lemma FrontDigits(b: Byte, init: Octets, last: Byte)
    requires FromBigEndian([b] + init) == b * Pow256(|init|) + FromBigEndian(init)
    ensures FromBigEndian([b] + (init + [last])) == b * Pow256(|init| + 1) + FromBigEndian(init + [last])
  {
    hide FromBigEndian, Pow256;
    assert [b] + (init + [last]) == ([b] + init) + [last];
    LastDigit([b] + init, last);
    LastDigit(init, last);
    WeightNext(b, |init|);
  }

  lemma WeightNext(b: nat, n: nat)
    ensures b * Pow256(n + 1) == 256 * (b * Pow256(n))
  {
    Reorder(b, Pow256(n));
  }

  lemma Reorder(b: nat, w: nat)
    ensures b * (256 * w) == 256 * (b * w)
  {
  }

  function Be16(a: Byte, b: Byte): Uint16 {
    a as int * 0x100 + b as int
  }

  function Be24(a: Byte, b: Byte, c: Byte): nat {
    Be16(a, b) as int * 0x100 + c as int
  }

  function Be32(a: Byte, b: Byte, c: Byte, d: Byte): Uint32 {
    Be24(a, b, c) * 0x100 + d as int
  }

  function Zeros(n: nat): (s: Octets)
    ensures |s| == n
  {
    seq(n, _ => 0)
  }

  // --- exclusive or ---

  function Xor(a: nat, b: nat): nat
    decreases a + b
  {
    if a == 0 && b == 0 then 0 else 2 * Xor(a / 2, b / 2) + (a + b) % 2
  }

  lemma {:induction false} XorHalves(a: nat, b: nat)
    ensures Xor(a, b) / 2 == Xor(a / 2, b / 2)
    ensures Xor(a, b) % 2 == (a + b) % 2
  {
  }

  /** `x` without its `k` low bits. */
  function Shifted(x: nat, k: nat): int { x / Pow2(k) }

  /** A bit of the result is set exactly when it is set in one of the two. */
  lemma {:induction false} XorBit(a: nat, b: nat, k: nat)
    ensures Shifted(Xor(a, b), k) % 2 == (Shifted(a, k) + Shifted(b, k)) % 2
    decreases k
  {
    hide Xor, Pow2, Shifted;
    XorHalves(a, b);
    if k == 0 {
      BitZero(Xor(a, b));
      BitZero(a);
      BitZero(b);
    } else {
      XorBit(a / 2, b / 2, k - 1);
      BitNext(Xor(a, b), k);
      BitNext(a, k);
      BitNext(b, k);
    }
  }

  lemma BitZero(x: nat)
    ensures Shifted(x, 0) == x
  {
    assert Pow2(0) == 1;
  }

  lemma BitNext(x: nat, k: nat)
    requires k > 0
    ensures Shifted(x, k) == Shifted(x / 2, k - 1)
  {
    Halved(x, Pow2(k - 1));
  }

  lemma Halved(x: nat, k: nat)
    requires k > 0
    ensures x / (2 * k) == x / 2 / k
  {
    var q, r := x / 2 / k, x / 2 % k;
    assert x == 2 * (q * k + r) + x % 2;
    assert x == q * (2 * k) + (2 * r + x % 2);
    QuotientIs(x, 2 * k, q, 2 * r + x % 2);
  }

  lemma ParityCancels(a: nat, b: nat, x: nat)
    requires x % 2 == (a + b) % 2
    ensures (x + b) % 2 == a % 2
  {
  }

  /** Masking twice with the same value restores the original. */
  lemma {:induction false} XorInvolution(a: nat, b: nat)
    ensures Xor(Xor(a, b), b) == a
    decreases a + b
  {
    if a == 0 && b == 0 {
    } else {
      hide Xor;
      var x := Xor(a, b);
      XorHalves(a, b);
      XorHalves(x, b);
      XorInvolution(a / 2, b / 2);
      ParityCancels(a, b, x);
    }
  }

  lemma {:induction false} XorZero(a: nat)
    ensures Xor(a, 0) == a
  {
    if a != 0 {
      XorZero(a / 2);
    }
  }

  function Pow2(n: nat): (p: nat)
    ensures p > 0
  {
    if n == 0 then 1 else 2 * Pow2(n - 1)
  }

  lemma {:induction false} XorBelow(a: nat, b: nat, n: nat)
    requires a < Pow2(n) && b < Pow2(n)
    ensures Xor(a, b) < Pow2(n)
  {
    if n > 0 {
      XorBelow(a / 2, b / 2, n - 1);
      XorHalves(a, b);
    }
  }

  function XorByte(a: Byte, b: Byte): (r: Byte) {
    assert Pow2(8) == 256 by { assert Pow2(4) == 16; }
    XorBelow(a, b, 8);
    Xor(a, b)
  }

  lemma HalveFourTimes(x: nat)
    ensures x / 16 == x / 2 / 2 / 2 / 2
  {
    assert x / 4 == x / 2 / 2;
    assert x / 8 == x / 4 / 2;
    assert x / 16 == x / 8 / 2;
  }

  /** A mask confined to the low four bits leaves the high four bits alone. */
  lemma {:induction false} XorKeepsHighNibble(a: nat, m: nat)
    requires m < 16
    ensures Xor(a, m) / 16 == a / 16
  {
    var a1, m1 := a / 2, m / 2;
    var a2, m2 := a1 / 2, m1 / 2;
    var a3, m3 := a2 / 2, m2 / 2;
    var a4, m4 := a3 / 2, m3 / 2;
    assert m4 == 0;
    HalveFourTimes(Xor(a, m));
    HalveFourTimes(a);
    XorHalves(a, m);
    XorHalves(a1, m1);
    XorHalves(a2, m2);
    XorHalves(a3, m3);
    XorZero(a4);
  }
}
