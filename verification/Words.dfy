/** 32-bit unsigned words as integers, with C's wrap-around, shifts and bitwise operators. */
module Words {

  const TWO32: int := 0x1_0000_0000
  const TWO64: int := 0x1_0000_0000_0000_0000
  const SIGN: int := 0x8000_0000

  type u32 = x: int | 0 <= x < 0x1_0000_0000
  type byte = x: int | 0 <= x < 256

  /** Conversion to uint32_t. */
  function Wrap(x: int): u32 { x % TWO32 }

  lemma WrapSmall(x: int)
    ensures 0 <= x < TWO32 ==> Wrap(x) == x
  {
  }

  lemma WrapPlus(x: int, d: int)
    ensures Wrap(Wrap(x) as int + d) == Wrap(x + d)
  {
  }

  /** The value read as int32_t. */
  function Signed(x: u32): int { if x < SIGN then x else x - TWO32 }

  function Pow2(n: nat): (p: nat)
    ensures p >= 1
  {
    if n == 0 then 1 else 2 * Pow2(n - 1)
  }

  /** Bit k of x. */
  predicate Bit(x: nat, k: nat) {
    if k == 0 then x % 2 == 1 else Bit(x / 2, k - 1)
  }

  function Bool(b: bool): nat { if b then 1 else 0 }

  lemma MulMono(a: nat, b: nat, d: nat)
    requires a <= b
    ensures a * d <= b * d
  {
  }

  // ---- C operators ----

  /** x * Pow2(n), by doubling. */
  function Double(x: nat, n: nat): nat { if n == 0 then x else 2 * Double(x, n - 1) }

  /** x / Pow2(n), by halving. */
  function Halve(x: nat, n: nat): nat { if n == 0 then x else Halve(x / 2, n - 1) }

  /** x % Pow2(n), by halving. */
  function LowPart(x: nat, n: nat): nat { if n == 0 then 0 else 2 * LowPart(x / 2, n - 1) + x % 2 }

  function Shl(x: u32, n: nat): u32 { Wrap(Double(x, n)) }

  function Shr(x: u32, n: nat): u32 {
    HalveBound(x, n);
    Halve(x, n)
  }

  lemma {:induction false} HalveBound(x: nat, n: nat)
    ensures Halve(x, n) <= x
  {
    if n == 0 {
    } else {
      HalveBound(x / 2, n - 1);
    }
  }

  /** Applies f to the low w bits of x and y. */
  function Bitwise(f: (bool, bool) -> bool, x: nat, y: nat, w: nat): nat
  {
    if w == 0 then 0
    else 2 * Bitwise(f, x / 2, y / 2, w - 1) + Bool(f(x % 2 == 1, y % 2 == 1))
  }

  lemma {:induction false} BitwiseBound(f: (bool, bool) -> bool, x: nat, y: nat, w: nat)
    ensures Bitwise(f, x, y, w) < Pow2(w)
  {
    if w == 0 {
    } else {
      BitwiseBound(f, x / 2, y / 2, w - 1);
    }
  }

  lemma Pow32()
    ensures Pow2(32) == TWO32 && Pow2(31) == SIGN && Pow2(24) == 0x100_0000 && Pow2(16) == 0x1_0000 && Pow2(8) == 256
  {
    assert Pow2(8) == 256;
    assert Pow2(16) == 0x1_0000 by { assert Pow2(12) == 4096; }
    assert Pow2(24) == 0x100_0000 by { assert Pow2(20) == 0x10_0000; }
    assert Pow2(31) == SIGN by { assert Pow2(28) == 0x1000_0000; }
  }

  // ---- one bit at a time ----

  lemma DoubledBit(h: nat, b: bool, k: nat)
    ensures Bit(2 * h + Bool(b), k) == if k == 0 then b else Bit(h, k - 1)
  {
    assert (2 * h + Bool(b)) / 2 == h && (2 * h + Bool(b)) % 2 == Bool(b);
  }

  lemma HalvedBit(x: nat, k: nat)
    ensures x == 2 * (x / 2) + Bool(x % 2 == 1)
    ensures Bit(x, k) == if k == 0 then x % 2 == 1 else Bit(x / 2, k - 1)
  {
  }

  function Word(f: (bool, bool) -> bool, x: u32, y: u32): u32 {
    BitwiseBound(f, x, y, 32);
    Pow32();
    Bitwise(f, x, y, 32)
  }

  predicate AndOp(a: bool, b: bool) { a && b }

  predicate OrOp(a: bool, b: bool) { a || b }

  predicate XorOp(a: bool, b: bool) { a != b }

  function And(x: u32, y: u32): u32 { Word(AndOp, x, y) }

  function Or(x: u32, y: u32): u32 { Word(OrOp, x, y) }

  function Xor(x: u32, y: u32): u32 { Word(XorOp, x, y) }

  function Not(x: u32): u32 { 0xFFFF_FFFF - x }

  /** `(x & ~(1 << k)) | (b << k)`. */
  function SetBit(x: u32, k: nat, b: bool): u32
    requires k < 32
  {
    Pow32();
    ReplaceBound(x, k, b, 32);
    Replace(x, k, b)
  }

  function Replace(x: nat, k: nat, b: bool): nat {
    if k == 0 then x - x % 2 + Bool(b) else 2 * Replace(x / 2, k - 1, b) + x % 2
  }

  lemma {:induction false} ReplaceBound(x: nat, k: nat, b: bool, w: nat)
    requires x < Pow2(w) && k < w
    ensures Replace(x, k, b) < Pow2(w)
  {
    var q := Pow2(w - 1);
    assert Pow2(w) == 2 * q;
    var h := x / 2;
    assert x == 2 * h + x % 2 && h < q;
    if k == 0 {
    } else {
      ReplaceBound(h, k - 1, b, w - 1);
    }
  }

  lemma {:induction false} ReplaceBit(x: nat, k: nat, b: bool, j: nat)
    ensures Bit(Replace(x, k, b), j) == if j == k then b else Bit(x, j)
  {
    hide Bit;
    HalvedBit(x, j);
    if k == 0 {
      DoubledBit(x / 2, b, j);
    } else {
      DoubledBit(Replace(x / 2, k - 1, b), x % 2 == 1, j);
      if j > 0 { ReplaceBit(x / 2, k - 1, b, j - 1); }
    }
  }

  /** `(x >> lo) & ((1 << w) - 1)`. */
  function Field(x: u32, lo: nat, w: nat): nat { LowPart(Halve(x, lo), w) }

  // ---- facts about bits ----

  lemma {:induction false} BitAtTop(x: nat, k: nat)
    requires x < Pow2(k + 1)
    ensures Bit(x, k) <==> x >= Pow2(k)
  {
    if k == 0 {
    } else {
      BitAtTop(x / 2, k - 1);
    }
  }

  lemma TopBit(x: u32)
    ensures Bit(x, 31) <==> x >= SIGN
  {
    Pow32();
    BitAtTop(x, 31);
  }

  lemma {:induction false} BitwiseBit(f: (bool, bool) -> bool, x: nat, y: nat, w: nat, k: nat)
    requires k < w
    ensures Bit(Bitwise(f, x, y, w), k) == f(Bit(x, k), Bit(y, k))
  {
    hide Bit;
    HalvedBit(x, k);
    HalvedBit(y, k);
    DoubledBit(Bitwise(f, x / 2, y / 2, w - 1), f(x % 2 == 1, y % 2 == 1), k);
    if k == 0 {
    } else {
      BitwiseBit(f, x / 2, y / 2, w - 1, k - 1);
    }
  }

  lemma DivModUnique(x: nat, d: nat, q: nat, r: nat)
    requires d >= 1 && r < d && x == q * d + r
    ensures x / d == q && x % d == r
  {
    var q' := x / d;
    assert x == q' * d + x % d;
    MulStep(q, d);
    MulStep(q', d);
    if q' > q { MulMono(q + 1, q', d); }
    if q' < q { MulMono(q' + 1, q, d); }
  }

  lemma MulStep(q: nat, d: nat)
    ensures (q + 1) * d == q * d + d
  {
  }

  lemma DoubledDivisor(x: nat, p: nat)
    requires p >= 1
    ensures x / (2 * p) == (x / 2) / p && x % (2 * p) == 2 * ((x / 2) % p) + x % 2
  {
    var q, r := (x / 2) / p, (x / 2) % p;
    DivModParts(x / 2, p);
    MulTwice(q, p);
    DivModUnique(x, 2 * p, q, 2 * r + x % 2);
  }

  lemma DivModParts(x: nat, d: nat)
    requires d >= 1
    ensures x == (x / d) * d + x % d && x % d < d
  {
  }

  lemma MulTwice(q: nat, p: nat)
    ensures 2 * (q * p) == q * (2 * p)
  {
  }

  /** Halving and doubling are division, remainder and multiplication by a power of two. */
  lemma {:induction false} HalveIsDivision(x: nat, n: nat)
    ensures Halve(x, n) == x / Pow2(n) && LowPart(x, n) == x % Pow2(n)
  {
    if n == 0 {
      assert Pow2(0) == 1;
    } else {
      HalveIsDivision(x / 2, n - 1);
      DoubledDivisor(x, Pow2(n - 1));
    }
  }

  lemma {:induction false} DoubleIsProduct(x: nat, n: nat)
    ensures Double(x, n) == x * Pow2(n)
  {
    if n == 0 {
    } else {
      DoubleIsProduct(x, n - 1);
      assert 2 * (x * Pow2(n - 1)) == x * (2 * Pow2(n - 1));
    }
  }

  lemma {:induction false} LowPartBit(x: nat, w: nat, k: nat)
    requires k < w
    ensures Bit(LowPart(x, w), k) == Bit(x, k)
  {
    hide Bit;
    HalvedBit(x, k);
    DoubledBit(LowPart(x / 2, w - 1), x % 2 == 1, k);
    if k == 0 {
    } else {
      LowPartBit(x / 2, w - 1, k - 1);
    }
  }

  /** Words with the same bits are the same word. */
  lemma {:induction false} SameBits(x: nat, y: nat, w: nat)
    requires x < Pow2(w) && y < Pow2(w)
    requires forall k :: 0 <= k < w ==> Bit(x, k) == Bit(y, k)
    ensures x == y
  {
    if w == 0 {
    } else {
      assert Bit(x, 0) == Bit(y, 0);
      forall k | 0 <= k < w - 1
        ensures Bit(x / 2, k) == Bit(y / 2, k)
      {
        assert Bit(x, k + 1) == Bit(y, k + 1);
      }
      SameBits(x / 2, y / 2, w - 1);
    }
  }

  lemma {:induction false} DoubleBit(x: nat, n: nat, k: nat)
    ensures Bit(Double(x, n), k) <==> k >= n && Bit(x, k - n)
  {
    hide Bit;
    if n == 0 {
    } else {
      DoubledBit(Double(x, n - 1), false, k);
      if k > 0 { DoubleBit(x, n - 1, k - 1); }
    }
  }

  lemma {:induction false} HighBit(h: nat, b: bool, w: nat, k: nat)
    requires h < Pow2(w) && k <= w
    ensures Bit(h + (if b then Pow2(w) else 0), k) == if k == w then b else Bit(h, k)
  {
    hide Bit;
    HalvedBit(h, k);
    if w == 0 {
      DoubledBit(0, b, k);
    } else {
      DoubledBit(h / 2 + (if b then Pow2(w - 1) else 0), h % 2 == 1, k);
      if k > 0 { HighBit(h / 2, b, w - 1, k - 1); }
    }
  }

  lemma LowPart32(x: nat)
    ensures LowPart(x, 32) == Wrap(x)
  {
    Pow32();
    HalveIsDivision(x, 32);
  }

  lemma WrapBit(x: nat, k: nat)
    requires k < 32
    ensures Bit(Wrap(x), k) == Bit(x, k)
  {
    LowPart32(x);
    LowPartBit(x, 32, k);
  }

  lemma {:induction false} HalveBit(x: nat, n: nat, k: nat)
    ensures Bit(Halve(x, n), k) == Bit(x, k + n)
  {
    if n == 0 {
    } else {
      HalveBit(x / 2, n - 1, k);
    }
  }

  lemma {:induction false} ComplementBit(x: nat, w: nat, k: nat)
    requires x < Pow2(w) && k < w
    ensures Bit(Pow2(w) - 1 - x, k) == !Bit(x, k)
  {
    hide Bit;
    HalvedBit(x, k);
    DoubledBit(Pow2(w - 1) - 1 - x / 2, x % 2 == 0, k);
    if k == 0 {
    } else {
      ComplementBit(x / 2, w - 1, k - 1);
    }
  }

  // ---- bits of the C operators ----

  lemma ShlBit(x: u32, n: nat, k: nat)
    requires k < 32
    ensures Bit(Shl(x, n), k) <==> k >= n && Bit(x, k - n)
  {
    WrapBit(Double(x, n), k);
    DoubleBit(x, n, k);
  }

  lemma ShrBits(x: u32, n: nat, k: nat)
    ensures Bit(Shr(x, n), k) == Bit(x, k + n)
  {
    HalveBit(x, n, k);
  }

  lemma NotBit(x: u32, k: nat)
    requires k < 32
    ensures Bit(Not(x), k) == !Bit(x, k)
  {
    Pow32();
    ComplementBit(x, 32, k);
  }

  lemma WordBit(f: (bool, bool) -> bool, x: u32, y: u32, k: nat)
    requires k < 32
    ensures Bit(Word(f, x, y), k) == f(Bit(x, k), Bit(y, k))
  {
    BitwiseBit(f, x, y, 32, k);
  }

  lemma {:induction false} NoBitsAbove(x: nat, w: nat, k: nat)
    requires x < Pow2(w) && k >= w
    ensures !Bit(x, k)
  {
    if k == 0 {
    } else {
      if w > 0 { NoBitsAbove(x / 2, w - 1, k - 1); } else { NoBitsAbove(0, 0, k - 1); }
    }
  }

  lemma HighBitsClear(x: u32, k: nat)
    requires k >= 32
    ensures !Bit(x, k)
  {
    Pow32();
    NoBitsAbove(x, 32, k);
  }

  lemma SameWord(x: u32, y: u32)
    requires forall k :: 0 <= k < 32 ==> Bit(x, k) == Bit(y, k)
    ensures x == y
  {
    Pow32();
    SameBits(x, y, 32);
  }
}
