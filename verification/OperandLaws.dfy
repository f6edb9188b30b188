/** Operand2 in plain arithmetic on the instruction word and the registers. */
module OperandLaws {
  import opened Words
  import opened Shifter
  import opened CpuModel

  // ---- powers of two ----

  lemma {:induction false} PowAdd(a: nat, b: nat)
    ensures Pow2(a + b) == Pow2(a) * Pow2(b)
  {
    if a == 0 {
    } else {
      PowAdd(a - 1, b);
      MulTwice(Pow2(b), Pow2(a - 1));
      assert Pow2(a + b) == 2 * Pow2(a - 1 + b);
      assert Pow2(a) * Pow2(b) == (2 * Pow2(a - 1)) * Pow2(b) == 2 * (Pow2(a - 1) * Pow2(b));
    }
  }

  lemma PowSplit(n: nat)
    requires n <= 32
    ensures Pow2(n) * Pow2(32 - n) == TWO32
  {
    PowAdd(n, 32 - n);
    Pow32();
  }

  lemma ShrIs(x: u32, n: nat)
    ensures Shr(x, n) == x / Pow2(n)
  {
    HalveIsDivision(x, n);
  }

  lemma ShlIs(x: u32, n: nat)
    ensures Shl(x, n) == Wrap(x * Pow2(n))
  {
    DoubleIsProduct(x, n);
  }

  lemma Bounded(q: nat, r: nat, p: nat, o: nat)
    requires r < p && q < o
    ensures r * o < p * o && q * p < o * p
  {
  }

  lemma Regroup(q: nat, p: nat, o: nat)
    ensures (q * p) * o == q * (p * o)
  {
  }

  lemma Distribute(a: nat, b: nat, o: nat)
    ensures (a + b) * o == a * o + b * o
  {
  }

  /** The high part of a word has few bits. */
  lemma HighPart(x: u32, n: nat)
    requires n <= 32
    ensures x / Pow2(n) < Pow2(32 - n)
  {
    hide Pow2;
    var p, o := Pow2(n), Pow2(32 - n);
    PowSplit(n);
    DivModParts(x, p);
    if x / p >= o { MulMono(o, x / p, p); }
  }

  lemma CrossProduct(x: nat, p: nat, o: nat, t: nat)
    requires p >= 1 && p * o == t && t >= 1
    ensures x * o == (x / p) * t + (x % p) * o && (x % p) * o < t
  {
    var q, r := x / p, x % p;
    DivModParts(x, p);
    Distribute(q * p, r, o);
    Regroup(q, p, o);
    PositiveFactor(p, o);
    Strict(r, p, o);
  }

  lemma PositiveFactor(p: nat, o: nat)
    requires p * o >= 1
    ensures o >= 1
  {
  }

  lemma Strict(r: nat, p: nat, o: nat)
    requires r < p && o >= 1
    ensures r * o < p * o
  {
    MulMono(r, p - 1, o);
    Distribute(p - 1, 1, o);
  }

  /** The low bits that leave at the bottom come in at the top. */
  lemma LowComesIn(x: u32, n: nat)
    requires n <= 32
    ensures Wrap(x * Pow2(32 - n)) == (x % Pow2(n)) * Pow2(32 - n)
  {
    hide Pow2;
    var p, o := Pow2(n), Pow2(32 - n);
    PowSplit(n);
    CrossProduct(x, p, o, TWO32);
    DivModUnique(x * o, TWO32, x / p, (x % p) * o);
  }

  // ---- or-ing words whose bits do not meet ----

  lemma {:induction false} SplitBit(a: nat, b: nat, w: nat, k: nat)
    requires a < Pow2(w)
    ensures Bit(a + b * Pow2(w), k) == if k < w then Bit(a, k) else Bit(b, k - w)
  {
    hide Bit;
    if w == 0 {
      assert Pow2(0) == 1 && a == 0 && a + b * Pow2(0) == b;
    } else {
      var h := a / 2 + b * Pow2(w - 1);
      MulTwice(b, Pow2(w - 1));
      HalvedBit(a, k);
      assert a + b * Pow2(w) == 2 * h + Bool(a % 2 == 1);
      DoubledBit(h, a % 2 == 1, k);
      if k > 0 { SplitBit(a / 2, b, w - 1, k - 1); }
    }
  }

  lemma OrDisjoint(a: u32, b: nat, w: nat, hi: u32, sum: u32)
    requires a < Pow2(w) && hi == b * Pow2(w) && sum == a + hi
    ensures Or(a, hi) == sum
  {
    hide Bit, Or, Pow2;
    forall k | 0 <= k < 32
      ensures Bit(Or(a, hi), k) == Bit(sum, k)
    {
      OrBit(a, hi, k);
      SplitBit(a, b, w, k);
      ProductBit(b, w, k);
      if k >= w { NoBitsAbove(a, w, k); }
    }
    SameWord(Or(a, hi), sum);
  }

  lemma ProductBit(b: nat, w: nat, k: nat)
    ensures Bit(b * Pow2(w), k) <==> k >= w && Bit(b, k - w)
  {
    hide Bit;
    SplitBit(0, b, w, k);
    ZeroBit(k);
  }

  lemma OrBit(x: u32, y: u32, k: nat)
    requires k < 32
    ensures Bit(Or(x, y), k) <==> Bit(x, k) || Bit(y, k)
  {
    hide Bit, Word;
    WordBit(OrOp, x, y, k);
  }

  lemma RotationIs(x: u32, n: nat)
    requires 1 <= n < 32
    ensures Ror32(x, n) == x / Pow2(n) + (x % Pow2(n)) * Pow2(32 - n)
  {
    hide Pow2, Or, Shr, Shl, Wrap;
    var hi := (x % Pow2(n)) * Pow2(32 - n);
    ShrIs(x, n);
    ShlIs(x, 32 - n);
    LowComesIn(x, n);
    HighPart(x, n);
    RotationFits(x, n);
    OrDisjoint(x / Pow2(n), x % Pow2(n), 32 - n, hi, x / Pow2(n) + hi);
    assert n % 32 == n;
  }

  lemma RotationFits(x: u32, n: nat)
    requires n <= 32
    ensures x / Pow2(n) + (x % Pow2(n)) * Pow2(32 - n) < TWO32
  {
    var p, o := Pow2(n), Pow2(32 - n);
    PowSplit(n);
    HighPart(x, n);
    MulMono(x % p, p - 1, o);
    Distribute(p - 1, 1, o);
  }

  lemma ArithmeticIs(x: u32, n: nat)
    requires 1 <= n < 32
    ensures ArithmeticRight(x, n) == Wrap(Signed(x) / Pow2(n))
  {
    hide Shr, Or, Wrap, Pow2;
    var p, o := Pow2(n), Pow2(32 - n);
    PowSplit(n);
    ShrIs(x, n);
    HighPart(x, n);
    if x < SIGN {
      WrapSmall(x / p);
    } else {
      ShrIs(0xFFFF_FFFF, n);
      OnesHigh(n);
      LessOne(p, o);
      OrDisjoint(x / p, p - 1, 32 - n, Not(Shr(0xFFFF_FFFF, n)), x / p + Not(Shr(0xFFFF_FFFF, n)));
      FloorBelow(x, p, o);
      WrapNegative(x / p - o);
    }
  }

  lemma LessOne(p: nat, o: nat)
    requires p >= 1
    ensures (p - 1) * o == p * o - o && o * (p - 1) == o * p - o
  {
  }

  lemma OnesHigh(n: nat)
    requires n <= 32
    ensures 0xFFFF_FFFF / Pow2(n) == Pow2(32 - n) - 1
  {
    hide Pow2;
    var p, o := Pow2(n), Pow2(32 - n);
    PowSplit(n);
    LessOne(o, p);
    DivModUnique(0xFFFF_FFFF, p, o - 1, p - 1);
  }

  lemma FloorBelow(x: u32, p: nat, o: nat)
    requires p >= 1 && p * o == TWO32
    ensures (x as int - TWO32) / p == x as int / p - o
  {
    DivModParts(x, p);
    MulDifference(x / p, o, p);
    FloorUnique(x as int - TWO32, p, x / p - o, x % p);
  }

  lemma MulDifference(a: int, b: int, p: int)
    ensures (a - b) * p == a * p - b * p
  {
  }

  lemma FloorUnique(y: int, p: nat, q: int, r: nat)
    requires p >= 1 && r < p && y == q * p + r
    ensures y / p == q
  {
    var d := y / p;
    FloorParts(y, p);
    MulDifference(d, q, p);
    MulDifference(q, d, p);
    if d > q { MulMono(1, d - q, p); }
    if d < q { MulMono(1, q - d, p); }
  }

  lemma FloorParts(y: int, p: nat)
    requires p >= 1
    ensures y == (y / p) * p + y % p && 0 <= y % p < p
  {
  }

  lemma WrapNegative(y: int)
    requires -TWO32 <= y < 0
    ensures Wrap(y) == y + TWO32
  {
  }

  // ---- the laws ----

  lemma CarryIs(x: u32, k: nat)
    ensures LowBit(Shr(x, k)) <==> x / Pow2(k) % 2 == 1
  {
    ShrIs(x, k);
  }

  /** A shift by an amount from 1 to 31, in arithmetic: to the left, to the right, to the right with the sign kept, and
      around. The carry is the bit that left the word last. */
  lemma LeftIs(x: u32, n: nat, c: bool)
    requires 1 <= n < 32
    ensures var o := ShiftImmediate(x, LSL, n, c);
      o.value == x * Pow2(n) % TWO32 && o.carry == (x / Pow2(32 - n) % 2 == 1)
  {
    hide Shr, Shl, LowBit, Pow2;
    ShlIs(x, n);
    CarryIs(x, 32 - n);
  }

  lemma RightIs(x: u32, n: nat, c: bool)
    requires 1 <= n < 32
    ensures var o := ShiftImmediate(x, LSR, n, c);
      o.value == x / Pow2(n) && o.carry == (x / Pow2(n - 1) % 2 == 1)
  {
    hide Shr, LowBit, Pow2;
    ShrIs(x, n);
    CarryIs(x, n - 1);
  }

  lemma SignedRightIs(x: u32, n: nat, c: bool)
    requires 1 <= n < 32
    ensures var o := ShiftImmediate(x, ASR, n, c);
      && o.value == (if x < 0x8000_0000 then x as int else x as int - TWO32) / Pow2(n) % TWO32
      && o.carry == (x / Pow2(n - 1) % 2 == 1)
  {
    hide Shr, ArithmeticRight, LowBit, Pow2;
    ArithmeticIs(x, n);
    CarryIs(x, n - 1);
  }

  lemma AroundIs(x: u32, n: nat, c: bool)
    requires 1 <= n < 32
    ensures var o := ShiftImmediate(x, ROR, n, c);
      o.value == x / Pow2(n) + x % Pow2(n) * Pow2(32 - n) && o.carry == (x / Pow2(n - 1) % 2 == 1)
  {
    hide Shr, Ror32, LowBit, Pow2;
    assert n % 32 == n;
    RotationIs(x, n);
    CarryIs(x, n - 1);
  }

  lemma ShiftedIs(x: u32, n: nat, c: bool)
    requires 1 <= n < 32
    ensures var o := ShiftImmediate(x, LSL, n, c);
      o.value == x * Pow2(n) % TWO32 && o.carry == (x / Pow2(32 - n) % 2 == 1)
    ensures var o := ShiftImmediate(x, LSR, n, c);
      o.value == x / Pow2(n) && o.carry == (x / Pow2(n - 1) % 2 == 1)
    ensures var o := ShiftImmediate(x, ASR, n, c);
      && o.value == (if x < 0x8000_0000 then x as int else x as int - TWO32) / Pow2(n) % TWO32
      && o.carry == (x / Pow2(n - 1) % 2 == 1)
    ensures var o := ShiftImmediate(x, ROR, n, c);
      o.value == x / Pow2(n) + x % Pow2(n) * Pow2(32 - n) && o.carry == (x / Pow2(n - 1) % 2 == 1)
  {
    hide ShiftImmediate, Pow2;
    LeftIs(x, n, c);
    RightIs(x, n, c);
    SignedRightIs(x, n, c);
    AroundIs(x, n, c);
  }

  /** Below 32 the amount may come from a register as well. */
  lemma SameShift(x: u32, t: Shift, n: nat, c: bool)
    requires 1 <= n < 32
    ensures ShiftRegister(x, t, n, c) == ShiftImmediate(x, t, n, c)
  {
    hide Shr, Shl, ArithmeticRight, Ror32, LowBit;
    assert n % 256 == n;
  }

  /** What a source register number reads: r15 is the instruction's address plus eight, word-aligned. */
  lemma SourceIs(r: seq<u32>, n: nat)
    requires |r| == 16 && n < 16
    ensures ReadSource(r, n) == if n == 15 then (r[15] + 8) % TWO32 / 4 * 4 else r[n]
  {
  }

  /** Operand2 for a register shifted by an immediate, with the amount in bits 7 to 11 and the kind in bits 5 and 6. */
  lemma ImmediateShiftLaw(r: seq<u32>, instr: u32, c: bool)
    requires |r| == 16 && instr / 0x200_0000 % 2 == 0 && instr / 16 % 2 == 0
    ensures var m, kind, n := instr % 16, instr / 32 % 4, instr / 128 % 32;
      var x := if m == 15 then (r[15] + 8) % TWO32 / 4 * 4 else r[m];
      var signed := if x < 0x8000_0000 then x as int else x as int - TWO32;
      var o := Operand2(r, instr, c);
      && (kind == 0 && n == 0 ==> o.value == x && o.carry == c)
      && (kind == 0 && n > 0 ==> o.value == x * Pow2(n) % TWO32 && o.carry == (x / Pow2(32 - n) % 2 == 1))
      && (kind == 1 && n == 0 ==> o.value == 0 && o.carry == (x >= 0x8000_0000))
      && (kind == 1 && n > 0 ==> o.value == x / Pow2(n) && o.carry == (x / Pow2(n - 1) % 2 == 1))
      && (kind == 2 && n == 0 ==>
            o.value == (if x < 0x8000_0000 then 0 else 0xFFFF_FFFF) && o.carry == (x >= 0x8000_0000))
      && (kind == 2 && n > 0 ==> o.value == signed / Pow2(n) % TWO32 && o.carry == (x / Pow2(n - 1) % 2 == 1))
      && (kind == 3 && n == 0 ==> o.value == x / 2 + (if c then 0x8000_0000 else 0) && o.carry == (x % 2 == 1))
      && (kind == 3 && n > 0 ==>
            o.value == x / Pow2(n) + x % Pow2(n) * Pow2(32 - n) && o.carry == (x / Pow2(n - 1) % 2 == 1))
  {
    hide Bit, Field, Pow2, Wrap, ShiftImmediate;
    Fields(instr);
    InstructionBits(instr);
    var m, n := instr % 16, instr / 128 % 32;
    SourceIs(r, m);
    hide ReadSource;
    var x := ReadSource(r, m);
    if n == 0 {
      ZeroAmounts(x, c);
    } else {
      ShiftedIs(x, n, c);
    }
  }

  /** The immediate amount 0: no shift, 32 steps to the right, or one rotation through the carry. */
  lemma ZeroAmounts(x: u32, c: bool)
    ensures ShiftImmediate(x, LSL, 0, c) == Out(x, c)
    ensures ShiftImmediate(x, LSR, 0, c) == Out(0, x >= 0x8000_0000)
    ensures ShiftImmediate(x, ASR, 0, c) == Out(if x < 0x8000_0000 then 0 else 0xFFFF_FFFF, x >= 0x8000_0000)
    ensures var o := ShiftImmediate(x, ROR, 0, c);
      o.value == x / 2 + (if c then 0x8000_0000 else 0) && o.carry == (x % 2 == 1)
  {
    TopIs(x);
    RotateThroughCarryProof(x, c);
    hide Shr, Shl, Or;
  }

  lemma TopIs(x: u32)
    ensures LowBit(Shr(x, 31)) <==> x >= 0x8000_0000
  {
    ShrLow(x, 31);
    TopBit(x);
  }

  lemma RegisterOperand(r: seq<u32>, instr: u32, c: bool)
    requires |r| == 16 && instr / 0x200_0000 % 2 == 0 && instr / 16 % 2 == 1
    ensures Operand2(r, instr, c)
              == ShiftRegister(ReadSource(r, instr % 16), ShiftType(instr), ReadSource(r, instr / 256 % 16), c)
  {
    hide Bit, Field, ShiftRegister, ReadSource, ShiftType;
    Fields(instr);
    InstructionBits(instr);
  }

  /** The kind of shift is in bits 5 and 6. */
  lemma KindIs(instr: u32)
    ensures ShiftType(instr)
              == if instr / 32 % 4 == 0 then LSL else if instr / 32 % 4 == 1 then LSR
                 else if instr / 32 % 4 == 2 then ASR else ROR
  {
    hide Field;
    Fields(instr);
  }

  /** Which register is shifted, how and how far, when the amount is in a register. */
  lemma RegisterForm(r: seq<u32>, instr: u32, c: bool, x: u32, n: nat)
    requires |r| == 16 && instr / 0x200_0000 % 2 == 0 && instr / 16 % 2 == 1
    requires x == if instr % 16 == 15 then (r[15] + 8) % TWO32 / 4 * 4 else r[instr % 16]
    requires n == (if instr / 256 % 16 == 15 then (r[15] + 8) % TWO32 / 4 * 4 else r[instr / 256 % 16]) % 256
    ensures n < 256
    ensures var kind := instr / 32 % 4;
      Operand2(r, instr, c)
        == ShiftRegister(x, if kind == 0 then LSL else if kind == 1 then LSR else if kind == 2 then ASR else ROR, n, c)
  {
    SourceIs(r, instr % 16);
    SourceIs(r, instr / 256 % 16);
    hide Bit, Field, Wrap, ShiftRegister, Operand2, ReadSource, ShiftType;
    RegisterOperand(r, instr, c);
    KindIs(instr);
    ByteAmount(x, ShiftType(instr), ReadSource(r, instr / 256 % 16), c);
  }

  /** Only the low byte of the amount register counts. */
  lemma ByteAmount(x: u32, t: Shift, rs: u32, c: bool)
    ensures ShiftRegister(x, t, rs, c) == ShiftRegister(x, t, rs % 256, c)
  {
    assert rs % 256 % 256 == rs % 256;
  }

  /** Amounts that leave nothing of a shifted word, and whole rotations. */
  lemma LargeAmounts(x: u32, t: Shift, n: nat, c: bool)
    requires n < 256 && (n == 0 || n >= 32) && (t == ROR ==> n % 32 == 0)
    ensures var o := ShiftRegister(x, t, n, c);
      && (n == 0 ==> o == Out(x, c))
      && (t == LSL && n == 32 ==> o == Out(0, x % 2 == 1))
      && (t == LSR && n == 32 ==> o == Out(0, x >= 0x8000_0000))
      && ((t == LSL || t == LSR) && n > 32 ==> o == Out(0, false))
      && (t == ASR && n >= 32 ==> o == Out(if x < 0x8000_0000 then 0 else 0xFFFF_FFFF, x >= 0x8000_0000))
      && (t == ROR && n > 0 ==> o == Out(x, x >= 0x8000_0000))
  {
    hide Shr, Shl, Ror32, ArithmeticRight, LowBit;
    TopIs(x);
    LowBitIs(x);
    assert n % 256 == n;
  }

  lemma LowBitIs(x: u32)
    ensures LowBit(x) <==> x % 2 == 1
  {
  }

  lemma RotationModulo(x: u32, n: nat, c: bool)
    requires n < 256 && n % 32 > 0
    ensures ShiftRegister(x, ROR, n, c) == ShiftImmediate(x, ROR, n % 32, c)
  {
    hide Shr, Ror32;
    assert n % 32 % 32 == n % 32 && n % 256 == n;
  }

  lemma RotatedForm(r: seq<u32>, instr: u32, c: bool)
    requires |r| == 16 && instr / 0x200_0000 % 2 == 1
    ensures var imm8, n := instr % 256, 2 * (instr / 256 % 16);
      Operand2(r, instr, c)
        == if n == 0 then Out(imm8, c) else Out(Ror32(imm8, n), LowBit(Shr(Ror32(imm8, n), 31)))
  {
    hide Bit, Field, Ror32, Shr, LowBit;
    Fields(instr);
    InstructionBits(instr);
    var n := 2 * (instr / 256 % 16);
    assert n % 32 == n;
  }

  lemma RotatedByte(x: u32, n: nat)
    requires 1 <= n < 32
    ensures Ror32(x, n) == x / Pow2(n) + x % Pow2(n) * Pow2(32 - n)
    ensures LowBit(Shr(Ror32(x, n), 31)) <==> Ror32(x, n) >= 0x8000_0000
  {
    hide Ror32, Shr, LowBit, Pow2;
    RotationIs(x, n);
    TopIs(Ror32(x, n));
  }

  /** Operand2 for a rotated immediate: eight bits, rotated right by twice the number in bits 8 to 11. */
  lemma RotatedImmediateLaw(r: seq<u32>, instr: u32, c: bool)
    requires |r| == 16 && instr / 0x200_0000 % 2 == 1
    ensures var imm8, n := instr % 256, 2 * (instr / 256 % 16);
      var o := Operand2(r, instr, c);
      && (n == 0 ==> o.value == imm8 && o.carry == c)
      && (n > 0 ==> o.value == imm8 / Pow2(n) + imm8 % Pow2(n) * Pow2(32 - n) && o.carry == (o.value >= 0x8000_0000))
  {
    hide Operand2, Ror32, Shr, LowBit, Pow2;
    var imm8, n := instr % 256, 2 * (instr / 256 % 16);
    RotatedForm(r, instr, c);
    if n > 0 {
      RotatedByte(imm8, n);
    }
  }
}
