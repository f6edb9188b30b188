/** The arithmetic instructions in integers: registers and flags from the instruction word, with no adder in between. */
module ArithmeticLaws {
  import opened Words
  import opened CpuModel
  import opened Alu
  import opened OperandLaws

  // ---- sums ----

  lemma NotIs(y: u32)
    ensures Not(y) == 0xFFFF_FFFF - y && Signed(Not(y)) == -Signed(y) - 1
  {
  }

  /** AddWithCarry in integers. */
  lemma SumIs(x: u32, y: u32, c: bool, total: int, signedTotal: int)
    requires total == x + y + Bool(c) && signedTotal == Signed(x) + Signed(y) + Bool(c)
    ensures var a := AddWithCarry(x, y, c);
      && a.result == total % TWO32 && a.carry == (total >= TWO32)
      && a.overflow == !(-0x8000_0000 <= signedTotal < 0x8000_0000)
  {
    WrapSum(total);
  }

  /** The same for a difference: the first operand, the complement of the second, and a carry that is no borrow. */
  lemma DifferenceIs(x: u32, y: u32, c: bool, total: int, signedTotal: int)
    requires total == x as int - y - (1 - Bool(c)) && signedTotal == Signed(x) - Signed(y) - (1 - Bool(c))
    ensures var a := AddWithCarry(x, Not(y), c);
      && a.result == total % TWO32 && a.carry == (total >= 0)
      && a.overflow == !(-0x8000_0000 <= signedTotal < 0x8000_0000)
  {
    hide Signed, Not, AddWithCarry;
    NotIs(y);
    SumIs(x, Not(y), c, total + TWO32, signedTotal);
    PlusWhole(total);
  }

  lemma PlusWhole(total: int)
    ensures (total + TWO32) % TWO32 == total % TWO32
  {
  }

  /** Each operation in integers; c is the carry flag as 0 or 1. */
  lemma ArchitectedIs(op: Op, x: u32, y: u32, carry: bool)
    ensures var c, signedX, signedY := if carry then 1 else 0, Signed(x), Signed(y);
      var total := match op
        case ADD | CMN => x + y
        case ADC => x + y + c
        case SUB | CMP => x as int - y
        case SBC => x as int - y - (1 - c)
        case RSB => y as int - x
        case RSC => y as int - x - (1 - c);
      var signedTotal := match op
        case ADD | CMN => signedX + signedY
        case ADC => signedX + signedY + c
        case SUB | CMP => signedX - signedY
        case SBC => signedX - signedY - (1 - c)
        case RSB => signedY - signedX
        case RSC => signedY - signedX - (1 - c);
      var a := Architected(op, x, y, carry);
      && a.result == total % TWO32
      && a.carry == (if op == ADD || op == CMN || op == ADC then total >= TWO32 else total >= 0)
      && a.overflow == !(-0x8000_0000 <= signedTotal < 0x8000_0000)
  {
    hide AddWithCarry, Signed, Not, Wrap;
    var c, sx, sy := if carry then 1 else 0, Signed(x), Signed(y);
    match op
    case ADD => SumIs(x, y, false, x + y, sx + sy);
    case CMN => SumIs(x, y, false, x + y, sx + sy);
    case ADC => SumIs(x, y, carry, x + y + c, sx + sy + c);
    case SUB => DifferenceIs(x, y, true, x as int - y, sx - sy);
    case CMP => DifferenceIs(x, y, true, x as int - y, sx - sy);
    case SBC => DifferenceIs(x, y, carry, x as int - y - (1 - c), sx - sy - (1 - c));
    case RSB => DifferenceIs(y, x, true, y as int - x, sy - sx);
    case RSC => DifferenceIs(y, x, carry, y as int - x - (1 - c), sy - sx - (1 - c));
  }

  // ---- the instruction ----

  lemma FlagPowers()
    ensures Pow2(28) == 0x1000_0000 && Pow2(29) == 0x2000_0000 && Pow2(30) == 0x4000_0000 && Pow2(31) == 0x8000_0000
  {
    SmallPowers();
  }

  /** The flag bits of a status word. */
  lemma FlagsAre(p: u32)
    ensures Bit(p, N_BIT) <==> p / 0x8000_0000 % 2 == 1
    ensures Bit(p, Z_BIT) <==> p / 0x4000_0000 % 2 == 1
    ensures Bit(p, C_BIT) <==> p / 0x2000_0000 % 2 == 1
    ensures Bit(p, V_BIT) <==> p / 0x1000_0000 % 2 == 1
  {
    hide Bit, Pow2;
    FlagPowers();
    BitIs(p, 31, 0x8000_0000);
    BitIs(p, 30, 0x4000_0000);
    BitIs(p, 29, 0x2000_0000);
    BitIs(p, 28, 0x1000_0000);
  }

  /** Words that agree below bit w have the same low part. */
  lemma LowPartsAgree(p: u32, q: u32, w: nat)
    requires forall k :: 0 <= k < w ==> Bit(p, k) == Bit(q, k)
    ensures p % Pow2(w) == q % Pow2(w)
  {
    hide Bit, Pow2;
    HalveIsDivision(p, w);
    HalveIsDivision(q, w);
    LowPartBound(p, w);
    LowPartBound(q, w);
    forall k | 0 <= k < w
      ensures Bit(LowPart(p, w), k) == Bit(LowPart(q, w), k)
    {
      LowPartBit(p, w, k);
      LowPartBit(q, w, k);
    }
    SameBits(LowPart(p, w), LowPart(q, w), w);
  }

  /** The first operand, the second operand and the carry flag, from the instruction word. */
  lemma OperandsAre(s: State, instr: u32)
    requires |s.r| == 16
    ensures Rn(instr) == instr / 0x1_0000 % 16 && Rd(instr) == instr / 0x1000 % 16
    ensures SBit(instr) <==> instr / 0x10_0000 % 2 == 1
    ensures Bit(s.cpsr, C_BIT) <==> s.cpsr / 0x2000_0000 % 2 == 1
    ensures ReadSource(s.r, Rn(instr))
              == if instr / 0x1_0000 % 16 == 15 then (s.r[15] + 8) % TWO32 / 4 * 4 else s.r[instr / 0x1_0000 % 16]
    ensures Operand2Reference(s.r, instr, Bit(s.cpsr, C_BIT)) == Operand2(s.r, instr, Bit(s.cpsr, C_BIT))
  {
    hide Bit, Field, ReadSource, Operand2, Operand2Reference;
    Fields(instr);
    InstructionBits(instr);
    FlagsAre(s.cpsr);
    SourceIs(s.r, instr / 0x1_0000 % 16);
    Operand2IsReference(s.r, instr, Bit(s.cpsr, C_BIT));
  }

  /** What an arithmetic instruction does to the registers: a comparison touches none, a destination of r15 makes it do
      nothing at all, and otherwise the destination takes the integer result modulo 2^32. Without S the status word
      stays. */
  lemma ResultLaw(op: Op, s: State, instr: u32, x: u32, y: u32, c: nat)
    requires |s.r| == 16 && c == s.cpsr / 0x2000_0000 % 2
    requires x == if instr / 0x1_0000 % 16 == 15 then (s.r[15] + 8) % TWO32 / 4 * 4 else s.r[instr / 0x1_0000 % 16]
    requires y == Operand2(s.r, instr, c == 1).value
    ensures var total := match op
        case ADD | CMN => x + y
        case ADC => x + y + c
        case SUB | CMP => x as int - y
        case SBC => x as int - y - (1 - c)
        case RSB => y as int - x
        case RSC => y as int - x - (1 - c);
      var t, rd := Effect(op, s, instr), instr / 0x1000 % 16;
      && t == s.(r := t.r, cpsr := t.cpsr)
      && (op == CMP || op == CMN ==> t.r == s.r)
      && (op != CMP && op != CMN && rd == 15 ==> t == s)
      && (op != CMP && op != CMN && rd != 15 ==> t.r == s.r[rd := total % TWO32])
      && (op != CMP && op != CMN && instr / 0x10_0000 % 2 == 0 ==> t.cpsr == s.cpsr)
  {
    hide Bit, Field, ReadSource, Operand2, Operand2Reference, Architected, VInverted, FlagsAfter, Signed, Reg, SBit;
    OperandsAre(s, instr);
    ArchitectedIs(op, x, y, c == 1);
  }

  /** What it does to the flags, when it sets them: N and Z describe the result, C says that a sum passes 2^32 or that a
      difference is not negative, V says that the signed total does not fit, except where folding the carry or the
      borrow into the second term turns 0x7FFFFFFF into 0x80000000: there V is the complement. The other bits stay. */
  lemma FlagsLaw(op: Op, s: State, instr: u32, x: u32, y: u32, c: nat)
    requires |s.r| == 16 && c == s.cpsr / 0x2000_0000 % 2
    requires x == if instr / 0x1_0000 % 16 == 15 then (s.r[15] + 8) % TWO32 / 4 * 4 else s.r[instr / 0x1_0000 % 16]
    requires y == Operand2(s.r, instr, c == 1).value
    requires op == CMP || op == CMN || (instr / 0x10_0000 % 2 == 1 && instr / 0x1000 % 16 != 15)
    ensures var signedX := if x < 0x8000_0000 then x as int else x as int - TWO32;
      var signedY := if y < 0x8000_0000 then y as int else y as int - TWO32;
      var total := match op
        case ADD | CMN => x + y
        case ADC => x + y + c
        case SUB | CMP => x as int - y
        case SBC => x as int - y - (1 - c)
        case RSB => y as int - x
        case RSC => y as int - x - (1 - c);
      var signedTotal := match op
        case ADD | CMN => signedX + signedY
        case ADC => signedX + signedY + c
        case SUB | CMP => signedX - signedY
        case SBC => signedX - signedY - (1 - c)
        case RSB => signedY - signedX
        case RSC => signedY - signedX - (1 - c);
      var folded := match op
        case ADC => c == 1 && y == 0x7FFF_FFFF
        case SBC => c == 0 && y == 0x7FFF_FFFF
        case RSC => c == 0 && x == 0x7FFF_FFFF
        case _ => false;
      var p := Effect(op, s, instr).cpsr;
      && (p / 0x8000_0000 % 2 == 1 <==> total % TWO32 >= 0x8000_0000)
      && (p / 0x4000_0000 % 2 == 1 <==> total % TWO32 == 0)
      && (p / 0x2000_0000 % 2 == 1 <==> total >= if op == ADD || op == CMN || op == ADC then TWO32 else 0)
      && ((p / 0x1000_0000 % 2 == 1) == !(-0x8000_0000 <= signedTotal < 0x8000_0000) <==> !folded)
      && p % 0x1000_0000 == s.cpsr % 0x1000_0000
  {
    hide Bit, Field, ReadSource, Operand2, Operand2Reference, Architected, Effect, Reg, SBit, Pow2;
    OperandsAre(s, instr);
    ArchitectedIs(op, x, y, c == 1);
    FlagsMeetArchitecture(op, s, instr);
    FlagsAre(Effect(op, s, instr).cpsr);
    FlagPowers();
    LowPartsAgree(Effect(op, s, instr).cpsr, s.cpsr, 28);
  }
}
