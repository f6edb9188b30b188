/** Condition codes: what a comparison followed by a condition decides. */
module Conditions {
  import opened Words
  import opened CpuModel
  import opened Alu

  const EQ := 0
  const NE := 1
  const CS := 2
  const CC := 3
  const MI := 4
  const PL := 5
  const VS := 6
  const VC := 7
  const HI := 8
  const LS := 9
  const GE := 10
  const LT := 11
  const GT := 12
  const LE := 13
  const AL := 14
  const NV := 15

  /** src/vm/vm.c: only the low four bits of the code count. */
  predicate Holds(cpsr: u32, code: nat) {
    var z, c, n, v := Bit(cpsr, Z_BIT), Bit(cpsr, C_BIT), Bit(cpsr, N_BIT), Bit(cpsr, V_BIT);
    var cond := code % 16;
    if cond == EQ then z
    else if cond == NE then !z
    else if cond == CS then c
    else if cond == CC then !c
    else if cond == MI then n
    else if cond == PL then !n
    else if cond == VS then v
    else if cond == VC then !v
    else if cond == HI then c && !z
    else if cond == LS then !c || z
    else if cond == GE then n == v
    else if cond == LT then n != v
    else if cond == GT then !z && n == v
    else if cond == LE then z || n != v
    else cond == AL
  }

  /** The code with its low bit flipped. */
  function Opposite(code: nat): nat { if code % 2 == 0 then code + 1 else code - 1 }

  lemma OppositeCode(code: nat)
    ensures Opposite(code) % 16 == Opposite(code % 16)
    ensures code % 16 % 16 == code % 16 && Opposite(code % 16) < 16
  {
    assert code % 2 == code % 16 % 2;
  }

  lemma OppositePairs(cpsr: u32, c: nat)
    requires c < AL
    ensures Holds(cpsr, Opposite(c)) == !Holds(cpsr, c)
  {
    hide Bit;
  }

  lemma OnlyLowBits(cpsr: u32, code: nat)
    ensures Holds(cpsr, code) == Holds(cpsr, code % 16)
  {
    hide Bit;
  }

  /** Codes below AL come in exact opposites, in every flag state; AL and NV are the constants. */
  lemma OppositesNegate(cpsr: u32, code: nat)
    ensures code % 16 < AL ==> Holds(cpsr, Opposite(code)) == !Holds(cpsr, code)
    ensures code % 16 >= AL ==> Holds(cpsr, code) == (code % 16 == AL)
  {
    OnlyLowBits(cpsr, code);
    OnlyLowBits(cpsr, Opposite(code));
    OppositeCode(code);
    var c := code % 16;
    if c < AL {
      hide Holds;
      OppositePairs(cpsr, c);
    } else {
      hide Bit;
    }
  }

  /** The flags a comparison of a with b leaves. */
  function Compared(cpsr: u32, a: u32, b: u32): u32 {
    var sum := Architected(CMP, a, b, Bit(cpsr, C_BIT));
    FlagsAfter(cpsr, sum, sum.overflow)
  }

  lemma CompareFlags(cpsr: u32, a: u32, b: u32)
    ensures var p := Compared(cpsr, a, b);
      && Bit(p, Z_BIT) == (a == b)
      && Bit(p, C_BIT) == (a >= b)
      && (Bit(p, N_BIT) != Bit(p, V_BIT)) == (Signed(a) < Signed(b))
  {
    var sum := Architected(CMP, a, b, Bit(cpsr, C_BIT));
    NZCVBits(cpsr, sum.result >= SIGN, sum.result == 0, sum.carry, sum.overflow, Z_BIT);
    NZCVBits(cpsr, sum.result >= SIGN, sum.result == 0, sum.carry, sum.overflow, C_BIT);
    NZCVBits(cpsr, sum.result >= SIGN, sum.result == 0, sum.carry, sum.overflow, N_BIT);
    NZCVBits(cpsr, sum.result >= SIGN, sum.result == 0, sum.carry, sum.overflow, V_BIT);
    hide WithNZCV, Bit, Wrap;
    WrapSum(a as int + Not(b) + 1);
  }

  /** CMP then a condition decides the integer relation, signed comparisons included when the subtraction overflows. */
  lemma CompareDecides(cpsr: u32, a: u32, b: u32)
    ensures var p := Compared(cpsr, a, b);
      && Holds(p, EQ) == (a == b) && Holds(p, NE) == (a != b)
      && Holds(p, CS) == (a >= b) && Holds(p, CC) == (a < b)
      && Holds(p, HI) == (a > b) && Holds(p, LS) == (a <= b)
      && Holds(p, GE) == (Signed(a) >= Signed(b)) && Holds(p, LT) == (Signed(a) < Signed(b))
      && Holds(p, GT) == (Signed(a) > Signed(b)) && Holds(p, LE) == (Signed(a) <= Signed(b))
  {
    hide Compared, Bit;
    CompareFlags(cpsr, a, b);
  }

  /** The same, for a CMP instruction as executed. */
  lemma CompareInstructionDecides(s: State, instr: u32)
    requires |s.r| == 16
    ensures var x := ReadSource(s.r, Rn(instr));
      var y := Operand2Reference(s.r, instr, Bit(s.cpsr, C_BIT)).value;
      var p := Effect(CMP, s, instr).cpsr;
      && Holds(p, EQ) == (x == y) && Holds(p, CS) == (x >= y) && Holds(p, HI) == (x > y)
      && Holds(p, GE) == (Signed(x) >= Signed(y)) && Holds(p, GT) == (Signed(x) > Signed(y))
  {
    hide Holds, FlagsAfter, Operand2Reference, ReadSource;
    CompareDecides(s.cpsr, ReadSource(s.r, Rn(instr)), Operand2Reference(s.r, instr, Bit(s.cpsr, C_BIT)).value);
  }
}
