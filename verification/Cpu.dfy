/** CPU state, instruction fields and the Operand2 decoder. */
module CpuModel {
  import opened Words
  import opened Shifter

  datatype HaltReason = NoHalt | HaltBkpt

  /** A snapshot of the CPU struct. */
  datatype State = State(r: seq<u32>, cpsr: u32, spsr: u32, npc: u32, halted: bool, reason: HaltReason, cycles: nat)

  class Cpu {
    const r: array<u32>
    var cpsr: u32
    var spsr: u32
    var npc: u32
    var halted: bool
    var reason: HaltReason
    var cycles: nat

    constructor ()
      ensures Valid() && fresh(r)
      ensures Snapshot() == State(seq(16, i => 0), 0, 0, 0, false, NoHalt, 0)
    {
      r := new u32[16](i => 0);
      cpsr, spsr, npc := 0, 0, 0;
      halted, reason, cycles := false, NoHalt, 0;
      new;
      assert r[..] == seq(16, i => 0);
    }

    ghost predicate Valid() { r.Length == 16 }

    ghost function Snapshot(): State
      reads this, r
    {
      State(r[..], cpsr, spsr, npc, halted, reason, cycles)
    }
  }

  const N_BIT := 31
  const Z_BIT := 30
  const C_BIT := 29
  const V_BIT := 28

  /** A word with its two low bits cleared. */
  function AlignWord(x: u32): u32 { x - x % 4 }

  lemma {:induction false} LowPartBound(x: nat, w: nat)
    ensures LowPart(x, w) < Pow2(w)
  {
    if w == 0 {
    } else {
      LowPartBound(x / 2, w - 1);
    }
  }

  /** A four-bit register number. */
  function Reg(instr: u32, lo: nat): (n: nat)
    ensures n < 16
  {
    LowPartBound(Halve(instr, lo), 4);
    assert Pow2(4) == 16;
    Field(instr, lo, 4)
  }

  function Rn(instr: u32): nat { Reg(instr, 16) }

  function Rd(instr: u32): nat { Reg(instr, 12) }

  predicate SBit(instr: u32) { Bit(instr, 20) }

  // ---- fields and bits of a word, by division ----

  lemma SmallPowers()
    ensures Pow2(0) == 1 && Pow2(2) == 4 && Pow2(4) == 16 && Pow2(5) == 32 && Pow2(7) == 0x80 && Pow2(8) == 0x100
    ensures Pow2(12) == 0x1000 && Pow2(16) == 0x1_0000 && Pow2(20) == 0x10_0000 && Pow2(21) == 0x20_0000
    ensures Pow2(23) == 0x80_0000 && Pow2(24) == 0x100_0000 && Pow2(25) == 0x200_0000 && Pow2(28) == 0x1000_0000
  {
    assert Pow2(8) == 0x100;
    assert Pow2(12) == 0x1000;
    assert Pow2(16) == 0x1_0000;
    assert Pow2(20) == 0x10_0000;
    assert Pow2(24) == 0x100_0000;
  }

  lemma FieldIs(x: u32, lo: nat, w: nat, d: nat, m: nat)
    requires Pow2(lo) == d && Pow2(w) == m
    ensures Field(x, lo, w) == x / d % m
  {
    HalveIsDivision(x, lo);
    HalveIsDivision(Halve(x, lo), w);
  }

  lemma Fields(x: u32)
    ensures Field(x, 28, 4) == x / 0x1000_0000 % 16
    ensures Field(x, 16, 4) == x / 0x1_0000 % 16
    ensures Field(x, 12, 4) == x / 0x1000 % 16
    ensures Field(x, 8, 4) == x / 0x100 % 16
    ensures Field(x, 0, 4) == x % 16
    ensures Field(x, 5, 2) == x / 0x20 % 4
    ensures Field(x, 7, 5) == x / 0x80 % 32
  {
    hide Field, Pow2;
    SmallPowers();
    FieldIs(x, 28, 4, 0x1000_0000, 16);
    FieldIs(x, 16, 4, 0x1_0000, 16);
    FieldIs(x, 12, 4, 0x1000, 16);
    FieldIs(x, 8, 4, 0x100, 16);
    FieldIs(x, 0, 4, 1, 16);
    FieldIs(x, 5, 2, 0x20, 4);
    FieldIs(x, 7, 5, 0x80, 32);
  }

  lemma BitIs(x: u32, k: nat, d: nat)
    requires Pow2(k) == d
    ensures Bit(x, k) <==> x / d % 2 == 1
  {
    HalveBit(x, k, 0);
    HalveIsDivision(x, k);
  }

  /** The single bits of an instruction word that the handlers look at. */
  lemma InstructionBits(x: u32)
    ensures Bit(x, 4) <==> x / 16 % 2 == 1
    ensures Bit(x, 20) <==> x / 0x10_0000 % 2 == 1
    ensures Bit(x, 21) <==> x / 0x20_0000 % 2 == 1
    ensures Bit(x, 23) <==> x / 0x80_0000 % 2 == 1
    ensures Bit(x, 24) <==> x / 0x100_0000 % 2 == 1
    ensures Bit(x, 25) <==> x / 0x200_0000 % 2 == 1
  {
    hide Bit, Pow2;
    SmallPowers();
    BitIs(x, 4, 16);
    BitIs(x, 20, 0x10_0000);
    BitIs(x, 21, 0x20_0000);
    BitIs(x, 23, 0x80_0000);
    BitIs(x, 24, 0x100_0000);
    BitIs(x, 25, 0x200_0000);
  }

  /** Register reads as a source: r15 reads as the instruction address plus eight. */
  function ReadSource(r: seq<u32>, n: nat): u32
    requires |r| == 16 && n < 16
  {
    if n == 15 then AlignWord(Wrap(r[15] as int + 8)) else r[n]
  }

  function ShiftType(instr: u32): Shift {
    var t := Field(instr, 5, 2);
    if t == 0 then LSL else if t == 1 then LSR else if t == 2 then ASR else ROR
  }

  /** Operand2 and the shifter carry, as the decoder computes them. */
  function Operand2(r: seq<u32>, instr: u32, c: bool): Out
    requires |r| == 16
  {
    if Bit(instr, 25) then
      var imm8 := instr % 256;
      var rot := Reg(instr, 8) * 2;
      if rot == 0 then Out(imm8, c)
      else
        var val := Ror32(imm8, rot % 32);
        Out(val, LowBit(Shr(val, 31)))
    else
      var rm := ReadSource(r, Reg(instr, 0));
      if !Bit(instr, 4) then
        ShiftImmediate(rm, ShiftType(instr), Field(instr, 7, 5), c)
      else
        ShiftRegister(rm, ShiftType(instr), ReadSource(r, Reg(instr, 8)), c)
  }

  /** What the architecture asks for, in one-bit steps: section A5.2.4 and A8.4.3 of ARM DDI 0406C. */
  function Operand2Reference(r: seq<u32>, instr: u32, c: bool): Out
    requires |r| == 16
  {
    if Bit(instr, 25) then Steps(ROR, Out(instr % 256, c), 2 * Reg(instr, 8))
    else
      var o := Out(ReadSource(r, Reg(instr, 0)), c);
      if !Bit(instr, 4) then ImmediateReference(ShiftType(instr), Field(instr, 7, 5), o)
      else Steps(ShiftType(instr), o, ReadSource(r, Reg(instr, 8)) % 256)
  }

  /** A rotated immediate leaves its top bit in the carry. */
  lemma RotatedImmediate(x: u32, rot: nat, c: bool)
    requires 2 <= rot <= 30
    ensures var val := Ror32(x, rot % 32); Out(val, LowBit(Shr(val, 31))) == Steps(ROR, Out(x, c), rot)
  {
    hide Ror32, LowBit, Shr;
    var val := Ror32(x, rot % 32);
    ModBelow64(rot);
    ModBelow64(31 + rot);
    RorProof(x, rot, c);
    ShrLow(val, 31);
    ShrLow(x, rot - 1);
    Ror32Bit(x, rot, 31);
  }

  /** The Operand2 decoder meets the architecture for every instruction word, register file and carry. */
  lemma Operand2IsReference(r: seq<u32>, instr: u32, c: bool)
    requires |r| == 16
    ensures Operand2(r, instr, c) == Operand2Reference(r, instr, c)
  {
    hide Ror32, LowBit, Shr, ShiftImmediate, ShiftRegister, ReadSource, ShiftType;
    if Bit(instr, 25) {
      var rot := Reg(instr, 8) * 2;
      if rot != 0 { RotatedImmediate(instr % 256, rot, c); }
    } else {
      var rm := ReadSource(r, Reg(instr, 0));
      if Bit(instr, 4) {
        RegisterShiftIsSteps(rm, ShiftType(instr), ReadSource(r, Reg(instr, 8)), c);
      } else {
        LowPartBound(Halve(instr, 7), 5);
        assert Pow2(5) == 32;
        ImmediateShiftIsSteps(rm, ShiftType(instr), Field(instr, 7, 5), c);
      }
    }
  }
}
