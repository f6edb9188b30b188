/** The arithmetic handlers, against AddWithCarry of ARM DDI 0406C section A2.2.1. */
module Alu {
  import opened Words
  import opened Shifter
  import opened CpuModel

  // ---- reference ----

  datatype Sum = Sum(result: u32, carry: bool, overflow: bool)

  /** Section A2.2.1: carry and overflow say whether the unsigned and the signed sum fit. */
  function AddWithCarry(x: u32, y: u32, c: bool): Sum {
    var unsignedSum := x + y + Bool(c);
    var signedSum := Signed(x) + Signed(y) + Bool(c);
    var result := Wrap(unsignedSum);
    Sum(result, result != unsignedSum, Signed(result) != signedSum)
  }

  datatype Op = ADD | ADC | SUB | SBC | RSB | RSC | CMP | CMN

  /** What each operation adds, for first operand x, second operand y and carry flag c. */
  function Architected(op: Op, x: u32, y: u32, c: bool): Sum {
    match op
    case ADD => AddWithCarry(x, y, false)
    case CMN => AddWithCarry(x, y, false)
    case ADC => AddWithCarry(x, y, c)
    case SUB => AddWithCarry(x, Not(y), true)
    case CMP => AddWithCarry(x, Not(y), true)
    case SBC => AddWithCarry(x, Not(y), c)
    case RSB => AddWithCarry(y, Not(x), true)
    case RSC => AddWithCarry(y, Not(x), c)
  }

  /** Folding the carry or borrow into this operand turns 0x7FFFFFFF into 0x80000000. */
  predicate VInverted(op: Op, x: u32, y: u32, c: bool) {
    match op
    case ADC => c && y == 0x7FFF_FFFF
    case SBC => !c && y == 0x7FFF_FFFF
    case RSC => !c && x == 0x7FFF_FFFF
    case _ => false
  }

  function WithNZCV(cpsr: u32, n: bool, z: bool, c: bool, v: bool): u32 {
    SetBit(SetBit(SetBit(SetBit(cpsr, N_BIT, n), Z_BIT, z), C_BIT, c), V_BIT, v)
  }

  lemma NZCVBits(cpsr: u32, n: bool, z: bool, c: bool, v: bool, k: nat)
    ensures Bit(WithNZCV(cpsr, n, z, c, v), k) ==
      if k == N_BIT then n else if k == Z_BIT then z else if k == C_BIT then c else if k == V_BIT then v
          else Bit(cpsr, k)
  {
    var p1 := SetBit(cpsr, N_BIT, n);
    var p2 := SetBit(p1, Z_BIT, z);
    var p3 := SetBit(p2, C_BIT, c);
    ReplaceBit(cpsr, N_BIT, n, k);
    ReplaceBit(p1, Z_BIT, z, k);
    ReplaceBit(p2, C_BIT, c, k);
    ReplaceBit(p3, V_BIT, v, k);
  }

  /** The flags an operation leaves. */
  function FlagsAfter(cpsr: u32, a: Sum, v: bool): u32 {
    WithNZCV(cpsr, a.result >= SIGN, a.result == 0, a.carry, v)
  }

  predicate Compares(op: Op) { op == CMP || op == CMN }

  /** The whole effect of an arithmetic instruction on the CPU. A destination of r15 has none: only the handler's
      context PC is written, and the commit that follows overwrites it. */
  function Effect(op: Op, s: State, instr: u32): State
    requires |s.r| == 16
  {
    var c := Bit(s.cpsr, C_BIT);
    var x := ReadSource(s.r, Rn(instr));
    var y := Operand2Reference(s.r, instr, c).value;
    var a := Architected(op, x, y, c);
    var flags := FlagsAfter(s.cpsr, a, a.overflow != VInverted(op, x, y, c));
    if Compares(op) then s.(cpsr := flags)
    else if Rd(instr) == 15 then s
    else s.(r := s.r[Rd(instr) := a.result], cpsr := if SBit(instr) then flags else s.cpsr)
  }

  lemma EffectFlags(op: Op, s: State, instr: u32)
    requires |s.r| == 16 && (Compares(op) || (SBit(instr) && Rd(instr) != 15))
    ensures var c := Bit(s.cpsr, C_BIT);
      var x := ReadSource(s.r, Rn(instr));
      var y := Operand2Reference(s.r, instr, c).value;
      var a := Architected(op, x, y, c);
      Effect(op, s, instr).cpsr
        == WithNZCV(s.cpsr, a.result >= SIGN, a.result == 0, a.carry, a.overflow != VInverted(op, x, y, c))
  {
    hide Bit, Operand2Reference, ReadSource, Architected, VInverted, WithNZCV, Reg;
  }

  /** After a flag-setting instruction N, Z and C are the architecture's, and V is too except exactly when folding the
      carry or borrow turned 0x7FFFFFFF into 0x80000000; then V is the complement. */
  lemma FlagsMeetArchitecture(op: Op, s: State, instr: u32)
    requires |s.r| == 16 && (Compares(op) || (SBit(instr) && Rd(instr) != 15))
    ensures var c := Bit(s.cpsr, C_BIT);
      var x := ReadSource(s.r, Rn(instr));
      var y := Operand2Reference(s.r, instr, c).value;
      var a := Architected(op, x, y, c);
      var p := Effect(op, s, instr).cpsr;
      && Bit(p, N_BIT) == (a.result >= SIGN) && Bit(p, Z_BIT) == (a.result == 0) && Bit(p, C_BIT) == a.carry
      && (Bit(p, V_BIT) == a.overflow <==> !VInverted(op, x, y, c))
      && forall k :: 0 <= k < V_BIT ==> Bit(p, k) == Bit(s.cpsr, k)
  {
    var c := Bit(s.cpsr, C_BIT);
    var x := ReadSource(s.r, Rn(instr));
    var y := Operand2Reference(s.r, instr, c).value;
    var a := Architected(op, x, y, c);
    var v := a.overflow != VInverted(op, x, y, c);
    hide *;
    EffectFlags(op, s, instr);
    forall k: nat
      ensures Bit(Effect(op, s, instr).cpsr, k) ==
        if k == N_BIT then a.result >= SIGN else if k == Z_BIT then a.result == 0
        else if k == C_BIT then a.carry else if k == V_BIT then v else Bit(s.cpsr, k)
    {
      NZCVBits(s.cpsr, a.result >= SIGN, a.result == 0, a.carry, v, k);
    }
  }

  // ---- overflow expressions, decided by their top bit ----

  /** `(~(a ^ b) & (a ^ res)) >> 31`. */
  predicate AddOverflow(a: u32, b: u32, res: u32) { Bit(And(Not(Xor(a, b)), Xor(a, res)), 31) }

  /** `((a ^ b) & (a ^ res) & 0x80000000) != 0`. */
  predicate SubOverflow(a: u32, b: u32, res: u32) { Bit(And(Xor(a, b), Xor(a, res)), 31) }

  lemma AddOverflowTop(a: u32, b: u32, res: u32)
    ensures AddOverflow(a, b, res) <==> (a >= SIGN) == (b >= SIGN) && (a >= SIGN) != (res >= SIGN)
  {
    WordBit(AndOp, Not(Xor(a, b)), Xor(a, res), 31);
    NotBit(Xor(a, b), 31);
    WordBit(XorOp, a, b, 31);
    WordBit(XorOp, a, res, 31);
    TopBit(a);
    TopBit(b);
    TopBit(res);
  }

  lemma SubOverflowTop(a: u32, b: u32, res: u32)
    ensures SubOverflow(a, b, res) <==> (a >= SIGN) != (b >= SIGN) && (a >= SIGN) != (res >= SIGN)
  {
    WordBit(AndOp, Xor(a, b), Xor(a, res), 31);
    WordBit(XorOp, a, b, 31);
    WordBit(XorOp, a, res, 31);
    TopBit(a);
    TopBit(b);
    TopBit(res);
  }

  lemma WrapSum(s: int)
    requires 0 <= s < 2 * TWO32
    ensures Wrap(s) == if s < TWO32 then s else s - TWO32
    ensures (s / TWO32) % 2 == 1 <==> s >= TWO32
  {
  }

  lemma WrapDifference(s: int)
    requires -TWO32 <= s < TWO32
    ensures Wrap(s) == if s < 0 then s + TWO32 else s
    ensures Wrap(s % TWO64) == Wrap(s)
    ensures (s % TWO64) / TWO32 == 0 <==> s >= 0
  {
    if s < 0 { assert s % TWO64 == s + TWO64; }
  }

  lemma AddMeetsArchitecture(x: u32, y: u32)
    ensures var a := AddWithCarry(x, y, false);
      var wide := x as int + y;
      Wrap(wide) == a.result && (wide / TWO32 % 2 == 1) == a.carry && AddOverflow(x, y, Wrap(wide)) == a.overflow
  {
    AdcMeetsArchitecture(x, y, false);
  }

  lemma AdcMeetsArchitecture(x: u32, y: u32, c: bool)
    ensures var a := AddWithCarry(x, y, c);
      var wide := x as int + y + Bool(c);
      && Wrap(wide) == a.result
      && ((wide / TWO32) % 2 == 1) == a.carry
      && AddOverflow(x, Wrap(y as int + Bool(c)), Wrap(wide)) == (a.overflow != (c && y == 0x7FFF_FFFF))
  {
    hide Wrap, AddOverflow;
    var b := y as int + Bool(c);
    WrapSum(b);
    WrapSum(x as int + b);
    AddOverflowTop(x, Wrap(b), Wrap(x as int + b));
  }

  lemma SubMeetsArchitecture(x: u32, y: u32)
    ensures var a := AddWithCarry(x, Not(y), true);
      var diff := x as int - y;
      Wrap(diff) == a.result && (x >= y) == a.carry && SubOverflow(x, y, Wrap(diff)) == a.overflow
  {
    hide Wrap, SubOverflow;
    WrapSum(x as int + Not(y) + 1);
    WrapDifference(x as int - y);
    SubOverflowTop(x, y, Wrap(x as int - y));
  }

  lemma SbcMeetsArchitecture(x: u32, y: u32, c: bool)
    ensures var a := AddWithCarry(x, Not(y), c);
      var borrow := 1 - Bool(c);
      var wide := (x as int - y - borrow) % TWO64;
      && Wrap(wide) == a.result
      && (wide / TWO32 == 0) == a.carry
      && SubOverflow(x, Wrap(y as int + borrow), Wrap(wide)) == (a.overflow != (!c && y == 0x7FFF_FFFF))
  {
    hide Wrap, SubOverflow;
    var borrow := 1 - Bool(c);
    var diff := x as int - y - borrow;
    WrapSum(x as int + Not(y) + Bool(c));
    WrapSum(y as int + borrow);
    WrapDifference(diff);
    SubOverflowTop(x, Wrap(y as int + borrow), Wrap(diff));
  }

  // ---- src/cpu/alu.c ----

  method SetNZ(cpu: Cpu, res: u32)
    modifies cpu`cpsr
    ensures cpu.cpsr == SetBit(SetBit(old(cpu.cpsr), N_BIT, res >= SIGN), Z_BIT, res == 0)
  {
    cpu.cpsr := SetBit(SetBit(cpu.cpsr, N_BIT, res >= SIGN), Z_BIT, res == 0);
  }

  method HandleAdd(cpu: Cpu, instr: u32)
    requires cpu.Valid()
    modifies cpu`cpsr, cpu.r
    ensures cpu.Snapshot() == Effect(ADD, old(cpu.Snapshot()), instr)
  {
    hide Operand2, Operand2Reference, ReadSource, SetBit, AddOverflow, Wrap, AddWithCarry, Reg, Bit;
    var shCarry := Bit(cpu.cpsr, C_BIT);
    var op2 := Operand2(cpu.r[..], instr, shCarry).value;
    Operand2IsReference(cpu.r[..], instr, shCarry);
    var op1 := ReadSource(cpu.r[..], Rn(instr));
    var wide := op1 as int + op2;
    var res := Wrap(wide);
    AddMeetsArchitecture(op1, op2);
    if Rd(instr) == 15 { return; }
    cpu.r[Rd(instr)] := res;
    if SBit(instr) {
      cpu.cpsr := WithNZCV(cpu.cpsr, res >= SIGN, res == 0, wide / TWO32 % 2 == 1, AddOverflow(op1, op2, res));
    }
  }

  method HandleAdc(cpu: Cpu, instr: u32)
    requires cpu.Valid()
    modifies cpu`cpsr, cpu.r
    ensures cpu.Snapshot() == Effect(ADC, old(cpu.Snapshot()), instr)
  {
    hide Operand2, Operand2Reference, ReadSource, SetBit, AddOverflow, Wrap, AddWithCarry, Reg, Bit;
    var shCarry := Bit(cpu.cpsr, C_BIT);
    var op2 := Operand2(cpu.r[..], instr, shCarry).value;
    Operand2IsReference(cpu.r[..], instr, shCarry);
    var op1 := ReadSource(cpu.r[..], Rn(instr));
    var cin := Bool(Bit(cpu.cpsr, C_BIT));
    var wide := op1 as int + op2 + cin;
    var res := Wrap(wide);
    AdcMeetsArchitecture(op1, op2, shCarry);
    if Rd(instr) == 15 { return; }
    cpu.r[Rd(instr)] := res;
    if SBit(instr) {
      SetNZ(cpu, res);
      cpu.cpsr := SetBit(cpu.cpsr, C_BIT, (wide / TWO32) % 2 == 1);
      var b := Wrap(op2 + cin);
      cpu.cpsr := SetBit(cpu.cpsr, V_BIT, AddOverflow(op1, b, res));
    }
  }

  method HandleSub(cpu: Cpu, instr: u32)
    requires cpu.Valid()
    modifies cpu`cpsr, cpu.r
    ensures cpu.Snapshot() == Effect(SUB, old(cpu.Snapshot()), instr)
  {
    hide Operand2, Operand2Reference, ReadSource, SetBit, SubOverflow, Wrap, AddWithCarry, Reg, Bit;
    var shCarry := Bit(cpu.cpsr, C_BIT);
    var op2 := Operand2(cpu.r[..], instr, shCarry).value;
    Operand2IsReference(cpu.r[..], instr, shCarry);
    var a := ReadSource(cpu.r[..], Rn(instr));
    var res := Wrap(a as int - op2);
    SubMeetsArchitecture(a, op2);
    if Rd(instr) == 15 { return; }
    cpu.r[Rd(instr)] := res;
    if SBit(instr) {
      SetNZ(cpu, res);
      cpu.cpsr := SetBit(cpu.cpsr, C_BIT, a >= op2);
      cpu.cpsr := SetBit(cpu.cpsr, V_BIT, SubOverflow(a, op2, res));
    }
  }

  method HandleSbc(cpu: Cpu, instr: u32)
    requires cpu.Valid()
    modifies cpu`cpsr, cpu.r
    ensures cpu.Snapshot() == Effect(SBC, old(cpu.Snapshot()), instr)
  {
    hide Operand2, Operand2Reference, ReadSource, SetBit, SubOverflow, Wrap, AddWithCarry, Reg, Bit;
    var shCarry := Bit(cpu.cpsr, C_BIT);
    var op2 := Operand2(cpu.r[..], instr, shCarry).value;
    Operand2IsReference(cpu.r[..], instr, shCarry);
    var a := ReadSource(cpu.r[..], Rn(instr));
    var borrow := 1 - Bool(Bit(cpu.cpsr, C_BIT));
    var wide := (a as int - op2 - borrow) % TWO64;
    var res := Wrap(wide);
    SbcMeetsArchitecture(a, op2, shCarry);
    if Rd(instr) == 15 { return; }
    cpu.r[Rd(instr)] := res;
    if SBit(instr) {
      SetNZ(cpu, res);
      cpu.cpsr := SetBit(cpu.cpsr, C_BIT, wide / TWO32 == 0);
      var btot := Wrap(op2 as int + borrow);
      cpu.cpsr := SetBit(cpu.cpsr, V_BIT, SubOverflow(a, btot, res));
    }
  }

  method HandleRsb(cpu: Cpu, instr: u32)
    requires cpu.Valid()
    modifies cpu`cpsr, cpu.r
    ensures cpu.Snapshot() == Effect(RSB, old(cpu.Snapshot()), instr)
  {
    hide Operand2, Operand2Reference, ReadSource, SetBit, SubOverflow, Wrap, AddWithCarry, Reg, Bit;
    var shCarry := Bit(cpu.cpsr, C_BIT);
    var op2 := Operand2(cpu.r[..], instr, shCarry).value;
    Operand2IsReference(cpu.r[..], instr, shCarry);
    var a := ReadSource(cpu.r[..], Rn(instr));
    var res := Wrap(op2 as int - a);
    SubMeetsArchitecture(op2, a);
    if Rd(instr) == 15 { return; }
    cpu.r[Rd(instr)] := res;
    if SBit(instr) {
      SetNZ(cpu, res);
      cpu.cpsr := SetBit(cpu.cpsr, C_BIT, op2 >= a);
      cpu.cpsr := SetBit(cpu.cpsr, V_BIT, SubOverflow(op2, a, res));
    }
  }

  method HandleRsc(cpu: Cpu, instr: u32)
    requires cpu.Valid()
    modifies cpu`cpsr, cpu.r
    ensures cpu.Snapshot() == Effect(RSC, old(cpu.Snapshot()), instr)
  {
    hide Operand2, Operand2Reference, ReadSource, SetBit, SubOverflow, Wrap, AddWithCarry, Reg, Bit;
    var shCarry := Bit(cpu.cpsr, C_BIT);
    var op2 := Operand2(cpu.r[..], instr, shCarry).value;
    Operand2IsReference(cpu.r[..], instr, shCarry);
    var a := ReadSource(cpu.r[..], Rn(instr));
    var borrow := 1 - Bool(Bit(cpu.cpsr, C_BIT));
    var wide := (op2 as int - a - borrow) % TWO64;
    var res := Wrap(wide);
    SbcMeetsArchitecture(op2, a, shCarry);
    if Rd(instr) == 15 { return; }
    cpu.r[Rd(instr)] := res;
    if SBit(instr) {
      SetNZ(cpu, res);
      cpu.cpsr := SetBit(cpu.cpsr, C_BIT, wide / TWO32 == 0);
      var atot := Wrap(a as int + borrow);
      cpu.cpsr := SetBit(cpu.cpsr, V_BIT, SubOverflow(op2, atot, res));
    }
  }

  method HandleCmp(cpu: Cpu, instr: u32)
    requires cpu.Valid()
    modifies cpu`cpsr
    ensures cpu.Snapshot() == Effect(CMP, old(cpu.Snapshot()), instr)
  {
    hide Operand2, Operand2Reference, ReadSource, SetBit, SubOverflow, Wrap, AddWithCarry, Reg, Bit;
    var shCarry := Bit(cpu.cpsr, C_BIT);
    var op2 := Operand2(cpu.r[..], instr, shCarry).value;
    Operand2IsReference(cpu.r[..], instr, shCarry);
    var a := ReadSource(cpu.r[..], Rn(instr));
    var res := Wrap(a as int - op2);
    SubMeetsArchitecture(a, op2);
    SetNZ(cpu, res);
    cpu.cpsr := SetBit(cpu.cpsr, C_BIT, a >= op2);
    cpu.cpsr := SetBit(cpu.cpsr, V_BIT, SubOverflow(a, op2, res));
  }

  method HandleCmn(cpu: Cpu, instr: u32)
    requires cpu.Valid()
    modifies cpu`cpsr
    ensures cpu.Snapshot() == Effect(CMN, old(cpu.Snapshot()), instr)
  {
    hide Operand2, Operand2Reference, ReadSource, SetBit, AddOverflow, Wrap, AddWithCarry, Reg, Bit;
    var shCarry := Bit(cpu.cpsr, C_BIT);
    var op2 := Operand2(cpu.r[..], instr, shCarry).value;
    Operand2IsReference(cpu.r[..], instr, shCarry);
    var a := ReadSource(cpu.r[..], Rn(instr));
    var sum := a as int + op2;
    var res := Wrap(sum);
    AddMeetsArchitecture(a, op2);
    SetNZ(cpu, res);
    cpu.cpsr := SetBit(cpu.cpsr, C_BIT, sum / TWO32 % 2 == 1);
    cpu.cpsr := SetBit(cpu.cpsr, V_BIT, AddOverflow(a, op2, res));
  }
}
