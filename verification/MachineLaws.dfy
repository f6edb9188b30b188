/** Conditions, MOV, fetching and stepping, in the bits and bytes they are about. */
module MachineLaws {
  import opened Words
  import opened CpuModel
  import opened Memory
  import opened Options
  import opened Conditions
  import opened Machine
  import opened ArithmeticLaws
  import opened OperandLaws

  /** The sixteen conditions on the flag bits of a status word. */
  lemma ConditionLaw(cpsr: u32, code: nat)
    ensures var n, z, c, v := cpsr / 0x8000_0000 % 2, cpsr / 0x4000_0000 % 2, cpsr / 0x2000_0000 % 2,
                              cpsr / 0x1000_0000 % 2;
      && (code % 16 == 0 ==> Holds(cpsr, code) == (z == 1)) && (code % 16 == 1 ==> Holds(cpsr, code) == (z == 0))
      && (code % 16 == 2 ==> Holds(cpsr, code) == (c == 1)) && (code % 16 == 3 ==> Holds(cpsr, code) == (c == 0))
      && (code % 16 == 4 ==> Holds(cpsr, code) == (n == 1)) && (code % 16 == 5 ==> Holds(cpsr, code) == (n == 0))
      && (code % 16 == 6 ==> Holds(cpsr, code) == (v == 1)) && (code % 16 == 7 ==> Holds(cpsr, code) == (v == 0))
      && (code % 16 == 8 ==> Holds(cpsr, code) == (c == 1 && z == 0))
      && (code % 16 == 9 ==> Holds(cpsr, code) == (c == 0 || z == 1))
      && (code % 16 == 10 ==> Holds(cpsr, code) == (n == v)) && (code % 16 == 11 ==> Holds(cpsr, code) == (n != v))
      && (code % 16 == 12 ==> Holds(cpsr, code) == (z == 0 && n == v))
      && (code % 16 == 13 ==> Holds(cpsr, code) == (z == 1 || n != v))
      && (code % 16 == 14 ==> Holds(cpsr, code))
      && (code % 16 == 15 ==> !Holds(cpsr, code))
  {
    hide Bit;
    FlagsAre(cpsr);
  }

  // ---- MOV ----

  lemma MovFields(instr: u32)
    ensures Field(instr, 28, 4) == instr / 0x1000_0000 && Rd(instr) == instr / 0x1000 % 16
    ensures SBit(instr) <==> instr / 0x10_0000 % 2 == 1
  {
    hide Field, Bit;
    Fields(instr);
    InstructionBits(instr);
    TopNibble(instr);
  }

  lemma TopNibble(x: u32)
    ensures x / 0x1000_0000 < 16
  {
  }

  /** Setting Z, N and C one after another. */
  lemma MovFlags(p: u32, z: bool, n: bool, c: bool)
    ensures var q := SetBit(SetBit(SetBit(p, Z_BIT, z), N_BIT, n), C_BIT, c);
      && (q / 0x8000_0000 % 2 == 1 <==> n) && (q / 0x4000_0000 % 2 == 1 <==> z)
      && (q / 0x2000_0000 % 2 == 1 <==> c) && q % 0x2000_0000 == p % 0x2000_0000
  {
    hide Bit, Replace, Pow2;
    var p1 := SetBit(p, Z_BIT, z);
    var p2 := SetBit(p1, N_BIT, n);
    var q := SetBit(p2, C_BIT, c);
    forall k: nat
      ensures Bit(q, k) == if k == C_BIT then c else if k == N_BIT then n else if k == Z_BIT then z else Bit(p, k)
    {
      ReplaceBit(p, Z_BIT, z, k);
      ReplaceBit(p1, N_BIT, n, k);
      ReplaceBit(p2, C_BIT, c, k);
    }
    FlagsAre(q);
    FlagPowers();
    LowPartsAgree(q, p, 29);
  }

  /** MOV: nothing when its condition fails; the operand to its destination, with N, Z and C when S is set; for r15 the
      operand without bit 0 to the next PC, with SPSR to CPSR when S is set. */
  lemma MovLaw(s: State, instr: u32, cond: nat, v: u32, carry: bool)
    requires |s.r| == 16 && cond == instr / 0x1000_0000
    requires v == Operand2(s.r, instr, s.cpsr / 0x2000_0000 % 2 == 1).value
    requires carry == Operand2(s.r, instr, s.cpsr / 0x2000_0000 % 2 == 1).carry
    ensures var t, rd, sets := Mov(s, instr), instr / 0x1000 % 16, instr / 0x10_0000 % 2 == 1;
      && (cond != 15 && !Holds(s.cpsr, cond) ==> t == s)
      && (cond == 15 || Holds(s.cpsr, cond) ==>
            && (rd == 15 ==> t == s.(npc := v / 2 * 2, cpsr := if sets then s.spsr else s.cpsr))
            && (rd != 15 ==> t == s.(r := s.r[rd := v], cpsr := t.cpsr))
            && (rd != 15 && !sets ==> t.cpsr == s.cpsr)
            && (rd != 15 && sets ==>
                  && (t.cpsr / 0x8000_0000 % 2 == 1 <==> v >= 0x8000_0000)
                  && (t.cpsr / 0x4000_0000 % 2 == 1 <==> v == 0)
                  && (t.cpsr / 0x2000_0000 % 2 == 1 <==> carry)
                  && t.cpsr % 0x2000_0000 == s.cpsr % 0x2000_0000))
  {
    hide Holds, Operand2, Field, SetBit, Bit, Reg;
    MovFields(instr);
    FlagsAre(s.cpsr);
    MovFlags(s.cpsr, v == 0, v >= SIGN, carry);
    EvenIs(v);
  }

  lemma EvenIs(v: u32)
    ensures EvenPart(v) == v / 2 * 2
  {
  }

  // ---- fetch and step ----

  /** A fetch reads the little-endian word at the address when all four bytes are RAM. */
  lemma FetchLaw(ram: seq<byte>, pc: u32)
    ensures Fetch(ram, pc) != None <==> pc + 4 <= |ram|
    ensures pc + 4 <= |ram| ==>
      Fetch(ram, pc) == Some(ram[pc] as int + 256 * ram[pc + 1] as int + 0x1_0000 * ram[pc + 2] as int
                             + 0x100_0000 * ram[pc + 3] as int)
  {
  }

  /** One step: halted machines stay, a fetch outside RAM halts, a word without a handler only moves r15 on by four, and
      a handler runs with the next PC four past the instruction, is counted, and is committed unless it asked to
      halt. */
  lemma StepLaw(decode: Decoder, v: Vm)
    requires |v.guest.cpu.r| == 16
    ensures var w, s, pc := StepOf(decode, v), v.guest.cpu, v.guest.cpu.r[15];
      var next: u32 := (pc as int + 4) % 0x1_0000_0000;
      var fetched := Fetch(v.guest.ram, pc);
      && (v.halted ==> w == v)
      && (!v.halted && fetched.None? ==> w == v.(halted := true))
      && (!v.halted && fetched.Some? ==>
            match decode(fetched.value, s.cpsr)
            case None => w == Vm(v.guest.(cpu := s.(npc := next, r := s.r[15 := next])), s.halted)
            case Some(h) =>
              var t := h(v.guest.(cpu := s.(npc := next)), pc, fetched.value);
              var counted := t.cpu.(cycles := (t.cpu.cycles + 1) % 0x1_0000_0000_0000_0000);
              && (t.cpu.halted || t.cpu.reason != NoHalt || |t.cpu.r| != 16 ==>
                    w == Vm(t.(cpu := counted), t.cpu.halted))
              && (!t.cpu.halted && t.cpu.reason == NoHalt && |t.cpu.r| == 16 ==>
                    w == Vm(t.(cpu := counted.(r := t.cpu.r[15 := t.cpu.npc])), false)))
  {
    hide Fetch;
  }

  /** A step over a breakpoint halts the machine and the CPU, says why, counts a cycle, and stays on its address. */
  lemma BreakpointStep(decode: Decoder, v: Vm, instr: u32)
    requires |v.guest.cpu.r| == 16 && !v.halted
    requires Fetch(v.guest.ram, v.guest.cpu.r[15]) == Some(instr) && RunsBkpt(decode, instr)
    ensures var w := StepOf(decode, v);
      && w.halted && w.guest.cpu.halted && w.guest.cpu.reason == HaltBkpt && SameGuest(v, w)
      && w.guest.cpu.npc == v.guest.cpu.r[15]
      && w.guest.cpu.cycles == (v.guest.cpu.cycles + 1) % 0x1_0000_0000_0000_0000
  {
    hide LoadWord;
  }
}
