/** The step machine: fetch, execute, commit; software interrupts and their return; breakpoints and the halt latch. */
module Machine {
  import opened Words
  import opened Shifter
  import opened CpuModel
  import opened Memory
  import opened Options
  import opened Conditions

  // ---- handlers that steer the program counter ----

  /** CPSR on entry to SVC mode. */
  function SvcCpsr(p: u32): u32 {
    ClearBits(ClearBits(SetBit(SetBit(p - p % 32 + 0x13, 5, false), 7, true), 10, 6), 25, 2)
  }

  function ClearBits(x: u32, lo: nat, n: nat): u32
    requires lo + n <= 32
    decreases n
  {
    if n == 0 then x else ClearBits(SetBit(x, lo + n - 1, false), lo, n - 1)
  }

  lemma {:induction false} ClearBitsBit(x: u32, lo: nat, n: nat, k: nat)
    requires lo + n <= 32
    ensures Bit(ClearBits(x, lo, n), k) == (Bit(x, k) && !(lo <= k < lo + n))
    decreases n
  {
    if n == 0 {
    } else {
      hide Bit;
      ReplaceBit(x, lo + n - 1, false, k);
      ClearBitsBit(SetBit(x, lo + n - 1, false), lo, n - 1, k);
    }
  }

  /** SVC mode, ARM state, IRQs masked, IT bits clear; every other bit as it was. */
  lemma SvcCpsrBits(p: u32, k: nat)
    requires k < 32
    ensures Bit(SvcCpsr(p), k) ==
      if k < 5 then Bit(0x13, k)
      else if k == 5 || 10 <= k < 16 || 25 <= k < 27 then false
      else if k == 7 then true
      else Bit(p, k)
  {
    hide Bit, Replace, ClearBits;
    var q := p - p % 32 + 0x13;
    ModeBits(p, k);
    ReplaceBit(q, 5, false, k);
    var q5 := SetBit(q, 5, false);
    ReplaceBit(q5, 7, true, k);
    ClearBitsBit(SetBit(q5, 7, true), 10, 6, k);
    ClearBitsBit(ClearBits(SetBit(q5, 7, true), 10, 6), 25, 2, k);
  }

  lemma ModeParts(p: u32)
    ensures var q := p - p % 32 + 0x13; LowPart(q, 5) == LowPart(0x13, 5) && Halve(q, 5) == Halve(p, 5)
  {
    var q := p - p % 32 + 0x13;
    assert Pow2(5) == 32;
    hide Halve, LowPart, Pow2;
    HalveIsDivision(q, 5);
    HalveIsDivision(p, 5);
    HalveIsDivision(0x13, 5);
    DivModParts(p, 32);
    DivModUnique(q, 32, p / 32, 0x13);
    DivModUnique(0x13, 32, 0, 0x13);
  }

  lemma ModeBits(p: u32, k: nat)
    requires k < 32
    ensures Bit(p - p % 32 + 0x13, k) == if k < 5 then Bit(0x13, k) else Bit(p, k)
  {
    hide Bit, Halve, LowPart, Pow2;
    var q := p - p % 32 + 0x13;
    ModeParts(p);
    if k < 5 {
      LowPartBit(q, 5, k);
      LowPartBit(0x13, 5, k);
    } else {
      HalveBit(q, 5, k - 5);
      HalveBit(p, 5, k - 5);
    }
  }

  /** handle_svc: saves CPSR and the return address, enters SVC mode, vectors to address 8. */
  function Svc(s: State): State
    requires |s.r| == 16
  {
    s.(spsr := s.cpsr, r := s.r[14 := s.npc], cpsr := SvcCpsr(s.cpsr), npc := 8)
  }

  method HandleSvc(cpu: Cpu)
    requires cpu.Valid()
    modifies cpu, cpu.r
    ensures cpu.Snapshot() == Svc(old(cpu.Snapshot()))
  {
    cpu.spsr := cpu.cpsr;
    cpu.r[14] := cpu.npc;
    var p := cpu.cpsr;
    p := p - p % 32 + 0x13;
    p := SetBit(p, 5, false);
    p := SetBit(p, 7, true);
    p := ClearBits(ClearBits(p, 10, 6), 25, 2);
    cpu.cpsr := p;
    cpu.npc := 8;
  }

  /** `x & ~1`. */
  function EvenPart(x: u32): u32 { x - x % 2 }

  /** handle_mov: a write to r15 steers the next PC, and with S set returns from an exception. */
  function Mov(s: State, instr: u32): State
    requires |s.r| == 16
  {
    var cond := Field(instr, 28, 4);
    if cond != NV && !Holds(s.cpsr, cond) then s
    else
      var o := Operand2(s.r, instr, Bit(s.cpsr, C_BIT));
      if Rd(instr) == 15 then
        s.(npc := EvenPart(o.value), cpsr := if SBit(instr) then s.spsr else s.cpsr)
      else
        s.(r := s.r[Rd(instr) := o.value],
           cpsr := if SBit(instr)
                   then SetBit(SetBit(SetBit(s.cpsr, Z_BIT, o.value == 0), N_BIT, o.value >= SIGN), C_BIT, o.carry)
                   else s.cpsr)
  }

  method HandleMov(cpu: Cpu, instr: u32)
    requires cpu.Valid()
    modifies cpu, cpu.r
    ensures cpu.Snapshot() == Mov(old(cpu.Snapshot()), instr)
  {
    hide Holds, Operand2, SetBit, Bit, Field, Reg;
    var cond := Field(instr, 28, 4);
    if cond != NV && !Holds(cpu.cpsr, cond) { return; }
    var o := Operand2(cpu.r[..], instr, Bit(cpu.cpsr, C_BIT));
    if Rd(instr) == 15 {
      if SBit(instr) { cpu.cpsr := cpu.spsr; }
      cpu.npc := EvenPart(o.value);
      return;
    }
    cpu.r[Rd(instr)] := o.value;
    if SBit(instr) {
      cpu.cpsr := SetBit(SetBit(cpu.cpsr, Z_BIT, o.value == 0), N_BIT, o.value >= SIGN);
      cpu.cpsr := SetBit(cpu.cpsr, C_BIT, o.carry);
    }
  }

  /** handle_bkpt: stays on the instruction and asks for a halt. */
  function Bkpt(s: State, pc: u32): State { s.(npc := pc, reason := HaltBkpt, halted := true) }

  method HandleBkpt(cpu: Cpu, pc: u32)
    modifies cpu
    ensures cpu.Snapshot() == Bkpt(old(cpu.Snapshot()), pc)
  {
    cpu.npc := pc;
    cpu.reason := HaltBkpt;
    cpu.halted := true;
  }

  const MOVS_PC_LR: u32 := 0xE1B0_F00E

  /** MOVS pc, lr always runs: it returns to r14 with its low bit cleared and restores CPSR from SPSR. */
  lemma ReturnEffect(s: State)
    requires |s.r| == 16
    ensures Mov(s, MOVS_PC_LR) == s.(npc := EvenPart(s.r[14]), cpsr := s.spsr)
  {
    hide Holds, SetBit;
    MovsFields();
    AlwaysHolds(s.cpsr);
  }

  lemma AlwaysHolds(cpsr: u32)
    ensures Holds(cpsr, AL)
  {
    hide Bit;
  }

  lemma MovsNumbers()
    ensures MOVS_PC_LR / 0x1000_0000 % 16 == 14 && MOVS_PC_LR / 0x1000 % 16 == 15 && MOVS_PC_LR % 16 == 14
    ensures MOVS_PC_LR / 0x20 % 4 == 0 && MOVS_PC_LR / 0x80 % 32 == 0
    ensures MOVS_PC_LR / 0x10_0000 % 2 == 1 && MOVS_PC_LR / 0x200_0000 % 2 == 0 && MOVS_PC_LR / 16 % 2 == 0
  {
  }

  lemma MovsFields()
    ensures Field(MOVS_PC_LR, 28, 4) == AL && Rd(MOVS_PC_LR) == 15 && SBit(MOVS_PC_LR)
    ensures !Bit(MOVS_PC_LR, 25) && !Bit(MOVS_PC_LR, 4) && Reg(MOVS_PC_LR, 0) == 14
    ensures ShiftType(MOVS_PC_LR) == LSL && Field(MOVS_PC_LR, 7, 5) == 0
  {
    hide Bit, Field, Pow2;
    SmallPowers();
    MovsNumbers();
    Fields(MOVS_PC_LR);
    BitIs(MOVS_PC_LR, 20, 0x10_0000);
    BitIs(MOVS_PC_LR, 25, 0x200_0000);
    BitIs(MOVS_PC_LR, 4, 16);
  }

  // ---- fetch, execute, commit ----

  /** What an instruction can see and change. */
  datatype Guest = Guest(cpu: State, ram: seq<byte>)

  /** A handler, given the guest, the instruction's address and the instruction. */
  type Handler = (Guest, u32, u32) -> Guest

  /** The decoder: the handler for an instruction word under a CPSR, if any. */
  type Decoder = (u32, u32) -> Option<Handler>

  function Fetch(ram: seq<byte>, pc: u32): Option<u32> {
    if pc > |ram| || 4 > |ram| - pc then None else Some(LoadWord(ram, pc))
  }

  /** cpu_execute: default next PC, handler, and the commit that a requested halt skips. */
  function Execute(decode: Decoder, g: Guest, instr: u32): Guest
    requires |g.cpu.r| == 16
  {
    var pc := g.cpu.r[15];
    var ready := g.(cpu := g.cpu.(npc := Wrap(pc as int + 4)));
    match decode(instr, g.cpu.cpsr)
    case None => Commit(ready)
    case Some(h) =>
      var t := h(ready, pc, instr);
      var counted := t.(cpu := t.cpu.(cycles := (t.cpu.cycles + 1) % TWO64));
      if counted.cpu.halted || counted.cpu.reason != NoHalt then counted else Commit(counted)
  }

  function Commit(g: Guest): Guest {
    if |g.cpu.r| == 16 then g.(cpu := g.cpu.(r := g.cpu.r[15 := g.cpu.npc])) else g
  }

  /** Handlers keep sixteen registers and never clear the halt latch. */
  ghost predicate Sane(decode: Decoder) {
    forall instr: u32, cpsr: u32, g: Guest, pc: u32 ::
      |g.cpu.r| == 16 && decode(instr, cpsr).Some? ==>
        var t := decode(instr, cpsr).value(g, pc, instr);
        |t.cpu.r| == 16 && (g.cpu.halted ==> t.cpu.halted)
  }

  datatype Vm = Vm(guest: Guest, halted: bool)

  /** One vm_step: nothing when halted, a halt when the fetch leaves RAM, otherwise one execution. */
  function StepOf(decode: Decoder, v: Vm): (v': Vm)
    requires |v.guest.cpu.r| == 16
  {
    if v.halted then v
    else match Fetch(v.guest.ram, v.guest.cpu.r[15])
      case None => v.(halted := true)
      case Some(instr) =>
        var g := Execute(decode, v.guest, instr);
        Vm(g, g.cpu.halted)
  }

  lemma StepSane(decode: Decoder, v: Vm)
    requires Sane(decode) && |v.guest.cpu.r| == 16
    ensures |StepOf(decode, v).guest.cpu.r| == 16
    ensures v.guest.cpu.halted ==> StepOf(decode, v).guest.cpu.halted
  {
    hide LoadWord;
  }

  /** n guarded steps. */
  function Iterate(decode: Decoder, v: Vm, n: nat): Vm
    requires Sane(decode) && |v.guest.cpu.r| == 16
    decreases n
  {
    if n == 0 then v
    else
      StepSane(decode, v);
      Iterate(decode, StepOf(decode, v), n - 1)
  }

  lemma {:induction false} IterateSane(decode: Decoder, v: Vm, n: nat)
    requires Sane(decode) && |v.guest.cpu.r| == 16
    ensures |Iterate(decode, v, n).guest.cpu.r| == 16
    decreases n
  {
    if n == 0 {
    } else {
      hide StepOf;
      StepSane(decode, v);
      IterateSane(decode, StepOf(decode, v), n - 1);
    }
  }

  /** A run can be split anywhere: m steps and then n steps are m + n steps. */
  lemma {:induction false} IterateSplit(decode: Decoder, v: Vm, m: nat, n: nat)
    requires Sane(decode) && |v.guest.cpu.r| == 16
    ensures |Iterate(decode, v, m).guest.cpu.r| == 16
    ensures Iterate(decode, Iterate(decode, v, m), n) == Iterate(decode, v, m + n)
    decreases m
  {
    hide StepOf;
    IterateSane(decode, v, m);
    if m == 0 {
    } else {
      StepSane(decode, v);
      IterateSplit(decode, StepOf(decode, v), m - 1, n);
    }
  }

  lemma {:induction false} HaltedIterates(decode: Decoder, v: Vm, n: nat)
    requires Sane(decode) && |v.guest.cpu.r| == 16 && v.halted
    ensures Iterate(decode, v, n) == v
    decreases n
  {
    if n == 0 {
    } else {
      HaltedIterates(decode, v, n - 1);
    }
  }

  /** src/vm/vm.c. The CPU is embedded in the VM by value. */
  class Runner {
    const decode: Decoder
    var cpu: State
    var ram: seq<byte>
    var halted: bool

    constructor (d: Decoder, m: seq<byte>)
      ensures Valid() && decode == d
      ensures State() == Vm(Guest(CpuModel.State(seq(16, i => 0), 0, 0, 0, false, NoHalt, 0), m), false)
    {
      decode := d;
      cpu := CpuModel.State(seq(16, i => 0), 0, 0, 0, false, NoHalt, 0);
      ram, halted := m, false;
    }

    ghost predicate Valid()
      reads this
    {
      |cpu.r| == 16
    }

    function State(): Vm
      reads this
    {
      Vm(Guest(cpu, ram), halted)
    }

    /** cpu_execute on the embedded CPU. */
    method CpuExecute(instr: u32)
      requires Valid()
      modifies `cpu, `ram
      ensures Guest(cpu, ram) == Execute(decode, Guest(old(cpu), old(ram)), instr)
    {
      var pc := cpu.r[15];
      cpu := cpu.(npc := Wrap(pc as int + 4));
      match decode(instr, cpu.cpsr) {
        case None =>
          cpu := cpu.(r := cpu.r[15 := cpu.npc]);
        case Some(h) =>
          var t := h(Guest(cpu, ram), pc, instr);
          cpu, ram := t.cpu, t.ram;
          cpu := cpu.(cycles := (cpu.cycles + 1) % TWO64);
          if cpu.halted || cpu.reason != NoHalt { return; }
          if |cpu.r| == 16 { cpu := cpu.(r := cpu.r[15 := cpu.npc]); }
      }
    }

    method Step() returns (running: bool)
      requires Valid() && Sane(decode)
      modifies this
      ensures Valid() && State() == StepOf(decode, old(State())) && running == !halted
    {
      hide LoadWord, Execute;
      StepSane(decode, State());
      if halted { return false; }
      match Fetch(ram, cpu.r[15]) {
        case None =>
          halted := true;
          return false;
        case Some(instr) =>
          CpuExecute(instr);
          if cpu.halted { halted := true; }
          return !halted;
      }
    }

    /** vm_run: at most `max` instructions, or with 0 until the machine halts, which it does within `bound` steps. */
    method Run(max: nat, ghost bound: nat) returns (running: bool)
      requires Valid() && Sane(decode)
      requires max == 0 ==> Iterate(decode, State(), bound).halted
      modifies this
      ensures Valid() && running == !halted
      ensures max > 0 ==> State() == Iterate(decode, old(State()), max)
      ensures max == 0 ==> State() == Iterate(decode, old(State()), bound)
    {
      hide StepOf, LoadWord, Execute, Sane;
      ghost var v0, limit := State(), if max == 0 then bound else max;
      var cycles := 0;
      IterateSplit(decode, v0, 0, limit);
      while !halted && (max == 0 || cycles < max)
        invariant Valid() && cycles <= limit
        invariant Iterate(decode, State(), limit - cycles) == Iterate(decode, v0, limit)
        decreases limit - cycles
      {
        StepSane(decode, State());
        assert cycles < limit;
        var ok := Step();
        cycles := cycles + 1;
      }
      if halted { HaltedIterates(decode, State(), limit - cycles); }
      return !halted;
    }

    /** vm_clear_halt: clears the VM's latch only. */
    method ClearHalt()
      modifies `halted
      ensures State() == old(State()).(halted := false)
    {
      halted := false;
    }
  }

  // ---- software interrupts ----

  /** This word decodes to handle_svc. */
  ghost predicate RunsSvc(decode: Decoder, instr: u32, cpsr: u32) {
    && decode(instr, cpsr).Some?
    && forall g: Guest, pc: u32 :: |g.cpu.r| == 16 ==> decode(instr, cpsr).value(g, pc, instr) == g.(cpu := Svc(g.cpu))
  }

  /** This word is MOVS pc, lr and decodes to handle_mov. */
  ghost predicate RunsReturn(decode: Decoder, instr: u32, cpsr: u32) {
    && instr == MOVS_PC_LR && decode(instr, cpsr).Some?
    && forall g: Guest, pc: u32 :: |g.cpu.r| == 16 ==>
        decode(instr, cpsr).value(g, pc, instr) == g.(cpu := Mov(g.cpu, instr))
  }

  /** Not stopped in any way. */
  predicate Live(v: Vm) { !v.halted && !v.guest.cpu.halted && v.guest.cpu.reason == NoHalt && |v.guest.cpu.r| == 16 }

  lemma SvcStep(decode: Decoder, v: Vm, instr: u32)
    requires Live(v) && Fetch(v.guest.ram, v.guest.cpu.r[15]) == Some(instr)
    requires RunsSvc(decode, instr, v.guest.cpu.cpsr)
    ensures var w := StepOf(decode, v);
      && Live(w) && w.guest.ram == v.guest.ram
      && w.guest.cpu.r[14] == Wrap(v.guest.cpu.r[15] as int + 4)
      && w.guest.cpu.r[15] == 8
      && w.guest.cpu.spsr == v.guest.cpu.cpsr && w.guest.cpu.cpsr == SvcCpsr(v.guest.cpu.cpsr)
  {
    hide LoadWord, SvcCpsr, Wrap;
  }

  lemma ReturnStep(decode: Decoder, v: Vm)
    requires Live(v) && Fetch(v.guest.ram, v.guest.cpu.r[15]) == Some(MOVS_PC_LR)
    requires RunsReturn(decode, MOVS_PC_LR, v.guest.cpu.cpsr)
    ensures var w := StepOf(decode, v);
      && Live(w) && w.guest.ram == v.guest.ram
      && w.guest.cpu.r == v.guest.cpu.r[15 := EvenPart(v.guest.cpu.r[14])]
      && w.guest.cpu.cpsr == v.guest.cpu.spsr
  {
    hide LoadWord, Mov, Wrap, EvenPart;
    var ready := v.guest.cpu.(npc := Wrap(v.guest.cpu.r[15] as int + 4));
    ReturnEffect(ready);
  }

  lemma LiveSize(v: Vm)
    requires Live(v)
    ensures |v.guest.cpu.r| == 16
  {
  }

  lemma EvenReturn(a: u32)
    ensures EvenPart(Wrap(a as int + 4)) == Wrap(a as int + 4) <==> a % 2 == 0
  {
  }

  /** SVC, any run of n steps that ends with r14 and SPSR intact, then MOVS pc, lr: CPSR is what it was before the SVC,
      and execution resumes at the instruction after it, exactly when that instruction's address is even. */
  lemma SvcRoundTrip(decode: Decoder, v: Vm, svc: u32, n: nat)
    requires Sane(decode) && Live(v) && Fetch(v.guest.ram, v.guest.cpu.r[15]) == Some(svc)
    requires RunsSvc(decode, svc, v.guest.cpu.cpsr)
    requires var entry := StepOf(decode, v);
      var exit := Iterate(decode, entry, n);
      && Live(exit)
      && exit.guest.cpu.r[14] == entry.guest.cpu.r[14] && exit.guest.cpu.spsr == entry.guest.cpu.spsr
      && Fetch(exit.guest.ram, exit.guest.cpu.r[15]) == Some(MOVS_PC_LR)
      && RunsReturn(decode, MOVS_PC_LR, exit.guest.cpu.cpsr)
    ensures var back := StepOf(decode, Iterate(decode, StepOf(decode, v), n));
      && Live(back)
      && back.guest.cpu.cpsr == v.guest.cpu.cpsr
      && (back.guest.cpu.r[15] == Wrap(v.guest.cpu.r[15] as int + 4) <==> v.guest.cpu.r[15] % 2 == 0)
  {
    hide *;
    LiveSize(v);
    SvcStep(decode, v, svc);
    LiveSize(StepOf(decode, v));
    LiveSize(Iterate(decode, StepOf(decode, v), n));
    ReturnStep(decode, Iterate(decode, StepOf(decode, v), n));
    EvenReturn(v.guest.cpu.r[15]);
  }

  /** n steps, each of which leaves the machine live and r14 and SPSR as they were. */
  ghost predicate Undisturbed(decode: Decoder, v: Vm, n: nat)
    requires Sane(decode) && |v.guest.cpu.r| == 16
    decreases n
  {
    n == 0 ||
    (StepSane(decode, v);
     var w := StepOf(decode, v);
     && Live(w) && w.guest.cpu.r[14] == v.guest.cpu.r[14] && w.guest.cpu.spsr == v.guest.cpu.spsr
     && Undisturbed(decode, w, n - 1))
  }

  lemma {:induction false} UndisturbedKeeps(decode: Decoder, v: Vm, n: nat)
    requires Sane(decode) && Live(v) && Undisturbed(decode, v, n)
    ensures var exit := Iterate(decode, v, n);
      Live(exit) && exit.guest.cpu.r[14] == v.guest.cpu.r[14] && exit.guest.cpu.spsr == v.guest.cpu.spsr
    decreases n
  {
    hide StepOf, Sane;
    if n == 0 {
    } else {
      StepSane(decode, v);
      UndisturbedKeeps(decode, StepOf(decode, v), n - 1);
    }
  }

  // ---- breakpoints and the halt latch ----

  /** This word decodes to handle_bkpt, whatever the flags. */
  ghost predicate RunsBkpt(decode: Decoder, instr: u32) {
    forall cpsr: u32 ::
      && decode(instr, cpsr).Some?
      && forall g: Guest, pc: u32 :: |g.cpu.r| == 16 ==>
          decode(instr, cpsr).value(g, pc, instr) == g.(cpu := Bkpt(g.cpu, pc))
  }

  datatype Action = ClearAction | StepAction

  function Act(decode: Decoder, v: Vm, a: Action): Vm
    requires |v.guest.cpu.r| == 16
  {
    match a
    case ClearAction => v.(halted := false)
    case StepAction => StepOf(decode, v)
  }

  /** The registers, status and memory a debugger shows. */
  predicate SameGuest(v: Vm, w: Vm) {
    && w.guest.cpu.r == v.guest.cpu.r && w.guest.cpu.cpsr == v.guest.cpu.cpsr && w.guest.cpu.spsr == v.guest.cpu.spsr
    && w.guest.ram == v.guest.ram
  }

  lemma ActSane(decode: Decoder, v: Vm, a: Action)
    requires Sane(decode) && |v.guest.cpu.r| == 16
    ensures |Act(decode, v, a).guest.cpu.r| == 16
  {
    hide StepOf;
    StepSane(decode, v);
  }

  function Acts(decode: Decoder, v: Vm, actions: seq<Action>): (w: Vm)
    requires Sane(decode) && |v.guest.cpu.r| == 16
    ensures |w.guest.cpu.r| == 16
    decreases |actions|
  {
    if actions == [] then v
    else
      ActSane(decode, v, actions[0]);
      Acts(decode, Act(decode, v, actions[0]), actions[1..])
  }

  lemma BkptAct(decode: Decoder, v: Vm, a: Action, instr: u32)
    requires |v.guest.cpu.r| == 16 && Fetch(v.guest.ram, v.guest.cpu.r[15]) == Some(instr) && RunsBkpt(decode, instr)
    ensures SameGuest(v, Act(decode, v, a))
  {
    hide LoadWord;
  }

  /** Stopped on a breakpoint, no interleaving of clearing the halt and stepping changes registers, flags or RAM. */
  lemma {:induction false} BkptSticks(decode: Decoder, v: Vm, actions: seq<Action>, instr: u32)
    requires Sane(decode) && |v.guest.cpu.r| == 16
    requires Fetch(v.guest.ram, v.guest.cpu.r[15]) == Some(instr) && RunsBkpt(decode, instr)
    ensures SameGuest(v, Acts(decode, v, actions))
    decreases |actions|
  {
    hide Act, Fetch, RunsBkpt, Sane;
    if actions == [] {
    } else {
      ActSane(decode, v, actions[0]);
      BkptAct(decode, v, actions[0], instr);
      BkptSticks(decode, Act(decode, v, actions[0]), actions[1..], instr);
    }
  }

  /** A word is decoded, and its handler leaves r15 alone. */
  ghost predicate StaysPut(decode: Decoder, g: Guest, instr: u32)
    requires Sane(decode) && |g.cpu.r| == 16
  {
    var pc := g.cpu.r[15];
    && decode(instr, g.cpu.cpsr).Some?
    && decode(instr, g.cpu.cpsr).value(g.(cpu := g.cpu.(npc := Wrap(pc as int + 4))), pc, instr).cpu.r[15] == pc
  }

  /** A step of v keeps r15: v is halted, or its fetch leaves RAM, or the word it fetches stays put. */
  ghost predicate Rests(decode: Decoder, v: Vm)
    requires Sane(decode) && |v.guest.cpu.r| == 16
  {
    var word := Fetch(v.guest.ram, v.guest.cpu.r[15]);
    v.halted || word.None? || StaysPut(decode, v.guest, word.value)
  }

  /** With the CPU latched, an action leaves it latched; it keeps r15 exactly when it clears the VM's halt or is a step
      that rests. A word the decoder does not know is committed all the same, and moves r15 on by four. */
  lemma LatchedAct(decode: Decoder, v: Vm, a: Action)
    requires Sane(decode) && |v.guest.cpu.r| == 16 && v.guest.cpu.halted
    ensures var w := Act(decode, v, a);
      && w.guest.cpu.halted && |w.guest.cpu.r| == 16
      && (a.StepAction? ==> w.halted)
      && (w.guest.cpu.r[15] == v.guest.cpu.r[15] <==> a.ClearAction? || Rests(decode, v))
      && (a.StepAction? && !v.halted && Fetch(v.guest.ram, v.guest.cpu.r[15]).Some?
          && decode(Fetch(v.guest.ram, v.guest.cpu.r[15]).value, v.guest.cpu.cpsr).None? ==>
            w.guest.cpu.r[15] == Wrap(v.guest.cpu.r[15] as int + 4))
  {
    hide LoadWord;
    StepSane(decode, v);
  }

  /** Every step among the actions rests. */
  ghost predicate AllRest(decode: Decoder, v: Vm, actions: seq<Action>)
    requires Sane(decode) && |v.guest.cpu.r| == 16
    decreases |actions|
  {
    actions == [] ||
    (ActSane(decode, v, actions[0]);
     (actions[0].ClearAction? || Rests(decode, v)) && AllRest(decode, Act(decode, v, actions[0]), actions[1..]))
  }

  /** Clearing the VM's halt does not clear the CPU's. From a latched CPU, r15 never moves over any interleaving of
      clears and steps exactly when every step rests. */
  lemma {:induction false} LatchedNeverAdvances(decode: Decoder, v: Vm, actions: seq<Action>)
    requires Sane(decode) && |v.guest.cpu.r| == 16 && v.guest.cpu.halted
    ensures Acts(decode, v, actions).guest.cpu.halted
    ensures (forall k :: 0 <= k <= |actions| ==> Acts(decode, v, actions[..k]).guest.cpu.r[15] == v.guest.cpu.r[15])
            <==> AllRest(decode, v, actions)
    decreases |actions|
  {
    hide Act, Rests, Sane;
    if actions == [] {
    } else {
      var w := Act(decode, v, actions[0]);
      ActSane(decode, v, actions[0]);
      LatchedAct(decode, v, actions[0]);
      LatchedNeverAdvances(decode, w, actions[1..]);
      forall k | 1 <= k <= |actions|
        ensures Acts(decode, v, actions[..k]) == Acts(decode, w, actions[1..][..k - 1])
      {
        assert actions[..k][1..] == actions[1..][..k - 1];
      }
      assert Acts(decode, w, actions[1..][..0]) == w;
      if forall k :: 0 <= k <= |actions| ==> Acts(decode, v, actions[..k]).guest.cpu.r[15] == v.guest.cpu.r[15] {
        assert Acts(decode, v, actions[..1]) == w;
        forall k | 0 <= k <= |actions[1..]|
          ensures Acts(decode, w, actions[1..][..k]).guest.cpu.r[15] == w.guest.cpu.r[15]
        {
          assert Acts(decode, v, actions[..k + 1]).guest.cpu.r[15] == v.guest.cpu.r[15];
        }
      }
    }
  }
}
