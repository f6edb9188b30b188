/** Single-word loads and stores: addressing modes, write-back, and the address shifter. */
module Addressing {
  import opened Words
  import opened Shifter
  import opened CpuModel
  import opened Memory
  import opened BlockTransfer
  import opened DiskDevice
  import opened KeyboardDevice

  // ---- src/include/ctx_helpers.h ----

  /** The address shifter has no carry, and shifts by 32 & 31 where an amount of 0 stands for 32. */
  function AddressShift(x: u32, t: Shift, amount: nat): u32
    requires amount < 32
  {
    match t
    case LSL => if amount == 0 then x else Shl(x, amount)
    case LSR => if amount == 0 then 0 else Shr(x, amount)
    case ASR => if amount == 0 then x else ArithmeticRight(x, amount)
    case ROR => if amount == 0 then Shr(x, 1) else Or(Shr(x, amount), Shl(x, 32 - amount))
  }

  /** The address shifter agrees with the one-bit shifter except for ASR #32 of a word that is not all sign bits, and
      for rotate-through-carry with the carry set. */
  lemma AddressShiftIsSteps(x: u32, t: Shift, amount: nat, c: bool)
    requires amount < 32
    ensures AddressShift(x, t, amount) == ImmediateReference(t, amount, Out(x, c)).value
            <==> !(amount == 0 && ((t == ASR && x != 0 && x != 0xFFFF_FFFF) || (t == ROR && c)))
  {
    hide ArithmeticRight, Shr, Shl;
    var n := if amount == 0 then 32 else amount;
    match t
    case LSL => if amount > 0 { LslProof(x, n, c); }
    case LSR => LsrProof(x, n, c);
    case ASR => AsrProof(x, n, c);
    case ROR =>
      if amount > 0 { RorProof(x, n, c); }
      else { ShrOne(x); }
  }

  lemma ShrOne(x: u32)
    ensures Shr(x, 1) == x / 2
  {
    assert Halve(x, 1) == Halve(x / 2, 0);
  }

  /** The offset field: twelve bits, or a shifted register; a register-shifted register is taken as 0. */
  function Offset(r: seq<u32>, instr: u32): u32
    requires |r| == 16
  {
    if !Bit(instr, 25) then instr % 4096
    else if Bit(instr, 4) then 0
    else
      LowPartBound(Halve(instr, 7), 5);
      assert Pow2(5) == 32;
      AddressShift(ReadSource(r, Reg(instr, 0)), ShiftType(instr), Field(instr, 7, 5))
  }

  /** The base moved by the offset. */
  function Indexed(r: seq<u32>, instr: u32): u32
    requires |r| == 16
  {
    var base, off := ReadSource(r, Rn(instr)), Offset(r, instr);
    Wrap(if UpBit(instr) then base as int + off else base as int - off)
  }

  /** Pre-indexed forms use the moved base; post-indexed forms use the base as it was. */
  function EffectiveAddress(r: seq<u32>, instr: u32): u32
    requires |r| == 16
  {
    if BeforeBit(instr) then Indexed(r, instr) else ReadSource(r, Rn(instr))
  }

  /** Pre-indexed forms write back when asked to, post-indexed forms always. */
  predicate MovesBase(instr: u32) { !BeforeBit(instr) || WriteBackBit(instr) }

  // ---- src/cpu/memops.c ----

  /** STR, in every addressing mode: the register stored is read raw, before the base moves. */
  method HandleStr(cpu: Cpu, bus: Bus, instr: u32)
    requires cpu.Valid() && bus.Valid()
    modifies cpu.r, bus.ram, bus.disk, bus.disk.data
    ensures bus.Valid() && bus.Wiring() == old(bus.Wiring())
    ensures cpu.r[..] == StrRegisters(old(cpu.r[..]), instr)
    ensures bus.State() == Stored(old(bus.State()), bus.Wiring(), EffectiveAddress(old(cpu.r[..]), instr),
                                  old(cpu.r[..])[Rd(instr)])
  {
    hide ReadSource, Offset, Wrap, Bit, Reg, Stored, StrRegisters;
    var base := ReadSource(cpu.r[..], Rn(instr));
    var off := Offset(cpu.r[..], instr);
    var newBase := Wrap(if UpBit(instr) then base as int + off else base as int - off);
    var ea := if BeforeBit(instr) then newBase else base;
    StoreOne(bus, ea, cpu.r[Rd(instr)]);
    FinishStr(cpu, instr, newBase);
  }

  /** The register half of STR. */
  method FinishStr(cpu: Cpu, instr: u32, newBase: u32)
    requires cpu.Valid() && newBase == Indexed(cpu.r[..], instr)
    modifies cpu.r
    ensures cpu.r[..] == StrRegisters(old(cpu.r[..]), instr)
  {
    hide Indexed, Bit, Reg;
    if (BeforeBit(instr) && WriteBackBit(instr)) || !BeforeBit(instr) {
      cpu.r[Rn(instr)] := newBase;
    }
  }

  function StrRegisters(r: seq<u32>, instr: u32): seq<u32>
    requires |r| == 16
  {
    if MovesBase(instr) then r[Rn(instr) := Indexed(r, instr)] else r
  }

  /** LDR, in every addressing mode: a load of r15 aims the next PC, and the base moves last. */
  method HandleLdr(cpu: Cpu, bus: Bus, instr: u32) returns (ghost val: u32)
    requires cpu.Valid() && bus.Valid()
    modifies cpu.r, cpu`npc, bus.keyboard, bus.keyboard.fifo
    ensures bus.Valid() && bus.ram[..] == old(bus.ram[..])
    ensures cpu.r[..] == LdrRegisters(old(cpu.r[..]), instr, val)
    ensures cpu.npc == if Rd(instr) == 15 then AlignWord(val) else old(cpu.npc)
    ensures var ea := EffectiveAddress(old(cpu.r[..]), instr);
      match old(bus.Route(ea))
      case Ram => val == LoadWord(bus.ram[..], ea)
      case Disk0 => val == bus.disk.MmioRead(AlignDown(ea))
      case Kbd =>
        Answer(val, bus.keyboard.Queue())
          == Respond(old(bus.keyboard.Queue()), Wrap(AlignDown(ea) as int - bus.keyboard.base))
      case Nowhere => val == 0
      case _ => true
    ensures old(bus.Route(EffectiveAddress(cpu.r[..], instr))) != Kbd ==>
              unchanged(bus.keyboard) && unchanged(bus.keyboard.fifo)
  {
    hide ReadSource, Offset, Wrap, RouteOf, Bit, Reg, LoadWord, Respond, Keyboard.Queue, Disk.MmioRead, AlignDown;
    hide LdrRegisters;
    var base := ReadSource(cpu.r[..], Rn(instr));
    var off := Offset(cpu.r[..], instr);
    var newBase := Wrap(if UpBit(instr) then base as int + off else base as int - off);
    var ea := if BeforeBit(instr) then newBase else base;
    var v := bus.Read32(ea);
    val := v;
    FinishLdr(cpu, instr, v, newBase);
  }

  /** The register half of LDR. */
  method FinishLdr(cpu: Cpu, instr: u32, val: u32, newBase: u32)
    requires cpu.Valid() && newBase == Indexed(cpu.r[..], instr)
    modifies cpu.r, cpu`npc
    ensures cpu.r[..] == LdrRegisters(old(cpu.r[..]), instr, val)
    ensures cpu.npc == if Rd(instr) == 15 then AlignWord(val) else old(cpu.npc)
  {
    hide Indexed, Bit, Reg;
    if Rd(instr) == 15 {
      cpu.npc := AlignWord(val);
    } else {
      cpu.r[Rd(instr)] := val;
    }
    if (BeforeBit(instr) && WriteBackBit(instr)) || !BeforeBit(instr) {
      cpu.r[Rn(instr)] := newBase;
    }
  }

  function LdrRegisters(r: seq<u32>, instr: u32, val: u32): seq<u32>
    requires |r| == 16
  {
    var loaded := if Rd(instr) == 15 then r else r[Rd(instr) := val];
    if MovesBase(instr) then loaded[Rn(instr) := Indexed(r, instr)] else loaded
  }

  /** The two move the same base by the same immediate in opposite directions, one before and one after the access. */
  predicate Reversed(str: u32, ldr: u32) {
    && Rn(str) == Rn(ldr) && Rd(str) == Rd(ldr)
    && !Bit(str, 25) && !Bit(ldr, 25) && str % 4096 == ldr % 4096
    && MovesBase(str) && MovesBase(ldr)
    && UpBit(str) != UpBit(ldr) && BeforeBit(str) != BeforeBit(ldr)
  }

  /** A moving store to RAM and then the reverse load: the load's address routes to RAM and holds the stored word, and
      every register is as it was, base included and even when the register stored is the base. */
  lemma StoreLoadIdentity(r: seq<u32>, m: Mem, at: Setup, str: u32, ldr: u32)
    requires |r| == 16 && Reversed(str, ldr) && Rn(str) != 15
    requires RouteOf(EffectiveAddress(r, str), |m.ram|, at.uart, at.present) == Ram
    ensures var moved := StrRegisters(r, str);
      var stored := Stored(m, at, EffectiveAddress(r, str), r[Rd(str)]);
      var ea := EffectiveAddress(moved, ldr);
      && RouteOf(ea, |stored.ram|, at.uart, at.present) == Ram
      && LoadWord(stored.ram, ea) == r[Rd(str)]
      && LdrRegisters(moved, ldr, LoadWord(stored.ram, ea)) == r
  {
    StoredRam(m, at, EffectiveAddress(r, str), r[Rd(str)]);
    ReverseAddress(r, str, ldr);
    hide Bit, Reg, LoadWord, StoreWord, RouteOf, Stored, Indexed, EffectiveAddress, ReadSource, Offset;
    LoadStore(m.ram, EffectiveAddress(r, str), r[Rd(str)], 0);
  }

  /** The reverse load goes where the store went, and moves the base back. */
  lemma ReverseAddress(r: seq<u32>, str: u32, ldr: u32)
    requires |r| == 16 && Reversed(str, ldr) && Rn(str) != 15
    ensures var moved := StrRegisters(r, str);
      EffectiveAddress(moved, ldr) == EffectiveAddress(r, str) && Indexed(moved, ldr) == r[Rn(str)]
  {
    hide Bit, Reg, Wrap;
    var base, off := r[Rn(str)] as int, str % 4096;
    WrapThere(base, off);
    WrapThere(base, -off);
  }

  lemma StoredRam(m: Mem, at: Setup, ea: u32, v: u32)
    requires RouteOf(ea, |m.ram|, at.uart, at.present) == Ram
    ensures ea + 4 <= |m.ram| && Stored(m, at, ea, v).ram == StoreWord(m.ram, ea, v)
  {
  }

  lemma WrapThere(x: int, d: int)
    requires 0 <= x < TWO32
    ensures Wrap(Wrap(x + d) as int - d) == x
  {
  }
}
