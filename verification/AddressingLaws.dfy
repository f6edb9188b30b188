/** LDR and STR in integers: addresses and base registers from the instruction word, and the copy loop they make. */
module AddressingLaws {
  import opened Words
  import opened Shifter
  import opened CpuModel
  import opened OperandLaws
  import opened Memory
  import opened BlockTransfer
  import opened Addressing
  import opened DiskDevice
  import KeyboardDevice

  // ---- the offset ----

  /** What the address shifter makes of each kind and amount. */
  lemma AddressShiftIs(x: u32, n: nat)
    requires n < 32
    ensures AddressShift(x, LSL, n) == x * Pow2(n) % TWO32
    ensures AddressShift(x, LSR, n) == if n == 0 then 0 else x / Pow2(n)
    ensures AddressShift(x, ASR, n) == (if x < 0x8000_0000 then x as int else x as int - TWO32) / Pow2(n) % TWO32
    ensures AddressShift(x, ROR, n) == if n == 0 then x / 2 else x / Pow2(n) + x % Pow2(n) * Pow2(32 - n)
  {
    if n == 0 {
      ShrOne(x);
      assert Pow2(0) == 1;
    } else {
      hide Shr, Shl, Or, ArithmeticRight, Pow2;
      ShlIs(x, n);
      ShrIs(x, n);
      ArithmeticIs(x, n);
      assert n % 32 == n;
      RotationIs(x, n);
    }
  }

  /** The offset of the register forms: a register shifted by an immediate, and nothing where bit 4 is set. */
  lemma OffsetLaw(r: seq<u32>, instr: u32, x: u32, n: nat)
    requires |r| == 16 && instr / 0x200_0000 % 2 == 1 && n == instr / 128 % 32
    requires x == if instr % 16 == 15 then (r[15] + 8) % TWO32 / 4 * 4 else r[instr % 16]
    ensures var kind, off := instr / 32 % 4, Offset(r, instr);
      && (instr / 16 % 2 == 1 ==> off == 0)
      && (instr / 16 % 2 == 0 ==>
            && (kind == 0 ==> off == x * Pow2(n) % TWO32)
            && (kind == 1 ==> off == if n == 0 then 0 else x / Pow2(n))
            && (kind == 2 ==> off == (if x < 0x8000_0000 then x as int else x as int - TWO32) / Pow2(n) % TWO32)
            && (kind == 3 ==> off == if n == 0 then x / 2 else x / Pow2(n) + x % Pow2(n) * Pow2(32 - n)))
  {
    SourceIs(r, instr % 16);
    hide Bit, Field, Pow2, AddressShift, ReadSource, ShiftType;
    Fields(instr);
    InstructionBits(instr);
    KindIs(instr);
    AddressShiftIs(x, n);
  }

  // ---- address and base ----

  lemma AddressFields(instr: u32)
    ensures Rn(instr) == instr / 0x1_0000 % 16 && Rd(instr) == instr / 0x1000 % 16
    ensures UpBit(instr) <==> instr / 0x80_0000 % 2 == 1
    ensures BeforeBit(instr) <==> instr / 0x100_0000 % 2 == 1
    ensures WriteBackBit(instr) <==> instr / 0x20_0000 % 2 == 1
  {
    hide Bit, Field;
    Fields(instr);
    InstructionBits(instr);
  }

  /** Where a load or store goes and what it leaves in the base register: bit 23 adds the offset or takes it off, bit 24
      says whether that happens before the access, and bit 21, or bit 24 clear, says that the base takes it. */
  lemma AddressLaw(r: seq<u32>, instr: u32, base: u32, off: u32, val: u32)
    requires |r| == 16
    requires base == if instr / 0x1_0000 % 16 == 15 then (r[15] + 8) % TWO32 / 4 * 4 else r[instr / 0x1_0000 % 16]
    requires off == if instr / 0x200_0000 % 2 == 0 then instr % 4096 else Offset(r, instr)
    ensures var n, d := instr / 0x1_0000 % 16, instr / 0x1000 % 16;
      var moved := (if instr / 0x80_0000 % 2 == 1 then base as int + off else base as int - off) % TWO32;
      var moves := instr / 0x100_0000 % 2 == 0 || instr / 0x20_0000 % 2 == 1;
      var loaded := if d == 15 then r else r[d := val];
      && EffectiveAddress(r, instr) == (if instr / 0x100_0000 % 2 == 1 then moved else base as int)
      && StrRegisters(r, instr) == (if moves then r[n := moved] else r)
      && LdrRegisters(r, instr, val) == (if moves then loaded[n := moved] else loaded)
  {
    SourceIs(r, instr / 0x1_0000 % 16);
    if instr / 0x200_0000 % 2 == 0 { OffsetIs(r, instr); }
    hide Bit, Field, ReadSource, Offset, Rn, Rd, UpBit, BeforeBit, WriteBackBit;
    AddressFields(instr);
  }

  lemma OffsetIs(r: seq<u32>, instr: u32)
    requires |r| == 16 && instr / 0x200_0000 % 2 == 0
    ensures Offset(r, instr) == instr % 4096
  {
    hide Bit;
    InstructionBits(instr);
  }

  // ---- the copy loop of the firmware, as instructions ----

  /** ldr r5, [r2], #4 and str r5, [r1], #4. */
  const LDR_R5_R2_4: u32 := 0xE492_5004
  const STR_R5_R1_4: u32 := 0xE481_5004

  lemma CopyFields()
    ensures LDR_R5_R2_4 / 0x1_0000 % 16 == 2 && LDR_R5_R2_4 / 0x1000 % 16 == 5 && LDR_R5_R2_4 % 4096 == 4
    ensures LDR_R5_R2_4 / 0x200_0000 % 2 == 0 && LDR_R5_R2_4 / 0x100_0000 % 2 == 0 && LDR_R5_R2_4 / 0x80_0000 % 2 == 1
    ensures STR_R5_R1_4 / 0x1_0000 % 16 == 1 && STR_R5_R1_4 / 0x1000 % 16 == 5 && STR_R5_R1_4 % 4096 == 4
    ensures STR_R5_R1_4 / 0x200_0000 % 2 == 0 && STR_R5_R1_4 / 0x100_0000 % 2 == 0 && STR_R5_R1_4 / 0x80_0000 % 2 == 1
  {
  }

  /** Both forms use the base as it is and move it on by four. */
  lemma CopyStep(r: seq<u32>, val: u32)
    requires |r| == 16
    ensures Rd(LDR_R5_R2_4) == 5 && Rd(STR_R5_R1_4) == 5
    ensures EffectiveAddress(r, LDR_R5_R2_4) == r[2]
    ensures LdrRegisters(r, LDR_R5_R2_4, val) == r[5 := val][2 := (r[2] + 4) % TWO32]
    ensures EffectiveAddress(r, STR_R5_R1_4) == r[1] && StrRegisters(r, STR_R5_R1_4) == r[1 := (r[1] + 4) % TWO32]
  {
    hide EffectiveAddress, LdrRegisters, StrRegisters, Rd;
    CopyFields();
    hide LDR_R5_R2_4, STR_R5_R1_4;
    AddressFields(LDR_R5_R2_4);
    AddressFields(STR_R5_R1_4);
    AddressLaw(r, LDR_R5_R2_4, r[2], 4, val);
    AddressLaw(r, STR_R5_R1_4, r[1], 4, val);
  }

  /** Memory m with the n bytes at s copied to d. */
  function Copied(m: seq<byte>, s: nat, d: nat, n: nat): (m': seq<byte>)
    requires s + n <= |m| && d + n <= |m|
    ensures |m'| == |m|
  {
    m[..d] + m[s..s + n] + m[d + n..]
  }

  /** A word taken from one place and stored at another is its four bytes. */
  lemma StoreLoaded(m: seq<byte>, s: nat, d: nat)
    requires s + 4 <= |m| && d + 4 <= |m|
    ensures StoreWord(m, d, LoadWord(m, s)) == Copied(m, s, d, 4)
  {
    BytesOfCompose(m[s], m[s + 1], m[s + 2], m[s + 3]);
    assert BytesOf(LoadWord(m, s)) == m[s..s + 4];
  }

  method LoadR5(cpu: Cpu, bus: Bus)
    requires cpu.Valid() && bus.Valid() && cpu.r[2] + 4 <= bus.ram.Length && cpu.r[2] + 4 <= 0x0900_0000
    modifies cpu.r, cpu`npc, bus.keyboard, bus.keyboard.fifo
    ensures bus.Valid() && bus.ram[..] == old(bus.ram[..]) && cpu.npc == old(cpu.npc)
    ensures unchanged(bus.keyboard) && unchanged(bus.keyboard.fifo)
    ensures cpu.r[..]
              == old(cpu.r[..])[5 := LoadWord(bus.ram[..], old(cpu.r[2]))][2 := (old(cpu.r[2]) + 4) % TWO32]
  {
    hide RouteOf, LoadWord, EffectiveAddress, LdrRegisters, StrRegisters, Rd, AlignDown, AlignWord;
    hide KeyboardDevice.Respond, KeyboardDevice.Keyboard.Queue, Disk.MmioRead, LDR_R5_R2_4, STR_R5_R1_4;
    ghost var r := cpu.r[..];
    RouteLaw(r[2], bus.ram.Length, bus.uartPresent, bus.disk.present);
    CopyStep(r, LoadWord(bus.ram[..], r[2]));
    ghost var v := HandleLdr(cpu, bus, LDR_R5_R2_4);
  }

  method StoreR5(cpu: Cpu, bus: Bus)
    requires cpu.Valid() && bus.Valid() && cpu.r[1] + 4 <= bus.ram.Length && cpu.r[1] + 4 <= 0x0900_0000
    modifies cpu.r, bus.ram, bus.disk, bus.disk.data
    ensures bus.Valid() && bus.Wiring() == old(bus.Wiring())
    ensures bus.State() == old(bus.State()).(ram := StoreWord(old(bus.ram[..]), old(cpu.r[1]), old(cpu.r[5])))
    ensures cpu.r[..] == old(cpu.r[..])[1 := (old(cpu.r[1]) + 4) % TWO32]
  {
    hide RouteOf, StoreWord, EffectiveAddress, LdrRegisters, StrRegisters, Rd, AlignDown, Commanded;
    hide LDR_R5_R2_4, STR_R5_R1_4;
    RouteLaw(cpu.r[1], bus.ram.Length, bus.uartPresent, bus.disk.present);
    CopyStep(cpu.r[..], 0);
    HandleStr(cpu, bus, STR_R5_R1_4);
  }

  /** One round: the word at r2 goes to r1, and both move on. */
  method CopyWord(cpu: Cpu, bus: Bus)
    requires cpu.Valid() && bus.Valid()
    requires cpu.r[2] + 4 <= bus.ram.Length && cpu.r[2] + 4 <= 0x0900_0000
    requires cpu.r[1] + 4 <= bus.ram.Length && cpu.r[1] + 4 <= 0x0900_0000
    modifies cpu.r, cpu`npc, bus.ram, bus.disk, bus.disk.data, bus.keyboard, bus.keyboard.fifo
    ensures bus.Valid() && bus.Wiring() == old(bus.Wiring())
    ensures cpu.npc == old(cpu.npc) && bus.disk.Registers() == old(bus.disk.Registers())
    ensures unchanged(bus.keyboard) && unchanged(bus.keyboard.fifo)
    ensures var m, src, dst := old(bus.ram[..]), old(cpu.r[2]), old(cpu.r[1]);
      && bus.ram[..] == Copied(m, src, dst, 4)
      && cpu.r[1] == dst + 4 && cpu.r[2] == src + 4
      && forall i :: 0 <= i < 16 && i != 1 && i != 2 && i != 5 ==> cpu.r[i] == old(cpu.r[i])
  {
    hide LoadWord, StoreWord, LDR_R5_R2_4, STR_R5_R1_4, Copied;
    ghost var m, r := bus.ram[..], cpu.r[..];
    StoreLoaded(m, cpu.r[2], cpu.r[1]);
    LoadR5(cpu, bus);
    assert cpu.r[1] == r[1] && cpu.r[5] == LoadWord(m, r[2]);
    StoreR5(cpu, bus);
  }

  /** n rounds copy 4 * n bytes upwards and move both registers past them, when the target does not start inside the
      source after its beginning. */
  method CopyWords(cpu: Cpu, bus: Bus, n: nat)
    requires cpu.Valid() && bus.Valid()
    requires cpu.r[2] + 4 * n <= bus.ram.Length && cpu.r[2] + 4 * n <= 0x0900_0000
    requires cpu.r[1] + 4 * n <= bus.ram.Length && cpu.r[1] + 4 * n <= 0x0900_0000
    requires cpu.r[1] <= cpu.r[2] || cpu.r[2] + 4 * n <= cpu.r[1]
    modifies cpu.r, cpu`npc, bus.ram, bus.disk, bus.disk.data, bus.keyboard, bus.keyboard.fifo
    ensures bus.Valid() && bus.Wiring() == old(bus.Wiring())
    ensures cpu.npc == old(cpu.npc) && bus.disk.Registers() == old(bus.disk.Registers())
    ensures unchanged(bus.keyboard) && unchanged(bus.keyboard.fifo)
    ensures var m, src, dst := old(bus.ram[..]), old(cpu.r[2]), old(cpu.r[1]);
      && bus.ram[..] == m[..dst] + m[src..src + 4 * n] + m[dst + 4 * n..]
      && cpu.r[1] == dst + 4 * n && cpu.r[2] == src + 4 * n
      && forall i :: 0 <= i < 16 && i != 1 && i != 2 && i != 5 ==> cpu.r[i] == old(cpu.r[i])
  {
    hide Copied;
    ghost var m, src, dst := bus.ram[..], cpu.r[2], cpu.r[1];
    NothingCopied(m, src, dst);
    for k := 0 to n
      invariant bus.Valid() && bus.Wiring() == old(bus.Wiring())
      invariant cpu.npc == old(cpu.npc) && bus.disk.Registers() == old(bus.disk.Registers())
      invariant unchanged(bus.keyboard) && unchanged(bus.keyboard.fifo)
      invariant bus.ram[..] == Copied(m, src, dst, 4 * k)
      invariant cpu.r[1] == dst + 4 * k && cpu.r[2] == src + 4 * k
      invariant forall i :: 0 <= i < 16 && i != 1 && i != 2 && i != 5 ==> cpu.r[i] == old(cpu.r[i])
    {
      CopyGrows(m, src, dst, 4 * k);
      CopyWord(cpu, bus);
    }
    CopiedParts(m, src, dst, 4 * n);
  }

  lemma NothingCopied(m: seq<byte>, s: nat, d: nat)
    requires s <= |m| && d <= |m|
    ensures Copied(m, s, d, 0) == m
  {
  }

  lemma CopiedParts(m: seq<byte>, s: nat, d: nat, n: nat)
    requires s + n <= |m| && d + n <= |m|
    ensures Copied(m, s, d, n) == m[..d] + m[s..s + n] + m[d + n..]
  {
  }

  /** One more word of an upward copy. */
  lemma CopyGrows(m: seq<byte>, src: nat, dst: nat, k: nat)
    requires src + k + 4 <= |m| && dst + k + 4 <= |m| && (dst <= src || src + k + 4 <= dst)
    ensures Copied(Copied(m, src, dst, k), src + k, dst + k, 4) == Copied(m, src, dst, k + 4)
  {
    var m1 := m[..dst] + m[src..src + k] + m[dst + k..];
    assert m1[..dst + k] == m[..dst] + m[src..src + k];
    assert m1[src + k..src + k + 4] == m[src + k..src + k + 4];
    assert m1[dst + k + 4..] == m[dst + k + 4..];
  }
}
