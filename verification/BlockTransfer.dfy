/** STM and LDM: what they transfer, that they undo each other, and the discipline of nested stack frames. */
module BlockTransfer {
  import opened Words
  import opened CpuModel
  import opened Memory
  import opened DiskDevice
  import KeyboardDevice

  // ---- reference ----

  /** The registers named by the low sixteen bits, from i upwards, in ascending order. */
  function ListFrom(mask: u32, i: nat): (s: seq<nat>)
    requires i <= 16
    ensures forall n :: 0 <= n < |s| ==> i <= s[n] < 16
    decreases 16 - i
  {
    if i == 16 then [] else (if Bit(mask, i) then [i] else []) + ListFrom(mask, i + 1)
  }

  function Listed(instr: u32): seq<nat> { ListFrom(instr, 0) }

  predicate UpBit(instr: u32) { Bit(instr, 23) }

  predicate BeforeBit(instr: u32) { Bit(instr, 24) }

  predicate WriteBackBit(instr: u32) { Bit(instr, 21) }

  /** The lowest address transferred, for base b and n registers. */
  function Lowest(up: bool, before: bool, b: u32, n: nat): u32 {
    if up then Wrap(b as int + if before then 4 else 0)
    else Wrap(b as int - 4 * n + if before then 0 else 4)
  }

  function NewBase(up: bool, b: u32, n: nat): u32 {
    Wrap(if up then b as int + 4 * n else b as int - 4 * n)
  }

  /** n words from a on are plain RAM. */
  predicate PlainRange(a: nat, n: nat, ramSize: nat, uart: bool, disk: bool)
    decreases n
  {
    n == 0 || (a < TWO32 && RouteOf(a, ramSize, uart, disk) == Ram && PlainRange(a + 4, n - 1, ramSize, uart, disk))
  }

  /** Stores the listed registers at ascending addresses from a. */
  function StoreList(m: seq<byte>, a: nat, r: seq<u32>, list: seq<nat>): (m': seq<byte>)
    requires (list == [] || a + 4 * |list| <= |m|) && forall n :: 0 <= n < |list| ==> list[n] < |r|
    ensures |m'| == |m|
    decreases |list|
  {
    if list == [] then m else StoreList(StoreWord(m, a, r[list[0]]), a + 4, r, list[1..])
  }

  /** Loads the listed registers from ascending addresses; r15 is not written here. */
  function LoadList(m: seq<byte>, a: nat, r: seq<u32>, list: seq<nat>): (r': seq<u32>)
    requires (list == [] || a + 4 * |list| <= |m|) && forall n :: 0 <= n < |list| ==> list[n] < |r|
    ensures |r'| == |r|
    decreases |list|
  {
    if list == [] then r
    else LoadList(m, a + 4, if list[0] == 15 then r else r[list[0] := LoadWord(m, a)], list[1..])
  }

  /** The word at the last listed place becomes the next PC when r15 is listed. */
  function LoadedNpc(m: seq<byte>, a: nat, npc: u32, list: seq<nat>): u32
    requires list == [] || a + 4 * |list| <= |m|
  {
    if list != [] && list[|list| - 1] == 15 then AlignWord(LoadWord(m, a + 4 * (|list| - 1))) else npc
  }

  /** The registers and RAM a block transfer works on. */
  datatype Store = Store(r: seq<u32>, ram: seq<byte>)

  /** Which of the optional device windows are in place. */
  datatype Windows = Windows(uart: bool, disk: bool)

  function Base(s: Store, instr: u32): u32
    requires |s.r| == 16
  {
    s.r[Rn(instr)]
  }

  function FirstAddress(s: Store, instr: u32): u32
    requires |s.r| == 16
  {
    Lowest(UpBit(instr), BeforeBit(instr), Base(s, instr), |Listed(instr)|)
  }

  /** Every word the instruction transfers is plain RAM. */
  predicate InRam(s: Store, instr: u32, w: Windows) {
    && |s.r| == 16
    && PlainRange(FirstAddress(s, instr), |Listed(instr)|, |s.ram|, w.uart, w.disk)
    && (Listed(instr) == [] || FirstAddress(s, instr) + 4 * |Listed(instr)| <= |s.ram|)
  }

  /** STM: what it stores, and the base it leaves. */
  function Stm(s: Store, instr: u32, w: Windows): Store
    requires InRam(s, instr, w)
  {
    var n := |Listed(instr)|;
    Store(if WriteBackBit(instr) then s.r[Rn(instr) := NewBase(UpBit(instr), Base(s, instr), n)] else s.r,
          StoreList(s.ram, FirstAddress(s, instr), s.r, Listed(instr)))
  }

  /** LDM: what it loads, and the base it leaves. */
  function Ldm(s: Store, instr: u32, w: Windows): Store
    requires InRam(s, instr, w)
  {
    var n := |Listed(instr)|;
    var loaded := LoadList(s.ram, FirstAddress(s, instr), s.r, Listed(instr));
    Store(if WriteBackBit(instr) then loaded[Rn(instr) := NewBase(UpBit(instr), Base(s, instr), n)] else loaded, s.ram)
  }

  // ---- the handlers ----

  lemma ListStep(mask: u32, i: nat)
    requires i <= 16
    ensures i == 16 ==> ListFrom(mask, i) == []
    ensures i < 16 && Bit(mask, i) ==>
      ListFrom(mask, i) != [] && ListFrom(mask, i)[0] == i && ListFrom(mask, i)[1..] == ListFrom(mask, i + 1)
    ensures i < 16 && !Bit(mask, i) ==> ListFrom(mask, i) == ListFrom(mask, i + 1)
  {
    hide Bit;
    if i < 16 && Bit(mask, i) { assert ListFrom(mask, i) == [i] + ListFrom(mask, i + 1); }
  }

  /** Stores the listed registers one word after another, wherever each address leads. */
  function StoreEvery(m: Mem, at: Setup, a: u32, r: seq<u32>, list: seq<nat>): (m': Mem)
    requires forall n :: 0 <= n < |list| ==> list[n] < |r|
    ensures |m'.ram| == |m.ram|
    decreases |list|
  {
    if list == [] then m else StoreEvery(Stored(m, at, a, r[list[0]]), at, Wrap(a as int + 4), r, list[1..])
  }

  /** On plain RAM that is the reference, and the controller is left alone. */
  lemma {:induction false} PlainStores(m: Mem, at: Setup, a: u32, r: seq<u32>, list: seq<nat>)
    requires PlainRange(a, |list|, |m.ram|, at.uart, at.present) && forall n :: 0 <= n < |list| ==> list[n] < |r|
    ensures list == [] || a + 4 * |list| <= |m.ram|
    ensures StoreEvery(m, at, a, r, list) == m.(ram := StoreList(m.ram, a, r, list))
    decreases |list|
  {
    hide RouteOf, Wrap, StoreWord, Commanded;
    PlainFits(a, |list|, |m.ram|, at.uart, at.present);
    if list == [] {
    } else if |list| == 1 {
      assert list[1..] == [];
    } else {
      WrapSmall(a as int + 4);
      PlainStores(Stored(m, at, a, r[list[0]]), at, Wrap(a as int + 4), r, list[1..]);
    }
  }

  /** The transfer loop of STM, from the lowest address up. */
  method StoreLoop(cpu: Cpu, bus: Bus, mask: u32, first: u32)
    requires cpu.Valid() && bus.Valid()
    modifies bus.ram, bus.disk, bus.disk.data
    ensures bus.Valid() && bus.Wiring() == old(bus.Wiring())
    ensures bus.State() == StoreEvery(old(bus.State()), bus.Wiring(), first, cpu.r[..], Listed(mask))
  {
    hide RouteOf, Stored, ListFrom, Bit, Wrap;
    ghost var r, m, at := cpu.r[..], bus.State(), bus.Wiring();
    ListStep(mask, 16);
    var addr := first;
    for i := 0 to 16
      invariant bus.Valid() && bus.Wiring() == at && cpu.r[..] == r
      invariant StoreEvery(bus.State(), at, addr, r, ListFrom(mask, i)) == StoreEvery(m, at, first, r, Listed(mask))
    {
      ListStep(mask, i);
      if Bit(mask, i) {
        StoreOne(bus, addr, cpu.r[i]);
        addr := Wrap(addr as int + 4);
      }
    }
  }

  /** One word of STM. */
  method StoreOne(bus: Bus, addr: u32, v: u32)
    requires bus.Valid()
    modifies bus.ram, bus.disk, bus.disk.data
    ensures bus.Valid() && bus.Wiring() == old(bus.Wiring())
    ensures bus.State() == Stored(old(bus.State()), bus.Wiring(), addr, v)
  {
    hide RouteOf, StoreWord, Commanded, AlignDown, Wrap;
    bus.Write32(addr, v);
  }

  /** The registers after STM: only the base moves, when the instruction says so. */
  function StmRegisters(r: seq<u32>, instr: u32): seq<u32>
    requires |r| == 16
  {
    if WriteBackBit(instr) then r[Rn(instr) := NewBase(UpBit(instr), r[Rn(instr)], |Listed(instr)|)] else r
  }

  /** STM, wherever its addresses lead; on plain RAM it is the reference. */
  method HandleStm(cpu: Cpu, bus: Bus, instr: u32)
    requires cpu.Valid() && bus.Valid()
    modifies cpu.r, bus.ram, bus.disk, bus.disk.data
    ensures bus.Valid() && bus.Wiring() == old(bus.Wiring())
    ensures cpu.r[..] == StmRegisters(old(cpu.r[..]), instr)
    ensures var before := old(Store(cpu.r[..], bus.ram[..]));
      bus.State() == StoreEvery(old(bus.State()), bus.Wiring(), FirstAddress(before, instr), before.r, Listed(instr))
    ensures var before := old(Store(cpu.r[..], bus.ram[..]));
      var w := Windows(bus.uartPresent, bus.disk.present);
      PlainRange(FirstAddress(before, instr), |Listed(instr)|, bus.ram.Length, w.uart, w.disk) ==>
        && InRam(before, instr, w)
        && Store(cpu.r[..], bus.ram[..]) == Stm(before, instr, w)
        && bus.disk.Registers() == old(bus.disk.Registers())
  {
    hide PlainRange, StoreList, LoadList, Lowest, NewBase, ListFrom, StoreEvery;
    ghost var before, state := Store(cpu.r[..], bus.ram[..]), bus.State();
    var rn := Rn(instr);
    var base := cpu.r[rn];
    var count := CountListed(instr);
    var first := Lowest(UpBit(instr), BeforeBit(instr), base, count);
    StoreLoop(cpu, bus, instr, first);
    if WriteBackBit(instr) {
      cpu.r[rn] := NewBase(UpBit(instr), base, count);
    }
    if PlainRange(first, count, bus.ram.Length, bus.uartPresent, bus.disk.present) {
      PlainStores(state, bus.Wiring(), first, before.r, Listed(instr));
    }
  }

  ghost predicate Loading(m: seq<byte>, addr: nat, rest: seq<nat>, r: seq<u32>, done: seq<u32>, uart: bool,
      disk: bool) {
    && |r| == 16 && (forall n :: 0 <= n < |rest| ==> rest[n] < 16)
    && PlainRange(addr, |rest|, |m|, uart, disk)
    && (rest == [] || addr + 4 * |rest| <= |m|)
    && LoadList(m, addr, r, rest) == done
  }

  lemma LoadingStarts(m: seq<byte>, a: nat, r: seq<u32>, list: seq<nat>, uart: bool, disk: bool)
    requires |r| == 16 && PlainRange(a, |list|, |m|, uart, disk) && forall n :: 0 <= n < |list| ==> list[n] < 16
    ensures list == [] || a + 4 * |list| <= |m|
    ensures Loading(m, a, list, r, LoadList(m, a, r, list), uart, disk)
  {
    PlainFits(a, |list|, |m|, uart, disk);
  }

  lemma LoadingEnds(m: seq<byte>, a: nat, r: seq<u32>, done: seq<u32>, uart: bool, disk: bool)
    requires Loading(m, a, [], r, done, uart, disk)
    ensures r == done
  {
  }

  /** One word of LDM; a value for r15 goes to the next PC instead. */
  method GetWord(cpu: Cpu, bus: Bus, addr: u32, i: nat, ghost rest: seq<nat>, ghost done: seq<u32>) returns (next: u32)
    requires cpu.Valid() && bus.Valid() && i < 16 && rest != [] && rest[0] == i
    modifies cpu.r, cpu`npc, bus.keyboard, bus.keyboard.fifo
    ensures bus.Valid() && bus.ram[..] == old(bus.ram[..])
    ensures i != 15 ==> cpu.npc == old(cpu.npc)
    ensures old(Loading(bus.ram[..], addr, rest, cpu.r[..], done, bus.uartPresent, bus.disk.present)) ==>
      && Loading(bus.ram[..], addr + 4, rest[1..], cpu.r[..], done, bus.uartPresent, bus.disk.present)
      && (|rest| > 1 ==> next == addr + 4)
      && addr + 4 <= bus.ram.Length
      && (i == 15 ==> cpu.npc == AlignWord(LoadWord(bus.ram[..], addr)))
      && unchanged(bus.keyboard) && unchanged(bus.keyboard.fifo)
  {
    hide Wrap, AlignDown, KeyboardDevice.Respond, KeyboardDevice.Keyboard.Queue, StoreList, LoadWord;
    var v := bus.Read32(addr);
    if i == 15 {
      cpu.npc := AlignWord(v);
    } else {
      cpu.r[i] := v;
    }
    WrapSmall(addr as int + 4);
    next := Wrap(addr as int + 4);
  }

  /** The transfer loop of LDM, from the lowest address up. */
  method LoadLoop(cpu: Cpu, bus: Bus, mask: u32, first: u32)
    requires cpu.Valid() && bus.Valid()
    modifies cpu.r, cpu`npc, bus.keyboard, bus.keyboard.fifo
    ensures bus.Valid() && bus.ram[..] == old(bus.ram[..])
    ensures PlainRange(first, |Listed(mask)|, bus.ram.Length, bus.uartPresent, bus.disk.present) ==>
      && (Listed(mask) == [] || first + 4 * |Listed(mask)| <= bus.ram.Length)
      && cpu.r[..] == LoadList(bus.ram[..], first, old(cpu.r[..]), Listed(mask))
      && cpu.npc == LoadedNpc(bus.ram[..], first, old(cpu.npc), Listed(mask))
      && unchanged(bus.keyboard) && unchanged(bus.keyboard.fifo)
  {
    hide RouteOf, Loading, ListFrom, Bit;
    ghost var list := Listed(mask);
    ghost var plain := PlainRange(first, |list|, bus.ram.Length, bus.uartPresent, bus.disk.present);
    ghost var done := cpu.r[..];
    ghost var m := bus.ram[..];
    if plain {
      LoadingStarts(m, first, cpu.r[..], list, bus.uartPresent, bus.disk.present);
      done := LoadList(m, first, cpu.r[..], list);
    }
    ListStep(mask, 15);
    ListStep(mask, 16);
    LastListed(mask, 0);
    var addr := first;
    ghost var at: nat := first;
    for i := 0 to 16
      invariant bus.Valid() && bus.ram[..] == m
      invariant plain ==> Loading(m, at, ListFrom(mask, i), cpu.r[..], done, bus.uartPresent, bus.disk.present)
      invariant plain && ListFrom(mask, i) != [] ==> addr == at && at + 4 * |ListFrom(mask, i)| == first + 4 * |list|
      invariant i < 16 ==> cpu.npc == old(cpu.npc)
      invariant plain && i == 16 ==> cpu.npc == LoadedNpc(m, first, old(cpu.npc), list)
      invariant plain ==> unchanged(bus.keyboard) && unchanged(bus.keyboard.fifo)
    {
      ghost var rest := ListFrom(mask, i);
      ListStep(mask, i);
      if Bit(mask, i) {
        addr := GetWord(cpu, bus, addr, i, rest, done);
        at := at + 4;
      }
    }
    if plain { LoadingEnds(m, at, cpu.r[..], done, bus.uartPresent, bus.disk.present); }
  }

  /** r15 is listed exactly when it is the last register listed. */
  lemma {:induction false} LastListed(mask: u32, i: nat)
    requires i <= 15
    ensures var s := ListFrom(mask, i);
      && (Bit(mask, 15) <==> s != [] && s[|s| - 1] == 15)
    decreases 15 - i
  {
    hide Bit, ListFrom;
    ListStep(mask, i);
    ListStep(mask, 16);
    if i == 15 {
    } else {
      LastListed(mask, i + 1);
      assert Bit(mask, i) ==> ListFrom(mask, i) == [i] + ListFrom(mask, i + 1);
    }
  }

  method HandleLdm(cpu: Cpu, bus: Bus, instr: u32)
    requires cpu.Valid() && bus.Valid()
    modifies cpu.r, cpu`npc, bus.keyboard, bus.keyboard.fifo
    ensures bus.Valid() && bus.ram[..] == old(bus.ram[..])
    ensures var before := old(Store(cpu.r[..], bus.ram[..]));
      var w := Windows(bus.uartPresent, bus.disk.present);
      PlainRange(FirstAddress(before, instr), |Listed(instr)|, bus.ram.Length, w.uart, w.disk) ==>
        && InRam(before, instr, w)
        && Store(cpu.r[..], bus.ram[..]) == Ldm(before, instr, w)
        && cpu.npc == LoadedNpc(bus.ram[..], FirstAddress(before, instr), old(cpu.npc), Listed(instr))
        && unchanged(bus.keyboard) && unchanged(bus.keyboard.fifo)
  {
    hide PlainRange, StoreList, LoadList, Lowest, NewBase, ListFrom;
    var rn := Rn(instr);
    var base := cpu.r[rn];
    var count := CountListed(instr);
    LoadLoop(cpu, bus, instr, Lowest(UpBit(instr), BeforeBit(instr), base, count));
    if WriteBackBit(instr) {
      cpu.r[rn] := NewBase(UpBit(instr), base, count);
    }
  }

  method CountListed(mask: u32) returns (count: nat)
    ensures count == |Listed(mask)|
  {
    count := 0;
    for i := 0 to 16
      invariant count + |ListFrom(mask, i)| == |Listed(mask)|
    {
      if Bit(mask, i) { count := count + 1; }
    }
  }

  lemma {:induction false} PlainFits(a: nat, n: nat, ramSize: nat, uart: bool, disk: bool)
    ensures PlainRange(a, n, ramSize, uart, disk) && n > 0 ==> a + 4 * n <= ramSize
    decreases n
  {
    if n == 0 || !PlainRange(a, n, ramSize, uart, disk) {
    } else {
      PlainFits(a + 4, n - 1, ramSize, uart, disk);
    }
  }
}
