/** The sector primitive of the boot firmware: command, poll, copy 128 words out of the data window. */
module SectorRead {
  import opened Words
  import opened DiskDevice
  import opened Memory
  import KeyboardDevice

  const CMD_READ_GO: u32 := 0x81

  /** Stuck: the status word shows neither error nor data, and nothing the polling loop does can change it. */
  datatype Result = Done | Failed | Stuck

  type SectorBytes = s: seq<byte> | |s| == SECTOR_SIZE witness seq(SECTOR_SIZE, i => 0)

  /** What the firmware reads from: a disk image or, with no disk in, whatever memory has where the status register and
      the data window would be. */
  datatype Medium = Image(img: seq<byte>) | NoDisk(status: u32, window: SectorBytes)

  /** The word a load from a register address answers when no disk is in. */
  function Behind(m: seq<byte>, off: nat): u32 {
    if DISK0_BASE + off + 4 <= |m| then LoadWord(m, DISK0_BASE + off) else 0
  }

  function WindowBehind(m: seq<byte>): (s: SectorBytes) {
    seq(SECTOR_SIZE, i requires 0 <= i < SECTOR_SIZE =>
      if DISK0_BASE + REG_DATA + (i - i % 4) + 4 <= |m| then m[DISK0_BASE + REG_DATA + i] else 0)
  }

  ghost function MediumOf(bus: Bus): Medium
    reads bus, bus.disk, bus.ram
  {
    if bus.disk.present then Image(bus.disk.img)
    else NoDisk(Behind(bus.ram[..], REG_STATUS), WindowBehind(bus.ram[..]))
  }

  /** How the status word answers a read of this sector. */
  function Reply(med: Medium, lba: nat): Result {
    match med
    case Image(img) => if SectorInside(img, lba) then Done else Failed
    case NoDisk(status, _) => if Bit(status, 2) then Failed else if Bit(status, 1) then Done else Stuck
  }

  function SectorOf(med: Medium, lba: nat): SectorBytes
    requires Reply(med, lba) == Done
  {
    match med
    case Image(img) => Sector(img, lba)
    case NoDisk(_, window) => window
  }

  /** Storing the sector read at the register addresses themselves replaces what is there. */
  function StoredOver(med: Medium, dst: nat): Medium {
    if med.NoDisk? && dst == DISK0_BASE then NoDisk(LoadWord(med.window, REG_STATUS), med.window) else med
  }

  lemma ReadGo()
    ensures IsReadGo(CMD_READ_GO)
  {
    assert Bit(0x81, 0) && Bit(0x81 / 2 / 2 / 2 / 2 / 2 / 2 / 2, 0);
  }

  lemma StatusBits()
    ensures Bit(ST_ERR, 2) && !Bit(ST_ERR, 1) && Bit(ST_DRQ, 1) && !Bit(ST_DRQ, 2) && !Bit(0, 1) && !Bit(0, 2)
  {
    assert Bit(4 / 2 / 2, 0) && !Bit(4 / 2, 0) && Bit(2 / 2, 0) && !Bit(2 / 2 / 2, 0) && !Bit(0 / 2, 0) &&
        !Bit(0 / 2 / 2, 0);
  }

  /** Words at this offset of the disk window go to the disk when one is present, and else to RAM or nowhere. */
  lemma DiskRoute(off: nat, ramSize: nat, uart: bool)
    requires off + 4 <= 0x1000
    ensures RouteOf(DISK0_BASE + off, ramSize, uart, true) == Disk0
    ensures RouteOf(DISK0_BASE + off, ramSize, uart, false) == if DISK0_BASE + off + 4 <= ramSize then Ram else Nowhere
  {
  }

  /** Below the UART every word that fits is RAM; below the disk window no word is the disk's. */
  lemma LowRoute(a: u32, ramSize: nat, uart: bool, disk: bool)
    ensures a < UART0_BASE && a + 4 <= ramSize ==> RouteOf(a, ramSize, uart, disk) == Ram
    ensures a < DISK0_BASE ==> RouteOf(a, ramSize, uart, disk) != Disk0
    ensures RouteOf(a, ramSize, uart, disk) == Ram ==> a + 4 <= ramSize
  {
  }

  /** What the copy loop has done after some bytes: dst.. holds data.., and nothing else changed. */
  predicate Copied(m: seq<byte>, m0: seq<byte>, dst: nat, data: seq<byte>, n: nat) {
    && |m| == |m0| && n <= |data|
    && (forall i :: 0 <= i < |m| && !(dst <= i < dst + n) ==> m[i] == m0[i])
    && (dst + |data| <= |m| && dst + |data| <= UART0_BASE ==> forall i :: 0 <= i < n ==> m[dst + i] == data[i])
  }

  lemma CopiedStep(m: seq<byte>, m0: seq<byte>, dst: nat, data: seq<byte>, n: nat, m': seq<byte>, stored: bool)
    requires Copied(m, m0, dst, data, n) && n + 4 <= |data|
    requires dst + |data| <= |m| && dst + |data| <= UART0_BASE ==> stored
    requires stored ==> dst + n + 4 <= |m|
    requires m' == if stored then StoreWord(m, dst + n, Compose(data[n], data[n + 1], data[n + 2], data[n + 3])) else m
    ensures Copied(m', m0, dst, data, n + 4)
  {
    BytesOfCompose(data[n], data[n + 1], data[n + 2], data[n + 3]);
    if stored {
      forall i | 0 <= i < n + 4 && dst + |data| <= |m| && dst + |data| <= UART0_BASE
        ensures m'[dst + i] == data[i]
      {
        if i < n { assert m'[dst + i] == m[dst + i]; }
        else { assert m'[dst + i] == BytesOf(Compose(data[n], data[n + 1], data[n + 2], data[n + 3]))[i - n]; }
      }
    }
  }

  lemma CopiedNothing(m: seq<byte>, dst: nat, data: seq<byte>)
    ensures Copied(m, m, dst, data, 0)
  {
  }

  // ---- the memory behind the registers ----

  lemma SameWordAs(n: nat, j: nat)
    requires n % 4 == 0 && j < 4
    ensures (n + j) - (n + j) % 4 == n
  {
  }

  lemma ZeroWord()
    ensures Compose(0, 0, 0, 0) == 0
  {
  }

  /** A word of the data window with no disk in. */
  lemma BehindWord(m: seq<byte>, n: nat)
    requires n + 4 <= SECTOR_SIZE && n % 4 == 0
    ensures Behind(m, REG_DATA + n) == LoadWord(WindowBehind(m), n)
  {
    hide Compose;
    SameWordAs(n, 0);
    SameWordAs(n, 1);
    SameWordAs(n, 2);
    SameWordAs(n, 3);
    ZeroWord();
  }

  /** Storing a word that is already there changes nothing. */
  lemma StoreSame(m: seq<byte>, a: nat)
    requires a + 4 <= |m|
    ensures StoreWord(m, a, LoadWord(m, a)) == m
  {
    hide Compose, BytesOf;
    BytesOfCompose(m[a], m[a + 1], m[a + 2], m[a + 3]);
  }

  /** A store apart from the status word and the window leaves both. */
  lemma StoreApart(m: seq<byte>, a: nat, v: u32)
    requires a + 4 <= |m|
    requires a + 4 <= DISK0_BASE + REG_DATA || DISK0_BASE + REG_DATA + SECTOR_SIZE <= a
    ensures WindowBehind(StoreWord(m, a, v)) == WindowBehind(m)
    ensures a + 4 <= DISK0_BASE + REG_STATUS || DISK0_BASE + REG_STATUS + 4 <= a ==>
              Behind(StoreWord(m, a, v), REG_STATUS) == Behind(m, REG_STATUS)
  {
    hide BytesOf;
    assert |StoreWord(m, a, v)| == |m|;
  }

  /** The status word once n bytes of the window have been stored from dst on. */
  function StatusAfter(status: u32, window: SectorBytes, dst: nat, n: nat): u32 {
    if dst == DISK0_BASE && n > REG_STATUS then LoadWord(window, REG_STATUS) else status
  }

  /** One word of the copy, with no disk in. */
  lemma EchoStep(m: seq<byte>, dst: nat, n: nat, m': seq<byte>, stored: bool, status: u32)
    requires dst % SECTOR_SIZE == 0 && n % 4 == 0 && n + 4 <= SECTOR_SIZE
    requires DISK0_BASE + REG_STATUS + 4 <= |m| && Behind(m, REG_STATUS) == StatusAfter(status, WindowBehind(m), dst, n)
    requires stored ==> dst + n + 4 <= |m|
    requires DISK0_BASE <= dst < DISK0_BASE + 0x1000 ==> stored == (dst + n + 4 <= |m|)
    requires m' == if stored then StoreWord(m, dst + n, LoadWord(WindowBehind(m), n)) else m
    ensures WindowBehind(m') == WindowBehind(m)
    ensures Behind(m', REG_STATUS) == StatusAfter(status, WindowBehind(m), dst, n + 4)
  {
    hide WindowBehind, StoreWord, LoadWord;
    if stored {
      if dst == DISK0_BASE + REG_DATA {
        BehindWord(m, n);
        StoreSame(m, dst + n);
      } else {
        StoreApart(m, dst + n, LoadWord(WindowBehind(m), n));
        if dst == DISK0_BASE && n == REG_STATUS { LoadStore(m, dst + n, LoadWord(WindowBehind(m), n), dst + n); }
      }
    }
  }

  /** With no disk in a read never ends exactly when the status address routes nowhere, or to a word of RAM whose error
      and data bits are clear. */
  lemma StuckIff(m: seq<byte>, lba: nat, uart: bool)
    ensures var route := RouteOf(DISK0_BASE + REG_STATUS, |m|, uart, false);
      && (route == Nowhere || route == Ram)
      && (Reply(NoDisk(Behind(m, REG_STATUS), WindowBehind(m)), lba) == Stuck <==>
            route == Nowhere ||
            (var status := LoadWord(m, DISK0_BASE + REG_STATUS); !Bit(status, 1) && !Bit(status, 2)))
  {
    hide WindowBehind, LoadWord, RouteOf;
    DiskRoute(REG_STATUS, |m|, uart);
    StatusBits();
  }

  // ---- the copy loop ----

  /** After n bytes: with a disk in, dst.. holds them and nothing else changed; with none in, the window is still what
      it was, the status word is, unless the copy has passed over it, and dst.. holds the bytes when it lies below. */
  ghost predicate Progress(present: bool, m: seq<byte>, m0: seq<byte>, dst: nat, data: SectorBytes, n: nat) {
    && |m| == |m0| && n <= SECTOR_SIZE
    && (dst + SECTOR_SIZE <= DISK0_BASE ==> Copied(m, m0, dst, data, n))
    && (!present ==>
          WindowBehind(m) == data && Behind(m, REG_STATUS) == StatusAfter(Behind(m0, REG_STATUS), data, dst, n))
  }

  /** What is known of a copy: everything below the registers, and with no disk in at any sector boundary. */
  predicate Tractable(present: bool, dst: nat, ramSize: nat) {
    if present then dst + SECTOR_SIZE <= DISK0_BASE
    else dst % SECTOR_SIZE == 0 && DISK0_BASE + REG_STATUS + 4 <= ramSize
  }

  lemma ProgressStarts(present: bool, m: seq<byte>, dst: nat, data: SectorBytes)
    requires !present ==> WindowBehind(m) == data
    ensures Progress(present, m, m, dst, data, 0)
  {
    hide WindowBehind, Behind;
    CopiedNothing(m, dst, data);
  }

  lemma ProgressStep(present: bool, m: seq<byte>, m0: seq<byte>, dst: nat, data: SectorBytes, n: nat, m': seq<byte>,
                     uart: bool)
    requires Tractable(present, dst, |m|) && dst + SECTOR_SIZE <= TWO32 && n + 4 <= SECTOR_SIZE && n % 4 == 0
    requires Progress(present, m, m0, dst, data, n)
    requires m' == if RouteOf(dst + n, |m|, uart, present) == Ram then StoreWord(m, dst + n, LoadWord(data, n)) else m
    ensures Progress(present, m', m0, dst, data, n + 4)
  {
    hide WindowBehind, Behind, RouteOf, Copied, StoreWord, LoadWord;
    var stored := RouteOf(dst + n, |m|, uart, present) == Ram;
    LowRoute(dst + n, |m|, uart, present);
    if dst + SECTOR_SIZE <= DISK0_BASE {
      StoredWord(data, n);
      CopiedStep(m, m0, dst, data, n, m', stored);
    }
    if !present {
      if DISK0_BASE <= dst < DISK0_BASE + 0x1000 { DiskRoute(dst - DISK0_BASE + n, |m|, uart); }
      EchoStep(m, dst, n, m', stored, Behind(m0, REG_STATUS));
    }
  }

  lemma StoredWord(data: seq<byte>, n: nat)
    requires n + 4 <= |data|
    ensures LoadWord(data, n) == Compose(data[n], data[n + 1], data[n + 2], data[n + 3])
  {
  }

  /** Word n of the data window, through the bus. */
  method WindowWord(bus: Bus, addr: u32, ghost n: nat, ghost data: SectorBytes) returns (v: u32)
    requires bus.Valid() && n % 4 == 0 && n + 4 <= SECTOR_SIZE && addr == DISK0_BASE + REG_DATA + n
    requires data == if bus.disk.present then bus.disk.data[..] else WindowBehind(bus.ram[..])
    modifies bus.keyboard, bus.keyboard.fifo
    ensures bus.Valid() && v == LoadWord(data, n)
  {
    hide RouteOf, WindowBehind, KeyboardDevice.Respond, KeyboardDevice.Keyboard.Queue;
    DiskRoute(REG_DATA + n, bus.ram.Length, bus.uartPresent);
    v := bus.Read32(addr);
    if bus.disk.present { ControllerWord(bus.disk, n); } else { BehindWord(bus.ram[..], n); }
  }

  lemma ControllerWord(d: Disk, n: nat)
    requires d.Valid() && n + 4 <= SECTOR_SIZE && n % 4 == 0
    ensures d.MmioRead(AlignDown(DISK0_BASE + REG_DATA + n)) == LoadWord(d.data[..], n)
  {
    hide Compose;
  }

  /** Copies the data window to dst, one word at a time. */
  method CopyWindow(bus: Bus, dst: u32)
    requires bus.Valid()
    modifies bus.ram, bus.disk, bus.disk.data, bus.keyboard, bus.keyboard.fifo
    ensures bus.Valid() && bus.disk.present == old(bus.disk.present) && bus.disk.img == old(bus.disk.img)
    ensures Tractable(bus.disk.present, dst, bus.ram.Length) ==>
      && unchanged(bus.disk) && unchanged(bus.disk.data)
      && Progress(bus.disk.present, bus.ram[..], old(bus.ram[..]), dst,
                  old(if bus.disk.present then bus.disk.data[..] else WindowBehind(bus.ram[..])), SECTOR_SIZE)
  {
    hide RouteOf, Wrap, Progress, StoreWord, LoadWord, WindowBehind, Commanded;
    ghost var m0, present := bus.ram[..], bus.disk.present;
    ghost var data: SectorBytes := if present then bus.disk.data[..] else WindowBehind(m0);
    ghost var known := Tractable(present, dst, bus.ram.Length);
    ProgressStarts(present, m0, dst, data);
    var r1: u32, r2: u32, r3 := dst, DISK0_BASE + REG_DATA, 128;
    ghost var n := 0;
    while true
      invariant bus.Valid() && bus.disk.present == present && bus.disk.img == old(bus.disk.img)
      invariant 1 <= r3 <= 128 && n == 4 * (128 - r3)
      invariant r2 == DISK0_BASE + REG_DATA + n
      invariant known ==> r1 == dst + n && unchanged(bus.disk) && unchanged(bus.disk.data)
      invariant known ==> Progress(present, bus.ram[..], m0, dst, data, n)
      decreases r3
    {
      ghost var m := bus.ram[..];
      ghost var shown: SectorBytes := if present then bus.disk.data[..] else WindowBehind(m);
      if known {
        ProgressWindow(present, m, m0, dst, data, n);
        assert shown == data;
      }
      var r5 := WindowWord(bus, r2, n, shown);
      r2 := r2 + 4;
      if known {
        SectorEnd(dst);
        KnownRoute(present, dst, n, bus.ram.Length, bus.uartPresent);
      }
      bus.Write32(r1, r5);
      if known {
        ProgressStep(present, m, m0, dst, data, n, bus.ram[..], bus.uartPresent);
      }
      WrapSmall(r1 as int + 4);
      r1 := Wrap(r1 as int + 4);
      n := n + 4;
      r3 := r3 - 1;
      if r3 == 0 { break; }
    }
  }

  lemma ProgressWindow(present: bool, m: seq<byte>, m0: seq<byte>, dst: nat, data: SectorBytes, n: nat)
    requires Progress(present, m, m0, dst, data, n)
    ensures !present ==> WindowBehind(m) == data
  {
  }

  lemma KnownRoute(present: bool, dst: nat, n: nat, ramSize: nat, uart: bool)
    requires Tractable(present, dst, ramSize) && dst + n < TWO32 && n < SECTOR_SIZE
    ensures RouteOf(dst + n, ramSize, uart, present) != Disk0
  {
  }

  lemma SectorEnd(dst: u32)
    ensures dst % SECTOR_SIZE == 0 ==> dst + SECTOR_SIZE <= TWO32
  {
  }

  // ---- one sector ----

  /** A register store with no disk in: an ordinary store, or nothing. */
  lemma RegisterStore(m: seq<byte>, off: nat, v: u32)
    requires REG_LBA <= off && off + 4 <= REG_STATUS && DISK0_BASE + off + 4 <= |m|
    ensures WindowBehind(StoreWord(m, DISK0_BASE + off, v)) == WindowBehind(m)
    ensures Behind(StoreWord(m, DISK0_BASE + off, v), REG_STATUS) == Behind(m, REG_STATUS)
  {
    hide WindowBehind, Behind;
    StoreApart(m, DISK0_BASE + off, v);
  }

  /** What a store to LBA, COUNT or CMD leaves alone. */
  ghost predicate Aside(m: seq<byte>, m0: seq<byte>) {
    && |m| == |m0| && WindowBehind(m) == WindowBehind(m0) && Behind(m, REG_STATUS) == Behind(m0, REG_STATUS)
    && forall i :: 0 <= i < |m| && i < DISK0_BASE ==> m[i] == m0[i]
  }

  /** One register store: to the controller, or aside. */
  method StoreRegister(bus: Bus, off: nat, v: u32)
    requires bus.Valid() && REG_LBA <= off && off + 4 <= REG_STATUS && off % 4 == 0
    modifies bus.ram, bus.disk, bus.disk.data
    ensures bus.Valid() && bus.disk.present == old(bus.disk.present) && bus.disk.img == old(bus.disk.img)
    ensures bus.disk.present ==>
      && bus.ram[..] == old(bus.ram[..])
      && bus.disk.Registers() == Commanded(old(bus.disk.Registers()), true, bus.disk.img, off, v)
    ensures !bus.disk.present ==>
      Aside(bus.ram[..], old(bus.ram[..])) && unchanged(bus.disk) && unchanged(bus.disk.data)
  {
    hide RouteOf, Commanded, WindowBehind, Behind, StoreWord;
    ghost var m := bus.ram[..];
    DiskRoute(off, bus.ram.Length, bus.uartPresent);
    bus.Write32(DISK0_BASE + off, v);
    if !bus.disk.present && bus.Route(DISK0_BASE + off) == Ram { RegisterStore(m, off, v); }
  }

  /** The memory a sector read leaves, seen from below the disk window: dst.. holds the sector, the rest is as it
      was. */
  predicate Placed(m: seq<byte>, m0: seq<byte>, dst: nat, sector: seq<byte>) {
    && |m| == |m0|
    && (forall i :: 0 <= i < |m| && i < DISK0_BASE && !(dst <= i < dst + |sector|) ==> m[i] == m0[i])
    && (dst + |sector| <= |m| && dst + |sector| <= UART0_BASE ==>
          forall i :: 0 <= i < |sector| ==> m[dst + i] == sector[i])
  }

  lemma AsideThrice(m0: seq<byte>, m1: seq<byte>, m2: seq<byte>, m3: seq<byte>)
    requires Aside(m1, m0) && Aside(m2, m1) && Aside(m3, m2)
    ensures Aside(m3, m0)
  {
    hide WindowBehind, Behind;
  }

  lemma AsideMedium(m: seq<byte>, m0: seq<byte>)
    requires Aside(m, m0)
    ensures |m| == |m0| && WindowBehind(m) == WindowBehind(m0) && Behind(m, REG_STATUS) == Behind(m0, REG_STATUS)
    ensures Behind(m, REG_STATUS) != 0 ==> DISK0_BASE + REG_STATUS + 4 <= |m|
  {
    hide WindowBehind;
  }

  lemma ProgressDone(present: bool, m: seq<byte>, m3: seq<byte>, m0: seq<byte>, dst: nat, sector: SectorBytes)
    requires Progress(present, m, m3, dst, sector, SECTOR_SIZE) && (if present then m3 == m0 else Aside(m3, m0))
    ensures dst + SECTOR_SIZE <= DISK0_BASE ==> Placed(m, m0, dst, sector)
    ensures present && dst + SECTOR_SIZE <= DISK0_BASE ==> Copied(m, m0, dst, sector, SECTOR_SIZE)
    ensures !present ==>
      WindowBehind(m) == sector
      && Behind(m, REG_STATUS) == StatusAfter(Behind(m0, REG_STATUS), sector, dst, SECTOR_SIZE)
  {
    hide WindowBehind, Behind, StatusAfter;
  }

  lemma StatusWord(d: Disk)
    requires d.Valid()
    ensures d.MmioRead(AlignDown(DISK0_BASE + REG_STATUS)) == d.status
  {
  }

  /** The status word, through the bus. */
  method PollStatus(bus: Bus) returns (status: u32)
    requires bus.Valid()
    modifies bus.keyboard, bus.keyboard.fifo
    ensures bus.Valid() && status == if bus.disk.present then bus.disk.status else Behind(bus.ram[..], REG_STATUS)
  {
    hide RouteOf, KeyboardDevice.Respond, KeyboardDevice.Keyboard.Queue, LoadWord, Bit, WindowBehind, Wrap, AlignDown;
    DiskRoute(REG_STATUS, bus.ram.Length, bus.uartPresent);
    status := bus.Read32(DISK0_BASE + REG_STATUS);
    if bus.disk.present { StatusWord(bus.disk); }
  }

  /** disk_read_sector: stack-free, one sector into memory. The polling loop only reads the status word, so it leaves
      at its first look or never. */
  method ReadSector(bus: Bus, lba: u32, dst: u32) returns (res: Result)
    requires bus.Valid()
    modifies bus.ram, bus.disk, bus.disk.data, bus.keyboard, bus.keyboard.fifo
    ensures bus.Valid() && bus.disk.present == old(bus.disk.present) && bus.disk.img == old(bus.disk.img)
    ensures res == Reply(old(MediumOf(bus)), lba)
    ensures bus.disk.present || dst % SECTOR_SIZE == 0 ==>
              MediumOf(bus) == if res == Done then StoredOver(old(MediumOf(bus)), dst) else old(MediumOf(bus))
    ensures bus.disk.present && dst + SECTOR_SIZE <= DISK0_BASE ==>
      && bus.disk.log == old(bus.disk.log) + [lba]
      && (res == Done ==> Copied(bus.ram[..], old(bus.ram[..]), dst, Sector(bus.disk.img, lba), SECTOR_SIZE))
      && (res != Done ==> bus.ram[..] == old(bus.ram[..]))
    ensures dst % SECTOR_SIZE == 0 && dst + SECTOR_SIZE <= DISK0_BASE && res == Done ==>
              Placed(bus.ram[..], old(bus.ram[..]), dst, SectorOf(old(MediumOf(bus)), lba))
  {
    hide RouteOf, WindowBehind, Behind, Bit, Aside, Progress;
    hide KeyboardDevice.Respond, KeyboardDevice.Keyboard.Queue;
    ReadGo();
    StatusBits();
    ghost var med := MediumOf(bus);
    ghost var m0 := bus.ram[..];
    StoreRegister(bus, REG_LBA, lba);
    ghost var m1 := bus.ram[..];
    StoreRegister(bus, REG_COUNT, 1);
    ghost var m2 := bus.ram[..];
    StoreRegister(bus, REG_CMD, CMD_READ_GO);
    ghost var m3 := bus.ram[..];
    if !bus.disk.present { AsideThrice(m0, m1, m2, m3); }
    assert bus.disk.present ==> bus.disk.status == if SectorInside(bus.disk.img, lba) then ST_DRQ else ST_ERR;
    var r3 := PollStatus(bus);
    if !bus.disk.present { AsideMedium(m3, m0); }
    if Bit(r3, 2) { return Failed; }
    if !Bit(r3, 1) { return Stuck; }
    ghost var sector := SectorOf(med, lba);
    assert bus.disk.present ==> bus.disk.data[..] == sector;
    CopyWindow(bus, dst);
    if Tractable(bus.disk.present, dst, bus.ram.Length) {
      ProgressDone(bus.disk.present, bus.ram[..], m3, m0, dst, sector);
    }
    return Done;
  }
}
