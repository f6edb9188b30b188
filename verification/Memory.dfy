/** Guest memory: RAM bytes, little-endian words and the windows of memory-mapped devices. */
module Memory {
  import opened Words
  import opened DiskDevice
  import opened KeyboardDevice

  const RTC_BASE: u32 := 0xF000_2000
  const RTC_SIZE := 0x100
  const KBD_SIZE := 0x100
  const UART0_BASE: u32 := 0x0900_0000
  const UART0_SIZE := 0x1000
  const DISK0_SIZE := 0x1000

  // ---- words in a byte sequence ----

  function BytesOf(v: u32): (s: seq<byte>)
    ensures |s| == 4
  {
    [v % 256, v / 0x100 % 256, v / 0x1_0000 % 256, v / 0x100_0000 % 256]
  }

  function LoadWord(m: seq<byte>, a: nat): u32
    requires a + 4 <= |m|
  {
    Compose(m[a], m[a + 1], m[a + 2], m[a + 3])
  }

  function StoreWord(m: seq<byte>, a: nat, v: u32): (m': seq<byte>)
    requires a + 4 <= |m|
    ensures |m'| == |m|
    ensures forall i :: 0 <= i < |m| && !(a <= i < a + 4) ==> m'[i] == m[i]
  {
    m[..a] + BytesOf(v) + m[a + 4..]
  }

  lemma ComposeBytes(v: u32)
    ensures Compose(BytesOf(v)[0], BytesOf(v)[1], BytesOf(v)[2], BytesOf(v)[3]) == v
  {
    var q1 := v / 0x100;
    var q2 := q1 / 0x100;
    var q3 := q2 / 0x100;
    assert v == 0x100 * q1 + v % 0x100 && q1 == 0x100 * q2 + q1 % 0x100 && q2 == 0x100 * q3 + q2 % 0x100;
    assert v / 0x1_0000 == q2;
    assert v / 0x100_0000 == q3;
  }

  lemma OneByte(v: nat, q: nat, b: byte)
    requires v == b + 0x100 * q
    ensures v / 0x100 == q && v % 0x100 == b
  {
  }

  lemma Divisions(v: nat)
    ensures v / 0x1_0000 == (v / 0x100) / 0x100 && v / 0x100_0000 == ((v / 0x100) / 0x100) / 0x100
  {
  }

  lemma BytesOfCompose(b0: byte, b1: byte, b2: byte, b3: byte)
    ensures BytesOf(Compose(b0, b1, b2, b3)) == [b0, b1, b2, b3]
  {
    var q2 := b2 + 0x100 * b3;
    var q1 := b1 + 0x100 * q2;
    var v := b0 + 0x100 * q1;
    assert v == Compose(b0, b1, b2, b3);
    OneByte(v, q1, b0);
    OneByte(q1, q2, b1);
    OneByte(q2, b3, b2);
    Divisions(v);
  }

  /** A stored word reads back, and words that do not overlap it are unaffected. */
  lemma LoadStore(m: seq<byte>, a: nat, v: u32, b: nat)
    requires a + 4 <= |m| && b + 4 <= |m|
    ensures LoadWord(StoreWord(m, a, v), a) == v
    ensures b + 4 <= a || a + 4 <= b ==> LoadWord(StoreWord(m, a, v), b) == LoadWord(m, b)
  {
    ComposeBytes(v);
    var m' := StoreWord(m, a, v);
    assert m'[a] == BytesOf(v)[0] && m'[a + 1] == BytesOf(v)[1] && m'[a + 2] == BytesOf(v)[2] &&
        m'[a + 3] == BytesOf(v)[3];
  }

  /** Words are little-endian. */
  lemma WordLaw(m: seq<byte>, a: nat, v: u32)
    requires a + 4 <= |m|
    ensures LoadWord(m, a)
              == m[a] as int + 256 * m[a + 1] as int + 0x1_0000 * m[a + 2] as int + 0x100_0000 * m[a + 3] as int
    ensures var m' := StoreWord(m, a, v);
      && m'[a] == v % 256 && m'[a + 1] == v / 256 % 256
      && m'[a + 2] == v / 0x1_0000 % 256 && m'[a + 3] == v / 0x100_0000
  {
    var b := BytesOf(v);
    assert StoreWord(m, a, v)[a..a + 4] == b;
  }

  // ---- where an access goes ----

  predicate InWindow(addr: u32, base: u32, size: nat) { Wrap(addr as int - base) < size }

  datatype Route = Rtc | Kbd | Uart | Disk0 | Ram | Nowhere

  /** Word accesses try the device windows first, in this order, and then RAM. */
  function RouteOf(addr: u32, ramSize: nat, uart: bool, disk: bool): Route {
    if InWindow(addr, RTC_BASE, RTC_SIZE) then Rtc
    else if InWindow(addr, KBD_BASE_ADDR, KBD_SIZE) then Kbd
    else if InWindow(addr, UART0_BASE, UART0_SIZE) && uart then Uart
    else if InWindow(addr, DISK0_BASE, DISK0_SIZE) && disk then Disk0
    else if addr + 4 <= ramSize then Ram
    else Nowhere
  }

  function AlignDown(addr: u32): u32 { addr - addr % 4 }

  /** Where a word access goes, in addresses; devices see word addresses. */
  lemma RouteLaw(addr: u32, ramSize: nat, uart: bool, disk: bool)
    ensures var r := RouteOf(addr, ramSize, uart, disk);
      && (r == Rtc <==> 0xF000_2000 <= addr < 0xF000_2100)
      && (r == Kbd <==> 0x0A00_1000 <= addr < 0x0A00_1100)
      && (r == Uart <==> uart && 0x0900_0000 <= addr < 0x0900_1000)
      && (r == Disk0 <==> disk && 0x0B00_0000 <= addr < 0x0B00_1000)
      && (r == Ram || r == Nowhere ==> (r == Ram <==> addr + 4 <= ramSize))
      && AlignDown(addr) == addr / 4 * 4
  {
    hide Wrap;
    WindowIs(addr, RTC_BASE, RTC_SIZE);
    WindowIs(addr, KBD_BASE_ADDR, KBD_SIZE);
    WindowIs(addr, UART0_BASE, UART0_SIZE);
    WindowIs(addr, DISK0_BASE, DISK0_SIZE);
  }

  lemma WindowIs(addr: u32, base: u32, size: nat)
    requires base + size <= TWO32
    ensures InWindow(addr, base, size) <==> base <= addr < base + size
  {
  }

  /** All that a store can change, and what decides where it goes. */
  datatype Mem = Mem(ram: seq<byte>, disk: Controller)

  datatype Setup = Setup(uart: bool, present: bool, img: seq<byte>)

  function Stored(m: Mem, at: Setup, addr: u32, v: u32): (m': Mem)
    ensures |m'.ram| == |m.ram|
  {
    match RouteOf(addr, |m.ram|, at.uart, at.present)
    case Ram => m.(ram := StoreWord(m.ram, addr, v))
    case Disk0 => m.(disk := Commanded(m.disk, true, at.img, Wrap(AlignDown(addr) as int - DISK0_BASE), v))
    case _ => m
  }

  class Bus {
    const ram: array<byte>
    const disk: Disk
    const keyboard: Keyboard
    var uartPresent: bool

    constructor (memory: array<byte>, d: Disk, k: Keyboard)
      requires memory.Length < TWO32 && d.Valid() && k.Valid()
      requires memory != d.data && memory != k.fifo && d.data != k.fifo
      ensures Valid() && ram == memory && disk == d && keyboard == k && uartPresent
    {
      ram, disk, keyboard, uartPresent := memory, d, k, true;
    }

    ghost predicate Valid()
      reads this, keyboard
    {
      && ram.Length < TWO32
      && disk.Valid() && keyboard.Valid()
      && ram != disk.data && ram != keyboard.fifo && disk.data != keyboard.fifo
    }

    function Route(addr: u32): Route
      reads this, disk
    {
      RouteOf(addr, ram.Length, uartPresent, disk.present)
    }

    ghost function State(): Mem
      reads this, ram, disk, disk.data
    {
      Mem(ram[..], disk.Registers())
    }

    ghost function Wiring(): Setup
      reads this, disk
    {
      Setup(uartPresent, disk.present, disk.img)
    }

    method Read8(addr: u32) returns (value: byte)
      ensures value == if addr < ram.Length then ram[addr] else 0
    {
      if addr + 1 > ram.Length { return 0; }
      return ram[addr];
    }

    method Write8(addr: u32, value: byte)
      modifies ram
      ensures ram[..] == if addr < ram.Length then old(ram[..])[addr := value] else old(ram[..])
    {
      if addr + 1 > ram.Length { return; }
      ram[addr] := value;
    }

    /** A word read; clock and UART registers answer with whatever the host supplies. */
    method Read32(addr: u32) returns (value: u32)
      requires Valid()
      modifies keyboard, keyboard.fifo
      ensures Valid()
      ensures Route(addr) == Disk0 ==> value == disk.MmioRead(AlignDown(addr))
      ensures Route(addr) == Ram ==> value == LoadWord(ram[..], addr)
      ensures Route(addr) == Nowhere ==> value == 0
      ensures Route(addr) != Kbd ==> unchanged(keyboard) && unchanged(keyboard.fifo)
      ensures Route(addr) == Kbd ==>
        && keyboard.present && keyboard.base == (if old(keyboard.present) then old(keyboard.base) else KBD_BASE_ADDR)
        && Answer(value, keyboard.Queue())
            == Respond(old(keyboard.Queue()), Wrap(AlignDown(addr) as int - keyboard.base))
    {
      if InWindow(addr, RTC_BASE, RTC_SIZE) {
        value := *;
        return;
      }
      if InWindow(addr, KBD_BASE_ADDR, KBD_SIZE) {
        value := keyboard.Read32(AlignDown(addr));
        return;
      }
      if InWindow(addr, UART0_BASE, UART0_SIZE) && uartPresent {
        value := *;
        return;
      }
      if InWindow(addr, DISK0_BASE, DISK0_SIZE) && disk.present {
        return disk.MmioRead(AlignDown(addr));
      }
      if addr + 4 > ram.Length { return 0; }
      return Compose(ram[addr], ram[addr + 1], ram[addr + 2], ram[addr + 3]);
    }

    method Write32(addr: u32, value: u32)
      requires Valid()
      modifies ram, disk, disk.data
      ensures Valid()
      ensures ram[..] == if Route(addr) == Ram then StoreWord(old(ram[..]), addr, value) else old(ram[..])
      ensures disk.present == old(disk.present) && disk.img == old(disk.img)
      ensures Route(addr) != Disk0 ==> unchanged(disk) && unchanged(disk.data)
      ensures Route(addr) == Disk0 ==>
        disk.Registers()
          == Commanded(old(disk.Registers()), true, disk.img, Wrap(AlignDown(addr) as int - DISK0_BASE), value)
    {
      hide StoreWord, Commanded;
      if InWindow(addr, RTC_BASE, RTC_SIZE) { return; }
      if InWindow(addr, KBD_BASE_ADDR, KBD_SIZE) { return; }
      if InWindow(addr, UART0_BASE, UART0_SIZE) && uartPresent { return; }
      if InWindow(addr, DISK0_BASE, DISK0_SIZE) && disk.present {
        disk.MmioWrite(AlignDown(addr), value);
        return;
      }
      if addr + 4 > ram.Length { return; }
      PutBytes(addr, value);
    }

    method PutBytes(addr: u32, value: u32)
      requires addr + 4 <= ram.Length
      modifies ram
      ensures ram[..] == StoreWord(old(ram[..]), addr, value)
    {
      hide BytesOf;
      ghost var m := ram[..];
      var b := BytesOf(value);
      ram[addr] := b[0];
      ram[addr + 1] := b[1];
      ram[addr + 2] := b[2];
      ram[addr + 3] := b[3];
      assert ram[..] == m[..addr] + b + m[addr + 4..];
    }
  }
}
