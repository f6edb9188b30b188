/** The devices' registers, capacities and windows, in numbers. */
module DeviceLaws {
  import opened Words
  import opened DiskDevice
  import opened KeyboardDevice
  import B = DeviceBus

  // ---- the disk controller ----

  lemma ReadGoIs(val: u32)
    ensures IsReadGo(val) <==> val % 2 == 1 && val / 128 % 2 == 1
  {
    HalveBit(val, 0, 0);
    HalveBit(val, 7, 0);
    HalveIsDivision(val, 7);
    assert Pow2(7) == 128;
  }

  /** A store to a controller register: 4 is the sector number, 8 the count, where 0 stands for 1, and 12 the command. A
      command with bits 0 and 7 set reads the chosen sector: status 2 and its 512 bytes when there is a disk that holds
      it, status 4 when not. */
  lemma CommandLaw(c: Controller, present: bool, img: seq<byte>, off: nat, val: u32)
    ensures var t, asked := Commanded(c, present, img, off, val), off == 12 && val % 2 == 1 && val / 128 % 2 == 1;
      && (off == 4 ==> t == c.(lba := val))
      && (off == 8 ==> t == c.(count := if val == 0 then 1 else val))
      && (asked && !present ==> t == c.(status := 4))
      && (asked && present && 512 * c.lba + 512 <= |img| ==>
            t == c.(status := 2, data := img[512 * c.lba..512 * c.lba + 512], log := c.log + [c.lba]))
      && (asked && present && 512 * c.lba + 512 > |img| ==> t == c.(status := 4, log := c.log + [c.lba]))
      && (off != 4 && off != 8 && !asked ==> t == c)
  {
    hide IsReadGo;
    ReadGoIs(val);
  }

  /** What the controller's registers read as: the sector number at 4, the count at 8, the status at 16, four bytes of
      the sector from 512 on, and 0 elsewhere. */
  lemma RegisterLaw(d: Disk, addr: u32, off: nat)
    requires d.Valid() && off == (addr as int - 0x0B00_0000) % 0x1_0000_0000
    ensures var v := d.MmioRead(addr);
      && (off == 4 ==> v == d.lba) && (off == 8 ==> v == d.count) && (off == 16 ==> v == d.status)
      && (512 <= off <= 1020 ==>
            v == d.data[off - 512] as int + 256 * d.data[off - 511] as int + 0x1_0000 * d.data[off - 510] as int
                 + 0x100_0000 * d.data[off - 509] as int)
      && ((off < 512 && off != 4 && off != 8 && off != 16) || off >= 1024 ==> v == 0)
  {
  }

  // ---- the keyboard ----

  /** The keyboard's registers: 0 says whether a key waits, 4 delivers the oldest, all else reads 0 and changes
      nothing. */
  lemma RespondLaw(queue: seq<byte>, off: nat)
    ensures var a := Respond(queue, off);
      && (off == 0 ==> a.value == (if queue == [] then 0 else 1) && a.queue == queue)
      && (off == 4 && queue != [] ==> a.value == queue[0] && a.queue == queue[1..])
      && (off == 4 && queue == [] ==> a.value == 0 && a.queue == [])
      && (off != 0 && off != 4 ==> a.value == 0 && a.queue == queue)
  {
  }

  /** From an empty queue, n keys in a row: the first 64 are kept, in order, and no others. */
  lemma {:induction false} CapacityLaw(keys: seq<byte>)
    ensures var events := seq(|keys|, i requires 0 <= i < |keys| => Pressed(keys[i]));
      Trace(Log([], [], []), events).queue == if |keys| <= 64 then keys else keys[..64]
  {
    PressAll([], [], keys);
  }

  lemma {:induction false} PressAll(queue: seq<byte>, accepted: seq<byte>, keys: seq<byte>)
    requires |queue| <= 64
    ensures var events := seq(|keys|, i requires 0 <= i < |keys| => Pressed(keys[i]));
      Trace(Log(queue, accepted, []), events).queue
        == if |queue + keys| <= 64 then queue + keys else (queue + keys)[..64]
    decreases |keys|
  {
    var events := seq(|keys|, i requires 0 <= i < |keys| => Pressed(keys[i]));
    if keys == [] {
      assert queue + keys == queue;
    } else {
      var rest := seq(|keys[1..]|, i requires 0 <= i < |keys[1..]| => Pressed(keys[1..][i]));
      assert events[1..] == rest && events[0] == Pressed(keys[0]);
      if |queue| < 64 {
        assert (queue + [keys[0]]) + keys[1..] == queue + keys;
        PressAll(queue + [keys[0]], accepted + [keys[0]], keys[1..]);
      } else {
        PressAll(queue, accepted, keys[1..]);
        assert (queue + keys)[..64] == queue == (queue + keys[1..])[..64];
      }
    }
  }

  // ---- the device bus ----

  /** Among regions that do not wrap, a device is attached exactly when fewer than 32 are and its region ends before, or
      starts after, each of theirs. */
  lemma AdmitLaw(devs: seq<B.Device>, d: B.Device)
    requires d.base + d.size < 0x1_0000_0000
    requires forall e :: e in devs ==> e.base + e.size < 0x1_0000_0000
    ensures B.Admit(devs, d)
              == if |devs| < 32 && forall e :: e in devs ==> e.base + e.size <= d.base || d.base + d.size <= e.base
                 then devs + [d] else devs
  {
    hide B.Overlaps;
    forall e | e in devs
      ensures B.Overlaps(e, d) <==> !(e.base + e.size <= d.base || d.base + d.size <= e.base)
    {
      OverlapIs(e, d);
    }
  }

  lemma OverlapIs(e: B.Device, d: B.Device)
    requires d.base + d.size < 0x1_0000_0000 && e.base + e.size < 0x1_0000_0000
    ensures B.Overlaps(e, d) <==> !(e.base + e.size <= d.base || d.base + d.size <= e.base)
  {
  }
}
