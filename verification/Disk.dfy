/** The disk controller: LBA, count, command and status registers and a 512-byte data window. */
module DiskDevice {
  import opened Words

  const SECTOR_SIZE := 512
  const DISK0_BASE: u32 := 0x0B00_0000

  const REG_LBA := 0x04
  const REG_COUNT := 0x08
  const REG_CMD := 0x0C
  const REG_STATUS := 0x10
  const REG_DATA := 0x200

  const ST_DRQ: u32 := 2
  const ST_ERR: u32 := 4

  /** The sector lies wholly inside the image. */
  predicate SectorInside(img: seq<byte>, lba: nat) { lba * SECTOR_SIZE + SECTOR_SIZE <= |img| }

  function Sector(img: seq<byte>, lba: nat): (s: seq<byte>)
    requires SectorInside(img, lba)
    ensures |s| == SECTOR_SIZE
  {
    img[lba * SECTOR_SIZE..lba * SECTOR_SIZE + SECTOR_SIZE]
  }

  /** READ and GO are both set. */
  predicate IsReadGo(val: u32) { Bit(val, 0) && Bit(val, 7) }

  function Compose(b0: byte, b1: byte, b2: byte, b3: byte): u32 {
    b0 + 0x100 * b1 + 0x1_0000 * b2 + 0x100_0000 * b3
  }

  /** The controller's registers, its data window, and the sectors it was told to read, in order. */
  datatype Controller = Controller(lba: u32, count: u32, status: u32, data: seq<byte>, log: seq<u32>)

  /** The controller after a write of val at register offset off. */
  function Commanded(c: Controller, present: bool, img: seq<byte>, off: nat, val: u32): Controller {
    if off == REG_LBA then c.(lba := val)
    else if off == REG_COUNT then c.(count := if val == 0 then 1 else val)
    else if off == REG_CMD && IsReadGo(val) then
      if !present then c.(status := ST_ERR)
      else if SectorInside(img, c.lba) then c.(status := ST_DRQ, data := Sector(img, c.lba), log := c.log + [c.lba])
      else c.(status := ST_ERR, log := c.log + [c.lba])
    else c
  }

  class Disk {
    var present: bool
    var img: seq<byte>
    var lba: u32
    var count: u32
    var status: u32
    const data: array<byte>
    ghost var log: seq<u32>

    constructor (inserted: bool, image: seq<byte>)
      ensures Valid() && fresh(data)
      ensures present == inserted && img == image && log == [] && status == 0
    {
      present, img := inserted, image;
      lba, count, status := 0, 1, 0;
      data := new byte[SECTOR_SIZE](i => 0);
      log := [];
    }

    ghost predicate Valid() { data.Length == SECTOR_SIZE }

    ghost function Registers(): Controller
      reads this, data
    {
      Controller(lba, count, status, data[..], log)
    }

    /** src/hw/disk_manager.c: copies whole sectors to the front of dst, or nothing when the range leaves the image. */
    method ReadSectors(first: u32, dst: array<byte>, sectors: u32) returns (ok: bool)
      requires dst.Length >= sectors * SECTOR_SIZE
      modifies dst
      ensures ok == (present && (first + sectors) * SECTOR_SIZE <= |img|)
      ensures dst[..] == if ok then img[first * SECTOR_SIZE..(first + sectors) * SECTOR_SIZE]
                                    + old(dst[sectors * SECTOR_SIZE..])
                         else old(dst[..])
    {
      if !present { return false; }
      var off, len := first * SECTOR_SIZE, sectors * SECTOR_SIZE;
      if off + len > |img| { return false; }
      forall i | 0 <= i < len {
        dst[i] := img[off + i];
      }
      return true;
    }

    function DataByte(i: nat): byte
      requires Valid()
      reads data
    {
      if i < SECTOR_SIZE then data[i] else 0
    }

    function MmioRead(addr: u32): u32
      requires Valid()
      reads this, data
    {
      var off := Wrap(addr as int - DISK0_BASE);
      if off == REG_CMD then 0
      else if off == REG_LBA then lba
      else if off == REG_COUNT then count
      else if off == REG_STATUS then status
      else if off >= REG_DATA && off - REG_DATA < SECTOR_SIZE then
        var i := off - REG_DATA;
        Compose(DataByte(i), DataByte(i + 1), DataByte(i + 2), DataByte(i + 3))
      else 0
    }

    method MmioWrite(addr: u32, val: u32)
      requires Valid()
      modifies this, data
      ensures present == old(present) && img == old(img)
      ensures Registers() == Commanded(old(Registers()), present, img, Wrap(addr as int - DISK0_BASE), val)
    {
      hide Wrap, Bit;
      var off := Wrap(addr as int - DISK0_BASE);
      if off == REG_LBA {
        lba := val;
      } else if off == REG_COUNT {
        count := if val == 0 then 1 else val;
      } else if off == REG_CMD {
        if IsReadGo(val) {
          if !present {
            status := ST_ERR;
            return;
          }
          log := log + [lba];
          var ok := ReadSectors(lba, data, 1);
          if !ok {
            status := ST_ERR;
            return;
          }
          status := ST_DRQ;
        }
      }
    }
  }
}
