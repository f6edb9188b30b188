/** What booting must do, as a function of what the firmware reads from: an image, or memory when no disk is in. */
module BootSpec {
  import opened Words
  import opened DiskDevice
  import opened Memory
  import opened SectorRead

  /** The BIOS loads BOOT.BIN; BOOT loads MONITOR.BIN. */
  datatype Stage = Bios | Boot

  datatype Outcome = Jump(address: u32) | DiskError | FormatError | NotFound | Hang

  const MAGIC: u32 := 0x544C_4653
  const DIRENT_SIZE := 64
  const DIRENTS_PER_SECTOR := 8

  function LoadAddress(stage: Stage): u32 { if stage == Bios then 0x1_0000 else 0x2_0000 }

  /** The name looked for, with its terminating NUL. */
  function NameOf(stage: Stage): seq<byte> {
    if stage == Bios then [0x42, 0x4F, 0x4F, 0x54, 0x2E, 0x42, 0x49, 0x4E, 0]
    else [0x4D, 0x4F, 0x4E, 0x49, 0x54, 0x4F, 0x52, 0x2E, 0x42, 0x49, 0x4E, 0]
  }

  // ---- directory ----

  /** The sector that holds directory entry i. */
  function EntryLba(dir: u32, i: nat): u32 { Wrap(dir as int + i / DIRENTS_PER_SECTOR) }

  predicate EntryReadable(med: Medium, dir: u32, i: nat) { Reply(med, EntryLba(dir, i)) == Done }

  /** The 64 bytes of directory entry i. */
  function Entry(med: Medium, dir: u32, i: nat): (e: seq<byte>)
    requires EntryReadable(med, dir, i)
    ensures |e| == DIRENT_SIZE
  {
    var off := DIRENT_SIZE * (i % DIRENTS_PER_SECTOR);
    SectorOf(med, EntryLba(dir, i))[off..off + DIRENT_SIZE]
  }

  predicate Named(entry: seq<byte>, stage: Stage) { NameOf(stage) <= entry }

  datatype Found = At(i: nat) | Missing | Unreadable(i: nat)

  /** Linear search of entries i.. of n; a sector that cannot be read stops it. */
  function Search(med: Medium, dir: u32, n: nat, i: nat, stage: Stage): (r: Found)
    requires i <= n
    ensures r.At? ==> i <= r.i < n && EntryReadable(med, dir, r.i)
    decreases n - i
  {
    if i == n then Missing
    else if !EntryReadable(med, dir, i) then Unreadable(i)
    else if Named(Entry(med, dir, i), stage) then At(i)
    else Search(med, dir, n, i + 1, stage)
  }

  lemma SearchStep(med: Medium, dir: u32, n: nat, i: nat, stage: Stage)
    requires i < n
    ensures !EntryReadable(med, dir, i) ==> Search(med, dir, n, i, stage) == Unreadable(i)
    ensures EntryReadable(med, dir, i) && Named(Entry(med, dir, i), stage) ==> Search(med, dir, n, i, stage) == At(i)
    ensures EntryReadable(med, dir, i) && !Named(Entry(med, dir, i), stage) ==>
              Search(med, dir, n, i, stage) == if i + 1 == n then Missing else Search(med, dir, n, i + 1, stage)
  {
    hide EntryReadable, Entry, Named;
  }

  /** Entry i, read through the sector that holds it. */
  lemma EntryInSector(med: Medium, dir: u32, i: nat, first: nat)
    requires EntryLba(dir, i) == EntryLba(dir, first) && i % DIRENTS_PER_SECTOR == i - first
    ensures EntryReadable(med, dir, i) <==> Reply(med, EntryLba(dir, first)) == Done
    ensures EntryReadable(med, dir, i) ==>
              var off := DIRENT_SIZE * (i - first);
              Entry(med, dir, i) == SectorOf(med, EntryLba(dir, first))[off..off + DIRENT_SIZE]
  {
    hide Reply, SectorOf;
  }

  predicate NoMatchBefore(med: Medium, dir: u32, k: nat, stage: Stage) {
    forall i :: 0 <= i < k ==> EntryReadable(med, dir, i) && !Named(Entry(med, dir, i), stage)
  }

  lemma NoMatchStep(med: Medium, dir: u32, i: nat, stage: Stage)
    requires NoMatchBefore(med, dir, i, stage) && EntryReadable(med, dir, i) && !Named(Entry(med, dir, i), stage)
    ensures NoMatchBefore(med, dir, i + 1, stage)
  {
    hide Named, EntryReadable, Entry;
  }

  /** What each answer of a search of n entries claims. */
  predicate Claims(med: Medium, dir: u32, n: nat, stage: Stage, r: Found) {
    match r
    case At(k) =>
      k < n && NoMatchBefore(med, dir, k, stage) && EntryReadable(med, dir, k) && Named(Entry(med, dir, k), stage)
    case Missing => NoMatchBefore(med, dir, n, stage)
    case Unreadable(k) => k < n && NoMatchBefore(med, dir, k, stage) && !EntryReadable(med, dir, k)
  }

  lemma {:induction false} SearchClaims(med: Medium, dir: u32, n: nat, i: nat, stage: Stage)
    requires i <= n && NoMatchBefore(med, dir, i, stage)
    ensures Claims(med, dir, n, stage, Search(med, dir, n, i, stage))
    decreases n - i
  {
    hide Named, EntryReadable, Entry, NoMatchBefore;
    if i == n || !EntryReadable(med, dir, i) || Named(Entry(med, dir, i), stage) {
    } else {
      NoMatchStep(med, dir, i, stage);
      SearchClaims(med, dir, n, i + 1, stage);
    }
  }

  /** Where the search stopped, or n. */
  function StopOf(n: nat, r: Found): nat { if r.Missing? then n else r.i }

  /** No two answers claim what is true. */
  lemma OneClaim(med: Medium, dir: u32, n: nat, stage: Stage, r: Found, q: Found)
    requires Claims(med, dir, n, stage, r) && Claims(med, dir, n, stage, q)
    ensures r == q
  {
    hide Named, EntryReadable, Entry;
    assert StopOf(n, r) == StopOf(n, q);
  }

  /** Search finds the least matching entry, reports missing iff there is none, and stops at the first bad sector. */
  lemma SearchMeaning(med: Medium, dir: u32, n: nat, i: nat, stage: Stage)
    requires i <= n && NoMatchBefore(med, dir, i, stage)
    ensures var r := Search(med, dir, n, i, stage);
      && (forall k: nat :: r == At(k) <==>
            && k < n && NoMatchBefore(med, dir, k, stage)
            && EntryReadable(med, dir, k) && Named(Entry(med, dir, k), stage))
      && (r == Missing <==> NoMatchBefore(med, dir, n, stage))
      && (forall k: nat :: r == Unreadable(k) <==>
            k < n && NoMatchBefore(med, dir, k, stage) && !EntryReadable(med, dir, k))
  {
    hide Named, EntryReadable, Entry, NoMatchBefore, Search;
    SearchClaims(med, dir, n, i, stage);
    var r := Search(med, dir, n, i, stage);
    forall q | Claims(med, dir, n, stage, q)
      ensures r == q
    {
      OneClaim(med, dir, n, stage, r, q);
    }
    assert Claims(med, dir, n, stage, Missing) <==> NoMatchBefore(med, dir, n, stage);
    forall k: nat
      ensures Claims(med, dir, n, stage, At(k)) <==>
                && k < n && NoMatchBefore(med, dir, k, stage)
                && EntryReadable(med, dir, k) && Named(Entry(med, dir, k), stage)
      ensures Claims(med, dir, n, stage, Unreadable(k)) <==>
                k < n && NoMatchBefore(med, dir, k, stage) && !EntryReadable(med, dir, k)
    {
    }
  }

  // ---- file ----

  /** The sectors the load loop counts down, for a file of `length` bytes: the rounding wraps in 32 bits, and a count of
      zero then runs all the way round. */
  function SectorCount(length: u32): (c: nat)
    requires length > 0
    ensures c > 0
  {
    var c := Wrap(length as int + 0x1FF) / 512;
    if c == 0 then TWO32 else c
  }

  /** The count is the rounded-up length exactly for lengths up to 0xFFFFFE00. */
  lemma SectorCountIsCeiling(length: u32)
    requires length > 0
    ensures SectorCount(length) == (length + 511) / 512 <==> length <= 0xFFFF_FE00
  {
  }

  /** The sector that holds the j-th sector of a file. */
  function FileLba(start: u32, j: nat): u32 { Wrap(start as int + j) }

  /** What is read from once k sectors have been loaded from dest on: with no disk in, a load that passes the register
      addresses overwrites the status word. */
  function FileMedium(med: Medium, dest: u32, k: nat): Medium {
    if DISK0_BASE < dest + SECTOR_SIZE * k then StoredOver(med, DISK0_BASE) else med
  }

  function FileReply(med: Medium, start: u32, dest: u32, j: nat): Result {
    Reply(FileMedium(med, dest, j), FileLba(start, j))
  }

  predicate FileReadable(med: Medium, start: u32, dest: u32, j: nat) { FileReply(med, start, dest, j) == Done }

  /** How many of the c sectors from `start` can be read before the first that cannot. */
  function Readable(med: Medium, start: u32, dest: u32, c: nat, k: nat): (m: nat)
    requires k <= c
    ensures k <= m <= c
    ensures forall j :: k <= j < m ==> FileReadable(med, start, dest, j)
    ensures m < c ==> !FileReadable(med, start, dest, m)
    decreases c - k
  {
    if k < c && FileReadable(med, start, dest, k) then Readable(med, start, dest, c, k + 1) else k
  }

  /** How the load of c sectors ends. */
  function LoadReply(med: Medium, start: u32, dest: u32, c: nat): Result {
    var m := Readable(med, start, dest, c, 0);
    if m < c then FileReply(med, start, dest, m) else Done
  }

  // ---- the whole stage ----

  /** What the header and the directory decide: stop with an outcome, or load `count` sectors from `start`. */
  datatype Plan = Stop(outcome: Outcome, dirReads: nat) | Load(start: u32, count: nat, dirReads: nat)

  /** The header: refused with an outcome, or a directory of n > 0 entries from sector dir. */
  datatype Header = Refused(outcome: Outcome) | Directory(dir: u32, n: u32)

  /** The outcome of a sector that was not delivered. */
  function Refusal(r: Result): Outcome { if r == Stuck then Hang else DiskError }

  function HeaderOf(med: Medium): (r: Header)
    ensures r.Directory? ==> r.n > 0
  {
    if Reply(med, 0) != Done then Refused(Refusal(Reply(med, 0)))
    else
      var h := SectorOf(med, 0);
      if LoadWord(h, 0) != MAGIC || LoadWord(h, 8) != SECTOR_SIZE then Refused(FormatError)
      else
        var dir, n := LoadWord(h, 16), LoadWord(h, 20);
        if dir == 0 then Refused(FormatError)
        else if n == 0 then Refused(NotFound)
        else if LoadWord(h, 24) != DIRENT_SIZE then Refused(FormatError)
        else Directory(dir, n)
  }

  function PlanOf(med: Medium, stage: Stage): Plan {
    match HeaderOf(med)
    case Refused(outcome) => Stop(outcome, 0)
    case Directory(dir, n) => PlanOfSearch(med, dir, n, Search(med, dir, n, 0, stage))
  }

  /** The directory sectors a scan asks for: up to the one that holds the last entry it looks at, and no further. */
  function DirectoryReads(n: nat, found: Found): nat
    requires n > 0
  {
    match found
    case Missing => (n - 1) / DIRENTS_PER_SECTOR + 1
    case Unreadable(i) => i / DIRENTS_PER_SECTOR + 1
    case At(i) => i / DIRENTS_PER_SECTOR + 1
  }

  function PlanOfSearch(med: Medium, dir: u32, n: nat, found: Found): Plan
    requires found.At? ==> EntryReadable(med, dir, found.i)
    requires n > 0
  {
    var sectors := DirectoryReads(n, found);
    match found
    case Missing => Stop(NotFound, sectors)
    case Unreadable(i) => Stop(Refusal(Reply(med, EntryLba(dir, i))), sectors)
    case At(i) =>
      var e := Entry(med, dir, i);
      if LoadWord(e, 36) == 0 then Stop(NotFound, sectors)
      else Load(LoadWord(e, 32), SectorCount(LoadWord(e, 36)), sectors)
  }

  function OutcomeOf(med: Medium, stage: Stage): Outcome {
    match PlanOf(med, stage)
    case Stop(outcome, _) => outcome
    case Load(start, count, _) =>
      var reply := LoadReply(med, start, LoadAddress(stage), count);
      if reply == Done then Jump(LoadAddress(stage)) else Refusal(reply)
  }

  function RunOf(first: u32, n: nat): seq<u32> { seq<u32>(n, (j: nat) => FileLba(first, j)) }

  /** Every sector the stage asks the controller for, in order. */
  function Reads(med: Medium, stage: Stage): seq<u32> {
    [0] + match PlanOf(med, stage)
          case Stop(_, d) => RunOf(DirectoryLba(med), d)
          case Load(start, count, d) =>
            RunOf(DirectoryLba(med), d) + RunOf(start, FileReads(med, start, LoadAddress(stage), count))
  }

  /** A failing read is the last one. */
  function FileReads(med: Medium, start: u32, dest: u32, count: nat): nat {
    var m := Readable(med, start, dest, count, 0);
    if m < count then m + 1 else count
  }

  function DirectoryLba(med: Medium): u32 {
    match HeaderOf(med)
    case Refused(_) => 0
    case Directory(dir, _) => dir
  }

  lemma {:induction false} ReadableFrom(med: Medium, start: u32, dest: u32, c: nat, k: nat)
    requires k <= c && forall j :: 0 <= j < k ==> FileReadable(med, start, dest, j)
    ensures Readable(med, start, dest, c, 0) == Readable(med, start, dest, c, k)
    decreases k
  {
    hide FileReadable;
    if k == 0 {
    } else {
      ReadableFrom(med, start, dest, c, k - 1);
      assert FileReadable(med, start, dest, k - 1);
    }
  }

  /** The load ends at the first sector that is not delivered, or after the last. */
  lemma LoadStops(med: Medium, start: u32, dest: u32, c: nat, k: nat)
    requires k <= c && (forall j :: 0 <= j < k ==> FileReadable(med, start, dest, j))
    requires k < c ==> !FileReadable(med, start, dest, k)
    ensures LoadReply(med, start, dest, c) == if k < c then FileReply(med, start, dest, k) else Done
    ensures FileReads(med, start, dest, c) == if k < c then k + 1 else c
  {
    hide FileReadable, FileReply;
    ReadableFrom(med, start, dest, c, k);
  }

  /** The first c sectors of the file. */
  function FileBytes(med: Medium, start: u32, dest: u32, c: nat): (s: seq<byte>)
    requires forall j :: 0 <= j < c ==> FileReadable(med, start, dest, j)
    ensures |s| == SECTOR_SIZE * c
  {
    if c == 0 then []
    else
      assert FileReadable(med, start, dest, c - 1);
      FileBytes(med, start, dest, c - 1) + SectorOf(FileMedium(med, dest, c - 1), FileLba(start, c - 1))
  }

  /** When the LBAs do not wrap, a file on an image is one run of image bytes. */
  lemma {:induction false} FileBytesContiguous(img: seq<byte>, start: u32, dest: u32, c: nat)
    requires forall j :: 0 <= j < c ==> FileReadable(Image(img), start, dest, j)
    requires start + c <= TWO32
    ensures c > 0 ==> SECTOR_SIZE * (start + c) <= |img|
    ensures c > 0 ==> FileBytes(Image(img), start, dest, c) == img[SECTOR_SIZE * start..SECTOR_SIZE * (start + c)]
  {
    if c == 0 {
    } else {
      hide FileReadable, FileBytes, FileMedium, Wrap;
      LastSector(img, start, dest, c);
      FileBytesContiguous(img, start, dest, c - 1);
      if c == 1 {
        assert FileBytes(Image(img), start, dest, 0) == [];
      } else {
        Adjacent(img, SECTOR_SIZE * start, SECTOR_SIZE * (start + c - 1), SECTOR_SIZE * (start + c));
      }
    }
  }

  lemma Adjacent(img: seq<byte>, a: nat, b: nat, c: nat)
    requires a <= b <= c <= |img|
    ensures img[a..b] + img[b..c] == img[a..c]
  {
  }

  lemma LastSector(img: seq<byte>, start: u32, dest: u32, c: nat)
    requires c > 0 && start + c <= TWO32 && forall j :: 0 <= j < c ==> FileReadable(Image(img), start, dest, j)
    ensures SECTOR_SIZE * (start + c) <= |img|
    ensures FileBytes(Image(img), start, dest, c)
              == FileBytes(Image(img), start, dest, c - 1)
                 + img[SECTOR_SIZE * (start + c - 1)..SECTOR_SIZE * (start + c)]
    ensures c == 1 ==> FileBytes(Image(img), start, dest, 0) == []
  {
    hide FileMedium, Wrap;
    WrapSmall(start as int + (c - 1));
    ImageFile(img, start, dest, c - 1);
    assert FileReadable(Image(img), start, dest, c - 1);
  }

  lemma ImageFile(img: seq<byte>, start: u32, dest: u32, j: nat)
    ensures FileMedium(Image(img), dest, j) == Image(img)
    ensures FileReadable(Image(img), start, dest, j) <==> SectorInside(img, FileLba(start, j))
  {
  }

  /** The stage jumps exactly when the header is good, the first entry with the name is reachable through readable
      sectors and not empty, and every sector the load asks for is inside the image. */
  lemma JumpIff(med: Medium, stage: Stage)
    ensures OutcomeOf(med, stage).Jump? <==>
      && HeaderOf(med).Directory?
      && exists i: nat :: i < HeaderOf(med).n && LoadableAt(med, HeaderOf(med).dir, i, stage)
  {
    hide EntryReadable, Named, Entry, LoadWord, SectorCount, LoadReply, NoMatchBefore;
    match HeaderOf(med)
    case Refused(why) => RefusedNeverJumps(med);
    case Directory(dir, n) =>
      SearchMeaning(med, dir, n, 0, stage) by { NothingBefore(med, dir, stage); }
      var found := Search(med, dir, n, 0, stage);
      forall i: nat | i < n && LoadableAt(med, dir, i, stage)
        ensures found == At(i) && OutcomeOf(med, stage).Jump?
      {
        assert found == At(i);
      }
      if OutcomeOf(med, stage).Jump? { assert LoadableAt(med, dir, found.i, stage); }
  }

  /** How loading the file of a directory entry ends. */
  function EntryReply(med: Medium, e: seq<byte>, stage: Stage): Result
    requires |e| == DIRENT_SIZE && LoadWord(e, 36) != 0
  {
    LoadReply(med, LoadWord(e, 32), LoadAddress(stage), SectorCount(LoadWord(e, 36)))
  }

  /** Entry i is the first with the name, not empty, and the whole file can be read. */
  predicate LoadableAt(med: Medium, dir: u32, i: nat, stage: Stage) {
    && NoMatchBefore(med, dir, i, stage) && EntryReadable(med, dir, i) && Named(Entry(med, dir, i), stage)
    && LoadWord(Entry(med, dir, i), 36) != 0
    && EntryReply(med, Entry(med, dir, i), stage) == Done
  }

  lemma NothingBefore(med: Medium, dir: u32, stage: Stage)
    ensures NoMatchBefore(med, dir, 0, stage)
  {
  }

  lemma RefusedNeverJumps(med: Medium)
    ensures HeaderOf(med).Refused? ==> !HeaderOf(med).outcome.Jump?
  {
  }

  // ---- no disk in ----

  /** A status word that keeps the firmware polling. */
  predicate Polls(status: u32) { !Bit(status, 1) && !Bit(status, 2) }

  /** With no disk in, the load runs through until it has passed the register addresses; from then on the window's own
      word answers as status. */
  lemma NoDiskLoad(status: u32, window: SectorBytes, start: u32, dest: u32, c: nat)
    requires Reply(NoDisk(status, window), 0) == Done && dest % SECTOR_SIZE == 0 && dest <= DISK0_BASE
    ensures LoadReply(NoDisk(status, window), start, dest, c)
              == if dest + SECTOR_SIZE * c <= DISK0_BASE + SECTOR_SIZE then Done
                 else Reply(NoDisk(LoadWord(window, REG_STATUS), window), 0)
  {
    hide LoadWord, Bit, LoadReply;
    var med := NoDisk(status, window);
    var over := Reply(NoDisk(LoadWord(window, REG_STATUS), window), 0);
    var k := (DISK0_BASE - dest) / SECTOR_SIZE + 1;
    LoadStops(med, start, dest, c, if over == Done || c <= k then c else k);
  }

  lemma NeverUnreadable(med: Medium, dir: u32, n: nat, stage: Stage)
    requires med.NoDisk? && Reply(med, 0) == Done
    ensures !Search(med, dir, n, 0, stage).Unreadable?
  {
    hide Named, Entry, Bit;
    NothingBefore(med, dir, stage);
    SearchMeaning(med, dir, n, 0, stage);
    var r := Search(med, dir, n, 0, stage);
    assert EntryReadable(med, dir, if r.Unreadable? then r.i else 0);
  }

  /** The whole of a stage with no disk in hangs exactly when the word behind the status register keeps it polling, or
      when the load passes over that word and puts such a one there; and likewise for the disk error. */
  lemma NoDiskOutcome(status: u32, window: SectorBytes, stage: Stage)
    ensures var med, over := NoDisk(status, window), LoadWord(window, REG_STATUS);
      var plan := PlanOf(med, stage);
      var passes := Reply(med, 0) == Done && plan.Load?
                    && LoadAddress(stage) + SECTOR_SIZE * plan.count > DISK0_BASE + SECTOR_SIZE;
      && (OutcomeOf(med, stage) == Hang <==> Polls(status) || (passes && Polls(over)))
      && (OutcomeOf(med, stage) == DiskError <==> Bit(status, 2) || (passes && Bit(over, 2)))
  {
    hide LoadWord, Bit, LoadReply, Named, Entry, SectorCount;
    var med := NoDisk(status, window);
    var plan := PlanOf(med, stage);
    var header := HeaderOf(med);
    if Reply(med, 0) == Done && header.Directory? { NeverUnreadable(med, header.dir, header.n, stage); }
    if Reply(med, 0) == Done && plan.Load? {
      NoDiskLoad(status, window, plan.start, LoadAddress(stage), plan.count);
    }
  }
}

/** The boot firmware's loops: directory scan and sector-by-sector load. */
module BootLoader {
  import opened Words
  import opened DiskDevice
  import opened Memory
  import opened Options
  import opened SectorRead
  import opened BootSpec

  const HEADER_BUF: u32 := 0x3_0000
  const DIR_BUF: u32 := 0x3_0400

  /** RAM covers the two sector buffers. */
  ghost predicate Ready(bus: Bus)
    reads bus, bus.keyboard
  {
    bus.Valid() && DIR_BUF + SECTOR_SIZE <= bus.ram.Length
  }

  /** The buffer at `at` holds this sector. */
  predicate Buffered(m: seq<byte>, at: nat, sector: seq<byte>) {
    |sector| == SECTOR_SIZE && at + SECTOR_SIZE <= |m| && m[at..at + SECTOR_SIZE] == sector
  }

  lemma PlacedIsBuffered(m: seq<byte>, m0: seq<byte>, dst: nat, sector: seq<byte>)
    requires |sector| == SECTOR_SIZE && Placed(m, m0, dst, sector)
    requires dst + SECTOR_SIZE <= |m| && dst + SECTOR_SIZE <= UART0_BASE
    ensures Buffered(m, dst, sector)
  {
  }

  lemma BufferedWord(m: seq<byte>, at: nat, sector: seq<byte>, off: nat)
    requires Buffered(m, at, sector) && off + 4 <= SECTOR_SIZE
    ensures LoadWord(m, at + off) == LoadWord(sector, off)
  {
    assert forall i :: 0 <= i < SECTOR_SIZE ==> m[at + i] == sector[i] by {
      forall i | 0 <= i < SECTOR_SIZE ensures m[at + i] == sector[i] { assert m[at..at + SECTOR_SIZE][i] == m[at + i]; }
    }
  }

  /** A word of a buffered sector, through the bus. */
  method BufferWord(bus: Bus, at: u32, off: nat, ghost sector: seq<byte>) returns (v: u32)
    requires bus.Valid() && Buffered(bus.ram[..], at, sector) && off + 4 <= SECTOR_SIZE
    requires at + SECTOR_SIZE <= UART0_BASE
    modifies bus.keyboard, bus.keyboard.fifo
    ensures bus.Valid() && v == LoadWord(sector, off)
  {
    LowRoute(at + off, bus.ram.Length, bus.uartPresent, bus.disk.present);
    BufferedWord(bus.ram[..], at, sector, off);
    hide RouteOf, LoadWord;
    v := bus.Read32(at + off);
  }

  lemma NameWords(e: seq<byte>)
    requires |e| == DIRENT_SIZE
    ensures Named(e, Bios) <==> LoadWord(e, 0) == 0x544F_4F42 && LoadWord(e, 4) == 0x4E49_422E && e[8] == 0
    ensures Named(e, Boot) <==>
              LoadWord(e, 0) == 0x494E_4F4D && LoadWord(e, 4) == 0x2E52_4F54 && LoadWord(e, 8) == 0x004E_4942
  {
    WordBytes(e[0], e[1], e[2], e[3]);
    WordBytes(e[4], e[5], e[6], e[7]);
    WordBytes(e[8], e[9], e[10], e[11]);
  }

  /** A little-endian word determines its bytes. */
  lemma WordBytes(b0: byte, b1: byte, b2: byte, b3: byte)
    ensures forall c0: byte, c1: byte, c2: byte, c3: byte ::
              Compose(b0, b1, b2, b3) == Compose(c0, c1, c2, c3) ==> b0 == c0 && b1 == c1 && b2 == c2 && b3 == c3
  {
    forall c0: byte, c1: byte, c2: byte, c3: byte | Compose(b0, b1, b2, b3) == Compose(c0, c1, c2, c3)
      ensures b0 == c0 && b1 == c1 && b2 == c2 && b3 == c3
    {
      BytesOfCompose(b0, b1, b2, b3);
      BytesOfCompose(c0, c1, c2, c3);
    }
  }

  lemma EntryWords(sector: seq<byte>, off: nat)
    requires |sector| == SECTOR_SIZE && off + DIRENT_SIZE <= SECTOR_SIZE
    ensures var e := sector[off..off + DIRENT_SIZE];
      && (forall k {:trigger LoadWord(e, k)} :: 0 <= k <= DIRENT_SIZE - 4 ==>
          LoadWord(e, k) == LoadWord(sector, off + k))
      && e[8] == sector[off + 8]
  {
  }

  /** The entry's name test: word by word, stopping at the first difference. */
  method NameMatches(bus: Bus, off: nat, stage: Stage, ghost sector: seq<byte>) returns (b: bool)
    requires bus.Valid() && Buffered(bus.ram[..], DIR_BUF, sector) && off + DIRENT_SIZE <= |sector| == SECTOR_SIZE
    modifies bus.keyboard, bus.keyboard.fifo
    ensures bus.Valid() && b == Named(sector[off..off + DIRENT_SIZE], stage)
  {
    hide Named, Buffered, LoadWord;
    EntryWords(sector, off);
    ghost var e := sector[off..off + DIRENT_SIZE];
    NameWords(e);
    var r0 := BufferWord(bus, DIR_BUF, off, sector);
    assert r0 == LoadWord(e, 0);
    if r0 != (if stage == Bios then 0x544F_4F42 else 0x494E_4F4D) { return false; }
    r0 := BufferWord(bus, DIR_BUF, off + 4, sector);
    assert r0 == LoadWord(e, 4);
    if r0 != (if stage == Bios then 0x4E49_422E else 0x2E52_4F54) { return false; }
    if stage == Bios {
      BufferedByte(bus.ram[..], DIR_BUF, sector, off + 8);
      var c := bus.Read8(DIR_BUF + off + 8);
      return c == 0;
    }
    r0 := BufferWord(bus, DIR_BUF, off + 8, sector);
    assert r0 == LoadWord(e, 8);
    return r0 == 0x004E_4942;
  }

  lemma BufferedByte(m: seq<byte>, at: nat, sector: seq<byte>, off: nat)
    requires Buffered(m, at, sector) && off < SECTOR_SIZE
    ensures at + off < |m| && m[at + off] == sector[off]
  {
    assert m[at..at + SECTOR_SIZE][off] == m[at + off];
  }

  lemma RunOfStep(first: u32, n: nat)
    ensures RunOf(first, n + 1) == RunOf(first, n) + [FileLba(first, n)]
  {
  }

  lemma RunOfNone(first: u32)
    ensures RunOf(first, 0) == []
  {
  }

  /** Reads a sector into a buffer below the devices. */
  method ReadBuffer(bus: Bus, lba: u32, dst: u32) returns (res: Result)
    requires bus.Valid() && dst % SECTOR_SIZE == 0
    requires dst + SECTOR_SIZE <= bus.ram.Length && dst + SECTOR_SIZE <= UART0_BASE
    modifies bus.ram, bus.disk, bus.disk.data, bus.keyboard, bus.keyboard.fifo
    ensures bus.Valid() && MediumOf(bus) == old(MediumOf(bus))
    ensures bus.disk.present == old(bus.disk.present) && bus.disk.img == old(bus.disk.img)
    ensures res == Reply(MediumOf(bus), lba)
    ensures res == Done ==> Buffered(bus.ram[..], dst, SectorOf(MediumOf(bus), lba))
    ensures bus.disk.present ==> bus.disk.log == old(bus.disk.log) + [lba]
  {
    hide Copied, Buffered, Placed, MediumOf, Reply, SectorOf;
    ghost var m, med := bus.ram[..], MediumOf(bus);
    res := ReadSector(bus, lba, dst);
    if res == Done { PlacedIsBuffered(bus.ram[..], m, dst, SectorOf(med, lba)); }
  }

  /** The directory loops: r8 sector, r6 entry, r7 entries left in the sector, r9 entries left. */
  method ScanDirectory(bus: Bus, dir: u32, n: u32, stage: Stage)
      returns (found: Found, r6: nat, res: Result)
    requires Ready(bus) && n > 0
    modifies bus.ram, bus.disk, bus.disk.data, bus.keyboard, bus.keyboard.fifo
    ensures Ready(bus) && MediumOf(bus) == old(MediumOf(bus))
    ensures bus.disk.present == old(bus.disk.present) && bus.disk.img == old(bus.disk.img)
    ensures found == Search(MediumOf(bus), dir, n, 0, stage)
    ensures found.Unreadable? ==> res == Reply(MediumOf(bus), EntryLba(dir, found.i))
    ensures found.At? ==>
      && r6 == DIRENT_SIZE * (found.i % DIRENTS_PER_SECTOR)
      && Buffered(bus.ram[..], DIR_BUF, SectorOf(MediumOf(bus), EntryLba(dir, found.i)))
    ensures bus.disk.present ==> bus.disk.log == old(bus.disk.log) + RunOf(dir, DirectoryReads(n, found))
  {
    hide Named, Buffered, Wrap, Reply, SectorOf, MediumOf, Search, Entry, EntryReadable, EntryLba, RunOf;
    ghost var med, log := MediumOf(bus), bus.disk.log;
    var r8, r9 := dir, n;
    ghost var i: nat := 0;
    r6 := 0;
    FirstSector(dir);
    RunOfNone(dir);
    while true
      invariant Ready(bus) && MediumOf(bus) == med
      invariant bus.disk.present == old(bus.disk.present) && bus.disk.img == old(bus.disk.img)
      invariant 0 < r9 && i + r9 == n && i % DIRENTS_PER_SECTOR == 0
      invariant r8 == EntryLba(dir, i)
      invariant Search(med, dir, n, i, stage) == Search(med, dir, n, 0, stage)
      invariant bus.disk.present ==> bus.disk.log == log + RunOf(dir, i / DIRENTS_PER_SECTOR)
      decreases r9
    {
      SearchStep(med, dir, n, i, stage);
      EntryInSector(med, dir, i, i);
      ReadsStep(dir, i);
      res := ReadBuffer(bus, r8, DIR_BUF);
      if res != Done { return Unreadable(n - r9), 0, res; }
      ghost var sector := SectorOf(med, r8);
      r6 := 0;
      var r7 := DIRENTS_PER_SECTOR;
      ghost var first := i;
      while true
        invariant Ready(bus) && MediumOf(bus) == med
        invariant bus.disk.present == old(bus.disk.present) && bus.disk.img == old(bus.disk.img)
        invariant Buffered(bus.ram[..], DIR_BUF, sector)
        invariant 0 < r7 <= DIRENTS_PER_SECTOR && 0 < r9 && i + r9 == n && i == first + (DIRENTS_PER_SECTOR - r7)
        invariant r6 == DIRENT_SIZE * (DIRENTS_PER_SECTOR - r7)
        invariant Search(med, dir, n, i, stage) == Search(med, dir, n, 0, stage)
        invariant bus.disk.present ==> bus.disk.log == log + RunOf(dir, first / DIRENTS_PER_SECTOR + 1)
        decreases r9
      {
        InSector(first, i, dir);
        EntryInSector(med, dir, i, first);
        SearchStep(med, dir, n, i, stage);
        var same := NameMatches(bus, r6, stage, sector);
        if same { return At(n - r9), r6, Done; }
        r6 := r6 + DIRENT_SIZE;
        r9 := r9 - 1;
        i := i + 1;
        if r9 == 0 { return Missing, 0, Done; }
        r7 := r7 - 1;
        if r7 == 0 { break; }
      }
      NextSector(dir, first);
      r8 := Wrap(r8 as int + 1);
    }
  }

  lemma FirstSector(dir: u32)
    ensures EntryLba(dir, 0) == dir
  {
    WrapSmall(dir);
  }

  lemma ReadsStep(dir: u32, i: nat)
    requires i % DIRENTS_PER_SECTOR == 0
    ensures RunOf(dir, i / DIRENTS_PER_SECTOR + 1) == RunOf(dir, i / DIRENTS_PER_SECTOR) + [EntryLba(dir, i)]
  {
    RunOfStep(dir, i / DIRENTS_PER_SECTOR);
  }

  lemma InSector(first: nat, i: nat, dir: u32)
    requires first % DIRENTS_PER_SECTOR == 0 && first <= i < first + DIRENTS_PER_SECTOR
    ensures i % DIRENTS_PER_SECTOR == i - first && i / DIRENTS_PER_SECTOR == first / DIRENTS_PER_SECTOR
    ensures EntryLba(dir, i) == EntryLba(dir, first)
  {
  }

  lemma NextSector(dir: u32, first: nat)
    requires first % DIRENTS_PER_SECTOR == 0
    ensures (first + DIRENTS_PER_SECTOR) % DIRENTS_PER_SECTOR == 0
    ensures (first + DIRENTS_PER_SECTOR) / DIRENTS_PER_SECTOR == first / DIRENTS_PER_SECTOR + 1
    ensures EntryLba(dir, first + DIRENTS_PER_SECTOR) == Wrap(EntryLba(dir, first) as int + 1)
  {
  }

  /** The file occupies only RAM below the first device window when loaded at dest. */
  predicate FitsBelowDevices(dest: u32, count: nat, ramSize: nat) {
    dest + SECTOR_SIZE * count <= ramSize && dest + SECTOR_SIZE * count <= UART0_BASE
  }

  lemma LoadedSector(m: seq<byte>, m0: seq<byte>, med: Medium, start: u32, dest: u32, k: nat)
    requires forall j :: 0 <= j < k + 1 ==> FileReadable(med, start, dest, j)
    requires |m0| == |m| && dest + SECTOR_SIZE * (k + 1) <= |m| && dest + SECTOR_SIZE * (k + 1) <= UART0_BASE
    requires m0[dest..dest + SECTOR_SIZE * k] == FileBytes(med, start, dest, k)
    requires FileReadable(med, start, dest, k)
    requires Placed(m, m0, dest + SECTOR_SIZE * k, SectorOf(FileMedium(med, dest, k), FileLba(start, k)))
    ensures m[dest..dest + SECTOR_SIZE * (k + 1)] == FileBytes(med, start, dest, k + 1)
  {
    hide FileMedium;
    var d := dest + SECTOR_SIZE * k;
    var sector := SectorOf(FileMedium(med, dest, k), FileLba(start, k));
    assert m[dest..d] == m0[dest..d];
    assert m[d..d + SECTOR_SIZE] == sector;
    assert m[dest..d + SECTOR_SIZE] == m[dest..d] + m[d..d + SECTOR_SIZE];
  }

  lemma WrapAligned(dest: nat, k: nat)
    requires dest % SECTOR_SIZE == 0
    ensures Wrap(dest + SECTOR_SIZE * k) % SECTOR_SIZE == 0
  {
    var d := dest + SECTOR_SIZE * k;
    assert d % SECTOR_SIZE == 0;
    assert Wrap(d) == d - TWO32 * (d / TWO32);
  }

  /** Sector addresses are whole sectors apart. */
  lemma SectorsApart(dest: nat, k: nat)
    requires dest % SECTOR_SIZE == 0
    ensures dest + SECTOR_SIZE * k < DISK0_BASE ==> dest + SECTOR_SIZE * (k + 1) <= DISK0_BASE
  {
    assert DISK0_BASE % SECTOR_SIZE == 0;
    assert (dest + SECTOR_SIZE * k) % SECTOR_SIZE == 0;
  }

  /** Storing sector k over the register addresses is what FileMedium says, and passing them again changes nothing. */
  lemma NextMedium(med: Medium, dest: u32, k: nat)
    requires dest % SECTOR_SIZE == 0 && dest <= DISK0_BASE
    ensures FileMedium(med, dest, k + 1) == StoredOver(FileMedium(med, dest, k), Wrap(dest + SECTOR_SIZE * k))
    ensures Wrap(dest + SECTOR_SIZE * k) % SECTOR_SIZE == 0
  {
    hide LoadWord, Wrap;
    var d := dest + SECTOR_SIZE * k;
    WrapAligned(dest, k);
    if d < DISK0_BASE + SECTOR_SIZE { WrapSmall(d); }
    SectorsApart(dest, k);
  }

  /** Sector k of a load. */
  method LoadSector(bus: Bus, r8: u32, r10: u32, ghost med: Medium, ghost start: u32, ghost dest: u32, ghost k: nat)
      returns (res: Result)
    requires bus.Valid() && dest % SECTOR_SIZE == 0 && dest <= DISK0_BASE && MediumOf(bus) == FileMedium(med, dest, k)
    requires r8 == FileLba(start, k) && r10 == Wrap(dest + SECTOR_SIZE * k)
    modifies bus.ram, bus.disk, bus.disk.data, bus.keyboard, bus.keyboard.fifo
    ensures bus.Valid() && bus.disk.present == old(bus.disk.present) && bus.disk.img == old(bus.disk.img)
    ensures res == FileReply(med, start, dest, k)
    ensures res == Done ==> MediumOf(bus) == FileMedium(med, dest, k + 1)
    ensures bus.disk.present && dest + SECTOR_SIZE * (k + 1) <= DISK0_BASE ==> bus.disk.log == old(bus.disk.log) + [r8]
    ensures res == Done && dest + SECTOR_SIZE * (k + 1) <= DISK0_BASE ==>
              Placed(bus.ram[..], old(bus.ram[..]), dest + SECTOR_SIZE * k, SectorOf(FileMedium(med, dest, k), r8))
  {
    hide Copied, Placed, Wrap, MediumOf, FileMedium, FileReply, StoredOver, SectorOf, Reply, Sector, SectorInside;
    NextMedium(med, dest, k);
    if dest + SECTOR_SIZE * (k + 1) <= DISK0_BASE { WrapSmall(dest + SECTOR_SIZE * k); }
    FileReplyIs(med, start, dest, k);
    res := ReadSector(bus, r8, r10);
  }

  /** The load loop: r8 sector, r10 destination, r9 counted down through zero. */
  method LoadFile(bus: Bus, start: u32, r9Start: u32, dest: u32, ghost count: nat) returns (res: Result)
    requires bus.Valid() && dest % SECTOR_SIZE == 0 && dest <= DISK0_BASE
    requires count > 0 && count == if r9Start == 0 then TWO32 else r9Start
    modifies bus.ram, bus.disk, bus.disk.data, bus.keyboard, bus.keyboard.fifo
    ensures bus.Valid() && bus.disk.present == old(bus.disk.present) && bus.disk.img == old(bus.disk.img)
    ensures res == LoadReply(old(MediumOf(bus)), start, dest, count)
    ensures bus.disk.present && dest + SECTOR_SIZE * count <= DISK0_BASE ==>
              bus.disk.log == old(bus.disk.log) + RunOf(start, FileReads(old(MediumOf(bus)), start, dest, count))
    ensures res == Done && FitsBelowDevices(dest, count, bus.ram.Length) ==>
              bus.ram[dest..dest + SECTOR_SIZE * count] == FileBytes(old(MediumOf(bus)), start, dest, count)
  {
    hide Copied, Placed, Wrap, MediumOf, FileMedium, FileReadable, FileReply, StoredOver, SectorOf, FileBytes;
    hide Readable, LoadReply, FileReads, Reply, FileLba, RunOf, Sector, SectorInside;
    ghost var med, log, present := MediumOf(bus), bus.disk.log, bus.disk.present;
    ghost var clear, fits := dest + SECTOR_SIZE * count <= DISK0_BASE, FitsBelowDevices(dest, count, bus.ram.Length);
    ghost var k: nat := 0;
    var r8, r9, r10 := start, r9Start, dest;
    LoadStarts(bus.ram[..], dest, med, start);
    RunOfNone(start);
    while true
      invariant bus.Valid() && bus.disk.present == present && bus.disk.img == old(bus.disk.img)
      invariant k < count && r9 == (if k == 0 then r9Start else count - k)
      invariant r8 == FileLba(start, k) && r10 == Wrap(dest + SECTOR_SIZE * k)
      invariant MediumOf(bus) == FileMedium(med, dest, k)
      invariant forall j :: 0 <= j < k ==> FileReadable(med, start, dest, j)
      invariant clear && present ==> bus.disk.log == log + RunOf(start, k)
      invariant fits ==> bus.ram[dest..dest + SECTOR_SIZE * k] == FileBytes(med, start, dest, k)
      decreases count - k
    {
      RunOfStep(start, k);
      FileReplyIs(med, start, dest, k);
      ghost var m := bus.ram[..];
      res := LoadSector(bus, r8, r10, med, start, dest, k);
      if res != Done {
        LoadStops(med, start, dest, count, k);
        return;
      }
      if fits { LoadedSector(bus.ram[..], m, med, start, dest, k); }
      NextPlaces(start, dest, k);
      r8 := Wrap(r8 as int + 1);
      r10 := Wrap(r10 as int + 512);
      CountDown(r9);
      r9 := Wrap(r9 as int - 1);
      k := k + 1;
      if r9 == 0 { break; }
    }
    LoadStops(med, start, dest, count, count);
  }

  lemma LoadStarts(m: seq<byte>, dest: u32, med: Medium, start: u32)
    requires dest <= DISK0_BASE
    ensures FileMedium(med, dest, 0) == med && FileLba(start, 0) == start && Wrap(dest + SECTOR_SIZE * 0) == dest
    ensures dest <= |m| ==> m[dest..dest + SECTOR_SIZE * 0] == FileBytes(med, start, dest, 0)
  {
    WrapSmall(start);
    WrapSmall(dest);
  }

  lemma FileReplyIs(med: Medium, start: u32, dest: u32, k: nat)
    ensures FileReply(med, start, dest, k) == Reply(FileMedium(med, dest, k), FileLba(start, k))
    ensures FileReadable(med, start, dest, k) <==> FileReply(med, start, dest, k) == Done
  {
  }

  lemma NextPlaces(start: u32, dest: u32, k: nat)
    ensures FileLba(start, k + 1) == Wrap(FileLba(start, k) as int + 1)
    ensures Wrap(dest + SECTOR_SIZE * (k + 1)) == Wrap(Wrap(dest + SECTOR_SIZE * k) as int + 512)
  {
    hide Wrap;
    WrapPlus(start as int + k, 1);
    WrapPlus(dest + SECTOR_SIZE * k, 512);
  }

  lemma CountDown(r9: u32)
    ensures Wrap(r9 as int - 1) == if r9 == 0 then TWO32 - 1 else r9 - 1
  {
  }

  /** Reads and checks the header sector. */
  method ReadHeader(bus: Bus) returns (header: Header)
    requires Ready(bus)
    modifies bus.ram, bus.disk, bus.disk.data, bus.keyboard, bus.keyboard.fifo
    ensures Ready(bus) && MediumOf(bus) == old(MediumOf(bus))
    ensures bus.disk.present == old(bus.disk.present) && bus.disk.img == old(bus.disk.img)
    ensures header == HeaderOf(MediumOf(bus))
    ensures bus.disk.present ==> bus.disk.log == old(bus.disk.log) + [0]
  {
    hide Buffered, LoadWord, MediumOf, SectorOf, Reply;
    var res := ReadBuffer(bus, 0, HEADER_BUF);
    if res != Done { return Refused(Refusal(res)); }
    ghost var h := SectorOf(MediumOf(bus), 0);
    var magic := BufferWord(bus, HEADER_BUF, 0, h);
    if magic != MAGIC { return Refused(FormatError); }
    var sectorSize := BufferWord(bus, HEADER_BUF, 8, h);
    if sectorSize != 512 { return Refused(FormatError); }
    var r8 := BufferWord(bus, HEADER_BUF, 16, h);
    var r9 := BufferWord(bus, HEADER_BUF, 20, h);
    var r10 := BufferWord(bus, HEADER_BUF, 24, h);
    if r8 == 0 { return Refused(FormatError); }
    if r9 == 0 { return Refused(NotFound); }
    if r10 != DIRENT_SIZE { return Refused(FormatError); }
    return Directory(r8, r9);
  }

  /** The start sector and byte length of the file, or why there is none. */
  datatype Lookup = NoFile(outcome: Outcome) | File(start: u32, length: u32)

  /** The scan, and what is read from the entry it finds. */
  method FindFile(bus: Bus, dir: u32, n: u32, stage: Stage) returns (f: Lookup)
    requires Ready(bus) && n > 0
    modifies bus.ram, bus.disk, bus.disk.data, bus.keyboard, bus.keyboard.fifo
    ensures Ready(bus) && MediumOf(bus) == old(MediumOf(bus))
    ensures bus.disk.present == old(bus.disk.present) && bus.disk.img == old(bus.disk.img)
    ensures var found := Search(MediumOf(bus), dir, n, 0, stage);
      var plan := PlanOfSearch(MediumOf(bus), dir, n, found);
      && (bus.disk.present ==> bus.disk.log == old(bus.disk.log) + RunOf(dir, DirectoryReads(n, found)))
      && plan.dirReads == DirectoryReads(n, found)
      && match f
         case NoFile(why) => plan == Stop(why, plan.dirReads)
         case File(start, length) => length > 0 && plan == Load(start, SectorCount(length), plan.dirReads)
  {
    hide Named, Buffered, MediumOf, SectorOf, LoadWord, Search, Reply;
    var found, r6, res := ScanDirectory(bus, dir, n, stage);
    match found {
      case Missing => return NoFile(NotFound);
      case Unreadable(_) => return NoFile(Refusal(res));
      case At(_) =>
        ghost var sector := SectorOf(MediumOf(bus), EntryLba(dir, found.i));
        EntryWords(sector, r6);
        var start := BufferWord(bus, DIR_BUF, r6 + 32, sector);
        var length := BufferWord(bus, DIR_BUF, r6 + 36, sector);
        return if length == 0 then NoFile(NotFound) else File(start, length);
    }
  }

  /** A whole boot stage: header, directory, load, jump. */
  method BootStage(bus: Bus, stage: Stage) returns (outcome: Outcome)
    requires Ready(bus)
    modifies bus.ram, bus.disk, bus.disk.data, bus.keyboard, bus.keyboard.fifo
    ensures bus.Valid() && bus.disk.img == old(bus.disk.img) && bus.disk.present == old(bus.disk.present)
    ensures outcome == OutcomeOf(old(MediumOf(bus)), stage)
    ensures var med := old(MediumOf(bus));
      match PlanOf(med, stage)
      case Stop(_, _) => bus.disk.present ==> bus.disk.log == old(bus.disk.log) + Reads(med, stage)
      case Load(start, count, _) =>
        && (bus.disk.present && LoadAddress(stage) + SECTOR_SIZE * count <= DISK0_BASE ==>
              bus.disk.log == old(bus.disk.log) + Reads(med, stage))
        && (outcome.Jump? && FitsBelowDevices(LoadAddress(stage), count, bus.ram.Length) ==>
              bus.ram[LoadAddress(stage)..LoadAddress(stage) + SECTOR_SIZE * count]
                == FileBytes(med, start, LoadAddress(stage), count))
  {
    hide HeaderOf, PlanOfSearch, FileBytes, FitsBelowDevices, Search, RunOf, FileReads, LoadReply, DirectoryReads, Wrap;
    hide MediumOf;
    ghost var med := MediumOf(bus);
    var header := ReadHeader(bus);
    match header {
      case Refused(why) =>
        RunOfNone(DirectoryLba(med));
        return why;
      case Directory(r8, r9) =>
        var plan := FindFile(bus, r8, r9, stage);
        match plan {
          case NoFile(why) => return why;
          case File(start, length) =>
            var count := Wrap(length as int + 0x1FF) / 512;
            var res := LoadFile(bus, start, count, LoadAddress(stage), SectorCount(length));
            return if res == Done then Jump(LoadAddress(stage)) else Refusal(res);
        }
    }
  }
}
