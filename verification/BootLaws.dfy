/** A boot stage on a disk image, in the bytes of the image: what each makes it do, from header to jump. */
module BootLaws {
  import opened Words
  import opened DiskDevice
  import opened Memory
  import opened SectorRead
  import opened BootSpec
  import opened BootLoader

  // ---- the image ----

  /** The little-endian word at byte k. */
  function WordAt(img: seq<byte>, k: nat): nat
    requires k + 4 <= |img|
  {
    img[k] as int + 256 * img[k + 1] as int + 0x1_0000 * img[k + 2] as int + 0x100_0000 * img[k + 3] as int
  }

  /** Sector lba lies inside the image. */
  predicate Inside(img: seq<byte>, lba: nat) { 512 * lba + 512 <= |img| }

  /** The sector of directory entry i, for a directory that starts at sector d, and the entry's first byte. */
  function DirectorySector(d: nat, i: nat): nat { (d + i / 8) % 0x1_0000_0000 }

  function Place(d: nat, i: nat): nat { 512 * DirectorySector(d, i) + 64 * (i % 8) }

  /** "BOOT.BIN" or "MONITOR.BIN" and a NUL, at byte p. */
  predicate NameAt(img: seq<byte>, p: nat, stage: Stage) {
    && p + 12 <= |img|
    && match stage
       case Bios => img[p..p + 9] == [0x42, 0x4F, 0x4F, 0x54, 0x2E, 0x42, 0x49, 0x4E, 0]
       case Boot => img[p..p + 12] == [0x4D, 0x4F, 0x4E, 0x49, 0x54, 0x4F, 0x52, 0x2E, 0x42, 0x49, 0x4E, 0]
  }

  /** A header that passes every check names directory sector d and n entries. */
  predicate GoodHeader(img: seq<byte>, d: nat, n: nat) {
    && |img| >= 512
    && WordAt(img, 0) == 0x544C_4653 && WordAt(img, 8) == 512
    && WordAt(img, 16) == d != 0 && WordAt(img, 20) == n != 0 && WordAt(img, 24) == 64
  }

  /** The search passes over the entries before k. */
  predicate PassesOver(img: seq<byte>, d: nat, k: nat, stage: Stage) {
    forall i :: 0 <= i < k ==> Inside(img, DirectorySector(d, i)) && !NameAt(img, Place(d, i), stage)
  }

  /** The sectors a file of len bytes takes: rounded up in 32 bits, with 0 for 2^32. */
  function Sectors(len: nat): nat {
    if (len + 511) % 0x1_0000_0000 / 512 == 0 then 0x1_0000_0000 else (len + 511) % 0x1_0000_0000 / 512
  }

  function FileSector(start: nat, j: nat): nat { (start + j) % 0x1_0000_0000 }

  /** All c sectors from `start` lie inside the image. */
  predicate AllInside(img: seq<byte>, start: nat, c: nat) {
    forall j :: 0 <= j < c ==> Inside(img, FileSector(start, j))
  }

  /** Entry i is the first with the name, is not empty, and the whole of its file is inside the image. */
  predicate Loadable(img: seq<byte>, d: nat, i: nat, stage: Stage) {
    && PassesOver(img, d, i, stage) && Inside(img, DirectorySector(d, i)) && NameAt(img, Place(d, i), stage)
    && Place(d, i) + 64 <= |img|
    && WordAt(img, Place(d, i) + 36) != 0
    && AllInside(img, WordAt(img, Place(d, i) + 32), Sectors(WordAt(img, Place(d, i) + 36)))
  }

  lemma PlaceInside(img: seq<byte>, d: nat, i: nat)
    requires Inside(img, DirectorySector(d, i))
    ensures Place(d, i) + 64 <= |img|
  {
  }

  // ---- the model's terms, in bytes ----

  lemma WordIs(img: seq<byte>, a: nat, len: nat, k: nat)
    requires a + len <= |img| && k + 4 <= len
    ensures LoadWord(img[a..a + len], k) == WordAt(img, a + k)
  {
  }

  lemma HeaderIs(img: seq<byte>)
    ensures |img| < 512 ==> HeaderOf(Image(img)) == Refused(DiskError)
    ensures |img| >= 512 ==>
      var good := WordAt(img, 0) == 0x544C_4653 && WordAt(img, 8) == 512 && WordAt(img, 16) != 0;
      && (!good ==> HeaderOf(Image(img)) == Refused(FormatError))
      && (good && WordAt(img, 20) == 0 ==> HeaderOf(Image(img)) == Refused(NotFound))
      && (good && WordAt(img, 20) != 0 && WordAt(img, 24) != 64 ==> HeaderOf(Image(img)) == Refused(FormatError))
      && (good && WordAt(img, 20) != 0 && WordAt(img, 24) == 64 ==>
            HeaderOf(Image(img)) == Directory(WordAt(img, 16), WordAt(img, 20)))
  {
    hide LoadWord, WordAt;
    if |img| >= 512 {
      WordIs(img, 0, 512, 0);
      WordIs(img, 0, 512, 8);
      WordIs(img, 0, 512, 16);
      WordIs(img, 0, 512, 20);
      WordIs(img, 0, 512, 24);
    }
  }

  /** The header's refusals, in the order of its checks. */
  lemma RefusalLaw(img: seq<byte>, stage: Stage)
    ensures |img| < 512 ==> OutcomeOf(Image(img), stage) == DiskError
    ensures |img| >= 512 ==>
      var good := WordAt(img, 0) == 0x544C_4653 && WordAt(img, 8) == 512 && WordAt(img, 16) != 0;
      && (!good ==> OutcomeOf(Image(img), stage) == FormatError)
      && (good && WordAt(img, 20) == 0 ==> OutcomeOf(Image(img), stage) == NotFound)
      && (good && WordAt(img, 20) != 0 && WordAt(img, 24) != 64 ==> OutcomeOf(Image(img), stage) == FormatError)
  {
    hide HeaderOf, WordAt, Search, LoadReply;
    HeaderIs(img);
  }

  lemma EntryIs(img: seq<byte>, d: u32, i: nat, stage: Stage)
    ensures EntryLba(d, i) == DirectorySector(d, i)
    ensures EntryReadable(Image(img), d, i) <==> Inside(img, DirectorySector(d, i))
    ensures EntryReadable(Image(img), d, i) ==>
      var e, p := Entry(Image(img), d, i), Place(d, i);
      && p + 64 <= |img|
      && (Named(e, stage) <==> NameAt(img, p, stage))
      && LoadWord(e, 32) == WordAt(img, p + 32) && LoadWord(e, 36) == WordAt(img, p + 36)
  {
    hide LoadWord, WordAt, NameAt, Named;
    if Inside(img, DirectorySector(d, i)) {
      var p := Place(d, i);
      PlaceInside(img, d, i);
      assert Entry(Image(img), d, i) == img[p..p + 64];
      WordIs(img, p, 64, 32);
      WordIs(img, p, 64, 36);
      NameIs(img, p, stage);
    }
  }

  lemma NameIs(img: seq<byte>, p: nat, stage: Stage)
    requires p + 64 <= |img|
    ensures Named(img[p..p + 64], stage) <==> NameAt(img, p, stage)
  {
    var e := img[p..p + 64];
    assert e[..9] == img[p..p + 9] && e[..12] == img[p..p + 12];
  }

  lemma SectorsIs(len: u32)
    requires len > 0
    ensures SectorCount(len) == Sectors(len)
  {
  }

  /** A load from an image is done exactly when every sector it asks for is inside. */
  lemma LoadIs(img: seq<byte>, start: u32, dest: u32, c: nat)
    ensures LoadReply(Image(img), start, dest, c) == if AllInside(img, start, c) then Done else Failed
    ensures AllInside(img, start, c) ==> FileReads(Image(img), start, dest, c) == c
    ensures AllInside(img, start, c) <==> forall j :: 0 <= j < c ==> FileReadable(Image(img), start, dest, j)
  {
    hide FileMedium;
    forall j: nat
      ensures FileLba(start, j) == FileSector(start, j)
      ensures FileReadable(Image(img), start, dest, j) <==> Inside(img, FileSector(start, j))
      ensures FileReply(Image(img), start, dest, j) == if FileReadable(Image(img), start, dest, j) then Done else Failed
    {
      ImageFile(img, start, dest, j);
    }
    var m := Readable(Image(img), start, dest, c, 0);
  }

  // ---- the laws ----

  /** A good header and n entries that are all there and none of which has the name: the file is not found. */
  lemma MissingLaw(img: seq<byte>, d: nat, n: nat, stage: Stage)
    requires GoodHeader(img, d, n) && PassesOver(img, d, n, stage)
    ensures OutcomeOf(Image(img), stage) == NotFound
  {
    SearchIs(img, d, n, n, stage);
    hide HeaderOf, WordAt, Search, LoadReply, NameAt, PassesOver, DirectorySector, Place;
    HeaderIs(img);
  }

  lemma SearchIs(img: seq<byte>, d: nat, n: nat, i: nat, stage: Stage)
    requires d < 0x1_0000_0000 && i <= n && PassesOver(img, d, i, stage)
    ensures i == n ==> Search(Image(img), d, n, 0, stage) == Missing
    ensures i < n && !Inside(img, DirectorySector(d, i)) ==> Search(Image(img), d, n, 0, stage) == Unreadable(i)
    ensures i < n && Inside(img, DirectorySector(d, i)) && NameAt(img, Place(d, i), stage) ==>
              Search(Image(img), d, n, 0, stage) == At(i)
  {
    hide Entry, EntryReadable, Named, Inside, NameAt, DirectorySector, Place, Search, EntryLba;
    forall k: nat
      ensures EntryReadable(Image(img), d, k) <==> Inside(img, DirectorySector(d, k))
      ensures EntryReadable(Image(img), d, k) ==>
                (Named(Entry(Image(img), d, k), stage) <==> NameAt(img, Place(d, k), stage))
    {
      EntryIs(img, d, k, stage);
    }
    assert NoMatchBefore(Image(img), d, i, stage);
    NothingBefore(Image(img), d, stage);
    SearchMeaning(Image(img), d, n, 0, stage);
  }

  /** A good header and a first entry i that is out of reach or has the name decide the outcome: a disk error when the
      entry's sector is not inside the image, not found when the file is empty, and otherwise a jump to the stage's load
      address, or a disk error when a sector of the file is missing. */
  lemma EntryLaw(img: seq<byte>, d: nat, n: nat, i: nat, stage: Stage)
    requires GoodHeader(img, d, n) && i < n && PassesOver(img, d, i, stage)
    ensures !Inside(img, DirectorySector(d, i)) ==> OutcomeOf(Image(img), stage) == DiskError
    ensures Inside(img, DirectorySector(d, i)) && NameAt(img, Place(d, i), stage) ==>
      && Place(d, i) + 64 <= |img|
      && var start, len := WordAt(img, Place(d, i) + 32), WordAt(img, Place(d, i) + 36);
      OutcomeOf(Image(img), stage)
        == if len == 0 then NotFound
           else if !AllInside(img, start, Sectors(len)) then DiskError
           else if stage == Bios then Jump(0x1_0000) else Jump(0x2_0000)
  {
    EntryIs(img, d, i, stage);
    SearchIs(img, d, n, i, stage);
    hide HeaderOf, Search, LoadReply, NameAt, PassesOver, DirectorySector, Place, Entry, EntryReadable, Named;
    hide LoadWord, WordAt, Sectors, SectorCount, AllInside, EntryLba;
    HeaderIs(img);
    if Inside(img, DirectorySector(d, i)) && NameAt(img, Place(d, i), stage) {
      var start, len := WordAt(img, Place(d, i) + 32), WordAt(img, Place(d, i) + 36);
      if len != 0 {
        SectorsIs(len);
        LoadIs(img, start, LoadAddress(stage), Sectors(len));
      }
    }
  }

  /** A stage jumps, and then to its load address, exactly when the header is good and some entry is the first with the
      name, not empty and wholly inside the image. */
  lemma JumpLaw(img: seq<byte>, stage: Stage)
    ensures OutcomeOf(Image(img), stage).Jump? <==>
      && |img| >= 512 && GoodHeader(img, WordAt(img, 16), WordAt(img, 20))
      && exists i: nat :: i < WordAt(img, 20) && Loadable(img, WordAt(img, 16), i, stage)
    ensures OutcomeOf(Image(img), stage).Jump? ==>
              OutcomeOf(Image(img), stage) == if stage == Bios then Jump(0x1_0000) else Jump(0x2_0000)
  {
    hide OutcomeOf, WordAt, PassesOver, NameAt, DirectorySector, Place, AllInside, Sectors, Inside;
    RefusalLaw(img, stage);
    if |img| >= 512 && GoodHeader(img, WordAt(img, 16), WordAt(img, 20)) {
      var d, n := WordAt(img, 16), WordAt(img, 20);
      var i := FirstStop(img, d, n, stage);
      if i == n {
        MissingLaw(img, d, n, stage);
      } else {
        EntryLaw(img, d, n, i, stage);
        assert OutcomeOf(Image(img), stage).Jump? ==> Loadable(img, d, i, stage);
      }
      forall k: nat | k < n && Loadable(img, d, k, stage)
        ensures OutcomeOf(Image(img), stage).Jump?
      {
        EntryLaw(img, d, n, k, stage);
      }
    }
  }

  /** Where a search of n entries stops, or n. */
  lemma {:induction false} FirstStop(img: seq<byte>, d: nat, n: nat, stage: Stage) returns (i: nat)
    ensures i <= n && PassesOver(img, d, i, stage)
    ensures i < n ==> !Inside(img, DirectorySector(d, i)) || NameAt(img, Place(d, i), stage)
  {
    hide Inside, NameAt, DirectorySector, Place;
    if n == 0 {
      i := 0;
    } else {
      i := FirstStop(img, d, n - 1, stage);
      if i == n - 1 && Inside(img, DirectorySector(d, i)) && !NameAt(img, Place(d, i), stage) { i := n; }
    }
  }

  /** n sector numbers from `first` on. */
  function SectorRun(first: nat, n: nat): seq<u32> { seq<u32>(n, (j: nat) => FileSector(first, j)) }

  /** The file of a loadable entry, as the directory gives it. */
  predicate FileAt(img: seq<byte>, d: nat, i: nat, start: nat, c: nat) {
    && Place(d, i) + 64 <= |img|
    && start == WordAt(img, Place(d, i) + 32) && c == Sectors(WordAt(img, Place(d, i) + 36))
  }

  lemma GoodHeaderIs(img: seq<byte>, d: nat, n: nat)
    requires GoodHeader(img, d, n)
    ensures d < 0x1_0000_0000 && 0 < n < 0x1_0000_0000 && HeaderOf(Image(img)) == Directory(d, n)
  {
    hide HeaderOf, WordAt;
    HeaderIs(img);
  }

  lemma LoadableParts(img: seq<byte>, d: nat, i: nat, stage: Stage)
    requires Loadable(img, d, i, stage)
    ensures PassesOver(img, d, i, stage) && Inside(img, DirectorySector(d, i)) && NameAt(img, Place(d, i), stage)
    ensures Place(d, i) + 64 <= |img| && WordAt(img, Place(d, i) + 36) != 0
    ensures AllInside(img, WordAt(img, Place(d, i) + 32), Sectors(WordAt(img, Place(d, i) + 36)))
  {
    hide PassesOver, Inside, NameAt, Place, WordAt, AllInside, Sectors, DirectorySector;
  }

  lemma FilePlace(img: seq<byte>, d: nat, i: nat, start: nat, c: nat)
    requires FileAt(img, d, i, start, c)
    ensures Place(d, i) + 64 <= |img| && c > 0 && start < 0x1_0000_0000
    ensures start == WordAt(img, Place(d, i) + 32) && c == Sectors(WordAt(img, Place(d, i) + 36))
  {
    hide Place;
  }

  lemma PlanIs(img: seq<byte>, d: u32, n: u32, i: nat, stage: Stage, start: nat, c: nat)
    requires HeaderOf(Image(img)) == Directory(d, n) && i < n && Search(Image(img), d, n, 0, stage) == At(i)
    requires EntryReadable(Image(img), d, i)
    requires var e := Entry(Image(img), d, i);
      start == LoadWord(e, 32) && LoadWord(e, 36) != 0 && c == SectorCount(LoadWord(e, 36))
    ensures PlanOf(Image(img), stage) == Load(start, c, i / 8 + 1)
  {
    hide HeaderOf, Search, EntryReadable, Entry, LoadWord, SectorCount;
  }

  lemma FoundEntry(img: seq<byte>, d: nat, n: nat, i: nat, stage: Stage, start: nat, c: nat)
    requires GoodHeader(img, d, n) && i < n && Loadable(img, d, i, stage) && FileAt(img, d, i, start, c)
    ensures HeaderOf(Image(img)) == Directory(d, n) && start < 0x1_0000_0000
    ensures PlanOf(Image(img), stage) == Load(start, c, i / 8 + 1)
    ensures AllInside(img, start, c)
  {
    hide *;
    GoodHeaderIs(img, d, n);
    LoadableParts(img, d, i, stage);
    FilePlace(img, d, i, start, c);
    EntryIs(img, d, i, stage);
    SearchIs(img, d, n, i, stage);
    SectorsIs(WordAt(img, Place(d, i) + 36));
    PlanIs(img, d, n, i, stage, start, c);
  }

  /** What is asked for when the stage ends early: sector 0 alone when the header is refused, the directory up to the
      entry that settles it when the search fails or the file is empty, and the file up to its first missing sector. */
  lemma RefusedReads(img: seq<byte>, stage: Stage)
    requires !(|img| >= 512 && GoodHeader(img, WordAt(img, 16), WordAt(img, 20)))
    ensures Reads(Image(img), stage) == [0]
  {
    hide HeaderOf, WordAt, Search, RunOf, FileReads;
    HeaderIs(img);
    RunOfNone(0);
  }

  lemma MissingReads(img: seq<byte>, d: nat, n: nat, stage: Stage)
    requires GoodHeader(img, d, n) && PassesOver(img, d, n, stage)
    ensures Reads(Image(img), stage) == [0] + SectorRun(d, (n - 1) / 8 + 1)
  {
    hide HeaderOf, WordAt, Search, NameAt, PassesOver, DirectorySector, Place, RunOf, SectorRun, FileReads, GoodHeader;
    GoodHeaderIs(img, d, n);
    SearchIs(img, d, n, n, stage);
    RunIs(d, (n - 1) / 8 + 1);
  }

  lemma StoppedReads(img: seq<byte>, d: nat, n: nat, i: nat, stage: Stage)
    requires GoodHeader(img, d, n) && i < n && PassesOver(img, d, i, stage)
    requires Inside(img, DirectorySector(d, i)) ==>
               NameAt(img, Place(d, i), stage) && Place(d, i) + 64 <= |img| && WordAt(img, Place(d, i) + 36) == 0
    ensures Reads(Image(img), stage) == [0] + SectorRun(d, i / 8 + 1)
  {
    hide HeaderOf, WordAt, Search, NameAt, PassesOver, DirectorySector, Place, RunOf, SectorRun, FileReads, GoodHeader;
    hide Entry, EntryReadable, LoadWord, Named, Inside, EntryLba, SectorCount;
    GoodHeaderIs(img, d, n);
    EntryIs(img, d, i, stage);
    SearchIs(img, d, n, i, stage);
    RunIs(d, i / 8 + 1);
  }

  lemma ShortFileReads(img: seq<byte>, d: nat, n: nat, i: nat, stage: Stage, start: nat, c: nat, j: nat)
    requires GoodHeader(img, d, n) && i < n && PassesOver(img, d, i, stage)
    requires Inside(img, DirectorySector(d, i)) && NameAt(img, Place(d, i), stage)
    requires FileAt(img, d, i, start, c) && WordAt(img, Place(d, i) + 36) != 0
    requires j < c && AllInside(img, start, j) && !Inside(img, FileSector(start, j))
    ensures Reads(Image(img), stage) == [0] + SectorRun(d, i / 8 + 1) + SectorRun(start, j + 1)
  {
    hide *;
    GoodHeaderIs(img, d, n);
    FilePlace(img, d, i, start, c);
    EntryIs(img, d, i, stage);
    SearchIs(img, d, n, i, stage);
    SectorsIs(WordAt(img, Place(d, i) + 36));
    PlanIs(img, d, n, i, stage, start, c);
    RunIs(d, i / 8 + 1);
    RunIs(start, j + 1);
    ShortReads(img, start, LoadAddress(stage), c, j);
    ReadsAre(Image(img), stage, d, n, start, c, i / 8 + 1);
  }

  lemma ShortReads(img: seq<byte>, start: u32, dest: u32, c: nat, j: nat)
    requires j < c && AllInside(img, start, j) && !Inside(img, FileSector(start, j))
    ensures FileReads(Image(img), start, dest, c) == j + 1
  {
    hide FileReads, FileReadable, FileReply;
    LoadIs(img, start, dest, j);
    assert forall k :: 0 <= k < j ==> FileReadable(Image(img), start, dest, k);
    ImageFile(img, start, dest, j);
    LoadStops(Image(img), start, dest, c, j);
  }

  lemma ReadsAre(med: Medium, stage: Stage, d: u32, n: u32, start: u32, c: nat, dirReads: nat)
    requires HeaderOf(med) == Directory(d, n) && PlanOf(med, stage) == Load(start, c, dirReads)
    ensures Reads(med, stage)
              == [0] + RunOf(d, dirReads) + RunOf(start, FileReads(med, start, LoadAddress(stage), c))
  {
    hide HeaderOf, PlanOf, RunOf, FileReads;
  }

  /** What such an image makes the stage ask for, and how it ends. */
  lemma FoundReads(img: seq<byte>, d: nat, n: nat, i: nat, stage: Stage, start: nat, c: nat)
    requires GoodHeader(img, d, n) && i < n && Loadable(img, d, i, stage) && FileAt(img, d, i, start, c)
    ensures OutcomeOf(Image(img), stage) == Jump(if stage == Bios then 0x1_0000 else 0x2_0000)
    ensures Reads(Image(img), stage) == [0] + SectorRun(d, i / 8 + 1) + SectorRun(start, c)
  {
    hide HeaderOf, PlanOf, LoadReply, FileReads, RunOf, SectorRun, AllInside, GoodHeader, Loadable, FileAt;
    FoundEntry(img, d, n, i, stage, start, c);
    LoadIs(img, start, LoadAddress(stage), c);
    RunIs(d, i / 8 + 1);
    RunIs(start, c);
  }

  lemma RunIs(first: u32, n: nat)
    ensures RunOf(first, n) == SectorRun(first, n)
  {
  }

  /** What it loads. */
  lemma FoundBytes(img: seq<byte>, start: u32, dest: u32, c: nat)
    requires AllInside(img, start, c) && c > 0 && start + c <= 0x1_0000_0000
    ensures forall j :: 0 <= j < c ==> FileReadable(Image(img), start, dest, j)
    ensures 512 * (start + c) <= |img|
    ensures FileBytes(Image(img), start, dest, c) == img[512 * start..512 * (start + c)]
  {
    hide FileReadable, FileBytes, AllInside;
    LoadIs(img, start, dest, c);
    FileBytesContiguous(img, start, dest, c);
  }

  /** A stage on a disk image, end to end: with a good header and a loadable entry it jumps, has asked for sector 0, the
      directory up to that entry and the file, in this order, and has the file in memory, byte for byte. */
  method BootFromImage(bus: Bus, stage: Stage, ghost d: nat, ghost n: nat, ghost i: nat, ghost start: nat,
      ghost c: nat) returns (outcome: Outcome)
    requires Ready(bus) && bus.disk.present
    requires GoodHeader(bus.disk.img, d, n) && i < n && Loadable(bus.disk.img, d, i, stage)
    requires FileAt(bus.disk.img, d, i, start, c)
    requires var end := (if stage == Bios then 0x1_0000 else 0x2_0000) + 512 * c;
      end <= bus.ram.Length && end <= 0x0900_0000
    modifies bus.ram, bus.disk, bus.disk.data, bus.keyboard, bus.keyboard.fifo
    ensures var img, dest := old(bus.disk.img), if stage == Bios then 0x1_0000 else 0x2_0000;
      && bus.Valid() && bus.disk.img == img
      && outcome == Jump(dest)
      && bus.disk.log == old(bus.disk.log) + [0] + SectorRun(d, i / 8 + 1) + SectorRun(start, c)
      && (start + c <= 0x1_0000_0000 ==>
            512 * (start + c) <= |img| && bus.ram[dest..dest + 512 * c] == img[512 * start..512 * (start + c)])
  {
    hide WindowBehind, Behind, PlanOf, Reads, FileBytes, Loadable, GoodHeader, OutcomeOf, FileReadable, SectorRun;
    hide AllInside, FileAt, RouteOf;
    ghost var img, log := bus.disk.img, bus.disk.log;
    FoundEntry(img, d, n, i, stage, start, c);
    FoundReads(img, d, n, i, stage, start, c);
    FilePlace(img, d, i, start, c);
    if start + c <= TWO32 { FoundBytes(img, start, LoadAddress(stage), c); }
    outcome := BootStage(bus, stage);
    assert bus.disk.log == log + Reads(Image(img), stage);
  }
}
