/** The exact conditions at concrete inputs: where the code does not do what one would expect. */
module Witnesses {
  import opened Bytes
  import opened Blocks
  import opened Multiples
  import opened CStrings
  import opened FatLayout
  import opened FatNames
  import opened NewEntries
  import opened FatDirectory
  import opened Fat16
  import opened ImageWriter
  import opened InjectFacts
  import opened InjectTheorems
  import opened BlankVolumes
  import opened HeapModel
  import opened Paging
  import opened ProcessMemory
  import opened ElfLoader
  import opened ProcessLoader
  import opened LoadStarts
  import Parser = PathParser

  /** One byte into a file of two, a read of 2^32 - 1 bytes is not clipped at all (src/fs/fat16.c:217-220). */
  lemma LongReadNotClipped()
    ensures Clipped(1, 2, 1, 0xFFFF_FFFF) == 0xFFFF_FFFF
  {
  }

  /** In a file of 2^31 bytes a seek from the start to a negative offset is accepted (src/fs/fat16.c:285-304). */
  lemma NegativeSeekAccepted()
    ensures SeekTarget(0, 0x8000_0000, -0x8000_0000, SeekSet) < 0 && SeekAccepts(0, 0x8000_0000, -0x8000_0000, SeekSet)
  {
  }

  /** At position 3 of a file of 10 bytes: 2 from the start, 2 on, 2 before the end, and none behind it. */
  lemma SeeksFromThree()
    ensures SeekTarget(3, 10, 2, SeekSet) == 2 && SeekTarget(3, 10, 2, SeekCur) == 5
    ensures SeekTarget(3, 10, -2, SeekEnd) == 8
    ensures !SeekAccepts(3, 10, 1, SeekEnd) && !SeekAccepts(3, 10, -4, SeekCur)
  {
  }

  /** With 64 KiB clusters and a data area that starts in sector 2305, the position of the last byte of the
      last possible cluster wraps to 511 (src/fs/fat16.c:84-89). */
  lemma LastClusterWraps()
    ensures var b := Bpb(512, 128, 2303, 1, 16, 1, 0x29, 0xAA55);
            && ClusterStart(b, 0xFFEF) + 0xFFFF == TWO_32 + 511 && ReaderPosition(b, 0xFFEF, 0xFFFF) == 511
  {
    var b := Bpb(512, 128, 2303, 1, 16, 1, 0x29, 0xAA55);
    TimesIsProduct(0xFFED, ClusterSize(b));
    TimesIsProduct(1, FatBytes(b));
  }

  /** A file of two clusters on the blank volume, which has one: the scan goes on past the volume's clusters
      and takes number 3, whose entry happens to be 0 (inject_file.py:46-58). */
  lemma ScanOutside()
    ensures ImageWriter.Scan(BlankImage(), 512, 2, 2, []) == Some([2, 3]) && BlankVolume().limit == 3
  {
    var img := BlankImage();
    assert Le16At(img, 516) == 0 && Le16At(img, 518) == 0;
    hide BlankImage, Le16At;
    var first: seq<nat> := [2];
    assert first + [3] == [2, 3] && [] + [2] == first;
    assert ImageWriter.Scan(img, 512, 2, 3, first) == Some(first + [3]);
  }

  /** On the blank volume no empty file can be injected, though any file of one cluster can: the scan runs
      past the end of the image (inject_file.py:46-58). */
  lemma EmptyFileFails(name: seq<Byte>)
    ensures Injected(BlankImage(), [], name).0 != Done
  {
    BlankCharted();
    BlankPlaces();
    hide Injected, BlankImage, Charted, SomeZero;
    BlankSlot();
    EmptyFileExact(BlankImage(), BlankVolume(), name);
    TooShort(BlankImage(), BLANK_BPB);
  }

  lemma TooShort(img: seq<Byte>, b: Bpb)
    requires |img| < 2 * CLUSTER_NUMBERS
    ensures !SomeZero(img, b)
  {
  }

  lemma BlankSlot()
    ensures DataStart(BLANK_BPB) <= |BlankImage()| && FreeSlotLeft(RootItems(BlankImage(), BLANK_BPB))
  {
    BlankRoot(0);
    hide BlankImage, RootItems;
  }

  function Item(first: Byte): DirItem
  {
    DirItem([first] + seq(10, i => SPACE), 0, 0, 0)
  }

  /** A live item in the cluster after one with an end mark is listed, and never found (src/fs/fat16.c:186-202). */
  lemma ListedNotFound(a: Byte)
    requires a != 0 && a != 0xE5
    ensures ListedItems([[Item(0)], [Item(a)]]) == [Item(a)] && LiveItems(Flatten([[Item(0)], [Item(a)]])) == []
  {
    assert [[Item(0)], [Item(a)]][1..] == [[Item(a)]] && [Item(a)][1..] == [];
    assert LiveItems([Item(a)]) == [Item(a)] + LiveItems([]);
    assert ListedItems([[Item(a)]]) == [Item(a)] + ListedItems([]);
    assert Flatten([[Item(0)], [Item(a)]])[0] == Item(0);
  }

  /** A base name of nine letters loses the last (inject_file.py:81-85). */
  lemma NineLetters(name: seq<Byte>)
    requires |name| == 9 && DOT !in name
    ensures DecodeName(EncodeName(name)) != UpperAll(name)
  {
    NameRoundTrip(name);
    assert BeforeDot(name) == name by { WithoutDot(name); }
  }

  /** The bytes of a text of 8-bit characters. */
  function BytesOf(text: string): (r: seq<Byte>)
    ensures |r| == |text|
  {
    seq(|text|, i requires 0 <= i < |text| => text[i] as int % 0x100)
  }

  lemma BlankParts()
    ensures Splits(BytesOf("blank.bin"), BytesOf("blank"), BytesOf("bin"))
  {
    assert BytesOf("blank.bin") == BytesOf("blank") + ['.' as int] + BytesOf("bin");
  }

  lemma BlankBase()
    ensures Spells(BytesOf("BLANK   "), BytesOf("blank"))
  {
    var to, from := BytesOf("BLANK   "), BytesOf("blank");
    assert to[0] == 0x42 && from[0] == 0x62 && to[1] == 0x4C && from[1] == 0x6C && to[2] == 0x41 && from[2] == 0x61;
    assert to[3] == 0x4E && from[3] == 0x6E && to[4] == 0x4B && from[4] == 0x6B;
    assert to[5] == 0x20 && to[6] == 0x20 && to[7] == 0x20;
    hide BytesOf;
  }

  lemma BlankExtension()
    ensures Spells(BytesOf("BIN"), BytesOf("bin"))
  {
  }

  lemma BlankShown()
    ensures UpperAll(BytesOf("blank.bin")) == BytesOf("BLANK.BIN")
    ensures 0 !in BytesOf("blank.bin") && SPACE !in BytesOf("blank.bin")
    ensures BytesOf("BLANK   BIN") == BytesOf("BLANK   ") + BytesOf("BIN")
  {
  }

  lemma SpelledOnce(a: seq<Byte>, b: seq<Byte>, part: seq<Byte>)
    requires |a| == |b| && Spells(a, part) && Spells(b, part)
    ensures a == b
  {
  }

  /** The name field that the Makefile's file gets, and the name it shows (inject_file.py:81-85). */
  lemma BlankBin()
    ensures EncodeName(BytesOf("blank.bin")) == BytesOf("BLANK   BIN")
    ensures DecodeName(EncodeName(BytesOf("blank.bin"))) == BytesOf("BLANK.BIN")
  {
    BlankParts();
    hide BytesOf, Splits, Spells, DecodeName, EncodeName, UpperAll;
    BlankParts();
    BlankBase();
    BlankExtension();
    BlankShown();
    var name, base, ext := BytesOf("blank.bin"), BytesOf("blank"), BytesOf("bin");
    BlankFits(name, base, ext);
    NameSpells(name, base, ext);
    var raw := EncodeName(name);
    SpelledOnce(raw[..8], BytesOf("BLANK   "), base);
    SpelledOnce(raw[8..11], BytesOf("BIN"), ext);
    assert raw == raw[..8] + raw[8..11];
    NameRoundTrip(name);
  }

  lemma BlankFits(name: seq<Byte>, base: seq<Byte>, ext: seq<Byte>)
    requires Splits(name, base, ext) && |name| == |base| + 1 + |ext| && |base| <= 8 && 1 <= |ext| <= 3
    requires 0 !in name && SPACE !in name
    ensures Fits83(name)
  {
    SplitIs(name, base, ext);
    SecondDot(name, base, ext);
    hide BeforeDot, Splits;
    assert name[|base| + 1..] == ext;
    assert DOT !in ext;
  }

  lemma {:induction false} WithoutDot(name: seq<Byte>)
    requires DOT !in name
    ensures BeforeDot(name) == name
  {
    if name != [] {
      WithoutDot(name[1..]);
    }
  }

  /** An aligned request that rejects the first block for its place cuts a live block off the list
      (src/memory/heap/kheap.c:46-65). */
  lemma LiveBlockCutOff()
    ensures var h := Heap(0x100A0, [Block(0x10000, 64, true), Block(0x10050, 64, false)], [0, 1]);
            && Inv(h) && Indexed(h) && !h.blocks[1].free
            && Allocate(h, 32, true).0.list == [0, 2]
  {
    var h := Heap(0x100A0, [Block(0x10000, 64, true), Block(0x10050, 64, false)], [0, 1]);
    assert FirstFit(h, 32, 0) == 0;
    assert h.list[..1] == [0];
  }

  /** On a heap without blocks whose break starts a page, a raw image of 4090 bytes moves the break back into
      its own tail and is not loaded, and one of 4080 bytes does not (src/task/process.c:86-98);
      `HeapModel.TailOf4090` says which bytes the next header covers. */
  lemma RawTails(content: seq<Byte>, path: seq<Byte>, r: ElfLoader.Outcome)
    requires |content| >= 4 && !IsElf(content) && Parser.PartCount(path) == 1
    requires LoadFits(content, path, Heap(0x10_0000, [], [])) && LoadOutcome(r, content, path, Heap(0x10_0000, [], []))
    ensures |content| == 4090 ==> r != Loaded
    ensures |content| == 4080 ==> r != Halted
  {
    hide Start, StartClosed, IsElf, LoadFits, LoadOutcome;
    if |content| <= 4090 {
      FreshOutcome(0x10_0000, content, path, r);
    }
  }

  /** What `LoadOutcome` says of a raw file of the root directory and a heap without blocks. */
  lemma FreshOutcome(end: nat, content: seq<Byte>, path: seq<Byte>, r: ElfLoader.Outcome)
    requires 4 <= |content| < 0x7FFF_F000 && !IsElf(content) && Parser.PartCount(path) == 1
    requires LoadFits(content, path, Heap(end, [], [])) && LoadOutcome(r, content, path, Heap(end, [], []))
    ensures r == Loaded ==> (end + RAW_START) % PAGE <= PAGE - HEADER && |content| % PAGE <= PAGE - HEADER
    ensures r == Halted ==> (end + RAW_START) % PAGE > PAGE - HEADER || |content| % PAGE > PAGE - HEADER
  {
    hide Start, StartClosed, IsElf, LoadFits;
    var h := Heap(end, [], []);
    assert Inv(h) && PagesLive(h);
    FreshStart(end, false);
    StartKeepsPages(h, 1, false);
    hide Inv, PagesLive;
  }

  /** With the break 1793 bytes into a page no raw file of the root directory is loaded on a heap without
      blocks, though nothing is wrong with the file: the small requests leave the break 11 bytes before the
      end of a page, and the request for the image moves it back over the mount just made
      (src/task/process.c:66-86). Five bytes earlier a file of 100 bytes is loaded. */
  lemma BreakAt1793(content: seq<Byte>, path: seq<Byte>, end: nat, r: ElfLoader.Outcome)
    requires |content| == 100 && !IsElf(content) && Parser.PartCount(path) == 1
    requires LoadFits(content, path, Heap(end, [], [])) && LoadOutcome(r, content, path, Heap(end, [], []))
    ensures LoadForward(content) && TailsLoose(content)
    ensures end == 0x10_0000 + 1793 ==>
      r != Loaded && AlignBump(Start(Heap(end, [], []), 1, false).brk) == Start(Heap(end, [], []), 1, false).brk - 5
    ensures end == 0x10_0000 + 1788 ==> r != Halted
  {
    hide Start, StartClosed, IsElf, LoadFits, LoadOutcome;
    FreshOutcome(end, content, path, r);
    FreshStart(end, false);
  }

  /** After a segment of 4090 bytes at 4 MB, no program with a second segment is loaded from any heap whose
      large blocks on pages are live (src/loader/elf.c:56-57). */
  lemma SegmentTail(content: seq<Byte>, path: seq<Byte>, h: Heap, r: ElfLoader.Outcome)
    requires LoadOk(content) && IsElf(content) && Sized(content) && PhdrCount(content) >= 2
    requires HasPhdr(content, 0) && PhdrAt(content, 0) == Phdr(PT_LOAD, 0, 0x40_0000, 4090, 4090) && Asks(content, 1)
    requires Inv(h) && PagesLive(h) && LoadFits(content, path, h) && LoadOutcome(r, content, path, h)
    ensures r != Loaded
  {
    hide Start, StartClosed, ElfOk, IsElf, LoadFits, Sized, TailsLoose, Inv, PagesLive, Parser.PartCount;
    hide HasPhdr, PhdrAt, PhdrCount, ForwardUpTo;
    LargeEnough(content);
    StartKeepsPages(h, Parser.PartCount(path), true);
    TwoSegments(content);
    if ForwardUpTo(content, PhdrCount(content), SlotsBelow(16)) {
      ForwardPrefix(content, 2, PhdrCount(content), SlotsBelow(16));
    }
  }

  lemma LargeEnough(content: seq<Byte>)
    requires LoadOk(content) && IsElf(content)
    ensures |content| >= EHDR_SIZE
  {
    hide IsElf;
  }

  lemma TwoSegments(content: seq<Byte>)
    requires |content| >= EHDR_SIZE && HasPhdr(content, 0) && Asks(content, 1)
    requires PhdrAt(content, 0) == Phdr(PT_LOAD, 0, 0x40_0000, 4090, 4090)
    ensures !ForwardUpTo(content, 2, SlotsBelow(16))
  {
    hide HasPhdr, PhdrAt, SegmentForward, SlotsBelow;
    var first := Phdr(PT_LOAD, 0, 0x40_0000, 4090, 4090);
    SlotBelow16();
    assert SlotsAfter(content, 0, SlotsBelow(16)) == SlotsBelow(16);
    assert !SteadyAfter(SlotsBelow(16), first);
    assert !SteadyUpTo(content, 1, SlotsBelow(16));
  }

  lemma SlotBelow16()
    ensures SegmentSlots(Phdr(PT_LOAD, 0, 0x40_0000, 4090, 4090)) <= SlotsBelow(16)
  {
    assert PagesOf(4090) == 1;
    assert SlotsOf(0x40_0000, 1) == SlotsOf(0x40_0000, 0) + SlotOf(0x40_0000);
  }

  lemma {:induction false} ForwardPrefix(content: seq<Byte>, k: nat, n: nat, slots: set<nat>)
    requires |content| >= EHDR_SIZE && k <= n && ForwardUpTo(content, n, slots)
    ensures ForwardUpTo(content, k, slots)
  {
    if k < n {
      ForwardPrefix(content, k, n - 1, slots);
    }
  }
}
