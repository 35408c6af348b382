/** All that a loaded process sees, address by address, through the page tables in memory as a 32-bit
    processor reads them. */
module ProcessViews {
  import opened Bytes
  import opened HeapModel
  import opened KernelHeaps
  import opened Paging
  import opened ProcessMemory
  import opened ElfLoader
  import opened ElfFormats
  import opened ProcessLoader

  // ----- The processor -----

  /** Where an address leads, and what the process may do there. */
  datatype Access = Access(phys: nat, writable: bool, user: bool)

  function WordAt(m: seq<Byte>, at: nat): nat
    requires at + 4 <= |m|
  {
    var b0: int, b1: int, b2: int, b3: int := m[at], m[at + 1], m[at + 2], m[at + 3];
    b0 + 0x100 * b1 + 0x1_0000 * b2 + 0x100_0000 * b3
  }

  /** Two-level translation with 4 KiB pages: bit 0 of an entry is "present", bit 1 "writable", bit 2 "user", and
      its upper 20 bits are the frame. */
  function Translate(m: seq<Byte>, cr3: nat, va: U32): Option<Access>
    requires cr3 + 0x1000 <= |m| == 0x1_0000_0000
  {
    var pde := WordAt(m, cr3 + 4 * (va / 0x40_0000));
    if pde % 2 == 0 then None
    else
      var pte := WordAt(m, pde - pde % 0x1000 + 4 * (va / 0x1000 % 1024));
      if pte % 2 == 0 then None
      else Some(Access(pte - pte % 0x1000 + va % 0x1000, pde / 2 % 2 == 1 && pte / 2 % 2 == 1,
          pde / 4 % 2 == 1 && pte / 4 % 2 == 1))
  }

  lemma Indices(va: U32)
    ensures va / 0x1000 / ENTRIES == va / 0x40_0000 < 1024 && va / 0x1000 < PAGES && va / 0x1000 % ENTRIES < 1024
  {
  }

  lemma FrameBelow(entry: U32)
    ensures 0 <= FrameOf(entry) && FrameOf(entry) + 0x1000 <= TWO_32 && FrameOf(entry) == entry - entry % 0x1000
  {
  }

  /** The processor's translation in terms of the walk and the combined rights. */
  lemma TranslateIs(m: seq<Byte>, dir: nat, va: U32)
    requires dir + PAGE <= |m| == TWO_32
    ensures va / PAGE < PAGES
    ensures Translate(m, dir, va) ==
      match Paging.Walk(m, dir, va / PAGE)
      case None => None
      case Some(pte) =>
        Some(Access(FrameOf(pte) + va % PAGE, EffectiveRight(m, dir, va / PAGE, WRITEABLE),
          EffectiveRight(m, dir, va / PAGE, ACCESS_FROM_ALL)))
  {
    Indices(va);
    var pde := Entry(m, dir, va / PAGE / ENTRIES);
    FrameBelow(pde);
    var pte := Entry(m, FrameOf(pde), va / PAGE % ENTRIES);
    FrameBelow(pte);
  }

  /** What a table entry gives an address of its page. */
  function AccessBy(entry: U32, va: U32): Option<Access>
  {
    if entry % 2 == 0 then None
    else Some(Access(entry - entry % 0x1000 + va % 0x1000, entry / 2 % 2 == 1, entry / 4 % 2 == 1))
  }

  /** In an address space in order the table entry alone decides. */
  lemma EntryDecides(m: seq<Byte>, h: Heap, s: Space, va: U32)
    requires SpaceOk(m, h, s)
    ensures s.dir + PAGE <= |m| == TWO_32 && forall d :: d in s.tables ==> s.tables[d] + PAGE <= |m|
    ensures Translate(m, s.dir, va) == AccessBy(Pte(m, s, va / PAGE), va)
  {
    hide SpaceOk, Paging.Walk, EffectiveRight, Translate, Pte;
    SpaceBounds(m, h, s);
    Indices(va);
    TranslateIs(m, s.dir, va);
    WalkIsFlat(m, h, s, va / PAGE);
    RightsAreThePtes(m, h, s, va / PAGE, WRITEABLE);
    RightsAreThePtes(m, h, s, va / PAGE, ACCESS_FROM_ALL);
  }

  // ----- Outside the segments -----

  /** Where no segment is: the text screen is open to the process, the rest of the first 64 MB is the kernel's, and
      nothing else is there. */
  function Elsewhere(va: U32): Option<Access>
  {
    if va / 0x1000 == 0xB8 then Some(Access(va, true, true))
    else if va < 0x400_0000 then Some(Access(va, true, false))
    else None
  }

  lemma ScreenIs(page: nat)
    ensures Hits(ScreenSet(), page) <==> page == 0xB8
    ensures ScreenSet().val == 0xB8007
  {
  }

  lemma BaseIs(page: nat)
    requires page < PAGES
    ensures BasePte(page) == if page < 0x4000 then page * 0x1000 + 3 else 0
  {
  }

  /** The entry of a page that no segment covers. */
  function EntryElsewhere(page: nat): nat
  {
    if page == 0xB8 then 0xB8007 else if page < 0x4000 then page * 0x1000 + 3 else 0
  }

  lemma AccessElsewhere(va: U32)
    ensures AccessBy(EntryElsewhere(va / 0x1000), va) == Elsewhere(va)
  {
    var page := va / 0x1000;
    assert va == page * 0x1000 + va % 0x1000;
    if page == 0xB8 {
    } else if page < 0x4000 {
      LowBitsOfPage(page * 0x1000, 3);
      assert (page * 0x1000 + 3) % 0x1000 == 3;
    }
  }

  lemma {:induction false} SegmentsMiss(base: U32, segs: seq<Segment>, page: nat)
    requires Traceable(segs) && forall l :: 0 <= l < |segs| ==> Misses(segs[l], page)
    ensures Overlay(base, page, AllSets(segs)) == base
  {
    if segs != [] {
      var n := |segs| - 1;
      var g := segs[n];
      hide Misses, FrameIn, Overlay, SegmentSets;
      OverlayAppend(base, page, AllSets(segs[..n]), SegmentSets(g.vaddr, g.phys, PagesOf(g.memsz)));
      SegmentsMiss(base, segs[..n], page);
      OverlaySegment(base, page, g);
    }
  }

  /** The screen first, then the segments, as the ELF loader maps them. */
  lemma ElfElsewhere(segs: seq<Segment>, page: nat)
    requires Traceable(segs) && page < PAGES && forall l :: 0 <= l < |segs| ==> Misses(segs[l], page)
    ensures Overlay(BasePte(page), page, [ScreenSet()] + AllSets(segs)) == EntryElsewhere(page)
  {
    ScreenIs(page);
    BaseIs(page);
    hide Misses, AllSets, Overlay, BasePte, ScreenSet, Hits;
    OverlayAppend(BasePte(page), page, [ScreenSet()], AllSets(segs));
    OverlayOne(BasePte(page), page, [], ScreenSet());
    assert [] + [ScreenSet()] == [ScreenSet()];
    OverlayNone(BasePte(page), page);
    SegmentsMiss(Overlay(BasePte(page), page, [ScreenSet()]), segs, page);
  }

  lemma OverlayNone(base: U32, page: nat)
    ensures Overlay(base, page, []) == base
  {
  }

  /** The image first, then the screen, as the raw loader maps them. */
  lemma RawElsewhere(g: Segment, page: nat)
    requires g.phys % PAGE == 0 && g.vaddr + g.memsz <= TWO_32 && g.phys + g.memsz + PAGE < TWO_32
    requires page < PAGES && Misses(g, page)
    ensures Overlay(BasePte(page), page, SegmentSets(g.vaddr, g.phys, PagesOf(g.memsz)) + [ScreenSet()]) ==
      EntryElsewhere(page)
  {
    ScreenIs(page);
    BaseIs(page);
    hide Misses, SegmentSets, Overlay, BasePte, ScreenSet, Hits;
    OverlayOne(BasePte(page), page, SegmentSets(g.vaddr, g.phys, PagesOf(g.memsz)), ScreenSet());
    OverlaySegment(BasePte(page), page, g);
  }

  // ----- All that an ELF program sees -----

  /** The pages of a segment to be loaded. */
  predicate Covers(p: ProgramHeader, page: nat)
  {
    Loadable(p) && p.vaddr / 0x1000 <= page < p.vaddr / 0x1000 + (p.memsz + 0xFFF) / 0x1000
  }

  /** The segments to be loaded start on pages, lie below 4 GiB and share no page. */
  ghost predicate Placed(ps: seq<ProgramHeader>)
  {
    && (forall i :: 0 <= i < |ps| && Loadable(ps[i]) ==>
      ps[i].vaddr % 0x1000 == 0 && ps[i].vaddr + ps[i].memsz <= 0x1_0000_0000)
    && (forall i, j, page: nat :: 0 <= i < j < |ps| ==> !(Covers(ps[i], page) && Covers(ps[j], page)))
  }

  lemma CoversIs(p: ProgramHeader, page: nat)
    requires Loadable(p) && p.vaddr % 0x1000 == 0
    ensures Covers(p, page) <==> !MissesPage(FieldsOf(p), page)
  {
  }

  lemma LoadsIs(content: seq<Byte>, h: FileHeader, ps: seq<ProgramHeader>, i: nat)
    requires Consists(content, h, ps)
    ensures LoadsAt(content, i) <==> i < |ps| && Loadable(ps[i])
    ensures LoadsAt(content, i) ==> PhdrAt(content, i) == FieldsOf(ps[i])
  {
    NoPrograms(content, h, ps);
    hide Consists, PhdrCount, HasPhdr, PhdrAt;
    if i < |ps| {
      ProgramIs(content, h, ps, i);
    }
  }

  lemma PlacedIsLaidOut(content: seq<Byte>, h: FileHeader, ps: seq<ProgramHeader>)
    requires Consists(content, h, ps) && Placed(ps)
    ensures LaidOut(content)
  {
    hide Consists, PhdrAt, MissesPage;
    NoPrograms(content, h, ps);
    forall i: nat | LoadsAt(content, i)
      ensures PhdrAt(content, i).vaddr % PAGE == 0 && PhdrAt(content, i).vaddr + PhdrAt(content, i).memsz <= TWO_32
    {
      LoadsIs(content, h, ps, i);
    }
    forall i: nat, j: nat, page: nat | LoadsAt(content, i) && LoadsAt(content, j) && i < j
      ensures MissesPage(PhdrAt(content, i), page) || MissesPage(PhdrAt(content, j), page)
    {
      LoadsIs(content, h, ps, i);
      LoadsIs(content, h, ps, j);
      CoversIs(ps[i], page);
      CoversIs(ps[j], page);
    }
  }

  lemma {:induction false} SegmentsElsewhere(content: seq<Byte>, n: nat, segs: seq<Segment>, page: nat)
    requires |content| >= EHDR_SIZE && LoadedUpTo(content, n, segs) && n <= PhdrCount(content)
    requires forall l :: LoadsAt(content, l) ==> MissesPage(PhdrAt(content, l), page)
    ensures forall l :: 0 <= l < |segs| ==> Misses(segs[l], page)
  {
    hide TableStart, HasPhdr, PhdrAt, ElfLoader.Readable, Source, PhdrCount;
    if n > 0 {
      if PhdrAt(content, n - 1).ptype == PT_LOAD {
        assert LoadsAt(content, n - 1);
        SegmentsElsewhere(content, n - 1, segs[..|segs| - 1], page);
      } else {
        SegmentsElsewhere(content, n - 1, segs, page);
      }
    }
  }

  lemma ElfParts(heap: KernelHeap, proc: Process, content: seq<Byte>, s: Space, segs: seq<Segment>, rest: set<nat>)
    requires HoldsElf(heap, proc, content, s, segs, rest)
    ensures |content| >= EHDR_SIZE && proc.ptr == EntryPoint(content)
      && LoadedUpTo(content, PhdrCount(content), segs)
    ensures SpaceOk(heap.ram[..], heap.state, s) && s.dir == proc.directory
    ensures forall d :: d in s.tables ==> s.tables[d] + PAGE <= heap.ram.Length
    ensures Flat(heap.ram[..], s, [ScreenSet()] + AllSets(segs))
  {
    hide KernelHeap.ValidIn, SpaceOk, Flat, AllHeld, Others, AllReadable, EntryPoint, PhdrCount, LoadedUpTo;
  }

  lemma FlatEntry(m: seq<Byte>, s: Space, sets: seq<PageSet>, page: nat)
    requires (forall d :: d in s.tables ==> s.tables[d] + PAGE <= |m|) && Flat(m, s, sets) && page < PAGES
    ensures Pte(m, s, page) == Overlay(BasePte(page), page, sets)
  {
  }

  /** The process starts at the entry point of its header. Outside its segments it may use the text screen at
      0xB8000, it sees the rest of the first 64 MB but only the kernel may use it, and nothing else is there. */
  lemma ElfSeesElsewhere(heap: KernelHeap, proc: Process, content: seq<Byte>, s: Space, segs: seq<Segment>,
          rest: set<nat>, h: FileHeader, ps: seq<ProgramHeader>, va: U32)
    requires HoldsElf(heap, proc, content, s, segs, rest) && Consists(content, h, ps) && Placed(ps)
    ensures proc.ptr == h.entry && proc.directory + 0x1000 <= heap.ram.Length == 0x1_0000_0000
    ensures (forall i :: 0 <= i < |ps| ==> !Covers(ps[i], va / 0x1000)) ==>
      Translate(heap.ram[..], proc.directory, va) == Elsewhere(va)
  {
    hide HoldsElf, Flat, SpaceOk, Consists, Pte, Translate, AccessBy, Elsewhere, LoadedUpTo, AllSets, PhdrCount;
    hide Overlay, BasePte, EntryElsewhere, Misses, PhdrAt, EntryPoint, ScreenSet, MissesPage, Covers;
    var m, page := heap.ram[..], va / 0x1000;
    ElfParts(heap, proc, content, s, segs, rest);
    NoPrograms(content, h, ps);
    SpaceBounds(m, heap.state, s);
    if forall i :: 0 <= i < |ps| ==> !Covers(ps[i], page) {
      PlacedIsLaidOut(content, h, ps);
      AllTraceable(content, PhdrCount(content), segs);
      forall l: nat | LoadsAt(content, l)
        ensures MissesPage(PhdrAt(content, l), page)
      {
        LoadsIs(content, h, ps, l);
        CoversIs(ps[l], page);
      }
      SegmentsElsewhere(content, PhdrCount(content), segs, page);
      ElfElsewhere(segs, page);
      FlatEntry(m, s, [ScreenSet()] + AllSets(segs), page);
      EntryDecides(m, heap.state, s, va);
      AccessElsewhere(va);
    }
  }

  /** What a walk that fetches a byte means to the processor. */
  lemma FetchedIs(m: seq<Byte>, dir: nat, va: U32, b: Byte)
    requires dir + PAGE <= |m| == TWO_32 && Fetch(m, dir, va) == Some(b)
    requires EffectiveRight(m, dir, va / PAGE, WRITEABLE) && EffectiveRight(m, dir, va / PAGE, ACCESS_FROM_ALL)
    ensures Sees(m, dir, va, b)
  {
    hide Translate, Paging.Walk, EffectiveRight, FrameOf;
    TranslateIs(m, dir, va);
    var pte := Paging.Walk(m, dir, va / PAGE).value;
    FrameBelow(pte);
  }

  /** The process reads this byte at this address, and may write there. */
  ghost predicate Sees(m: seq<Byte>, cr3: nat, va: U32, b: Byte)
    requires cr3 + 0x1000 <= |m| == 0x1_0000_0000
  {
    && Translate(m, cr3, va).Some?
    && var a := Translate(m, cr3, va).value;
       a.writable && a.user && 0 <= a.phys < |m| && m[a.phys] == b
  }

  /** In a segment the process sees the bytes of the file from the segment's offset on, and zeros behind them, at
      the segment's address, and may write there. */
  lemma ElfSeesSegment(heap: KernelHeap, proc: Process, content: seq<Byte>, s: Space, segs: seq<Segment>,
          rest: set<nat>, h: FileHeader, ps: seq<ProgramHeader>, i: nat, k: nat)
    requires HoldsElf(heap, proc, content, s, segs, rest) && Consists(content, h, ps) && Placed(ps)
    requires i < |ps| && Loadable(ps[i]) && k < ps[i].memsz && ps[i].offset <= |content|
    ensures proc.directory + 0x1000 <= heap.ram.Length == 0x1_0000_0000
    ensures 0 < ps[i].filesz && ps[i].offset + ps[i].filesz <= |content|
    ensures Sees(heap.ram[..], proc.directory, ps[i].vaddr + k,
      if k < ps[i].filesz then content[ps[i].offset + k] else 0)
  {
    hide HoldsElf, Consists, Translate, Fetch, EffectiveRight, LaidOut, PhdrAt, HasPhdr, TableStart, Sees, PhdrCount;
    var va := ps[i].vaddr + k;
    NoPrograms(content, h, ps);
    PlacedIsLaidOut(content, h, ps);
    LoadsIs(content, h, ps, i);
    ElfSeen(heap, proc, content, s, segs, rest, i, k, va);
    FetchedIs(heap.ram[..], proc.directory, va, Promised(content, i, k));
  }

  // ----- All that a raw program sees -----

  /** At 0x400000 the process sees the file byte for byte, and may write there; elsewhere what every process sees. */
  lemma RawSeesAll(heap: KernelHeap, proc: Process, content: seq<Byte>, s: Space, g: Segment, rest: set<nat>, va: U32)
    requires HoldsRaw(heap, proc, content, s, g, rest)
    ensures proc.ptr == 0x40_0000 && proc.size == |content|
    ensures proc.directory + 0x1000 <= heap.ram.Length == 0x1_0000_0000
    ensures 0x40_0000 <= va < 0x40_0000 + |content| ==>
      Sees(heap.ram[..], proc.directory, va, content[va - 0x40_0000])
    ensures !(0x400 <= va / 0x1000 < 0x400 + (|content| + 0xFFF) / 0x1000) ==>
      Translate(heap.ram[..], proc.directory, va) == Elsewhere(va)
  {
    RawParts(heap, proc, content, s, g, rest);
    hide HoldsRaw, Flat, SpaceOk, Translate, Fetch, EffectiveRight, AccessBy, Elsewhere, Sees, Pte, Overlay, BasePte;
    hide SegmentSets, ScreenSet, EntryElsewhere;
    var m, page := heap.ram[..], va / 0x1000;
    SpaceBounds(m, heap.state, s);
    if 0x40_0000 <= va < 0x40_0000 + |content| {
      RawSeen(heap, proc, content, s, g, rest, va - 0x40_0000, va);
      FetchedIs(m, proc.directory, va, content[va - 0x40_0000]);
    }
    if !(0x400 <= page < 0x400 + (|content| + 0xFFF) / 0x1000) {
      var sets := SegmentSets(g.vaddr, g.phys, PagesOf(g.memsz)) + [ScreenSet()];
      RawElsewhere(g, page);
      FlatEntry(m, s, sets, page);
      EntryDecides(m, heap.state, s, va);
      AccessElsewhere(va);
    }
  }

  lemma RawParts(heap: KernelHeap, proc: Process, content: seq<Byte>, s: Space, g: Segment, rest: set<nat>)
    requires HoldsRaw(heap, proc, content, s, g, rest)
    ensures proc.ptr == 0x40_0000 && proc.size == |content| > 0 && |content| < 0x7FFF_F000
    ensures g == ImageAt(g.phys, content) && g.vaddr == 0x40_0000 && g.memsz == |content|
    ensures g.phys % PAGE == 0 && g.phys + |content| + PAGE < TWO_32
    ensures SpaceOk(heap.ram[..], heap.state, s) && s.dir == proc.directory
    ensures forall d :: d in s.tables ==> s.tables[d] + PAGE <= heap.ram.Length
    ensures Flat(heap.ram[..], s, SegmentSets(g.vaddr, g.phys, PagesOf(g.memsz)) + [ScreenSet()])
  {
    hide KernelHeap.ValidIn, SpaceOk, Flat, AllHeld, Others, SegmentSets, PagesOf, ScreenSet;
  }
}
