/** Loading an ELF executable (src/loader/elf.c): header and program headers as they lie in the file,
    the loading loop, and what the process then sees in its memory. */
module ElfLoader {
  import opened Bytes
  import opened CStrings
  import opened Fat16
  import opened Vfs
  import opened FileReads
  import opened HeapModel
  import opened KernelHeaps
  import opened TableRuns
  import opened Paging
  import opened ProcessMemory
  import Parser = PathParser
  import Runs = FileRuns

  const EHDR_SIZE := 52
  const PHDR_SIZE := 32
  const PT_LOAD := 1

  // ----- The file format -----

  /** `elf_is_valid_header`: the magic number and the 32-bit class. */
  predicate ValidHeader(header: seq<Byte>)
    requires |header| == EHDR_SIZE
  {
    header[0] == 0x7F && header[1] == 'E' as int && header[2] == 'L' as int && header[3] == 'F' as int && header[4] == 1
  }

  datatype Phdr = Phdr(ptype: U32, offset: U32, vaddr: U32, filesz: U32, memsz: U32)

  function ParsePhdr(bytes: seq<Byte>): Phdr
    requires |bytes| == PHDR_SIZE
  {
    Phdr(Le32At(bytes, 0), Le32At(bytes, 4), Le32At(bytes, 8), Le32At(bytes, 16), Le32At(bytes, 20))
  }

  function EntryPoint(content: seq<Byte>): U32
    requires |content| >= EHDR_SIZE
  {
    Le32At(content, 24)
  }

  function PhdrCount(content: seq<Byte>): U16
    requires |content| >= EHDR_SIZE
  {
    Le16At(content, 44)
  }

  /** Where the loader reads the first program header: a failed seek leaves it behind the file header. */
  function TableStart(content: seq<Byte>): nat
    requires |content| >= EHDR_SIZE
  {
    if Le32At(content, 28) <= |content| then Le32At(content, 28) else EHDR_SIZE
  }

  predicate HasPhdr(content: seq<Byte>, i: nat)
    requires |content| >= EHDR_SIZE
  {
    TableStart(content) + PHDR_SIZE * (i + 1) <= |content|
  }

  /** The `i`-th program header. */
  function PhdrAt(content: seq<Byte>, i: nat): Phdr
    requires |content| >= EHDR_SIZE && HasPhdr(content, i)
  {
    var at := TableStart(content) + PHDR_SIZE * i;
    ParsePhdr(content[at..at + PHDR_SIZE])
  }

  /** Where the loader reads a segment whose header ends at `pos`. */
  function Source(ph: Phdr, length: nat, pos: nat): nat
  {
    if ph.offset <= length then ph.offset else pos
  }

  /** The bytes of a segment can be read: there are some, and they lie inside the file. */
  predicate Readable(ph: Phdr, length: nat, pos: nat)
  {
    ph.filesz > 0 && Source(ph, length, pos) + ph.filesz <= length
  }

  // ----- One segment -----

  /** `Halted` is where the model stops: a segment that does not fit its own memory, an aligned
      allocation that would move the break back, or no room below 4 GiB. `SegmentOutcome`, `RunOutcome`
      and `ElfOutcome` say when. */
  datatype Outcome = Loaded | Refused(code: int) | Halted

  lemma AskedOne(size: U32, n: nat)
    requires n <= size
    ensures Asked(size, 1) == size
    ensures WholeItems(n, size) == 1 <==> n == size > 0
  {
  }

  function SegmentOf(ph: Phdr, phys: nat, start: nat): Segment
  {
    Segment(ph.vaddr, phys, ph.memsz, start, ph.filesz)
  }

  lemma FilledIs(m: seq<Byte>, content: seq<Byte>, g: Segment)
    requires g.phys + g.memsz <= |m| && g.filesz <= g.memsz && g.start + g.filesz <= |content|
    requires m[g.phys..g.phys + g.filesz] == content[g.start..g.start + g.filesz]
    requires forall x :: g.phys + g.filesz <= x < g.phys + g.memsz ==> m[x] == 0
    ensures Filled(m, content, g)
  {
    var a, b := m[g.phys..g.phys + g.filesz], content[g.start..g.start + g.filesz];
    assert forall k :: 0 <= k < g.filesz ==> m[g.phys + k] == a[k] == b[k] == content[g.start + k];
  }

  /** Writes to a granted block, seen by the rest of the process. */
  lemma StillPrepared(heap: KernelHeap, m: seq<Byte>, s: Space, dir: nat, sets: seq<PageSet>, content: seq<Byte>,
          segs: seq<Segment>, h0: Heap, p: nat, n: nat, rest: set<nat>)
    requires |m| == heap.ram.Length == TWO_32 && heap.ValidIn(m)
      && PreparedIn(m, heap.state, s, dir, sets, content, segs, rest)
    requires Granted(h0, heap.state, s, p, n) && OwnedBefore(h0, segs, rest)
    requires forall x :: 0 <= x < |m| && !(p <= x < p + n) ==> heap.ram[x] == m[x]
    ensures Prepared(heap, s, dir, sets, content, segs, rest)
  {
    hide KernelHeap.ValidIn, SpaceOk, Flat, AllHeld, Owns, Inv, Open, Beside, Others;
    InvOf(m, heap.state, s);
    BlockWritten(heap, m, heap.ram[..], s, sets, p, n);
    AllBeside(m, heap.ram[..], h0, heap.state, s, content, segs, p, n);
  }

  lemma InvOf(m: seq<Byte>, h: Heap, s: Space)
    requires SpaceOk(m, h, s)
    ensures Inv(h)
  {
  }

  /** Reads the file's part of a segment into its cleared block. */
  method ReadSegment(files: Files, fd: int, ram: array<Byte>, p: U32, ph: Phdr, ghost content: seq<Byte>,
          ghost pos: nat)
    returns (n: int, ghost now: nat)
    requires files.Valid() && At(files, fd, content, pos) && |content| < 0x8000_0000
    requires ph.filesz <= ph.memsz < 0x7FFF_F000 && p + ph.memsz <= ram.Length
    requires forall x :: p <= x < p + ph.memsz ==> ram[x] == 0
    modifies ram, files.Footprint(fd)
    ensures files.Valid() && At(files, fd, content, now)
    ensures n == 1 ==>
      Readable(ph, |content|, pos) && Filled(ram[..], content, SegmentOf(ph, p, Source(ph, |content|, pos)))
    ensures n != 1 && old(DriveReads(files, fd)) ==> !Readable(ph, |content|, pos)
    ensures forall x :: 0 <= x < ram.Length && !(p <= x < p + ph.memsz) ==> ram[x] == old(ram[x])
  {
    hide Files.Valid, At, DriveReads, Filled, Asked, WholeItems, OthersKept, Runs.Step, CursorAt, UnitAt;
    AtOpen(files, fd, content, pos);
    var sought := SeekTo(files, fd, ph.offset, content, pos);
    ghost var from := Source(ph, |content|, pos);
    AskedOne(ph.filesz, 0);
    ghost var got;
    ghost var ev;
    n, got, ev := ReadAt(files, fd, ram, p, ph.filesz, 1, content, from);
    AskedOne(ph.filesz, got);
    now := from + got;
    if n == 1 {
      FilledIs(ram[..], content, SegmentOf(ph, p, from));
    }
  }

  /** Clears the block, reads the file's part of the segment into it and returns to the program headers. */
  method FillBlock(files: Files, fd: int, heap: KernelHeap, p: U32, ph: Phdr, ghost s: Space, ghost dir: nat,
          ghost sets: seq<PageSet>, ghost content: seq<Byte>, ghost segs: seq<Segment>, ghost pos: nat, ghost h0: Heap,
          ghost rest: set<nat>)
    returns (ok: bool, ghost now: nat)
    requires files.Valid() && At(files, fd, content, pos) && |content| < 0x8000_0000
    requires Prepared(heap, s, dir, sets, content, segs, rest) && Granted(h0, heap.state, s, p, ph.memsz)
      && OwnedBefore(h0, segs, rest)
    requires ph.filesz <= ph.memsz < 0x7FFF_F000
    modifies heap.ram, files.Footprint(fd)
    ensures files.Valid() && At(files, fd, content, now) && Prepared(heap, s, dir, sets, content, segs, rest)
    ensures ok ==>
      now == pos && Readable(ph, |content|, pos)
      && Filled(heap.ram[..], content, SegmentOf(ph, p, Source(ph, |content|, pos)))
    ensures !ok && old(DriveReads(files, fd)) ==> !Readable(ph, |content|, pos)
    ensures Spares(old(heap.state), old(heap.ram[..]), heap.state, heap.ram[..], rest)
  {
    hide Files.Valid, At, DriveReads, KernelHeap.ValidIn, SpaceOk, Flat, AllHeld, Owns, Inv, Open, Beside, Filled;
    hide Readable, Others, OwnedBefore, Granted, Spares;
    heap.ValidFacts();
    Separate(files, heap);
    AtOpen(files, fd, content, pos);
    ghost var m := heap.ram[..];
    GrantedFits(h0, heap.state, s, p, ph.memsz);
    Memset(heap.ram, p, 0, ph.memsz);
    var current := files.Ftell(fd);
    var n;
    n, now := ReadSegment(files, fd, heap.ram, p, ph, content, pos);
    StillPrepared(heap, m, s, dir, sets, content, segs, h0, p, ph.memsz, rest);
    WrittenSpares(m, heap.ram[..], h0, heap.state, s, p, ph.memsz, segs, rest);
    if n != 1 {
      return false, now;
    }
    var sought := SeekTo(files, fd, current, content, now);
    return true, pos;
  }

  lemma GrantedFits(h0: Heap, h: Heap, s: Space, p: nat, n: nat)
    requires Granted(h0, h, s, p, n)
    ensures p + n < TWO_32 && p % PAGE == 0
  {
    hide Owns;
  }

  lemma OwnedBlock(h0: Heap, h: Heap, s: Space, p: nat, n: nat)
    requires Granted(h0, h, s, p, n)
    ensures p == 0 || (HEADER <= p && BlockAt(h, p, 0) < |h.blocks|)
  {
    hide Open, Beside;
  }

  /** Gives the block back after a failed read. */
  method DropBlock(heap: KernelHeap, p: U32, ghost h0: Heap, ghost s: Space, ghost n: nat, ghost segs: seq<Segment>,
          ghost rest: set<nat>)
    requires heap.Valid() && Granted(h0, heap.state, s, p, n) && OwnedBefore(h0, segs, rest) && rest <= Live(heap.state)
    modifies heap, heap.ram
    ensures heap.Valid() && rest <= Live(heap.state)
    ensures Spares(old(heap.state), old(heap.ram[..]), heap.state, heap.ram[..], rest)
  {
    hide KernelHeap.ValidIn, Granted, Release, OwnedBefore, Live, Inv, Spares, ClearOfHeaders;
    ghost var m, h := heap.ram[..], heap.state;
    OwnedBlock(h0, heap.state, s, p, n);
    heap.ValidFacts();
    ReleaseLive(heap.state, p);
    NotOfRest(h0, heap.state, s, p, n, segs, rest);
    heap.Kfree(p);
    DroppedSpares(h, m, p, heap.state, heap.ram[..], rest);
  }

  lemma DroppedSpares(h: Heap, m: seq<Byte>, p: nat, g: Heap, m': seq<Byte>, rest: set<nat>)
    requires Inv(h) && p !in rest && |m'| == |m| && g == Release(h, p)
    requires forall x :: 0 <= x < |m| && ClearOfHeaders(g, x) ==> m'[x] == m[x]
    ensures Spares(h, m, g, m', rest)
  {
    hide Inv, ClearOfHeaders, Release;
    ReleaseSpares(h, m, p, m', rest);
  }

  lemma NotOfRest(h0: Heap, h: Heap, s: Space, p: nat, n: nat, segs: seq<Segment>, rest: set<nat>)
    requires Granted(h0, h, s, p, n) && OwnedBefore(h0, segs, rest)
    ensures p !in rest
  {
    hide Open, Beside;
    assert forall a :: a in rest ==> Owns(h0, a, 0) && HEADER <= a;
  }

  lemma PreparedValid(heap: KernelHeap, s: Space, dir: nat, sets: seq<PageSet>, content: seq<Byte>, segs: seq<Segment>,
          rest: set<nat>)
    requires Prepared(heap, s, dir, sets, content, segs, rest)
    ensures heap.Valid() && rest <= Live(heap.state)
  {
    hide KernelHeap.ValidIn, Inv, Others, Flat, AllHeld, Live;
    heap.ValidFacts();
    OthersLive(heap.state, s, segs, rest);
  }

  lemma PreparedMore(heap: KernelHeap, h0: Heap, s: Space, dir: nat, sets: seq<PageSet>, content: seq<Byte>,
          segs: seq<Segment>, g: Segment, rest: set<nat>)
    requires Prepared(heap, s, dir, sets, content, segs, rest) && Granted(h0, heap.state, s, g.phys, g.memsz)
      && g.memsz > 0
    requires OwnedBefore(h0, segs, rest) && Filled(heap.ram[..], content, g)
    ensures Prepared(heap, s, dir, sets, content, segs + [g], rest)
  {
    hide KernelHeap.ValidIn, SpaceOk, Flat, AllHeld, Granted, Filled, Owns, Beside;
    OneMoreHeld(heap.ram[..], h0, heap.state, s, content, segs, g);
    NotOfRest(h0, heap.state, s, g.phys, g.memsz, segs, rest);
  }

  // ----- When a segment goes through -----

  /** The file's part of the segment fits its memory. */
  predicate Fitting(ph: Phdr)
  {
    ph.filesz <= ph.memsz < 0x7FFF_F000
  }

  /** Room for one segment and the tables that map it. */
  function SegmentRoom(memsz: nat): nat
  {
    memsz + 3 * PAGE + MapRoom(memsz)
  }

  /** The directory slots a segment is mapped through. */
  function SegmentSlots(ph: Phdr): set<nat>
  {
    SlotsOf(ph.vaddr, PagesOf(ph.memsz))
  }

  /** On a steady heap with tables in these slots, nothing that loading the segment allocates moves the
      break back: its block ends at most 0xFF0 into a page, or no table is allocated after it. */
  predicate SegmentForward(slots: set<nat>, ph: Phdr)
  {
    TailFits(ph) || SegmentSlots(ph) <= slots
  }

  predicate TailFits(ph: Phdr)
  {
    ph.memsz % PAGE <= PAGE - HEADER
  }

  /** The heap is then steady again: a table was allocated last, or the block leaves room for a header. */
  predicate SteadyAfter(slots: set<nat>, ph: Phdr)
  {
    TailFits(ph) || !(SegmentSlots(ph) <= slots)
  }

  /** When a segment that fits, given room, is loaded: on a steady heap, always if its memory ends at most
      0xFF0 into its page; and with every large block on a page live, if and only if the heap is steady and
      the break then goes forward. */
  ghost predicate SegmentOutcome(r: Outcome, h: Heap, g: Heap, s: Space, t: Space, ph: Phdr)
  {
    && (r == Loaded ==>
          t.tables.Keys == s.tables.Keys + SegmentSlots(ph) && h.brk <= g.brk <= h.brk + SegmentRoom(ph.memsz))
    && (Fitting(ph) && h.brk + SegmentRoom(ph.memsz) < TWO_32 ==>
          && (Steady(h) && TailFits(ph) ==> r != Halted && (r == Loaded ==> Steady(g)))
          && (PagesLive(h) ==>
                && (r == Halted ==> !(Steady(h) && SegmentForward(s.tables.Keys, ph)))
                && (r == Loaded ==>
                      && Steady(h) && SegmentForward(s.tables.Keys, ph)
                      && PagesLive(g) && (Steady(g) <==> SteadyAfter(s.tables.Keys, ph)))))
  }

  lemma RefusedOutcome(h: Heap, g: Heap, s: Space, t: Space, ph: Phdr)
    ensures SegmentOutcome(Refused(-1), h, g, s, t, ph)
  {
    hide PagesLive, SegmentForward;
  }

  lemma HaltedOutcome(h: Heap, g: Heap, s: Space, t: Space, ph: Phdr)
    requires !Fitting(ph) || !Steady(h) || h.brk + ph.memsz + 3 * PAGE >= TWO_32
    ensures SegmentOutcome(Halted, h, g, s, t, ph)
  {
    hide PagesLive, SegmentSlots, MapRoom;
  }

  lemma MappedOutcome(ok: bool, h: Heap, h1: Heap, g: Heap, s: Space, t: Space, ph: Phdr)
    requires Steady(h) && Grants(h, h1, ph.memsz) && MapOutcome(ok, h1, g, s, t, ph.vaddr, ph.memsz)
    ensures SegmentOutcome(if ok then Loaded else Halted, h, g, s, t, ph)
  {
    hide PagesLive, SlotsOf, MappedSoFar, PagesOf;
    if ok {
      MappedBreak(h1, g, s, t, ph.vaddr, PagesOf(ph.memsz));
      MappedAligned(h1, g, s, t, ph.vaddr, PagesOf(ph.memsz));
    }
  }

  lemma MappedAligned(h: Heap, g: Heap, s: Space, t: Space, vaddr: U32, n: nat)
    requires MappedSoFar(h, g, s, t, vaddr, n)
    ensures t.tables.Keys == s.tables.Keys + SlotsOf(vaddr, n)
    ensures PagesLive(h) ==>
      PagesLive(g) && g.brk % PAGE == if SlotsOf(vaddr, n) <= s.tables.Keys then h.brk % PAGE else 0
  {
    hide PagesLive, SlotsOf, Steady;
  }

  /** The body of the loading loop for a PT_LOAD header that ends at `pos`. */
  method LoadSegment(files: Files, fd: int, heap: KernelHeap, ph: Phdr, ghost s: Space, dir: nat,
          ghost sets: seq<PageSet>, ghost content: seq<Byte>, ghost segs: seq<Segment>, ghost pos: nat,
          ghost rest: set<nat>)
    returns (r: Outcome, ghost t: Space, ghost g: Segment, ghost now: nat)
    requires files.Valid() && At(files, fd, content, pos) && |content| < 0x8000_0000
    requires Prepared(heap, s, dir, sets, content, segs, rest)
    modifies heap, heap.ram, files.Footprint(fd)
    ensures files.Valid() && At(files, fd, content, now) && heap.Valid() && rest <= Live(heap.state)
    ensures r == Loaded ==>
      now == pos && Readable(ph, |content|, pos) && g == SegmentOf(ph, g.phys, Source(ph, |content|, pos))
    ensures r == Loaded ==> g.phys % PAGE == 0 && g.phys + g.memsz + PAGE < TWO_32
    ensures r == Loaded ==>
      Prepared(heap, t, dir, sets + SegmentSets(g.vaddr, g.phys, PagesOf(g.memsz)), content, segs + [g], rest)
    ensures r.Refused? ==> r.code == -1 && (old(DriveReads(files, fd)) ==> !Readable(ph, |content|, pos))
    ensures SegmentOutcome(r, old(heap.state), heap.state, s, t, ph)
    ensures Spares(old(heap.state), old(heap.ram[..]), heap.state, heap.ram[..], rest)
  {
    hide Files.Valid, At, DriveReads, KernelHeap.ValidIn, Prepared, Owns, Granted, Filled, SegmentSets, PagesOf, Source;
    hide SegmentOutcome, MapOutcome, Grants, OwnedBefore, Live, Spares;
    Separate(files, heap);
    AtOpen(files, fd, content, pos);
    PreparedValid(heap, s, dir, sets, content, segs, rest);
    t, now := s, pos;
    g := SegmentOf(ph, 0, Source(ph, |content|, pos));
    ghost var h0, m0 := heap.state, heap.ram[..];
    SparesSame(h0, m0, rest);
    var room := HasRoom(heap, ph.memsz + 3 * PAGE);
    if ph.filesz > ph.memsz || ph.memsz >= 0x7FFF_F000 || !room {
      HaltedOutcome(h0, h0, s, t, ph);
      return Halted, t, g, now;
    }
    var phys := GrantBlock(heap, ph.memsz, s, dir, sets, content, segs, rest);
    ghost var h1, m1 := heap.state, heap.ram[..];
    GrantedFits(h0, h1, s, phys, ph.memsz);
    var ok;
    ok, now := FillBlock(files, fd, heap, phys, ph, s, dir, sets, content, segs, pos, h0, rest);
    ghost var m2 := heap.ram[..];
    SparesTwice(h0, m0, h1, m1, h1, m2, rest, rest);
    if !ok {
      PreparedValid(heap, s, dir, sets, content, segs, rest);
      DropBlock(heap, phys, h0, s, ph.memsz, segs, rest);
      SparesTwice(h0, m0, h1, m2, heap.state, heap.ram[..], rest, rest);
      RefusedOutcome(h0, heap.state, s, t, ph);
      return Refused(-1), t, g, now;
    }
    g := SegmentOf(ph, phys, Source(ph, |content|, pos));
    PreparedMore(heap, h0, s, dir, sets, content, segs, g, rest);
    ok, t := MapSegment(heap, s, dir, ph.vaddr, phys, ph.memsz, sets, content, segs + [g], rest);
    SparesTwice(h0, m0, h1, m2, heap.state, heap.ram[..], rest, rest);
    MappedOutcome(ok, h0, h1, heap.state, s, t, ph);
    r := if ok then Loaded else Halted;
  }

  // ----- All segments -----

  /** `segs` are the loadable segments among the first `n` program headers, in order, each read where
      its header says. */
  ghost predicate LoadedUpTo(content: seq<Byte>, n: nat, segs: seq<Segment>)
    requires |content| >= EHDR_SIZE
  {
    if n == 0 then segs == []
    else
      && HasPhdr(content, n - 1)
      && var ph, pos := PhdrAt(content, n - 1), TableStart(content) + PHDR_SIZE * n;
         if ph.ptype == PT_LOAD then
           && segs != []
           && var g := segs[|segs| - 1];
              && g == SegmentOf(ph, g.phys, Source(ph, |content|, pos)) && Readable(ph, |content|, pos)
              && g.phys % PAGE == 0 && g.phys + g.memsz + PAGE < TWO_32
              && LoadedUpTo(content, n - 1, segs[..|segs| - 1])
         else LoadedUpTo(content, n - 1, segs)
  }

  /** The `i`-th program header is there, and its segment, if loadable, can be read. */
  predicate HeaderReadable(content: seq<Byte>, i: nat)
    requires |content| >= EHDR_SIZE
  {
    && HasPhdr(content, i)
    && var ph := PhdrAt(content, i);
       ph.ptype == PT_LOAD ==> Readable(ph, |content|, TableStart(content) + PHDR_SIZE * (i + 1))
  }

  /** A program header lies between two positions of the file. */
  predicate PhdrRead(content: seq<Byte>, pos: nat, now: nat, ph: Phdr)
  {
    now == pos + PHDR_SIZE <= |content| && ph == ParsePhdr(content[pos..now])
  }

  /** Reads the program header at the position of the file. */
  method ReadPhdr(files: Files, fd: int, buffer: array<Byte>, ghost content: seq<Byte>, ghost pos: nat)
    returns (ok: bool, ph: Phdr, ghost now: nat)
    requires files.Valid() && At(files, fd, content, pos) && |content| < 0x8000_0000 && buffer.Length == PHDR_SIZE
    modifies buffer, files.Footprint(fd)
    ensures files.Valid() && At(files, fd, content, now)
    ensures ok ==> PhdrRead(content, pos, now, ph)
    ensures !ok && old(DriveReads(files, fd)) ==> pos + PHDR_SIZE > |content|
  {
    hide Files.Valid, At, DriveReads, Asked, WholeItems, ParsePhdr, Runs.Step, CursorAt, UnitAt;
    AtOpen(files, fd, content, pos);
    AskedOne(PHDR_SIZE, 0);
    var n;
    ghost var got;
    ghost var ev;
    n, got, ev := ReadAt(files, fd, buffer, 0, PHDR_SIZE, 1, content, pos);
    AskedOne(PHDR_SIZE, got);
    ok := n == 1;
    now := pos + got;
    ph := ParsePhdr(buffer[..]);
    assert ok ==> buffer[..] == buffer[0..got];
  }

  lemma AllSetsMore(segs: seq<Segment>, g: Segment)
    ensures AllSets(segs + [g]) == AllSets(segs) + SegmentSets(g.vaddr, g.phys, PagesOf(g.memsz))
  {
    assert (segs + [g])[..|segs|] == segs;
  }

  lemma LoadedMore(content: seq<Byte>, i: nat, segs: seq<Segment>, g: Segment)
    requires |content| >= EHDR_SIZE && LoadedUpTo(content, i, segs) && HasPhdr(content, i)
    requires var ph, pos := PhdrAt(content, i), TableStart(content) + PHDR_SIZE * (i + 1);
             ph.ptype == PT_LOAD && g == SegmentOf(ph, g.phys, Source(ph, |content|, pos))
               && Readable(ph, |content|, pos)
    requires g.phys % PAGE == 0 && g.phys + g.memsz + PAGE < TWO_32
    ensures LoadedUpTo(content, i + 1, segs + [g])
  {
    hide TableStart, HasPhdr, PhdrAt;
    assert (segs + [g])[..|segs|] == segs;
  }

  lemma HeaderIs(content: seq<Byte>, i: nat, pos: nat)
    requires |content| >= EHDR_SIZE && pos == TableStart(content) + PHDR_SIZE * i
    ensures HasPhdr(content, i) <==> pos + PHDR_SIZE <= |content|
    ensures HasPhdr(content, i) ==> PhdrAt(content, i) == ParsePhdr(content[pos..pos + PHDR_SIZE])
  {
    hide ParsePhdr, TableStart;
  }

  // ----- When the segments go through -----

  /** The `i`-th header is there and asks for memory. */
  predicate Asks(content: seq<Byte>, i: nat)
    requires |content| >= EHDR_SIZE
  {
    HasPhdr(content, i) && PhdrAt(content, i).ptype == PT_LOAD
  }

  /** The slots that have tables once the first `n` headers are loaded. */
  function SlotsAfter(content: seq<Byte>, n: nat, slots: set<nat>): set<nat>
    requires |content| >= EHDR_SIZE
  {
    if n == 0 then slots
    else
      var before := SlotsAfter(content, n - 1, slots);
      if Asks(content, n - 1) then before + SegmentSlots(PhdrAt(content, n - 1)) else before
  }

  /** The heap is steady once the first `n` headers are loaded. */
  predicate SteadyUpTo(content: seq<Byte>, n: nat, slots: set<nat>)
    requires |content| >= EHDR_SIZE
  {
    if n == 0 then true
    else if Asks(content, n - 1) then SteadyAfter(SlotsAfter(content, n - 1, slots), PhdrAt(content, n - 1))
    else SteadyUpTo(content, n - 1, slots)
  }

  /** Loading the first `n` headers from a steady heap on never moves the break back. */
  predicate ForwardUpTo(content: seq<Byte>, n: nat, slots: set<nat>)
    requires |content| >= EHDR_SIZE
  {
    n == 0 ||
    (&& ForwardUpTo(content, n - 1, slots)
     && (Asks(content, n - 1) ==>
           SteadyUpTo(content, n - 1, slots)
             && SegmentForward(SlotsAfter(content, n - 1, slots), PhdrAt(content, n - 1))))
  }

  function RoomUpTo(content: seq<Byte>, n: nat): nat
    requires |content| >= EHDR_SIZE
  {
    if n == 0 then 0
    else RoomUpTo(content, n - 1) + if Asks(content, n - 1) then SegmentRoom(PhdrAt(content, n - 1).memsz) else 0
  }

  predicate FittingUpTo(content: seq<Byte>, n: nat)
    requires |content| >= EHDR_SIZE
  {
    forall i :: 0 <= i < n && Asks(content, i) ==> Fitting(PhdrAt(content, i))
  }

  /** Every segment ends at most 0xFF0 into its page. */
  predicate TailsFit(content: seq<Byte>, n: nat)
    requires |content| >= EHDR_SIZE
  {
    forall i :: 0 <= i < n && Asks(content, i) ==> TailFits(PhdrAt(content, i))
  }

  /** The same as for one segment, for the first `n` headers, from a steady heap on. */
  ghost predicate RunOutcome(r: Outcome, content: seq<Byte>, n: nat, h: Heap, g: Heap, s: Space, t: Space)
    requires |content| >= EHDR_SIZE
  {
    && (r == Loaded ==>
          t.tables.Keys == SlotsAfter(content, n, s.tables.Keys) && h.brk <= g.brk <= h.brk + RoomUpTo(content, n))
    && (FittingUpTo(content, n) && h.brk + RoomUpTo(content, n) < TWO_32 && Steady(h) ==>
          && (TailsFit(content, n) ==> r != Halted && (r == Loaded ==> Steady(g)))
          && (PagesLive(h) ==>
                && (r == Halted ==> !ForwardUpTo(content, n, s.tables.Keys))
                && (r == Loaded ==>
                      && ForwardUpTo(content, n, s.tables.Keys)
                      && PagesLive(g) && (Steady(g) <==> SteadyUpTo(content, n, s.tables.Keys)))))
  }

  lemma RunStart(content: seq<Byte>, h: Heap, s: Space)
    requires |content| >= EHDR_SIZE
    ensures RunOutcome(Loaded, content, 0, h, h, s, s)
  {
    hide PagesLive;
  }

  lemma RunStep(r: Outcome, content: seq<Byte>, i: nat, h: Heap, g: Heap, f: Heap, s: Space, t: Space, u: Space)
    requires |content| >= EHDR_SIZE && RunOutcome(Loaded, content, i, h, g, s, t)
      && HeaderOutcome(r, content, i, g, f, t, u)
    ensures RunOutcome(r, content, i + 1, h, f, s, u)
  {
    hide PagesLive, HasPhdr, PhdrAt, SegmentForward, SteadyAfter, TailFits, SegmentSlots, SegmentRoom, Fitting, Steady;
  }

  lemma {:induction false} RunLater(r: Outcome, content: seq<Byte>, n: nat, k: nat, h: Heap, g: Heap, s: Space,
          t: Space)
    requires |content| >= EHDR_SIZE && RunOutcome(r, content, n, h, g, s, t) && r != Loaded && n <= k
    ensures RunOutcome(r, content, k, h, g, s, t)
  {
    hide PagesLive, Asks, PhdrAt, SegmentForward, SteadyAfter, TailFits, SegmentSlots, SegmentRoom, Fitting, Steady;
    hide SteadyUpTo, SlotsAfter;
    if n < k {
      RunLater(r, content, n, k - 1, h, g, s, t);
    }
  }

  /** What one round of the loading loop does to the heap. */
  ghost predicate HeaderOutcome(r: Outcome, content: seq<Byte>, i: nat, h: Heap, g: Heap, s: Space, t: Space)
    requires |content| >= EHDR_SIZE
  {
    if Asks(content, i) then SegmentOutcome(r, h, g, s, t, PhdrAt(content, i))
    else r != Halted && (r == Loaded ==> t == s && g == h)
  }

  lemma HeaderRefused(content: seq<Byte>, i: nat, h: Heap, g: Heap, s: Space, t: Space)
    requires |content| >= EHDR_SIZE
    ensures HeaderOutcome(Refused(-1), content, i, h, g, s, t)
  {
    hide SegmentOutcome, PhdrAt;
    if Asks(content, i) {
      RefusedOutcome(h, g, s, t, PhdrAt(content, i));
    }
  }

  /** One round of the loading loop. */
  method LoadHeader(files: Files, fd: int, heap: KernelHeap, ghost s: Space, dir: nat, ghost base: seq<PageSet>,
          ghost content: seq<Byte>, ghost segs: seq<Segment>, ghost i: nat, ghost pos: nat, ghost rest: set<nat>)
    returns (r: Outcome, ghost t: Space, ghost more: seq<Segment>, ghost now: nat)
    requires EHDR_SIZE <= |content| < 0x8000_0000 && pos == TableStart(content) + PHDR_SIZE * i
    requires files.Valid() && At(files, fd, content, pos)
    requires Prepared(heap, s, dir, base + AllSets(segs), content, segs, rest) && LoadedUpTo(content, i, segs)
    modifies heap, heap.ram, files.Footprint(fd)
    ensures files.Valid() && At(files, fd, content, now) && heap.Valid() && rest <= Live(heap.state)
    ensures r == Loaded ==> now == pos + PHDR_SIZE && HeaderReadable(content, i)
    ensures r == Loaded ==>
      Prepared(heap, t, dir, base + AllSets(more), content, more, rest) && LoadedUpTo(content, i + 1, more)
    ensures r.Refused? ==> r.code == -1 && (old(DriveReads(files, fd)) ==> !HeaderReadable(content, i))
    ensures HeaderOutcome(r, content, i, old(heap.state), heap.state, s, t)
    ensures Spares(old(heap.state), old(heap.ram[..]), heap.state, heap.ram[..], rest)
  {
    hide Files.Valid, At, DriveReads, KernelHeap.ValidIn, SpaceOk, Flat, AllHeld, SegmentSets, PagesOf, Source;
    hide TableStart, HasPhdr, PhdrAt, AllSets, Readable, Prepared;
    hide SegmentOutcome, Live, Spares;
    SparesSame(heap.state, heap.ram[..], rest);
    Separate(files, heap);
    AtOpen(files, fd, content, pos);
    HeaderIs(content, i, pos);
    t, more := s, segs;
    PreparedValid(heap, s, dir, base + AllSets(segs), content, segs, rest);
    var buffer := new Byte[PHDR_SIZE];
    var ok, ph;
    ok, ph, now := ReadPhdr(files, fd, buffer, content, pos);
    if !ok {
      HeaderRefused(content, i, heap.state, heap.state, s, t);
      return Refused(-1), t, more, now;
    }
    r := Loaded;
    if ph.ptype == PT_LOAD {
      ghost var g;
      r, t, g, now := LoadSegment(files, fd, heap, ph, s, dir, base + AllSets(segs), content, segs, now, rest);
      if r == Loaded {
        more := segs + [g];
        AllSetsMore(segs, g);
        assert base + AllSets(segs) + SegmentSets(g.vaddr, g.phys, PagesOf(g.memsz)) == base + AllSets(more);
        LoadedMore(content, i, segs, g);
      }
    }
  }

  /** Every program header is there, and every loadable segment can be read. */
  predicate AllReadable(content: seq<Byte>)
    requires |content| >= EHDR_SIZE
  {
    forall i :: 0 <= i < PhdrCount(content) ==> HeaderReadable(content, i)
  }

  /** The loading loop: from the first program header on, each header right behind the one before. */
  method LoadSegments(files: Files, fd: int, heap: KernelHeap, phoff: U32, phnum: U16, ghost s: Space, dir: nat,
          ghost base: seq<PageSet>, ghost content: seq<Byte>, ghost rest: set<nat>)
    returns (r: Outcome, ghost t: Space, ghost segs: seq<Segment>)
    requires EHDR_SIZE <= |content| < 0x8000_0000 && phoff == Le32At(content, 28) && phnum == PhdrCount(content)
    requires files.Valid() && At(files, fd, content, EHDR_SIZE)
    requires Prepared(heap, s, dir, base, content, [], rest)
    modifies heap, heap.ram, files.Footprint(fd)
    ensures files.Valid() && heap.Valid() && rest <= Live(heap.state)
    ensures r == Loaded ==>
      Prepared(heap, t, dir, base + AllSets(segs), content, segs, rest) && LoadedUpTo(content, phnum, segs)
      && AllReadable(content)
    ensures r.Refused? ==> r.code == -1 && (old(DriveReads(files, fd)) ==> !AllReadable(content))
    ensures RunOutcome(r, content, phnum, old(heap.state), heap.state, s, t)
    ensures Spares(old(heap.state), old(heap.ram[..]), heap.state, heap.ram[..], rest)
  {
    hide Files.Valid, Files.DrivesOk, Charts, At, DriveReads, KernelHeap.ValidIn, Prepared, HeaderReadable;
    hide AllSets, LoadedUpTo;
    hide RunOutcome, HeaderOutcome, Live, Spares;
    Separate(files, heap);
    AtOpen(files, fd, content, EHDR_SIZE);
    PreparedValid(heap, s, dir, base, content, [], rest);
    NothingLoaded(content, base);
    ghost var h, m := heap.state, heap.ram[..];
    SparesSame(h, m, rest);
    RunStart(content, h, s);
    var sought := SeekTo(files, fd, phoff, content, EHDR_SIZE);
    t, segs := s, [];
    ghost var pos := TableStart(content);
    for i := 0 to phnum
      invariant files.descriptors.Length == MAX_FILE_DESCRIPTORS
        && files.GetDescriptor(fd) == old(files.GetDescriptor(fd)) != null
      invariant files.Footprint(fd) == old(files.Footprint(fd))
      invariant files.Valid() && At(files, fd, content, pos) && pos == TableStart(content) + PHDR_SIZE * i
      invariant Prepared(heap, t, dir, base + AllSets(segs), content, segs, rest) && LoadedUpTo(content, i, segs)
        && heap.Valid()
      invariant rest <= Live(heap.state) && RunOutcome(Loaded, content, i, h, heap.state, s, t)
      invariant forall j :: 0 <= j < i ==> HeaderReadable(content, j)
      invariant Spares(h, m, heap.state, heap.ram[..], rest)
    {
      Separate(files, heap);
      ghost var h1, m1, s1 := heap.state, heap.ram[..], t;
      r, t, segs, pos := LoadHeader(files, fd, heap, t, dir, base, content, segs, i, pos, rest);
      RunStep(r, content, i, h, h1, heap.state, s, s1, t);
      SparesTwice(h, m, h1, m1, heap.state, heap.ram[..], rest, rest);
      if r != Loaded {
        RunLater(r, content, i + 1, phnum, h, heap.state, s, t);
        return r, t, segs;
      }
    }
    return Loaded, t, segs;
  }

  lemma NothingLoaded(content: seq<Byte>, base: seq<PageSet>)
    requires |content| >= EHDR_SIZE
    ensures base + AllSets([]) == base && LoadedUpTo(content, 0, [])
  {
  }

  // ----- The whole loader -----

  const NAME_SIZE := 32

  /** A file the loader accepts: a valid header, and everything the program headers ask for. */
  predicate ElfOk(content: seq<Byte>)
  {
    |content| >= EHDR_SIZE && ValidHeader(content[..EHDR_SIZE]) && AllReadable(content)
  }

  /** The process holds the file: all loadable segments in place, and mapped in order on top of the
      new address space and the text screen; and the blocks of `rest` are live beside it. */
  ghost predicate HoldsElfIn(m: seq<Byte>, h: Heap, proc: Process, content: seq<Byte>, s: Space, segs: seq<Segment>,
          rest: set<nat>)
  {
    && ElfOk(content) && proc.ptr == EntryPoint(content) && proc.size == 0
    && PreparedIn(m, h, s, proc.directory, [ScreenSet()] + AllSets(segs), content, segs, rest)
    && LoadedUpTo(content, PhdrCount(content), segs)
  }

  ghost predicate HoldsElf(heap: KernelHeap, proc: Process, content: seq<Byte>, s: Space, segs: seq<Segment>,
          rest: set<nat>)
    reads heap, heap.ram
  {
    heap.Valid() && HoldsElfIn(heap.ram[..], heap.state, proc, content, s, segs, rest)
  }

  lemma HeaderFields(header: seq<Byte>, content: seq<Byte>)
    requires EHDR_SIZE <= |content| && header == content[..EHDR_SIZE]
    ensures |header| == EHDR_SIZE && Le32At(header, 28) == Le32At(content, 28)
      && Le16At(header, 44) == PhdrCount(content) && Le32At(header, 24) == EntryPoint(content)
  {
  }

  // ----- When the file is loaded -----

  /** Loading this file from a steady heap on never moves the break back. */
  predicate ElfForward(content: seq<Byte>)
    requires |content| >= EHDR_SIZE
  {
    ForwardUpTo(content, PhdrCount(content), SlotsBelow(16))
  }

  /** How far the break moves at most for the process structure. */
  const PROCESS_GROWTH := PROCESS_SIZE + HEADER

  /** Room for the address space and all segments. */
  function ElfRoom(content: seq<Byte>): nat
    requires |content| >= EHDR_SIZE
  {
    37 * PAGE + RoomUpTo(content, PhdrCount(content))
  }

  /** The sizes the model accepts: the file below 2 GiB, and every segment in its own memory. */
  predicate ElfSized(content: seq<Byte>)
    requires |content| >= EHDR_SIZE
  {
    |content| < 0x8000_0000 && FittingUpTo(content, PhdrCount(content))
  }

  /** When a file of such sizes is loaded, given room, from the heap `at` at the first request for a page:
      always if that heap has room on the page of its break and every segment ends at most 0xFF0 into its
      page; and with every large block on a page live, if and only if that heap is steady and the break only
      goes forward. */
  ghost predicate ElfOutcome(r: Outcome, content: seq<Byte>, at: Heap)
  {
    |content| >= EHDR_SIZE && ElfSized(content) && at.brk + ElfRoom(content) < TWO_32 ==>
      && (Ample(at, CHUNK_SIZE + HEADER) && TailsFit(content, PhdrCount(content)) ==> r != Halted)
      && (PagesLive(at) ==>
            && (r == Halted ==> !(Steady(at) && ElfForward(content)))
            && (r == Loaded ==> Steady(at) && ElfForward(content)))
  }

  lemma {:induction false} TailsForward(content: seq<Byte>, n: nat, slots: set<nat>)
    requires |content| >= EHDR_SIZE && TailsFit(content, n)
    ensures ForwardUpTo(content, n, slots) && SteadyUpTo(content, n, slots)
  {
    hide Asks, PhdrAt, SlotsAfter, SegmentSlots, TailFits;
    if n > 0 {
      TailsForward(content, n - 1, slots);
    }
  }

  /** A program whose segments all end at most 0xFF0 into their page never moves the break back. */
  lemma TailsSuffice(content: seq<Byte>)
    requires |content| >= EHDR_SIZE && TailsFit(content, PhdrCount(content))
    ensures ElfForward(content)
  {
    TailsForward(content, PhdrCount(content), SlotsBelow(16));
  }

  lemma ElfOutcomeIs(r: Outcome, content: seq<Byte>, at: Heap, h: Heap, g: Heap, s: Space, t: Space)
    requires |content| >= EHDR_SIZE && Steady(at) && SpaceMade(at, h) && s.tables.Keys == SlotsBelow(16)
    requires RunOutcome(r, content, PhdrCount(content), h, g, s, t)
    ensures ElfOutcome(r, content, at)
  {
    hide PagesLive, RoomUpTo, ForwardUpTo, TailsFit, FittingUpTo, SteadyUpTo, SlotsBelow, SlotsAfter, PhdrCount;
  }

  /** No room, or no steady heap, for the address space. */
  lemma ElfHalted(content: seq<Byte>, at: Heap)
    requires !(Steady(at) && at.brk + 36 * PAGE < TWO_32)
    ensures ElfOutcome(Halted, content, at)
  {
    hide PagesLive, ElfForward, TailsFit, ElfSized, RoomUpTo;
  }

  lemma ElfRefused(content: seq<Byte>, at: Heap)
    ensures ElfOutcome(Refused(-1), content, at)
  {
    hide PagesLive, ElfForward;
  }

  /** The heap at the first request for a page, from the opened file on. */
  ghost function ElfAt(h: Heap): Heap
  {
    Small(h, PROCESS_SIZE).0
  }

  /** `elf_load` between `fopen` and `fclose`. */
  method LoadOpened(files: Files, fd: int, heap: KernelHeap, filename: seq<Byte>, header: array<Byte>,
          ghost content: seq<Byte>, ghost rest: set<nat>)
    returns (r: Outcome, proc: Process, ghost s: Space, ghost segs: seq<Segment>)
    requires files.Valid() && At(files, fd, content, 0) && heap.Valid() && |content| < 0x8000_0000
      && rest <= Live(heap.state)
    requires header.Length == EHDR_SIZE && header != heap.ram
    modifies heap, heap.ram, header, files.Footprint(fd)
    ensures files.Valid() && heap.Valid() && rest <= Live(heap.state)
    ensures r == Loaded ==> HoldsElf(heap, proc, content, s, segs, rest)
    ensures r == Loaded ==> StructHeld(heap.ram[..], heap.state, proc, filename, rest)
    ensures r.Refused? ==> r.code == -1 && (old(DriveReads(files, fd)) ==> !ElfOk(content))
    ensures ElfOutcome(r, content, ElfAt(old(heap.state)))
    ensures Spares(old(heap.state), old(heap.ram[..]), heap.state, heap.ram[..], rest)
  {
    hide Files.Valid, At, DriveReads, KernelHeap.ValidIn, PreparedIn, Asked, WholeItems, AllReadable, LoadedUpTo;
    hide AllSets, ValidHeader, EntryPoint, PhdrCount, Runs.Step, CursorAt, UnitAt;
    hide ElfOutcome, Live, Le32At, Le16At, Spares, StructHeld;
    SparesSame(heap.state, heap.ram[..], rest);
    Separate(files, heap);
    AtOpen(files, fd, content, 0);
    s, segs := Space(0, map[]), [];
    proc := Process(0, [], 0, 0, 0, 0);
    AskedOne(EHDR_SIZE, 0);
    ElfRefused(content, ElfAt(heap.state));
    var n;
    ghost var got;
    ghost var ev;
    n, got, ev := ReadAt(files, fd, header, 0, EHDR_SIZE, 1, content, 0);
    AskedOne(EHDR_SIZE, got);
    if n != 1 {
      return Refused(-1), proc, s, segs;
    }
    ghost var front := content[..EHDR_SIZE];
    assert header[..] == front;
    HeaderFields(front, content);
    if !ValidHeader(header[..]) {
      return Refused(-1), proc, s, segs;
    }
    var entry, phoff, phnum := Le32At(header[..], 24), Le32At(header[..], 28), Le16At(header[..], 44);
    Separate(files, heap);
    r, proc, s, segs := BuildProcess(files, fd, heap, filename, entry, phoff, phnum, content, rest);
  }

  lemma HasScreenSlot()
    ensures 0 in SlotsBelow(16)
  {
  }

  /** The rest, once the header is read: the process structure, its address space and its segments. */
  method BuildProcess(files: Files, fd: int, heap: KernelHeap, filename: seq<Byte>, entry: U32, phoff: U32, phnum: U16,
          ghost content: seq<Byte>, ghost rest: set<nat>)
    returns (r: Outcome, proc: Process, ghost s: Space, ghost segs: seq<Segment>)
    requires files.Valid() && At(files, fd, content, EHDR_SIZE) && heap.Valid() && EHDR_SIZE <= |content| < 0x8000_0000
      && rest <= Live(heap.state)
    requires phoff == Le32At(content, 28) && phnum == PhdrCount(content)
    modifies heap, heap.ram, files.Footprint(fd)
    ensures files.Valid() && heap.Valid() && rest <= Live(heap.state)
    ensures r == Loaded ==>
      && proc.ptr == entry && AllReadable(content)
      && Prepared(heap, s, proc.directory, [ScreenSet()] + AllSets(segs), content, segs, rest)
      && LoadedUpTo(content, PhdrCount(content), segs) && proc.size == 0
      && StructHeld(heap.ram[..], heap.state, proc, filename, rest)
    ensures r.Refused? ==> r.code == -1 && (old(DriveReads(files, fd)) ==> !AllReadable(content))
    ensures ElfOutcome(r, content, ElfAt(old(heap.state)))
    ensures Spares(old(heap.state), old(heap.ram[..]), heap.state, heap.ram[..], rest)
  {
    hide Files.Valid, At, DriveReads, KernelHeap.ValidIn, Prepared, AllReadable, LoadedUpTo, AllSets;
    hide Small, ElfOutcome, Live, Creeps, SpaceMade, Steady, SlotsBelow, RunOutcome, Inv, Spares, StructHeld, ChunkHeld;
    Separate(files, heap);
    AtOpen(files, fd, content, EHDR_SIZE);
    ghost var h, m := heap.state, heap.ram[..];
    segs := [];
    heap.ValidFacts();
    var addr := AllocateProcess(heap);
    proc := Process(addr, filename, 0, 0, 0, 0);
    s := Space(0, map[]);
    ghost var h1, m1 := heap.state, heap.ram[..];
    SparesLess(h, m, h1, m1, Live(h), rest);
    heap.ValidFacts();
    if addr == 0 {
      ElfNoRoom(content, h);
      return Halted, proc, s, segs;
    }
    Separate(files, heap);
    StructTaken(h, h1, addr, rest);
    var ok, chunk, dir;
    ok, chunk, dir, s := NewProcessSpace(heap, content, rest + {addr});
    ghost var g, k, more := heap.state, heap.ram[..], rest + {addr} + {chunk};
    SparesTwice(h, m, h1, m1, g, k, rest, rest + {addr});
    if !ok {
      ElfHalted(content, h1);
      return Halted, proc, s, segs;
    }
    Separate(files, heap);
    HasScreenSlot();
    s := MapScreen(heap, s, dir, [], content, [], more);
    ghost var h2, m2, s2 := heap.state, heap.ram[..], s;
    SparesTwice(h, m, g, k, h2, m2, rest, more);
    assert [] + [ScreenSet()] == [ScreenSet()];
    Separate(files, heap);
    r, s, segs := LoadSegments(files, fd, heap, phoff, phnum, s, dir, [ScreenSet()], content, more);
    ElfOutcomeIs(r, content, h1, h2, heap.state, s2, s);
    SparesTwice(h, m, h2, m2, heap.state, heap.ram[..], rest, more);
    proc := Process(addr, filename, chunk, dir, entry, 0);
    StructStays(h1, m1, g, k, heap.state, heap.ram[..], h2, m2, proc, filename, rest);
    if r == Loaded {
      PreparedRest(heap, s, dir, [ScreenSet()] + AllSets(segs), content, segs, more, rest);
    }
  }

  lemma ElfNoRoom(content: seq<Byte>, h: Heap)
    requires h.brk + PROCESS_SIZE + PAGE >= TWO_32
    ensures ElfOutcome(Halted, content, ElfAt(h))
  {
    if Indexed(h) {
      KmallocCreeps(h, PROCESS_SIZE);
    }
    hide PagesLive, ElfForward, TailsFit, ElfSized, RoomUpTo, Allocate;
  }

  /** Every part of a short path is short. */
  lemma {:induction false} PartsShort(text: seq<Byte>)
    requires |text| < Parser.PART_SIZE
    ensures Parser.ShortParts(text)
    decreases |text|
  {
    var part := Parser.BeforeSlash(text);
    if part != [] {
      PartsShort(Parser.AfterSlash(text));
      assert Parser.PartsOf(text) == [part] + Parser.PartsOf(Parser.AfterSlash(text));
    }
  }

  /** The structure keeps the file name in 32 bytes. */
  predicate NameFits(filename: seq<Byte>)
  {
    0 in filename && |CStr(filename)| < NAME_SIZE
  }

  lemma RoomForPath(filename: seq<Byte>)
    requires NameFits(filename)
    ensures Parser.HasDrive(CStr(filename)) ==> Parser.ShortParts(CStr(filename)[3..])
    ensures OpenRoom(|CStr(filename)|) <= OpenRoom(NAME_SIZE)
  {
    if Parser.HasDrive(CStr(filename)) {
      PartsShort(CStr(filename)[3..]);
    }
  }

  /** Giving back two blocks that are none of its own leaves the process as it is. */
  lemma StillHeld(m: seq<Byte>, m': seq<Byte>, h: Heap, p: nat, q: nat, proc: Process, content: seq<Byte>, s: Space,
          segs: seq<Segment>, rest: set<nat>, less: set<nat>)
    requires HoldsElfIn(m, h, proc, content, s, segs, rest) && p in rest && q in rest && p != q && less <= rest - {p, q}
    requires |m'| == |m| && forall x :: 0 <= x < |m| && ClearOfHeaders(Release(Release(h, p), q), x) ==> m'[x] == m[x]
    ensures HoldsElfIn(m', Release(Release(h, p), q), proc, content, s, segs, less)
  {
    hide PreparedIn, Release, ClearOfHeaders, AllSets, LoadedUpTo, ElfOk;
    ReleasedBeside(m, m', h, p, q, s, proc.directory, [ScreenSet()] + AllSets(segs), content, segs, rest, less);
  }

  /** Loads from an open file and closes it, giving back the descriptor's blocks. */
  method LoadAndClose(files: Files, fd: int, heap: KernelHeap, filename: seq<Byte>, ghost content: seq<Byte>,
          ghost rest: set<nat>)
    returns (r: Outcome, proc: Process, ghost s: Space, ghost segs: seq<Segment>)
    requires files.Valid() && At(files, fd, content, 0) && heap.Valid() && files.Backed(Live(heap.state))
      && rest <= Live(heap.state)
    requires files.GetDescriptor(fd) != null && files.GetDescriptor(fd).Blocks() !! rest
    modifies heap, heap.ram, files.descriptors, files.Footprint(fd)
    ensures files.Valid() && heap.Valid() && files.Backed(Live(heap.state)) && rest <= Live(heap.state)
    ensures r == Loaded ==> HoldsElf(heap, proc, content, s, segs, rest)
    ensures r == Loaded ==> StructHeld(heap.ram[..], heap.state, proc, filename, rest)
    ensures r.Refused? ==> r.code == -1 && (old(DriveReads(files, fd)) ==> !ElfOk(content))
    ensures ElfOutcome(r, content, ElfAt(old(heap.state)))
    ensures Spares(old(heap.state), old(heap.ram[..]), heap.state, heap.ram[..], rest)
    ensures files.descriptors[..] == old(files.descriptors[..])[fd - 1 := null]
  {
    hide Files.Valid, Files.DrivesOk, Charts, KernelHeap.ValidIn, At, DriveReads, HoldsElfIn, ElfOk, ElfOutcome;
    hide Live, AllBacked, Release, ClearOfHeaders, Spares, StructHeld;
    Separate(files, heap);
    AtOpen(files, fd, content, 0);
    s, segs, proc := Space(0, map[]), [], Process(0, [], 0, 0, 0, 0);
    ghost var live, desc, h, m0 := Live(heap.state), files.GetDescriptor(fd), heap.state, heap.ram[..];
    SparesSame(h, m0, live);
    DescriptorBlocks(files, fd, live);
    if files.GetDescriptor(fd).private.item.filesize >= 0x8000_0000 {
      r := Halted;
      TooLarge(content, ElfAt(heap.state));
    } else {
      var header := new Byte[EHDR_SIZE];
      r, proc, s, segs := LoadOpened(files, fd, heap, filename, header, content, live);
    }
    Separate(files, heap);
    BackedMore(files.descriptors[..], live, Live(heap.state));
    ghost var m, h1 := heap.ram[..], heap.state;
    DescriptorBlocks(files, fd, Live(h1));
    heap.ValidFacts();
    var closed := files.Fclose(fd, heap);
    SparesLess(h, m0, h1, m, live, rest);
    SparesTwice(h, m0, h1, m, heap.state, heap.ram[..], rest, Live(h1) - desc.Blocks());
    if r == Loaded {
      StillHeld(m, heap.ram[..], h1, desc.private.addr, desc.addr, proc, content, s, segs, live, rest);
      StructClosed(h1, m, heap.state, heap.ram[..], desc.Blocks(), proc, filename, live, rest);
    }
  }

  lemma DescriptorBlocks(files: Files, fd: int, live: set<nat>)
    requires files.descriptors.Length == MAX_FILE_DESCRIPTORS && files.Backed(live) && files.GetDescriptor(fd) != null
    ensures var d := files.GetDescriptor(fd); d.addr != d.private.addr && d.Blocks() <= live
  {
    assert files.descriptors[..][fd - 1] == files.descriptors[fd - 1];
  }

  lemma TooLarge(content: seq<Byte>, h: Heap)
    requires |content| >= 0x8000_0000
    ensures ElfOutcome(Halted, content, h)
  {
  }

  /** `elf_load`: the process holds exactly the file that the name leads to, or there is none that the
      loader accepts, or the model stops. What was live before stays live beside the process. */
  method ElfLoad(files: Files, heap: KernelHeap, filename: seq<Byte>)
    returns (r: Outcome, proc: Process, ghost content: seq<Byte>, ghost s: Space, ghost segs: seq<Segment>)
    requires files.Valid() && heap.Valid() && NameFits(filename) && files.Backed(Live(heap.state))
    requires heap.state.brk + OpenRoom(NAME_SIZE) < TWO_32
    modifies heap, heap.ram, files.descriptors, files.disks
    ensures files.Valid() && heap.Valid() && Charts(files) && files.Backed(Live(heap.state))
      && Live(old(heap.state)) <= Live(heap.state)
    ensures !r.Refused? ==> NamedContent(files, filename) == Some(content)
    ensures r == Loaded ==> HoldsElf(heap, proc, content, s, segs, Live(old(heap.state)))
    ensures r == Loaded ==> StructHeld(heap.ram[..], heap.state, proc, filename, Live(old(heap.state)))
    ensures r.Refused? ==> r.code == -1
    ensures r.Refused? && DrivesRead(files) && FreeSlot(old(files.OpenFiles()), 0) < MAX_FILE_DESCRIPTORS ==>
      NamedContent(files, filename).None? || !ElfOk(NamedContent(files, filename).value)
    ensures ElfOutcome(r, content, ElfAt(OpenHeap(old(heap.state), Parser.PartCount(CStr(filename))).0))
    ensures Spares(old(heap.state), old(heap.ram[..]), heap.state, heap.ram[..], Live(old(heap.state)))
    ensures files.descriptors[..] == old(files.descriptors[..]) && fresh(Reach(files) - old(Reach(files)))
  {
    hide Files.Valid, Files.DrivesOk, Charts, KernelHeap.ValidIn, CStr, Parser.HasDrive, Parser.ShortParts, At;
    hide DriveReads, DrivesRead;
    hide Named, NamedContent, HoldsElf, ElfOk, FreeSlot, ElfOutcome, Live, Leaves, AllBacked, OpenGrowth, OpenRoom;
    hide Spares, OpenHeap, Objects, Reach, Mounts, StructHeld;
    RoomForPath(filename);
    s, segs, proc := Space(0, map[]), [], Process(0, [], 0, 0, 0, 0);
    ghost var h, m, slots := heap.state, heap.ram[..], files.descriptors[..];
    var fd;
    ghost var taken;
    fd, content, taken := OpenRead(files, heap, filename);
    TableSize(files);
    ghost var h1, m1, now, mounts := heap.state, heap.ram[..], files.descriptors[..], Mounts(files);
    ReachIs(files);
    LeavesFacts(h, h1, taken, OpenGrowth(CStr(filename)));
    heap.ValidFacts();
    if fd < 0 {
      ElfRefused(content, ElfAt(OpenHeap(h, Parser.PartCount(CStr(filename))).0));
      return Refused(-1), proc, content, s, segs;
    }
    Separate(files, heap);
    OpenedBlocks(files.GetDescriptor(fd), taken, Live(h));
    r, proc, s, segs := LoadAndClose(files, fd, heap, filename, content, Live(h));
    SparesTwice(h, m, h1, m1, heap.state, heap.ram[..], Live(h), Live(h));
    SlotEmptied(slots, now, fd);
    assert Mounts(files) == mounts;
    ReachClosed(files, now, fd - 1);
    TableSize(files);
  }

  // ----- What the process sees -----

  /** The `i`-th header of the file asks for memory. */
  predicate LoadsAt(content: seq<Byte>, i: nat)
    requires |content| >= EHDR_SIZE
  {
    i < PhdrCount(content) && Asks(content, i)
  }

  predicate MissesPage(ph: Phdr, page: nat)
  {
    Misses(SegmentOf(ph, 0, 0), page)
  }

  /** Segments of the program lie on different pages, below 4 GiB. */
  ghost predicate LaidOut(content: seq<Byte>)
    requires |content| >= EHDR_SIZE
  {
    && (forall i :: LoadsAt(content, i) ==>
      PhdrAt(content, i).vaddr % PAGE == 0 && PhdrAt(content, i).vaddr + PhdrAt(content, i).memsz <= TWO_32)
    && (forall i, j, page :: LoadsAt(content, i) && LoadsAt(content, j) && i < j ==>
      MissesPage(PhdrAt(content, i), page) || MissesPage(PhdrAt(content, j), page))
  }

  /** What the loaders need of each segment to trace a page back to it. */
  ghost predicate Traceable(segs: seq<Segment>)
  {
    forall l :: 0 <= l < |segs| ==>
      segs[l].phys % PAGE == 0 && segs[l].vaddr + segs[l].memsz <= TWO_32
      && segs[l].phys + segs[l].memsz + PAGE < TWO_32
  }

  /** The segment of the `i`-th header, and that segments of headers that miss a page miss it too. */
  lemma {:induction false} SegmentOfHeader(content: seq<Byte>, n: nat, segs: seq<Segment>, i: nat, page: nat)
    returns (j: nat)
    requires |content| >= EHDR_SIZE && LoadedUpTo(content, n, segs) && i < n <= PhdrCount(content)
      && LoadsAt(content, i)
    requires forall l :: LoadsAt(content, l) && i < l ==> MissesPage(PhdrAt(content, l), page)
    ensures j < |segs| && segs[j] ==
      SegmentOf(PhdrAt(content, i), segs[j].phys,
      Source(PhdrAt(content, i), |content|, TableStart(content) + PHDR_SIZE * (i + 1)))
    ensures forall l :: j < l < |segs| ==> Misses(segs[l], page)
  {
    hide TableStart, HasPhdr, PhdrAt, Readable, Source, PhdrCount;
    if i == n - 1 {
      j := |segs| - 1;
    } else if PhdrAt(content, n - 1).ptype == PT_LOAD {
      j := SegmentOfHeader(content, n - 1, segs[..|segs| - 1], i, page);
      assert LoadsAt(content, n - 1);
    } else {
      j := SegmentOfHeader(content, n - 1, segs, i, page);
    }
  }

  lemma {:induction false} AllTraceable(content: seq<Byte>, n: nat, segs: seq<Segment>)
    requires |content| >= EHDR_SIZE && LoadedUpTo(content, n, segs) && n <= PhdrCount(content)
    requires forall i :: LoadsAt(content, i) ==> PhdrAt(content, i).vaddr + PhdrAt(content, i).memsz <= TWO_32
    ensures Traceable(segs)
  {
    hide TableStart, HasPhdr, PhdrAt, Readable, Source, PhdrCount;
    if n > 0 {
      if PhdrAt(content, n - 1).ptype == PT_LOAD {
        assert LoadsAt(content, n - 1);
        AllTraceable(content, n - 1, segs[..|segs| - 1]);
      } else {
        AllTraceable(content, n - 1, segs);
      }
    }
  }

  /** The page that holds a byte of a segment belongs to the segment. */
  lemma OwnPage(g: Segment, k: nat)
    requires g.vaddr % PAGE == 0 && k < g.memsz
    ensures !Misses(g, (g.vaddr + k) / PAGE)
  {
  }

  lemma PageTraced(m: seq<Byte>, s: Space, segs: seq<Segment>, j: nat, page: nat)
    requires forall d :: d in s.tables ==> s.tables[d] + PAGE <= |m|
    requires Flat(m, s, [ScreenSet()] + AllSets(segs)) && Traceable(segs) && j < |segs| && page < PAGES
    requires !Misses(segs[j], page) && forall l :: j < l < |segs| ==> Misses(segs[l], page)
    ensures Pte(m, s, page) == FrameIn(segs[j], page) + MAPPED
  {
    hide Pte, Misses, Overlay, AllSets, FrameIn;
    OverlayAppend(BasePte(page), page, [ScreenSet()], AllSets(segs));
    AllSetsAt(Overlay(BasePte(page), page, [ScreenSet()]), segs, j, page);
  }

  lemma PreparedFacts(heap: KernelHeap, s: Space, dir: nat, sets: seq<PageSet>, content: seq<Byte>, segs: seq<Segment>,
          rest: set<nat>, j: nat)
    requires Prepared(heap, s, dir, sets, content, segs, rest) && j < |segs|
    ensures SpaceOk(heap.ram[..], heap.state, s) && s.dir == dir && dir + PAGE <= heap.ram.Length == TWO_32
    ensures forall d :: d in s.tables ==> s.tables[d] + PAGE <= heap.ram.Length
    ensures Flat(heap.ram[..], s, sets) && Held(heap.ram[..], heap.state, s, content, segs[j])
  {
    hide Flat, Held, KernelHeap.ValidIn;
  }

  /** What a program header promises of the byte `k` of its segment. */
  function Promised(content: seq<Byte>, i: nat, k: nat): Byte
    requires |content| >= EHDR_SIZE && HeaderReadable(content, i) && PhdrAt(content, i).ptype == PT_LOAD
  {
    var ph := PhdrAt(content, i);
    if k < ph.filesz then content[Source(ph, |content|, TableStart(content) + PHDR_SIZE * (i + 1)) + k] else 0
  }

  /** After a successful load of a program with page-aligned, page-disjoint segments, every byte of every
      segment is at its virtual address: the file's bytes first, then zeros, and all of it may be read
      and written by the process. */
  lemma ElfSeen(heap: KernelHeap, proc: Process, content: seq<Byte>, s: Space, segs: seq<Segment>, rest: set<nat>,
          i: nat, k: nat, va: U32)
    requires HoldsElf(heap, proc, content, s, segs, rest) && LaidOut(content) && LoadsAt(content, i)
    requires k < PhdrAt(content, i).memsz && va == PhdrAt(content, i).vaddr + k
    ensures HeaderReadable(content, i) && proc.directory + PAGE <= heap.ram.Length == TWO_32
    ensures Fetch(heap.ram[..], proc.directory, va) == Some(Promised(content, i, k))
    ensures EffectiveRight(heap.ram[..], proc.directory, va / PAGE, WRITEABLE)
      && EffectiveRight(heap.ram[..], proc.directory, va / PAGE, ACCESS_FROM_ALL)
  {
    hide PreparedIn, Flat, Held, Pte, Misses, TableStart, HasPhdr, PhdrAt, Readable, Source, PhdrCount, AllSets;
    hide FrameIn, Fetch, EffectiveRight, SpaceOk, ByteOf;
    assert HeaderReadable(content, i);
    var page := va / PAGE;
    AllTraceable(content, PhdrCount(content), segs);
    var ph := PhdrAt(content, i);
    OwnPage(SegmentOf(ph, 0, 0), k);
    assert forall l :: LoadsAt(content, l) && i < l ==> MissesPage(PhdrAt(content, l), page);
    var j := SegmentOfHeader(content, PhdrCount(content), segs, i, page);
    SeenInSegment(heap, proc.directory, content, s, segs, rest, j, k, va);
    PreparedFacts(heap, s, proc.directory, [ScreenSet()] + AllSets(segs), content, segs, rest, j);
    PromisedIs(content, i, k, segs[j]);
  }

  lemma PromisedIs(content: seq<Byte>, i: nat, k: nat, g: Segment)
    requires |content| >= EHDR_SIZE && HeaderReadable(content, i) && PhdrAt(content, i).ptype == PT_LOAD
    requires g == SegmentOf(PhdrAt(content, i), g.phys,
      Source(PhdrAt(content, i), |content|, TableStart(content) + PHDR_SIZE * (i + 1)))
    ensures g.start + g.filesz <= |content| && ByteOf(content, g, k) == Promised(content, i, k)
  {
    hide TableStart, HasPhdr, PhdrAt;
  }

  lemma SeenInSegment(heap: KernelHeap, dir: nat, content: seq<Byte>, s: Space, segs: seq<Segment>, rest: set<nat>,
          j: nat, k: nat, va: U32)
    requires Prepared(heap, s, dir, [ScreenSet()] + AllSets(segs), content, segs, rest) && Traceable(segs)
    requires j < |segs| && segs[j].vaddr % PAGE == 0 && k < segs[j].memsz && va == segs[j].vaddr + k
    requires forall l :: j < l < |segs| ==> Misses(segs[l], va / PAGE)
    ensures dir + PAGE <= heap.ram.Length == TWO_32 && segs[j].start + segs[j].filesz <= |content|
    ensures Fetch(heap.ram[..], dir, va) == Some(ByteOf(content, segs[j], k))
    ensures EffectiveRight(heap.ram[..], dir, va / PAGE, WRITEABLE)
      && EffectiveRight(heap.ram[..], dir, va / PAGE, ACCESS_FROM_ALL)
  {
    hide Prepared, Flat, Held, Pte, Misses, AllSets, FrameIn, Fetch, EffectiveRight, SpaceOk, ByteOf;
    var m := heap.ram[..];
    PreparedFacts(heap, s, dir, [ScreenSet()] + AllSets(segs), content, segs, rest, j);
    OwnPage(segs[j], k);
    PageTraced(m, s, segs, j, va / PAGE);
    SeenByte(m, heap.state, s, content, segs[j], k, va);
  }
}
