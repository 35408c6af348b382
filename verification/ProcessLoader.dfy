/** Loading a program by name (src/task/process.c:44-112): ELF files through the ELF loader, anything
    else as a raw image at 0x400000. */
module ProcessLoader {
  import opened Bytes
  import opened CStrings
  import opened Fat16
  import opened Vfs
  import opened FileReads
  import opened HeapModel
  import opened KernelHeaps
  import opened TableRuns
  import opened Paging
  import opened ProcessMemory
  import opened ElfLoader
  import Parser = PathParser
  import Runs = FileRuns

  const LOAD_ADDRESS: U32 := 0x40_0000
  const ELF_MAGIC := 0x464C_457F

  /** Whether a path can be opened below 4 GiB. Where it cannot, the model stops. */
  method HasPathRoom(heap: KernelHeap) returns (b: bool)
    requires heap.Valid()
    ensures b <==> heap.state.brk + OpenRoom(NAME_SIZE) < TWO_32
  {
    b := heap.placementAddress + OpenRoom(NAME_SIZE) < TWO_32;
  }

  /** A slot that was free, filled and freed again leaves the table as it was. */
  lemma SlotRestored(t: Table, t1: Table, t2: Table, t3: Table, fd: int)
    requires OthersKept(t, t1, fd) && OthersKept(t1, t2, fd) && t3 == t2[fd - 1 := None] && fd - 1 == FreeSlot(t, 0)
    ensures t3 == t
  {
  }

  /** Opens the file, reads its first four bytes and closes it. The stream and the mount of the drive stay
      live. */
  method ReadMagic(files: Files, heap: KernelHeap, filename: seq<Byte>)
    returns (code: int, magic: U32, ghost content: seq<Byte>, ghost left: seq<nat>)
    requires files.Valid() && heap.Valid() && NameFits(filename) && files.Backed(Live(heap.state))
    requires heap.state.brk + OpenRoom(NAME_SIZE) < TWO_32
    modifies heap, heap.ram, files.descriptors, files.disks
    ensures files.Valid() && heap.Valid() && Charts(files) && files.Backed(Live(heap.state)) && code in {0, -1}
    ensures Leaves(old(heap.state), heap.state, left, OpenGrowth(CStr(filename))) && |left| <= 3
    ensures code == 0 ==>
      NamedContent(files, filename) == Some(content) && |content| >= 4 && magic == Le32At(content, 0) && |left| == 2
    ensures code == -1 && DrivesRead(files) && FreeSlot(old(files.OpenFiles()), 0) < MAX_FILE_DESCRIPTORS ==>
      NamedContent(files, filename).None? || |NamedContent(files, filename).value| < 4
    ensures files.OpenFiles() == old(files.OpenFiles()) && files.descriptors[..] == old(files.descriptors[..])
    ensures Spares(old(heap.state), old(heap.ram[..]), heap.state, heap.ram[..], Live(old(heap.state)))
    ensures fresh(Reach(files) - old(Reach(files)))
    ensures code == 0 ==> heap.state == ClosedHeap(OpenHeap(old(heap.state), Parser.PartCount(CStr(filename))))
  {
    hide OpenHeap, Release, Parser.PartCount;
    hide Files.Valid, Files.DrivesOk, Charts, KernelHeap.ValidIn, CStr, Parser.HasDrive, Parser.ShortParts, At;
    hide DriveReads, DrivesRead, Named, NamedContent, FreeSlot, Le32At;
    hide Live, Leaves, AllBacked, OpenGrowth, OpenRoom, Creeps, Spares, Objects;
    RoomForPath(filename);
    magic := 0;
    ghost var t, h, m, slots := files.OpenFiles(), heap.state, heap.ram[..], files.descriptors[..];
    var fd;
    fd, content, left := OpenRead(files, heap, filename);
    TableSize(files);
    if fd < 0 {
      return -1, magic, content, left;
    }
    Separate(files, heap);
    ghost var t1, h1, m1, now := files.OpenFiles(), heap.state, heap.ram[..], files.descriptors[..];
    ghost var desc := files.GetDescriptor(fd);
    assert left[2] == left[2..][0] && left[3] == left[2..][1];
    code, magic := ReadWord(files, fd, heap, content, t, t1);
    MagicSpares(h, m, h1, m1, heap.state, heap.ram[..], left, OpenGrowth(CStr(filename)), desc);
    SlotEmptied(slots, now, fd);
    ReachShrinks(now, fd - 1, Mounts(files));
    LeavesClosed(h, h1, heap.state, left, OpenGrowth(CStr(filename)));
    left := left[..2];
    TableSize(files);
  }

  /** Opening and closing again. */
  lemma MagicSpares(h: Heap, m: seq<Byte>, g: Heap, m1: seq<Byte>, f: Heap, m2: seq<Byte>, taken: seq<nat>, room: nat,
          desc: FileDescriptor)
    requires Leaves(h, g, taken, room) && |taken| == 4 && taken[2..] == [desc.private.addr, desc.addr]
    requires Spares(h, m, g, m1, Live(h)) && Spares(g, m1, f, m2, Live(g) - desc.Blocks())
    ensures Spares(h, m, f, m2, Live(h))
  {
    hide Spares, Live, Leaves;
    LeavesFacts(h, g, taken, room);
    OpenedBlocks(desc, taken, Live(h));
    SparesTwice(h, m, g, m1, f, m2, Live(h), Live(g) - desc.Blocks());
  }

  lemma WordRead(content: seq<Byte>)
    requires |content| >= 4
    ensures Le32At(content[..4], 0) == Le32At(content, 0)
  {
  }

  /** Closes a file in whose slot nothing was before it. */
  method CloseAgain(files: Files, fd: int, heap: KernelHeap, ghost t: Table, ghost t1: Table)
    requires files.Valid() && OthersKept(t, t1, fd) && OthersKept(t1, files.OpenFiles(), fd) && fd - 1 == FreeSlot(t, 0)
    requires heap.Valid() && files.Backed(Live(heap.state)) && files.descriptors.Length == MAX_FILE_DESCRIPTORS
      && files.GetDescriptor(fd) != null
    modifies heap, heap.ram, files.descriptors
    ensures files.Valid() && heap.Valid() && files.Backed(Live(heap.state)) && files.OpenFiles() == t
    ensures Live(heap.state) == Live(old(heap.state)) - old(files.GetDescriptor(fd)).Blocks()
      && Creeps(old(heap.state), heap.state, 0)
    ensures heap.state == ClosedHeap(WithBlocks(old(heap.state), old(files.GetDescriptor(fd))))
    ensures Spares(old(heap.state), old(heap.ram[..]), heap.state, heap.ram[..],
      Live(old(heap.state)) - old(files.GetDescriptor(fd)).Blocks())
    ensures files.descriptors[..] == old(files.descriptors[..])[fd - 1 := null]
  {
    hide Files.Valid, OthersKept, FreeSlot, KernelHeap.ValidIn, Live, AllBacked, Creeps, Release, TableStep;
    hide Files.Holdings, ClearOfHeaders, Spares;
    ghost var t2 := files.OpenFiles();
    var closed := files.Fclose(fd, heap);
    SlotRestored(t, t1, t2, files.OpenFiles(), fd);
  }

  /** Reads four bytes from an open file. */
  method ReadFour(files: Files, fd: int, buffer: array<Byte>, ghost content: seq<Byte>) returns (code: int, magic: U32)
    requires files.Valid() && At(files, fd, content, 0) && buffer.Length == 4
    modifies buffer, files.Footprint(fd)
    ensures files.Valid() && code in {0, -1} && OthersKept(old(files.OpenFiles()), files.OpenFiles(), fd)
    ensures code == 0 ==> |content| >= 4 && magic == Le32At(content, 0)
    ensures code == -1 && old(DriveReads(files, fd)) ==> |content| < 4
  {
    hide Files.Valid, At, DriveReads, OthersKept, Le32At, Asked, WholeItems, Runs.Step, CursorAt, UnitAt;
    AtOpen(files, fd, content, 0);
    AskedOne(4, 0);
    var n;
    ghost var got;
    ghost var ev;
    n, got, ev := ReadAt(files, fd, buffer, 0, 4, 1, content, 0);
    AskedOne(4, got);
    magic := Le32At(buffer[..], 0);
    if n != 1 {
      return -1, magic;
    }
    ghost var front := content[..4];
    assert buffer[..] == front;
    WordRead(content);
    return 0, magic;
  }

  /** Reads four bytes from an open file and closes it. */
  method ReadWord(files: Files, fd: int, heap: KernelHeap, ghost content: seq<Byte>, ghost t: Table, ghost t1: Table)
    returns (code: int, magic: U32)
    requires files.Valid() && At(files, fd, content, 0) && files.OpenFiles() == t1 && OthersKept(t, t1, fd)
      && fd - 1 == FreeSlot(t, 0)
    requires heap.Valid() && files.Backed(Live(heap.state)) && files.GetDescriptor(fd) != null
    modifies heap, heap.ram, files.descriptors, files.Footprint(fd)
    ensures files.Valid() && heap.Valid() && files.Backed(Live(heap.state)) && code in {0, -1} && files.OpenFiles() == t
    ensures code == 0 ==> |content| >= 4 && magic == Le32At(content, 0)
    ensures code == -1 && old(DriveReads(files, fd)) ==> |content| < 4
    ensures Live(heap.state) == Live(old(heap.state)) - old(files.GetDescriptor(fd)).Blocks()
      && Creeps(old(heap.state), heap.state, 0)
    ensures heap.state == ClosedHeap(WithBlocks(old(heap.state), old(files.GetDescriptor(fd))))
    ensures Spares(old(heap.state), old(heap.ram[..]), heap.state, heap.ram[..],
      Live(old(heap.state)) - old(files.GetDescriptor(fd)).Blocks())
    ensures files.descriptors[..] == old(files.descriptors[..])[fd - 1 := null]
  {
    hide ClosedHeap, WithBlocks, Spares;
    hide Files.Valid, At, DriveReads, OthersKept, FreeSlot, Le32At, KernelHeap.ValidIn, Live, AllBacked, Creeps;
    hide FileDescriptor.Blocks;
    Separate(files, heap);
    AtOpen(files, fd, content, 0);
    var buffer := new Byte[4];
    code, magic := ReadFour(files, fd, buffer, content);
    Separate(files, heap);
    CloseAgain(files, fd, heap, t, t1);
  }

  // ----- A raw image -----

  /** The raw image as a segment. */
  function ImageAt(phys: nat, content: seq<Byte>): Segment
  {
    Segment(LOAD_ADDRESS, phys, |content|, 0, |content|)
  }

  /** `kmalloc_a` for the image: 0 for an empty one. */
  method GrantImage(heap: KernelHeap, size: U32) returns (p: U32)
    requires heap.Valid() && Steady(heap.state) && heap.state.brk + size + 3 * PAGE < TWO_32
    modifies heap, heap.ram
    ensures heap.Valid() && (p == 0 <==> size == 0) && Grants(old(heap.state), heap.state, size)
    ensures size > 0 ==> Owns(heap.state, p, size) && p % PAGE == 0 && p + size + PAGE < TWO_32
    ensures Live(old(heap.state)) <= Live(heap.state) && p !in Live(old(heap.state))
    ensures Indexed(old(heap.state)) && (heap.state, p) == Allocate(old(heap.state), size, true)
    ensures Spares(old(heap.state), old(heap.ram[..]), heap.state, heap.ram[..], Live(old(heap.state)))
  {
    hide KernelHeap.ValidIn, Inv, Indexed, Owns, Allocate, Steady, Sound, Live, Grants, Spares, ClearOfHeaders;
    ghost var h, m := heap.state, heap.ram[..];
    heap.ValidFacts();
    SteadyIsSound(h, size);
    GrantedBelow(h, size);
    EnoughBreak(h, size);
    AlignedGrants(h, size);
    if size == 0 {
      EmptyRequest(h);
      NullNotLive(h);
    } else {
      AllocateOwnsNew(h, size, true);
      AllocateLive(h, size, true);
    }
    var q := heap.KmallocA(size);
    AllocateSpares(h, m, size, true, heap.ram[..], Live(h));
    return q;
  }

  lemma NullNotLive(h: Heap)
    ensures 0 !in Live(h)
  {
    LiveMember(h, 0);
  }

  /** Reads the whole file into its block. */
  method ReadImage(files: Files, fd: int, heap: KernelHeap, p: U32, size: U32, ghost content: seq<Byte>)
    returns (ok: bool, ghost got: nat)
    requires files.Valid() && At(files, fd, content, 0) && |content| == size > 0 && heap.Valid()
    requires Owns(heap.state, p, size) && p % PAGE == 0 && p + size + PAGE < TWO_32
    modifies heap.ram, files.Footprint(fd)
    ensures files.Valid() && At(files, fd, content, got) && heap.Valid() && Owns(heap.state, p, size)
    ensures ok ==> Filled(heap.ram[..], content, ImageAt(p, content))
    ensures !ok ==> !old(DriveReads(files, fd))
    ensures Spares(heap.state, old(heap.ram[..]), heap.state, heap.ram[..], Live(heap.state) - {p})
  {
    hide Files.Valid, At, DriveReads, KernelHeap.ValidIn, Owns, Inv, ClearOfHeaders, Asked, WholeItems, Filled;
    hide Runs.Step, CursorAt, UnitAt, Spares, Live;
    heap.ValidFacts();
    Separate(files, heap);
    AtOpen(files, fd, content, 0);
    OwnedClear(heap.state, p, size);
    ghost var m := heap.ram[..];
    AskedOne(size, 0);
    var n;
    ghost var ev;
    n, got, ev := ReadAt(files, fd, heap.ram, p, size, 1, content, 0);
    AskedOne(size, got);
    heap.ValidKept(m, heap.ram[..]);
    ImageSpares(m, heap.ram[..], heap.state, p, size, Live(heap.state) - {p});
    ok := n == 1;
    if ok {
      FilledIs(heap.ram[..], content, ImageAt(p, content));
    }
  }

  lemma ImageSpares(m: seq<Byte>, m': seq<Byte>, h: Heap, p: nat, n: nat, rest: set<nat>)
    requires Inv(h) && Owns(h, p, n) && p !in rest && |m'| == |m|
    requires forall x :: 0 <= x < |m| && !(p <= x < p + n) ==> m'[x] == m[x]
    ensures Spares(h, m, h, m', rest)
  {
    hide Owns, Inv;
    forall a: nat, k: nat | a in rest && Owns(h, a, k)
      ensures SameBytes(m, m', a, k)
    {
      OwnedApart(h, a, k, p, n);
    }
  }

  lemma FreshBeside(h: Heap, s: Space, p: nat, n: nat)
    requires SpaceFresh(h, s) && Owns(h, p, n)
    ensures Beside(s, p)
  {
    hide Owns;
  }

  /** A block of the heap keeps its bytes while an address space is made beside it. */
  lemma KeptBeside(m: seq<Byte>, m': seq<Byte>, h: Heap, h': Heap, s: Space, chunk: nat, content: seq<Byte>, g: Segment)
    requires Filled(m, content, g) && Owns(h, g.phys, g.memsz) && HeapGrows(h, h', 36 * PAGE) && SpaceFresh(h, s)
    requires Inv(h') && SpaceOwned(h', s) && Owns(h', chunk, 4) && (forall n :: !Owns(h, chunk, n)) && |m'| == |m|
    requires forall x :: 0 <= x < |m| && ClearOfHeaders(h', x) && !InSpace(s, x) && !(chunk <= x < chunk + 4) ==>
      m'[x] == m[x]
    requires g.memsz > 0 && g.phys % PAGE == 0
    ensures Held(m', h', s, content, g)
  {
    hide Owns, Inv, ClearOfHeaders, InSpace, SpaceOwned, Filled, SpaceFresh, Beside;
    assert Owns(h', g.phys, g.memsz);
    FreshBeside(h, s, g.phys, g.memsz);
    BesideMeans(s, g.phys);
    FilledInside(m, content, g);
    OwnedClear(h', g.phys, g.memsz);
    PayloadOutside(h', s, g.phys, g.memsz);
    OwnedApart(h', g.phys, g.memsz, chunk, 4);
    FilledKept(m, m', content, g);
  }

  lemma BesideMeans(s: Space, a: nat)
    requires Beside(s, a)
    ensures a != s.dir && forall d :: d in s.tables ==> s.tables[d] != a
  {
  }

  /** `paging_new_4gb` beside the image, or the model stops. */
  method SpaceForImage(heap: KernelHeap, p: U32, ghost content: seq<Byte>, ghost rest: set<nat>)
    returns (ok: bool, chunk: nat, dir: nat, ghost s: Space)
    requires heap.Valid() && content != [] && Owns(heap.state, p, |content|) && p % PAGE == 0
    requires Filled(heap.ram[..], content, ImageAt(p, content)) && rest <= Live(heap.state) && p !in rest
    modifies heap, heap.ram
    ensures heap.Valid() && rest <= Live(heap.state)
    ensures ok <==> Steady(old(heap.state)) && old(heap.state).brk + 36 * PAGE < TWO_32
    ensures ok ==>
      Prepared(heap, s, dir, [], content, [ImageAt(p, content)], rest + {chunk}) && s.tables.Keys == SlotsBelow(16)
    ensures ok ==> chunk !in rest && ChunkHeld(heap.ram[..], heap.state, chunk, dir)
    ensures ok ==> SpaceMade(old(heap.state), heap.state)
    ensures Spares(old(heap.state), old(heap.ram[..]), heap.state, heap.ram[..], rest)
  {
    hide KernelHeap.ValidIn, SpaceOk, Steady, Flat, Pte, Owns, Inv, SpaceOwned, SpaceFresh, HeapGrows;
    hide ClearOfHeaders, InSpace, Filled, Held;
    hide Live, Others, SpaceMade, SlotsBelow, Spares, ChunkHeld, Le32At;
    SparesSame(heap.state, heap.ram[..], rest);
    s, chunk, dir := Space(0, map[]), 0, 0;
    var room := HasRoom(heap, 36 * PAGE);
    if !room {
      return false, chunk, dir, s;
    }
    heap.ValidFacts();
    ghost var m, h := heap.ram[..], heap.state;
    chunk, dir, s := PagingNew4gb(heap, PRESENT + WRITEABLE);
    SpaceBounds(heap.ram[..], heap.state, s);
    SpaceParts(heap.ram[..], heap.state, s);
    NewIsFlat(heap.ram[..], s);
    KeptBeside(m, heap.ram[..], h, heap.state, s, chunk, content, ImageAt(p, content));
    OthersOfNew(h, heap.state, s, rest);
    NewSpaceSpares(m, h, heap.ram[..], heap.state, s, chunk, rest);
    heap.ValidFacts();
    OthersLive(heap.state, s, [], rest);
    OthersWith(heap.state, s, ImageAt(p, content), rest);
    ChunkBeside(h, heap.state, heap.ram[..], s, [ImageAt(p, content)], chunk, dir, rest);
    return true, chunk, dir, s;
  }

  lemma OthersWith(h: Heap, s: Space, g: Segment, rest: set<nat>)
    requires Others(h, s, [], rest) && g.phys !in rest
    ensures Others(h, s, [g], rest)
  {
    hide Owns, Beside;
  }

  lemma SpaceParts(m: seq<Byte>, h: Heap, s: Space)
    requires SpaceOk(m, h, s)
    ensures Inv(h) && SpaceOwned(h, s)
  {
  }

  // ----- The raw loader -----

  /** The process holds the raw image of the file, mapped page by page below the text screen, and the
      blocks of `rest` are live beside it. */
  ghost predicate HoldsRawIn(m: seq<Byte>, h: Heap, proc: Process, content: seq<Byte>, s: Space, g: Segment,
          rest: set<nat>)
  {
    && proc.ptr == LOAD_ADDRESS && proc.size == |content| > 0
    && g == ImageAt(g.phys, content) && g.phys % PAGE == 0 && g.phys + |content| + PAGE < TWO_32
      && |content| < 0x7FFF_F000
    && PreparedIn(m, h, s, proc.directory, SegmentSets(LOAD_ADDRESS, g.phys, PagesOf(|content|)) + [ScreenSet()],
      content, [g], rest)
  }

  ghost predicate HoldsRaw(heap: KernelHeap, proc: Process, content: seq<Byte>, s: Space, g: Segment, rest: set<nat>)
    reads heap, heap.ram
  {
    heap.Valid() && HoldsRawIn(heap.ram[..], heap.state, proc, content, s, g, rest)
  }

  // ----- When a raw image is loaded -----

  /** Room for a raw image, its address space and the tables that map it. */
  function RawRoom(n: nat): nat
  {
    n + 38 * PAGE + MapRoom(n)
  }

  /** Mapping an image that is in place: with every large block on a page live, it succeeds if and only if
      the heap is steady. */
  ghost predicate ImageOutcome(ok: bool, h: Heap, n: nat)
  {
    h.brk + 36 * PAGE + MapRoom(n) < TWO_32 ==>
      && (Ample(h, CHUNK_SIZE + HEADER) ==> ok)
      && (PagesLive(h) ==> (ok <==> Steady(h)))
  }

  lemma ImageOutcomeIs(ok: bool, h: Heap, h1: Heap, g: Heap, s: Space, t: Space, n: nat)
    requires Steady(h) && SpaceMade(h, h1) && MapOutcome(ok, h1, g, s, t, LOAD_ADDRESS, n)
    ensures ImageOutcome(ok, h, n)
  {
    hide PagesLive, SlotsOf, MappedSoFar, MapRoom;
  }

  lemma ImageStops(h: Heap, n: nat)
    requires !(Steady(h) && h.brk + 36 * PAGE < TWO_32)
    ensures ImageOutcome(false, h, n)
  {
    hide PagesLive, MapRoom;
  }

  /** Address space, image pages and text screen of a raw program whose image is in place. */
  method MapImage(heap: KernelHeap, p: U32, size: U32, ghost content: seq<Byte>, ghost rest: set<nat>)
    returns (ok: bool, chunk: nat, dir: nat, ghost s: Space)
    requires heap.Valid() && |content| == size > 0 && Owns(heap.state, p, size) && p % PAGE == 0
      && p + size + PAGE < TWO_32
    requires Filled(heap.ram[..], content, ImageAt(p, content)) && rest <= Live(heap.state) && p !in rest
    modifies heap, heap.ram
    ensures heap.Valid() && rest <= Live(heap.state)
    ensures ok ==>
      Prepared(heap, s, dir, SegmentSets(LOAD_ADDRESS, p, PagesOf(size)) + [ScreenSet()], content,
      [ImageAt(p, content)], rest)
    ensures ok ==> chunk !in rest && ChunkHeld(heap.ram[..], heap.state, chunk, dir)
    ensures ImageOutcome(ok, old(heap.state), size)
    ensures Spares(old(heap.state), old(heap.ram[..]), heap.state, heap.ram[..], rest)
  {
    hide KernelHeap.ValidIn, PreparedIn, Owns, Filled, SegmentSets, ImageOutcome, Live, Steady, SpaceMade;
    hide MapOutcome, SlotsBelow, Spares, ChunkHeld;
    ghost var h, m := heap.state, heap.ram[..];
    ok, chunk, dir, s := SpaceForImage(heap, p, content, rest);
    if !ok {
      ImageStops(h, size);
      return false, chunk, dir, s;
    }
    ghost var h1, m1, s1, more := heap.state, heap.ram[..], s, rest + {chunk};
    ok, s := MapSegment(heap, s, dir, LOAD_ADDRESS, p, size, [], content, [ImageAt(p, content)], more);
    ImageOutcomeIs(ok, h, h1, heap.state, s1, s, size);
    ghost var h2, m2 := heap.state, heap.ram[..];
    SparesTwice(h, m, h1, m1, h2, m2, rest, more);
    ChunkKept(h1, m1, h2, m2, more, chunk, dir);
    if !ok {
      return false, chunk, dir, s;
    }
    HasScreenSlot();
    SlotsKept(h1, heap.state, s1, s, size);
    assert [] + SegmentSets(LOAD_ADDRESS, p, PagesOf(size)) == SegmentSets(LOAD_ADDRESS, p, PagesOf(size));
    s := MapScreen(heap, s, dir, SegmentSets(LOAD_ADDRESS, p, PagesOf(size)), content, [ImageAt(p, content)], more);
    SparesTwice(h, m, h2, m2, heap.state, heap.ram[..], rest, more);
    ChunkKept(h2, m2, heap.state, heap.ram[..], more, chunk, dir);
    PreparedRest(heap, s, dir, SegmentSets(LOAD_ADDRESS, p, PagesOf(size)) + [ScreenSet()], content,
      [ImageAt(p, content)], more, rest);
  }

  lemma SlotsKept(h: Heap, g: Heap, s: Space, t: Space, n: nat)
    requires MapOutcome(true, h, g, s, t, LOAD_ADDRESS, n)
    ensures s.tables.Keys <= t.tables.Keys
  {
    hide Settles, SlotsOf, Steady;
  }

  /** Loading a raw image of a file that is open: with every large block on a page live,
      once the file is closed, it succeeds if and only if the break and the image end at most 0xFF0
      into their pages. `file` is the heap at that point and the descriptor's two blocks. */
  ghost predicate RawOutcome(r: Outcome, n: nat, file: (Heap, nat, nat))
  {
    var at := file.0;
    0 < n < 0x7FFF_F000 && at.brk + RawRoom(n) < TWO_32 ==>
      && (Ample(at, CHUNK_SIZE + HEADER) && n % PAGE + CHUNK_SIZE + HEADER <= PAGE - HEADER ==> r != Halted)
      && (PagesLive(ClosedHeap(file)) ==>
            && (r == Halted ==> !(Steady(at) && n % PAGE <= PAGE - HEADER))
            && (r == Loaded ==> Steady(at) && n % PAGE <= PAGE - HEADER))
  }

  lemma RawRefused(n: nat, file: (Heap, nat, nat))
    ensures RawOutcome(Refused(-1), n, file)
  {
    hide PagesLive, ClosedHeap;
  }

  lemma RawHalted(n: nat, file: (Heap, nat, nat))
    requires n >= 0x7FFF_F000 || !(Steady(file.0) && file.0.brk + n + 3 * PAGE < TWO_32)
    ensures RawOutcome(Halted, n, file)
  {
    hide PagesLive, ClosedHeap, MapRoom;
  }

  /** The image's own block, and then the descriptor's two given back. */
  lemma GrantedThenClosed(at: Heap, n: nat, p: nat, a: nat, m: nat)
    requires Inv(at) && Indexed(at) && AlignedLive(Release(Release(at, p), a), m)
    requires p in Live(at) && a in Live(at) && Allocate(at, n, true).1 !in Live(at)
    ensures AlignedLive(at, m) && AlignedLive(Release(Release(Allocate(at, n, true).0, p), a), m)
  {
    hide Release, Allocate, AlignedLive, Harmless, Live, Inv;
    ReleaseKeepsInv(at, p);
    WasHarmless(Release(at, p), a, m);
    WasHarmless(at, p, m);
    ReleaseKeepsHarmless(at, p, a, m);
    StaysHarmless(at, n, true, p, m);
    StaysHarmless(at, n, true, a, m);
    AllocateKeepsAligned(at, n, true, m);
    var g := Allocate(at, n, true).0;
    ReleaseHarmless(g, p, m);
    ReleaseKeepsHarmless(g, p, a, m);
    ReleaseHarmless(Release(g, p), a, m);
  }

  lemma RawOutcomeIs(ok: bool, n: nat, at: Heap, p: nat, a: nat)
    requires Inv(at) && Indexed(at) && Steady(at) && n > 0 && p in Live(at) && a in Live(at)
    requires Allocate(at, n, true).1 !in Live(at) && Grants(at, Allocate(at, n, true).0, n)
    requires ImageOutcome(ok, Release(Release(Allocate(at, n, true).0, p), a), n)
    ensures RawOutcome(if ok then Loaded else Halted, n, (at, p, a))
  {
    hide AlignedLive, MapRoom, Release, Allocate, Live, Inv, Indexed;
    var g := Allocate(at, n, true).0;
    ReleaseBreak(g, p);
    ReleaseBreak(Release(g, p), a);
    if PagesLive(Release(Release(at, p), a)) {
      GrantedThenClosed(at, n, p, a, PAGE - HEADER + 1);
    }
  }

  lemma ReleaseBreak(h: Heap, p: nat)
    ensures Release(h, p).brk == h.brk
  {
  }

  /** From the opened file on. A failed read leaves the file open. */
  method LoadRawOpened(files: Files, fd: int, heap: KernelHeap, addr: nat, filename: seq<Byte>,
          ghost content: seq<Byte>, ghost rest: set<nat>)
    returns (r: Outcome, proc: Process, ghost s: Space, ghost g: Segment)
    requires files.Valid() && At(files, fd, content, 0) && heap.Valid() && files.Backed(Live(heap.state))
      && rest <= Live(heap.state)
    requires files.GetDescriptor(fd) != null && files.GetDescriptor(fd).Blocks() !! rest
    modifies heap, heap.ram, files.descriptors, files.Footprint(fd)
    ensures files.Valid() && heap.Valid() && files.Backed(Live(heap.state)) && rest <= Live(heap.state)
    ensures r == Loaded ==> HoldsRaw(heap, proc, content, s, g, rest)
    ensures r == Loaded ==> Structured(heap, proc, addr, filename, rest)
    ensures r.Refused? ==> r.code == -1 && (old(DriveReads(files, fd)) ==> content == [])
    ensures RawOutcome(r, |content|, WithBlocks(old(heap.state), old(files.GetDescriptor(fd))))
    ensures Spares(old(heap.state), old(heap.ram[..]), heap.state, heap.ram[..], rest)
    ensures files.descriptors[..] == old(files.descriptors[..])[fd - 1 := null]
      || (r != Loaded && files.descriptors[..] == old(files.descriptors[..]))
  {
    hide Files.Valid, At, DriveReads, KernelHeap.ValidIn, Prepared, Owns, Filled, SegmentSets, Steady, Live;
    hide AllBacked, RawOutcome, Allocate, Inv, Indexed, Grants, Spares, Structured;
    Separate(files, heap);
    AtOpen(files, fd, content, 0);
    s, g, proc := Space(0, map[]), ImageAt(0, content), Process(0, [], 0, 0, 0, 0);
    ghost var h, m, desc := heap.state, heap.ram[..], files.GetDescriptor(fd);
    SparesSame(h, m, rest);
    RawRefused(|content|, WithBlocks(h, desc));
    heap.ValidFacts();
    DescriptorBlocks(files, fd, Live(h));
    var stat := files.Fstat(fd);
    if stat.None? {
      return Refused(-1), proc, s, g;
    }
    var size := stat.value;
    var room := HasRoom(heap, size + 3 * PAGE);
    if size >= 0x7FFF_F000 || !room {
      RawHalted(|content|, WithBlocks(h, desc));
      return Halted, proc, s, g;
    }
    Separate(files, heap);
    var p := GrantImage(heap, size);
    ghost var m1 := heap.ram[..];
    SparesLess(h, m, heap.state, m1, Live(h), rest);
    BackedMore(files.descriptors[..], Live(h), Live(heap.state));
    BackedMore(files.descriptors[..], Live(h), Live(heap.state) - {p});
    DescriptorBlocks(files, fd, Live(h));
    if p == 0 {
      return Refused(-1), proc, s, g;
    }
    var ok;
    ghost var got, h1 := 0, heap.state;
    ok, got := ReadImage(files, fd, heap, p, size, content);
    ghost var m2 := heap.ram[..];
    SparesTwice(h, m, h1, m1, h1, m2, rest, Live(h1) - {p});
    if !ok {
      return Refused(-1), proc, s, g;
    }
    r, proc, s, g := CloseAndMap(files, fd, heap, addr, filename, p, size, content, got, rest);
    SparesTwice(h, m, h1, m2, heap.state, heap.ram[..], rest, rest);
    RawOutcomeIs(r == Loaded, |content|, h, desc.private.addr, desc.addr);
  }

  /** What the structure at `addr` says: the name, and the way to the directory through a new block. */
  ghost predicate Structured(heap: KernelHeap, proc: Process, addr: nat, filename: seq<Byte>, rest: set<nat>)
    reads heap, heap.ram
  {
    && proc.addr == addr && proc.name == filename && proc.pagingChunk !in rest
    && ChunkHeld(heap.ram[..], heap.state, proc.pagingChunk, proc.directory)
  }

  method CloseAndMap(files: Files, fd: int, heap: KernelHeap, addr: nat, filename: seq<Byte>, p: U32, size: U32,
          ghost content: seq<Byte>, ghost got: nat, ghost rest: set<nat>)
    returns (r: Outcome, proc: Process, ghost s: Space, ghost g: Segment)
    requires files.Valid() && At(files, fd, content, got) && heap.Valid() && 0 < size < 0x7FFF_F000
    requires files.Backed(Live(heap.state) - {p}) && rest <= Live(heap.state) && p !in rest
    requires files.GetDescriptor(fd) != null && files.GetDescriptor(fd).Blocks() !! rest + {p}
    requires |content| == size && Owns(heap.state, p, size) && p % PAGE == 0 && p + size + PAGE < TWO_32
    requires Filled(heap.ram[..], content, ImageAt(p, content))
    modifies heap, heap.ram, files.descriptors
    ensures files.Valid() && heap.Valid() && files.Backed(Live(heap.state)) && rest <= Live(heap.state)
    ensures r == Loaded ==> HoldsRaw(heap, proc, content, s, g, rest)
    ensures r == Loaded ==> Structured(heap, proc, addr, filename, rest)
    ensures r == Loaded || r == Halted
    ensures var desc := old(files.GetDescriptor(fd));
            ImageOutcome(r == Loaded, Release(Release(old(heap.state), desc.private.addr), desc.addr), size)
    ensures Spares(old(heap.state), old(heap.ram[..]), heap.state, heap.ram[..], rest)
    ensures files.descriptors[..] == old(files.descriptors[..])[fd - 1 := null]
  {
    hide Files.Valid, At, DriveReads, KernelHeap.ValidIn, PreparedIn, Owns, Filled, SegmentSets, Live, AllBacked;
    hide Release, ClearOfHeaders, ImageOutcome, Inv, Creeps, TableStep, Spares, ChunkHeld;
    Separate(files, heap);
    AtOpen(files, fd, content, got);
    heap.ValidFacts();
    ghost var m, h, desc, slots := heap.ram[..], heap.state, files.GetDescriptor(fd), files.descriptors[..];
    BackedMore(slots, Live(h) - {p}, Live(h));
    DescriptorBlocks(files, fd, Live(h));
    BackedRemoved(slots, fd - 1, Live(h) - {p});
    var closed := files.Fclose(fd, heap);
    KeptOpen(m, heap.ram[..], h, desc.private.addr, desc.addr, content, ImageAt(p, content));
    Separate(files, heap);
    ghost var live, h1, m1 := Live(h) - {p} - desc.Blocks(), heap.state, heap.ram[..];
    var ok, chunk, dir;
    ok, chunk, dir, s := MapImage(heap, p, size, content, live);
    BackedMore(files.descriptors[..], live, Live(heap.state));
    SparesLess(h, m, h1, m1, Live(h) - desc.Blocks(), rest);
    SparesTwice(h, m, h1, m1, heap.state, heap.ram[..], rest, live);
    g := ImageAt(p, content);
    proc := Process(addr, filename, chunk, dir, LOAD_ADDRESS, size);
    r := if ok then Loaded else Halted;
    if ok {
      PreparedLess(heap.ram[..], heap.state, s, dir, SegmentSets(LOAD_ADDRESS, p, PagesOf(size)) + [ScreenSet()],
        content, [g], live, rest);
    }
  }

  /** An image keeps its block and its bytes while two other blocks are given back. */
  lemma KeptOpen(m: seq<Byte>, m': seq<Byte>, h: Heap, p: nat, q: nat, content: seq<Byte>, g: Segment)
    requires Inv(h) && Owns(h, g.phys, g.memsz) && Filled(m, content, g) && g.phys != p && g.phys != q && |m'| == |m|
    requires forall x :: 0 <= x < |m| && ClearOfHeaders(Release(Release(h, p), q), x) ==> m'[x] == m[x]
    ensures Owns(Release(Release(h, p), q), g.phys, g.memsz) && Filled(m', content, g)
  {
    hide Inv, Owns, Release, ClearOfHeaders, Filled;
    ReleaseOwns(h, p, g.phys, g.memsz);
    ReleaseKeepsInv(h, p);
    ReleaseOwns(Release(h, p), q, g.phys, g.memsz);
    ReleaseKeepsInv(Release(h, p), q);
    OwnedClear(Release(Release(h, p), q), g.phys, g.memsz);
    FilledInside(m, content, g);
    FilledKept(m, m', content, g);
  }

  /** The heap at the first request for a page, from the closed file on, and the descriptor's two blocks. */
  ghost function RawAt(h: Heap, parts: nat): (Heap, nat, nat)
  {
    OpenHeap(Small(h, PROCESS_SIZE).0, parts)
  }

  lemma SlotsSame(slots: seq<FileDescriptor?>, live: set<nat>)
    ensures SlotsStay(slots, slots, live)
  {
  }

  lemma SlotsStayLess(slots: seq<FileDescriptor?>, now: seq<FileDescriptor?>, live: set<nat>, less: set<nat>)
    requires SlotsStay(slots, now, live) && less <= live
    ensures SlotsStay(slots, now, less)
  {
    hide FileDescriptor.Blocks;
  }

  /** The raw branch of `process_load`, with the process structure made. */
  method OpenAndLoadRaw(files: Files, heap: KernelHeap, filename: seq<Byte>, addr: nat, ghost rest: set<nat>)
    returns (r: Outcome, proc: Process, ghost content: seq<Byte>, ghost s: Space, ghost g: Segment)
    requires files.Valid() && heap.Valid() && NameFits(filename) && files.Backed(Live(heap.state))
    requires heap.state.brk + OpenRoom(NAME_SIZE) < TWO_32 && rest <= Live(heap.state)
    modifies heap, heap.ram, files.descriptors, files.disks
    ensures files.Valid() && heap.Valid() && Charts(files) && files.Backed(Live(heap.state)) && rest <= Live(heap.state)
    ensures r == Loaded ==>
      NamedContent(files, filename) == Some(content) && HoldsRaw(heap, proc, content, s, g, rest)
      && Structured(heap, proc, addr, filename, rest)
    ensures r.Refused? ==> r.code == -1
    ensures r.Refused? && DrivesRead(files) && FreeSlot(old(files.OpenFiles()), 0) < MAX_FILE_DESCRIPTORS ==>
      NamedContent(files, filename).None? || NamedContent(files, filename).value == []
    ensures forall c ::
      !r.Refused? && NamedContent(files, filename) == Some(c) ==>
        RawOutcome(r, |c|, OpenHeap(old(heap.state), Parser.PartCount(CStr(filename))))
    ensures Spares(old(heap.state), old(heap.ram[..]), heap.state, heap.ram[..], rest)
    ensures fresh(Reach(files) - old(Reach(files)))
    ensures r == Loaded ==> files.descriptors[..] == old(files.descriptors[..])
    ensures SlotsStay(old(files.descriptors[..]), files.descriptors[..], rest)
  {
    hide Files.Valid, Files.DrivesOk, Charts, KernelHeap.ValidIn, CStr, Parser.HasDrive, Parser.ShortParts, At;
    hide DriveReads, DrivesRead, Named, NamedContent, HoldsRaw, FreeSlot;
    hide Live, Leaves, AllBacked, OpenGrowth, OpenRoom, RawOutcome, OpenHeap, Inv, Spares, SlotsStay, Objects;
    hide Structured;
    RoomForPath(filename);
    TableSize(files);
    ghost var h, m, slots := heap.state, heap.ram[..], files.descriptors[..];
    s, g, proc := Space(0, map[]), ImageAt(0, []), Process(0, [], 0, 0, 0, 0);
    var fd;
    ghost var taken;
    fd, content, taken := OpenRead(files, heap, filename);
    TableSize(files);
    ghost var h1, m1, now := heap.state, heap.ram[..], files.descriptors[..];
    LeavesFacts(h, h1, taken, OpenGrowth(CStr(filename)));
    SparesLess(h, m, h1, m1, Live(h), rest);
    if fd < 0 {
      SlotsSame(slots, rest);
      return Refused(-1), proc, content, s, g;
    }
    Separate(files, heap);
    OpenedBlocks(files.GetDescriptor(fd), taken, Live(h));
    DescriptorBlocks(files, fd, Live(h1));
    FilledStays(slots, now, fd, rest);
    r, proc, s, g := LoadRawOpened(files, fd, heap, addr, filename, content, rest);
    SparesTwice(h, m, h1, m1, heap.state, heap.ram[..], rest, rest);
    SlotEmptied(slots, now, fd);
    ReachShrinks(now, fd - 1, Mounts(files));
    SlotsSame(slots, rest);
    TableSize(files);
  }

  /** The raw branch of `process_load`. */
  method LoadRaw(files: Files, heap: KernelHeap, filename: seq<Byte>)
    returns (r: Outcome, proc: Process, ghost content: seq<Byte>, ghost s: Space, ghost g: Segment)
    requires files.Valid() && heap.Valid() && NameFits(filename) && files.Backed(Live(heap.state))
    modifies heap, heap.ram, files.descriptors, files.disks
    ensures files.Valid() && heap.Valid() && Charts(files) && files.Backed(Live(heap.state))
      && Live(old(heap.state)) <= Live(heap.state)
    ensures r == Loaded ==>
      NamedContent(files, filename) == Some(content) && HoldsRaw(heap, proc, content, s, g, Live(old(heap.state)))
      && StructHeld(heap.ram[..], heap.state, proc, filename, Live(old(heap.state)))
    ensures r.Refused? ==> r.code == -1
    ensures r.Refused? && DrivesRead(files) && FreeSlot(old(files.OpenFiles()), 0) < MAX_FILE_DESCRIPTORS ==>
      NamedContent(files, filename).None? || NamedContent(files, filename).value == []
    ensures forall c ::
      !r.Refused? && NamedContent(files, filename) == Some(c)
      && old(heap.state).brk + PROCESS_GROWTH + OpenRoom(NAME_SIZE) < TWO_32 ==>
        RawOutcome(r, |c|, RawAt(old(heap.state), Parser.PartCount(CStr(filename))))
    ensures Spares(old(heap.state), old(heap.ram[..]), heap.state, heap.ram[..], Live(old(heap.state)))
    ensures fresh(Reach(files) - old(Reach(files)))
    ensures r == Loaded ==> files.descriptors[..] == old(files.descriptors[..])
    ensures SlotsStay(old(files.descriptors[..]), files.descriptors[..], Live(old(heap.state)))
  {
    hide Files.Valid, Files.DrivesOk, Charts, KernelHeap.ValidIn, CStr, NamedContent, HoldsRaw, FreeSlot, DrivesRead;
    hide Live, AllBacked, OpenRoom, RawOutcome, OpenHeap, Inv, Spares, SlotsStay, Small, Creeps, Reach, StructHeld;
    hide Structured;
    heap.ValidFacts();
    TableSize(files);
    Separate(files, heap);
    ghost var h, m, slots, reach := heap.state, heap.ram[..], files.descriptors[..], Reach(files);
    s, g, content, proc := Space(0, map[]), ImageAt(0, []), [], Process(0, [], 0, 0, 0, 0);
    SlotsSame(slots, Live(h));
    var addr := AllocateProcess(heap);
    assert Reach(files) == reach;
    BackedMore(slots, Live(h), Live(heap.state));
    ghost var h1, m1 := heap.state, heap.ram[..];
    BreakMoved(h, h1, PROCESS_GROWTH);
    var room := HasPathRoom(heap);
    if addr == 0 || !room {
      ProcessFits();
      return Halted, proc, content, s, g;
    }
    heap.ValidFacts();
    StructTaken(h, h1, addr, Live(h));
    ghost var more := Live(h) + {addr};
    label K:
    r, proc, content, s, g := OpenAndLoadRaw(files, heap, filename, addr, more);
    SparesTwice(h, m, h1, m1, heap.state, heap.ram[..], Live(h), more);
    SlotsStayLess(slots, files.descriptors[..], more, Live(h));
    if r == Loaded {
      RawStruct(h1, m1, heap, proc, addr, filename, Live(h));
      RawLess(heap, proc, content, s, g, more, Live(h));
    }
    assert forall o: object :: o in Reach(files) && o !in reach ==> !old@K(allocated(o));
    assert forall o: object :: o in Reach(files) && o !in reach ==> !old(allocated(o));
  }

  lemma RawStruct(h: Heap, m: seq<Byte>, heap: KernelHeap, proc: Process, addr: nat, filename: seq<Byte>,
          rest: set<nat>)
    requires Structured(heap, proc, addr, filename, rest + {addr}) && Owns(h, addr, 96) && addr !in rest
    requires Spares(h, m, heap.state, heap.ram[..], rest + {addr})
    ensures StructHeld(heap.ram[..], heap.state, proc, filename, rest)
  {
    hide Owns, ChunkHeld;
  }

  lemma RawLess(heap: KernelHeap, proc: Process, content: seq<Byte>, s: Space, g: Segment, rest: set<nat>,
          less: set<nat>)
    requires HoldsRaw(heap, proc, content, s, g, rest) && less <= rest
    ensures HoldsRaw(heap, proc, content, s, g, less)
  {
    hide KernelHeap.ValidIn, PreparedIn, SegmentSets;
    PreparedLess(heap.ram[..], heap.state, s, proc.directory,
      SegmentSets(LOAD_ADDRESS, g.phys, PagesOf(|content|)) + [ScreenSet()], content, [g], rest, less);
  }

  lemma ProcessFits()
    ensures PROCESS_SIZE + PAGE <= OpenRoom(NAME_SIZE)
  {
  }

  // ----- The whole loader -----

  predicate IsElf(content: seq<Byte>)
    requires |content| >= 4
  {
    content[0] == 0x7F && content[1] == 'E' as int && content[2] == 'L' as int && content[3] == 'F' as int
  }

  /** The word that the kernel compares. */
  lemma MagicIs(content: seq<Byte>)
    requires |content| >= 4
    ensures Le32At(content, 0) == ELF_MAGIC <==> IsElf(content)
  {
    NumberOfFour(content[0], content[1], content[2], content[3]);
  }

  lemma NumberOfFour(a: Byte, b: Byte, c: Byte, d: Byte)
    ensures (a as int) + 0x100 * (b as int) + 0x1_0000 * (c as int) + 0x100_0000 * (d as int) == 0x464C_457F
       <==> a == 0x7F && b == 0x45 && c == 0x4C && d == 0x46
  {
  }

  /** A file that can be loaded: an ELF file the ELF loader accepts, or at least four bytes of anything else. */
  predicate LoadOk(content: seq<Byte>)
  {
    |content| >= 4 && (IsElf(content) ==> ElfOk(content))
  }

  /** The process holds the file, as an ELF program or as a raw image. */
  ghost predicate HoldsProgram(heap: KernelHeap, proc: Process, content: seq<Byte>, s: Space, segs: seq<Segment>,
          rest: set<nat>)
    reads heap, heap.ram
  {
    && |content| >= 4
    && if IsElf(content) then HoldsElf(heap, proc, content, s, segs, rest)
       else |segs| == 1 && HoldsRaw(heap, proc, content, s, segs[0], rest)
  }

  lemma HeldLess(heap: KernelHeap, proc: Process, content: seq<Byte>, s: Space, segs: seq<Segment>, rest: set<nat>,
          less: set<nat>)
    requires HoldsProgram(heap, proc, content, s, segs, rest) && less <= rest
    ensures HoldsProgram(heap, proc, content, s, segs, less)
  {
    hide KernelHeap.ValidIn, PreparedIn, SegmentSets, AllSets, LoadedUpTo, ElfOk, IsElf;
    if IsElf(content) {
      PreparedLess(heap.ram[..], heap.state, s, proc.directory, [ScreenSet()] + AllSets(segs), content, segs, rest,
        less);
    } else {
      var g := segs[0];
      assert segs == [g];
      PreparedLess(heap.ram[..], heap.state, s, proc.directory,
        SegmentSets(LOAD_ADDRESS, g.phys, PagesOf(|content|)) + [ScreenSet()], content, [g], rest, less);
    }
  }

  /** The sizes the model accepts. */
  predicate Sized(content: seq<Byte>)
    requires LoadOk(content)
  {
    if IsElf(content) then ElfSized(content) else |content| < 0x7FFF_F000
  }

  function ProgramRoom(content: seq<Byte>): nat
    requires LoadOk(content)
  {
    if IsElf(content) then ElfRoom(content) else RawRoom(|content|)
  }

  /** Loading this file never moves the break back, from a break that is at most 0xFF0 into its page. */
  predicate LoadForward(content: seq<Byte>)
    requires LoadOk(content)
  {
    if IsElf(content) then ElfForward(content) else |content| % PAGE <= PAGE - HEADER
  }

  /** Every block that is filled from the file leaves room for two headers on its last page. */
  predicate TailsLoose(content: seq<Byte>)
    requires LoadOk(content)
  {
    if IsElf(content) then TailsFit(content, PhdrCount(content))
      else |content| % PAGE + CHUNK_SIZE + HEADER <= PAGE - HEADER
  }

  /** What the small requests of a load may take: opening the file twice, and the process structure. */
  function LoadSlack(path: seq<Byte>): nat
  {
    2 * OpenGrowth(path) + PROCESS_GROWTH
  }

  /** There is room below 4 GiB for the load. */
  predicate LoadFits(content: seq<Byte>, path: seq<Byte>, h: Heap)
    requires LoadOk(content)
  {
    h.brk + LoadSlack(path) + OpenRoom(NAME_SIZE) + ProgramRoom(content) < TWO_32
  }

  /** The heap at the first aligned request of a load, computed from the heap before and the number of parts
      of the path: the file is opened and closed, and then opened again, and the process structure made, in
      this order for an ELF file and in the other for a raw one. */
  ghost function Start(h: Heap, parts: nat, elf: bool): Heap
  {
    var again := ClosedHeap(OpenHeap(h, parts));
    if elf then ElfAt(OpenHeap(again, parts).0) else RawAt(again, parts).0
  }

  /** The same, but with the file closed where it is closed before the address space is made. */
  ghost function StartClosed(h: Heap, parts: nat, elf: bool): Heap
  {
    var again := ClosedHeap(OpenHeap(h, parts));
    if elf then ElfAt(OpenHeap(again, parts).0) else ClosedHeap(RawAt(again, parts))
  }

  /** When a file that can be loaded is loaded, given room. Always, if at the first aligned request the
      break leaves room on its page, and all tails do. And with every large block on a page live, if and
      only if the break is then at most 0xFF0 into its page and only goes forward. */
  ghost predicate LoadOutcome(r: Outcome, content: seq<Byte>, path: seq<Byte>, h: Heap)
  {
    LoadOk(content) && Sized(content) && LoadFits(content, path, h) ==>
      var at, closed := Start(h, Parser.PartCount(path), IsElf(content)),
        StartClosed(h, Parser.PartCount(path), IsElf(content));
      && (Ample(at, CHUNK_SIZE + HEADER) && TailsLoose(content) ==> r != Halted)
      && (PagesLive(closed) ==>
            && (r == Halted ==> !(Steady(at) && LoadForward(content)))
            && (r == Loaded ==> Steady(at) && LoadForward(content)))
  }

  /** The small requests move the break forward by at most the slack. */
  lemma StartGrows(h: Heap, path: seq<Byte>, elf: bool)
    ensures h.brk <= Start(h, Parser.PartCount(path), elf).brk <= h.brk + LoadSlack(path)
  {
    var n := Parser.PartCount(path);
    OpenGrows(h, n);
    var again := ClosedHeap(OpenHeap(h, n));
    OpenGrows(again, n);
    Parser.SmallGrows(OpenHeap(again, n).0, PROCESS_SIZE);
    Parser.SmallGrows(again, PROCESS_SIZE);
    OpenGrows(Small(again, PROCESS_SIZE).0, n);
    hide OpenHeap, ClosedHeap, Small, Parser.PartCount;
  }

  lemma LoadNoRoom(content: seq<Byte>, path: seq<Byte>, h: Heap, h1: Heap, left: seq<nat>)
    requires Leaves(h, h1, left, OpenGrowth(path)) && h1.brk + OpenRoom(NAME_SIZE) >= TWO_32
    ensures LoadOutcome(Halted, content, path, h)
  {
    hide Leaves, ElfRoom, RawRoom, PagesLive, TailsLoose, LoadForward, OpenRoom, ElfOk, IsElf, Start, StartClosed;
    LeavesFacts(h, h1, left, OpenGrowth(path));
  }

  lemma LoadRefused(content: seq<Byte>, path: seq<Byte>, h: Heap)
    ensures LoadOutcome(Refused(-1), content, path, h)
  {
    hide PagesLive, TailsLoose, LoadForward, LoadFits, Start, StartClosed;
  }

  /** From the second opening of an ELF file to the load. */
  lemma LoadedElf(r: Outcome, content: seq<Byte>, path: seq<Byte>, h: Heap)
    requires ElfOutcome(r, content, Start(h, Parser.PartCount(path), true))
    requires |content| >= 4 && IsElf(content)
    ensures LoadOutcome(r, content, path, h)
  {
    StartGrows(h, path, true);
    assert StartClosed(h, Parser.PartCount(path), true) == Start(h, Parser.PartCount(path), true);
    hide PagesLive, TailsFit, ElfForward, ElfRoom, LoadSlack, OpenRoom, IsElf, ElfSized, Start, StartClosed;
  }

  lemma LoadedRaw(r: Outcome, content: seq<Byte>, path: seq<Byte>, h: Heap)
    requires var file := RawAt(ClosedHeap(OpenHeap(h, Parser.PartCount(path))), Parser.PartCount(path));
             RawOutcome(r, |content|, file)
    requires |content| >= 4 && !IsElf(content)
    ensures LoadOutcome(r, content, path, h)
  {
    StartGrows(h, path, false);
    hide PagesLive, LoadSlack, OpenRoom, IsElf, RawRoom, RawAt, ClosedHeap, OpenHeap, Parser.PartCount;
  }

  lemma LoadUnbound(r: Outcome, content: seq<Byte>, path: seq<Byte>, h: Heap)
    requires !(LoadOk(content) && LoadFits(content, path, h))
    ensures LoadOutcome(r, content, path, h)
  {
    hide PagesLive, TailsLoose, LoadForward, LoadFits, Start, StartClosed, LoadOk, Sized;
  }

  lemma RawHasRoom(content: seq<Byte>, path: seq<Byte>, h: Heap, h1: Heap, left: seq<nat>)
    requires Leaves(h, h1, left, OpenGrowth(path)) && LoadOk(content) && LoadFits(content, path, h)
    ensures h1.brk + PROCESS_GROWTH + OpenRoom(NAME_SIZE) < TWO_32
  {
    hide Leaves, ElfRoom, RawRoom, OpenRoom, LoadOk, IsElf, OpenGrowth;
    LeavesFacts(h, h1, left, OpenGrowth(path));
  }

  /** The second half of `process_load`, with the magic number read. */
  method LoadKind(files: Files, heap: KernelHeap, filename: seq<Byte>, magic: U32, ghost content: seq<Byte>,
          ghost h: Heap, ghost left: seq<nat>)
    returns (r: Outcome, proc: Process, ghost s: Space, ghost segs: seq<Segment>)
    requires files.Valid() && heap.Valid() && NameFits(filename) && files.Backed(Live(heap.state))
    requires heap.state.brk + OpenRoom(NAME_SIZE) < TWO_32 && Leaves(h, heap.state, left, OpenGrowth(CStr(filename)))
    requires heap.state == ClosedHeap(OpenHeap(h, Parser.PartCount(CStr(filename))))
    requires Charts(files) && NamedContent(files, filename) == Some(content) && |content| >= 4
      && magic == Le32At(content, 0)
    modifies heap, heap.ram, files.descriptors, files.disks
    ensures files.Valid() && heap.Valid() && files.Backed(Live(heap.state)) && Live(old(heap.state)) <= Live(heap.state)
    ensures r == Loaded ==> HoldsProgram(heap, proc, content, s, segs, Live(old(heap.state)))
    ensures r == Loaded ==> StructHeld(heap.ram[..], heap.state, proc, filename, Live(old(heap.state)))
    ensures r.Refused? ==> r.code == -1
    ensures r.Refused? && DrivesRead(files) && FreeSlot(old(files.OpenFiles()), 0) < MAX_FILE_DESCRIPTORS ==>
      !LoadOk(content)
    ensures LoadOutcome(r, content, CStr(filename), h)
    ensures Spares(old(heap.state), old(heap.ram[..]), heap.state, heap.ram[..], Live(old(heap.state)))
    ensures fresh(Reach(files) - old(Reach(files)))
    ensures r == Loaded ==> files.descriptors[..] == old(files.descriptors[..])
    ensures SlotsStay(old(files.descriptors[..]), files.descriptors[..], Live(old(heap.state)))
  {
    hide Files.Valid, Files.DrivesOk, KernelHeap.ValidIn, CStr, At, DriveReads, DrivesRead, Named, NamedContent;
    hide ElfOk, FreeSlot, Le32At;
    hide OpenHeap, ClosedHeap, Small, Parser.PartCount, RawAt, Sized;
    hide Live, Leaves, AllBacked, OpenGrowth, OpenRoom, LoadOutcome, RawOutcome, ElfOutcome, PreparedIn, HoldsElf;
    hide HoldsRaw, Inv, Spares, SlotsStay, Objects, StructHeld;
    SlotsSame(files.descriptors[..], Live(heap.state));
    ghost var h1 := heap.state;
    heap.ValidFacts();
    LoadRefused(content, CStr(filename), h);
    MagicIs(content);
    if magic == ELF_MAGIC {
      ghost var again;
      r, proc, again, s, segs := ElfLoad(files, heap, filename);
      if !r.Refused? {
        LoadedElf(r, content, CStr(filename), h);
      }
    } else {
      ghost var g, again;
      r, proc, again, s, g := LoadRaw(files, heap, filename);
      segs := [g];
      if !r.Refused? {
        if LoadOk(content) && LoadFits(content, CStr(filename), h) {
          RawHasRoom(content, CStr(filename), h, h1, left);
          LoadedRaw(r, content, CStr(filename), h);
        } else {
          LoadUnbound(r, content, CStr(filename), h);
        }
      }
    }
  }

  /** `process_load`: the process holds the file that the name leads to, or there is none that can be
      loaded, or the model stops, and `LoadOutcome` says when. What was live before stays live beside the
      process. */
  method ProcessLoad(files: Files, heap: KernelHeap, filename: seq<Byte>)
    returns (r: Outcome, proc: Process, ghost content: seq<Byte>, ghost s: Space, ghost segs: seq<Segment>)
    requires files.Valid() && heap.Valid() && NameFits(filename) && files.Backed(Live(heap.state))
    requires heap.state.brk + OpenRoom(NAME_SIZE) < TWO_32
    modifies heap, heap.ram, files.descriptors, files.disks
    ensures files.Valid() && heap.Valid() && Charts(files) && files.Backed(Live(heap.state))
      && Live(old(heap.state)) <= Live(heap.state)
    ensures !r.Refused? ==> NamedContent(files, filename) == Some(content)
    ensures r == Loaded ==> HoldsProgram(heap, proc, content, s, segs, Live(old(heap.state)))
    ensures r == Loaded ==> StructHeld(heap.ram[..], heap.state, proc, filename, Live(old(heap.state)))
    ensures r.Refused? ==> r.code == -1
    ensures r.Refused? && DrivesRead(files) && FreeSlot(old(files.OpenFiles()), 0) < MAX_FILE_DESCRIPTORS ==>
      NamedContent(files, filename).None? || !LoadOk(NamedContent(files, filename).value)
    ensures LoadOutcome(r, content, CStr(filename), old(heap.state))
    ensures Spares(old(heap.state), old(heap.ram[..]), heap.state, heap.ram[..], Live(old(heap.state)))
    ensures fresh(Reach(files) - old(Reach(files)))
    ensures r == Loaded ==> files.descriptors[..] == old(files.descriptors[..])
    ensures SlotsStay(old(files.descriptors[..]), files.descriptors[..], Live(old(heap.state)))
  {
    hide Files.Valid, Files.DrivesOk, KernelHeap.ValidIn, CStr, At, DriveReads, DrivesRead, Named, NamedContent;
    hide ElfOk, FreeSlot, IsElf;
    hide OpenHeap, ClosedHeap, Parser.PartCount;
    hide Live, Leaves, AllBacked, OpenGrowth, OpenRoom, LoadOutcome, HoldsProgram, Inv, Spares, SlotsStay;
    hide Objects, Reach, Mounts, StructHeld;
    SlotsSame(files.descriptors[..], Live(heap.state));
    s, segs, proc := Space(0, map[]), [], Process(0, [], 0, 0, 0, 0);
    ghost var h, m, slots := heap.state, heap.ram[..], files.descriptors[..];
    var code, magic;
    ghost var left;
    code, magic, content, left := ReadMagic(files, heap, filename);
    ghost var h1, m1 := heap.state, heap.ram[..];
    LeavesFacts(h, h1, left, OpenGrowth(CStr(filename)));
    ghost var reach := Reach(files);
    if code < 0 {
      LoadRefused(content, CStr(filename), h);
      return Refused(-1), proc, content, s, segs;
    }
    TableSize(files);
    Separate(files, heap);
    heap.ValidFacts();
    var room := HasPathRoom(heap);
    if !room {
      LoadNoRoom(content, CStr(filename), h, h1, left);
      return Halted, proc, content, s, segs;
    }
    label K:
    assert Reach(files) == reach;
    r, proc, s, segs := LoadKind(files, heap, filename, magic, content, h, left);
    SparesTwice(h, m, h1, m1, heap.state, heap.ram[..], Live(h), Live(h1));
    assert forall o: object :: o in Reach(files) && o !in reach ==> !old@K(allocated(o));
    assert forall o: object :: o in Reach(files) && o !in reach ==> !old(allocated(o));
    SlotsStayLess(slots, files.descriptors[..], Live(h1), Live(h));
    if r == Loaded {
      HeldLess(heap, proc, content, s, segs, Live(h1), Live(h));
      StructLess(heap.ram[..], heap.state, proc, filename, Live(h1), Live(h));
    }
  }

  // ----- What a raw program sees -----

  lemma ScreenElsewhere(k: nat)
    requires LOAD_ADDRESS + k < TWO_32
    ensures !Hits(ScreenSet(), (LOAD_ADDRESS + k) / PAGE)
  {
  }

  lemma ImagePlaced(content: seq<Byte>, g: Segment, k: nat)
    requires g == ImageAt(g.phys, content) && g.phys % PAGE == 0 && g.phys + |content| + PAGE < TWO_32
      && |content| < 0x7FFF_F000 && k < |content|
    ensures Placeable(g) && LOAD_ADDRESS + k < TWO_32 && !Misses(g, (LOAD_ADDRESS + k) / PAGE)
  {
    OwnPage(g, k);
  }

  /** After a successful raw load, virtual address 0x400000 + k holds byte k of the file, and the process
      may read and write it. */
  lemma RawSeen(heap: KernelHeap, proc: Process, content: seq<Byte>, s: Space, g: Segment, rest: set<nat>, k: nat,
          va: U32)
    requires HoldsRaw(heap, proc, content, s, g, rest) && k < |content| && va == LOAD_ADDRESS + k
    ensures proc.directory + PAGE <= heap.ram.Length == TWO_32
    ensures Fetch(heap.ram[..], proc.directory, va) == Some(content[k])
    ensures EffectiveRight(heap.ram[..], proc.directory, va / PAGE, WRITEABLE)
      && EffectiveRight(heap.ram[..], proc.directory, va / PAGE, ACCESS_FROM_ALL)
  {
    hide PreparedIn, KernelHeap.ValidIn, Flat, Held, Pte, Misses, FrameIn, Fetch, EffectiveRight, SpaceOk;
    hide SegmentSets, Overlay, Hits;
    hide Placeable;
    var m, page := heap.ram[..], va / PAGE;
    var sets := SegmentSets(LOAD_ADDRESS, g.phys, PagesOf(|content|));
    PreparedFacts(heap, s, proc.directory, sets + [ScreenSet()], content, [g], rest, 0);
    ImagePlaced(content, g, k);
    ScreenElsewhere(k);
    OverlayOne(BasePte(page), page, sets, ScreenSet());
    OverlaySegment(BasePte(page), page, g);
    FlatAt(m, s, sets + [ScreenSet()], page);
    SeenByte(m, heap.state, s, content, g, k, va);
  }

  lemma FlatAt(m: seq<Byte>, s: Space, sets: seq<PageSet>, page: nat)
    requires (forall d :: d in s.tables ==> s.tables[d] + PAGE <= |m|) && Flat(m, s, sets) && page < PAGES
    ensures Pte(m, s, page) == Overlay(BasePte(page), page, sets)
  {
  }
}
