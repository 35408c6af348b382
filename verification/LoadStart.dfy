/** The heap at the first aligned request of a load, computed before the load: the requests for small
    blocks that `process_load` makes before it asks for a page (src/task/process.c:44-112). */
module LoadStarts {
  import opened HeapModel
  import opened FatPaths
  import opened Vfs
  import opened ElfLoader
  import opened ProcessLoader
  import opened ProcessMemory
  import Parser = PathParser

  // ----- Small requests keep every large block on a page live -----

  /** Every block of more than 0xFF0 bytes that starts on a page is live, and one of `kept`. */
  ghost predicate LargeKept(h: Heap, kept: set<nat>)
  {
    forall i ::
      0 <= i < |h.blocks| && h.blocks[i].Payload() % PAGE == 0 && h.blocks[i].size > PAGE - HEADER ==>
        !h.blocks[i].free && h.blocks[i].Payload() in kept
  }

  ghost predicate Shelters(h: Heap, kept: set<nat>)
  {
    Inv(h) && kept <= Live(h) && LargeKept(h, kept)
  }

  lemma SheltersStart(h: Heap)
    requires Inv(h) && PagesLive(h)
    ensures Shelters(h, Live(h))
  {
    hide Inv;
    forall i | 0 <= i < |h.blocks| && !h.blocks[i].free
      ensures h.blocks[i].Payload() in Live(h)
    {
      LiveMember(h, h.blocks[i].Payload());
    }
  }

  lemma SheltersEnd(h: Heap, kept: set<nat>)
    requires Shelters(h, kept)
    ensures PagesLive(h)
  {
    hide Inv;
  }

  lemma AllocateLarge(h: Heap, size: nat, kept: set<nat>)
    requires Indexed(h) && LargeKept(h, kept) && size <= PAGE - HEADER
    ensures LargeKept(Allocate(h, size, false).0, kept)
  {
    hide Reused, Kept;
  }

  lemma ReleaseLarge(h: Heap, p: nat, kept: set<nat>)
    requires LargeKept(h, kept) && p !in kept
    ensures LargeKept(Release(h, p), kept)
  {
  }

  /** A small request hands out none of the kept blocks. */
  lemma SmallShelters(h: Heap, size: nat, kept: set<nat>)
    requires Shelters(h, kept) && 0 < size <= PAGE - HEADER
    ensures var (g, p) := Small(h, size); Shelters(g, kept) && p !in kept
  {
    IndexedByList(h);
    hide Inv, LargeKept, Allocate, Indexed, Live, HandsOut;
    AllocateSafe(h, size, false);
    AllocateLive(h, size, false);
    AllocateLarge(h, size, kept);
  }

  lemma ReleaseShelters(h: Heap, p: nat, kept: set<nat>)
    requires Shelters(h, kept) && p !in kept
    ensures Shelters(Release(h, p), kept)
  {
    hide Inv, LargeKept, Release, Live;
    ReleaseKeepsInv(h, p);
    ReleaseLive(h, p);
    ReleaseLarge(h, p, kept);
  }

  ghost predicate Outside(blocks: seq<(nat, nat)>, kept: set<nat>)
  {
    forall i :: 0 <= i < |blocks| ==> blocks[i].0 !in kept && blocks[i].1 !in kept
  }

  lemma {:induction false} PartsShelter(h: Heap, n: nat, kept: set<nat>)
    requires Shelters(h, kept)
    ensures var (g, blocks) := Parser.PartBlocks(h, n); Shelters(g, kept) && Outside(blocks, kept)
  {
    hide Shelters, Small;
    if n > 0 {
      PartsShelter(h, n - 1, kept);
      var (g, blocks) := Parser.PartBlocks(h, n - 1);
      SmallShelters(g, Parser.PART_SIZE, kept);
      SmallShelters(Small(g, Parser.PART_SIZE).0, Parser.NODE_SIZE, kept);
    }
  }

  lemma {:induction false} FreedShelter(h: Heap, blocks: seq<(nat, nat)>, kept: set<nat>)
    requires Shelters(h, kept) && Outside(blocks, kept)
    ensures Shelters(Parser.FreedParts(h, blocks), kept)
    decreases |blocks|
  {
    hide Shelters, Release;
    if blocks != [] {
      ReleaseShelters(h, blocks[0].1, kept);
      ReleaseShelters(Release(h, blocks[0].1), blocks[0].0, kept);
      FreedShelter(Release(Release(h, blocks[0].1), blocks[0].0), blocks[1..], kept);
    }
  }

  lemma ParsedShelters(h: Heap, n: nat, kept: set<nat>)
    requires Shelters(h, kept)
    ensures var (g, r, blocks) := Parser.ParsedHeap(h, n); Shelters(g, kept) && r !in kept && Outside(blocks, kept)
  {
    hide Shelters, Small, Parser.PartBlocks, Release;
    SmallShelters(h, Parser.ROOT_SIZE, kept);
    var h1 := Small(h, Parser.ROOT_SIZE).0;
    PartsShelter(h1, n, kept);
    var h2 := Parser.PartBlocks(h1, n).0;
    SmallShelters(h2, Parser.PART_SIZE, kept);
    var (h3, q) := Small(h2, Parser.PART_SIZE);
    ReleaseShelters(h3, q, kept);
  }

  lemma DescribedShelters(h: Heap, kept: set<nat>)
    requires Shelters(h, kept)
    ensures var (g, p, a) := DescribedHeap(MountedHeap(h)); Shelters(g, kept) && p !in kept && a !in kept
  {
    hide Shelters, Small;
    SmallShelters(h, STREAM_SIZE, kept);
    var h1 := Small(h, STREAM_SIZE).0;
    SmallShelters(h1, MOUNT_SIZE, kept);
    var h2 := Small(h1, MOUNT_SIZE).0;
    SmallShelters(h2, DESCRIPTOR_SIZE, kept);
    SmallShelters(Small(h2, DESCRIPTOR_SIZE).0, FILE_SIZE, kept);
  }

  lemma OpenShelters(h: Heap, n: nat, kept: set<nat>)
    requires Shelters(h, kept)
    ensures var (g, p, a) := OpenHeap(h, n); Shelters(g, kept) && p !in kept && a !in kept
  {
    hide Shelters, Parser.ParsedHeap, Parser.FreedParts, DescribedHeap, MountedHeap, Release;
    ParsedShelters(h, n, kept);
    var (g, r, blocks) := Parser.ParsedHeap(h, n);
    DescribedShelters(g, kept);
    var (f, p, a) := DescribedHeap(MountedHeap(g));
    FreedShelter(f, blocks, kept);
    ReleaseShelters(Parser.FreedParts(f, blocks), r, kept);
  }

  lemma ClosedShelters(file: (Heap, nat, nat), kept: set<nat>)
    requires Shelters(file.0, kept) && file.1 !in kept && file.2 !in kept
    ensures Shelters(ClosedHeap(file), kept)
  {
    hide Shelters, Release;
    ReleaseShelters(file.0, file.1, kept);
    ReleaseShelters(Release(file.0, file.1), file.2, kept);
  }

  /** On a heap whose large blocks on pages are all live, they still are at the first aligned request of a
      load, and once the file is closed. */
  lemma StartKeepsPages(h: Heap, parts: nat, elf: bool)
    requires Inv(h) && PagesLive(h)
    ensures PagesLive(Start(h, parts, elf)) && PagesLive(StartClosed(h, parts, elf))
  {
    SheltersStart(h);
    hide Inv, PagesLive, Shelters, OpenHeap, ClosedHeap, Small, Live;
    var kept := Live(h);
    OpenShelters(h, parts, kept);
    ClosedShelters(OpenHeap(h, parts), kept);
    var again := ClosedHeap(OpenHeap(h, parts));
    OpenShelters(again, parts, kept);
    SmallShelters(OpenHeap(again, parts).0, PROCESS_SIZE, kept);
    SheltersEnd(Small(OpenHeap(again, parts).0, PROCESS_SIZE).0, kept);
    SmallShelters(again, PROCESS_SIZE, kept);
    var raw := OpenHeap(Small(again, PROCESS_SIZE).0, parts);
    OpenShelters(Small(again, PROCESS_SIZE).0, parts, kept);
    SheltersEnd(raw.0, kept);
    ClosedShelters(raw, kept);
    SheltersEnd(ClosedHeap(raw), kept);
  }

  // ----- A heap that starts without blocks -----

  /** How far the small requests of loading a file of the root directory move the break of a heap without
      blocks: for a raw file, and for an ELF file. */
  const RAW_START := 2292
  const ELF_START := 2020

  /** The blocks of a heap without their places: sizes, and which of them are free. */
  datatype Cell = Cell(size: nat, free: bool)

  /** Where block `i` starts, from the first one on. */
  function Offset(rooms: seq<Cell>, i: nat): nat
    requires i <= |rooms|
  {
    if i == 0 then 0 else Offset(rooms, i - 1) + HEADER + rooms[i - 1].size
  }

  /** The heap has these blocks from `base` on, one after the other, and all are listed. */
  ghost predicate Laid(h: Heap, base: nat, rooms: seq<Cell>)
  {
    && |h.blocks| == |h.list| == |rooms| && h.brk == base + Offset(rooms, |rooms|)
    && (forall i: nat :: i < |rooms| ==> h.list[i] == i)
    && (forall i: nat :: i < |rooms| ==> h.blocks[i] == Block(base + Offset(rooms, i), rooms[i].size, rooms[i].free))
  }

  /** The first free block that is large enough, or the number of blocks. */
  predicate FirstCell(rooms: seq<Cell>, size: nat, k: nat)
  {
    && k <= |rooms| && (forall i: nat :: i < k ==> !(rooms[i].free && rooms[i].size >= size))
    && (k < |rooms| ==> rooms[k].free && rooms[k].size >= size)
  }

  /** The blocks after a request that block `k` serves. */
  function Taking(rooms: seq<Cell>, size: nat, k: nat): seq<Cell>
    requires k <= |rooms|
  {
    if k < |rooms| then rooms[k := Cell(rooms[k].size, false)] else rooms + [Cell(size, false)]
  }

  function Giving(rooms: seq<Cell>, k: nat): seq<Cell>
    requires k < |rooms|
  {
    rooms[k := Cell(rooms[k].size, true)]
  }

  function PayloadOf(base: nat, rooms: seq<Cell>, k: nat): nat
    requires k <= |rooms|
  {
    base + Offset(rooms, k) + HEADER
  }

  lemma {:induction false} SameOffset(a: seq<Cell>, b: seq<Cell>, i: nat)
    requires i <= |a| && i <= |b| && forall j: nat :: j < i ==> a[j].size == b[j].size
    ensures Offset(a, i) == Offset(b, i)
  {
    if i > 0 {
      SameOffset(a, b, i - 1);
    }
  }

  lemma {:induction false} OffsetsAscend(rooms: seq<Cell>, i: nat, j: nat)
    requires i < j <= |rooms|
    ensures Offset(rooms, i) < Offset(rooms, j)
    decreases j
  {
    if i < j - 1 {
      OffsetsAscend(rooms, i, j - 1);
    }
  }

  lemma {:induction false} FirstFits(h: Heap, base: nat, rooms: seq<Cell>, size: nat, k: nat, from: nat)
    requires Laid(h, base, rooms) && Indexed(h) && FirstCell(rooms, size, k) && from <= k
    ensures FirstFit(h, size, from) == k
    decreases k - from
  {
    if from < k {
      FirstFits(h, base, rooms, size, k, from + 1);
    }
  }

  lemma LaidIndexed(h: Heap, base: nat, rooms: seq<Cell>)
    requires Laid(h, base, rooms)
    ensures Indexed(h)
  {
  }

  lemma TakenOffsets(rooms: seq<Cell>, size: nat, k: nat)
    requires k <= |rooms|
    ensures forall i: nat :: i <= |rooms| ==> Offset(Taking(rooms, size, k), i) == Offset(rooms, i)
  {
    var more := Taking(rooms, size, k);
    forall i: nat | i <= |rooms|
      ensures Offset(more, i) == Offset(rooms, i)
    {
      SameOffset(more, rooms, i);
    }
  }

  lemma ReuseLaid(h: Heap, base: nat, rooms: seq<Cell>, size: nat, k: nat)
    requires Laid(h, base, rooms) && k < |rooms| && size > 0 && Indexed(h) && FirstFit(h, size, 0) == k
    ensures var (g, p) := Allocate(h, size, false);
            Laid(g, base, Taking(rooms, size, k)) && p == PayloadOf(base, rooms, k)
  {
    TakenOffsets(rooms, size, k);
    hide FirstFit, Offset;
  }

  lemma Extends(h: Heap, size: nat)
    requires Indexed(h) && size > 0 && FirstFit(h, size, 0) == |h.list|
    ensures var b := Block(h.brk, size, false);
            Allocate(h, size, false) == (Heap(b.End(), h.blocks + [b], h.list + [|h.blocks|]), b.Payload())
  {
    assert h.list[..|h.list|] == h.list;
    hide FirstFit;
  }

  lemma LastOffset(rooms: seq<Cell>, last: Cell)
    ensures Offset(rooms + [last], |rooms| + 1) == Offset(rooms, |rooms|) + HEADER + last.size
  {
    SameOffset(rooms + [last], rooms, |rooms|);
  }

  lemma Appended(h: Heap, base: nat, rooms: seq<Cell>, size: nat)
    requires Laid(h, base, rooms)
    ensures var b := Block(h.brk, size, false);
            Laid(Heap(b.End(), h.blocks + [b], h.list + [|h.blocks|]), base, rooms + [Cell(size, false)])
  {
    hide Offset;
    var more := rooms + [Cell(size, false)];
    TakenOffsets(rooms, size, |rooms|);
    LastOffset(rooms, Cell(size, false));
    var n, g := |rooms|, h.blocks + [Block(h.brk, size, false)];
    forall i: nat | i < n + 1
      ensures g[i] == Block(base + Offset(more, i), more[i].size, more[i].free)
    {
      if i < n {
        assert g[i] == h.blocks[i] && more[i] == rooms[i];
      }
    }
  }

  lemma ExtendLaid(h: Heap, base: nat, rooms: seq<Cell>, size: nat)
    requires Laid(h, base, rooms) && size > 0 && Indexed(h) && FirstFit(h, size, 0) == |rooms|
    ensures var (g, p) := Allocate(h, size, false);
            Laid(g, base, Taking(rooms, size, |rooms|)) && p == PayloadOf(base, rooms, |rooms|)
  {
    hide FirstFit, Allocate, Offset;
    Extends(h, size);
    Appended(h, base, rooms, size);
  }

  lemma TakingLaid(h: Heap, base: nat, rooms: seq<Cell>, size: nat, k: nat)
    requires Laid(h, base, rooms) && FirstCell(rooms, size, k) && size > 0
    ensures var (g, p) := Small(h, size); Laid(g, base, Taking(rooms, size, k)) && p == PayloadOf(base, rooms, k)
  {
    LaidIndexed(h, base, rooms);
    FirstFits(h, base, rooms, size, k, 0);
    hide FirstCell, Laid, Allocate, Taking, PayloadOf, Indexed;
    if k < |rooms| {
      ReuseLaid(h, base, rooms, size, k);
    } else {
      ExtendLaid(h, base, rooms, size);
    }
  }

  lemma GivingLaid(h: Heap, base: nat, rooms: seq<Cell>, k: nat)
    requires Laid(h, base, rooms) && k < |rooms|
    ensures Laid(Release(h, PayloadOf(base, rooms, k)), base, Giving(rooms, k))
  {
    var p, less := PayloadOf(base, rooms, k), Giving(rooms, k);
    forall i: nat | i <= |rooms|
      ensures Offset(less, i) == Offset(rooms, i)
    {
      SameOffset(less, rooms, i);
    }
    var i := BlockAt(h, p, 0);
    assert h.blocks[k].Payload() == p;
    if i < k {
      OffsetsAscend(rooms, i, k);
    }
  }

  /** Block `k` serves a request, and these are the blocks after it. */
  ghost predicate Takes(rooms: seq<Cell>, size: nat, k: nat, after: seq<Cell>)
  {
    FirstCell(rooms, size, k) && after == Taking(rooms, size, k)
  }

  ghost predicate Gives(rooms: seq<Cell>, k: nat, after: seq<Cell>)
  {
    k < |rooms| && after == Giving(rooms, k)
  }

  /** The blocks of `a` start where they start in `b`, and so does the next one. */
  ghost predicate SameStarts(a: seq<Cell>, b: seq<Cell>)
  {
    |a| <= |b| && forall i: nat :: i <= |a| ==> Offset(a, i) == Offset(b, i)
  }

  lemma TakesLaid(h: Heap, base: nat, rooms: seq<Cell>, size: nat, k: nat, after: seq<Cell>)
    requires Laid(h, base, rooms) && Takes(rooms, size, k, after) && size > 0
    ensures k <= |rooms| && k < |after| && SameStarts(rooms, after)
    ensures var (g, p) := Small(h, size); Laid(g, base, after) && p == PayloadOf(base, after, k)
  {
    TakingLaid(h, base, rooms, size, k);
    TakenOffsets(rooms, size, k);
    hide Laid, FirstCell, Offset, Small;
  }

  lemma GivesLaid(h: Heap, base: nat, rooms: seq<Cell>, k: nat, p: nat, after: seq<Cell>)
    requires Laid(h, base, rooms) && Gives(rooms, k, after) && k < |rooms| && p == PayloadOf(base, rooms, k)
    ensures |after| == |rooms| && Laid(Release(h, p), base, after) && SameStarts(rooms, after)
  {
    hide Release;
    GivingLaid(h, base, rooms, k);
    forall i: nat | i <= |rooms|
      ensures Offset(rooms, i) == Offset(after, i)
    {
      SameOffset(rooms, after, i);
    }
    hide Laid, Offset;
  }

  /** Parsing a path of one part: root, name, node, and the name block that is given back. */
  lemma ParsedLaid(h: Heap, base: nat, r0: seq<Cell>, r1: seq<Cell>, r2: seq<Cell>, r3: seq<Cell>, r4: seq<Cell>,
          r5: seq<Cell>, root: nat, name: nat, node: nat, spare: nat)
    requires Laid(h, base, r0) && Takes(r0, Parser.ROOT_SIZE, root, r1) && Takes(r1, Parser.PART_SIZE, name, r2)
      && Takes(r2, Parser.NODE_SIZE, node, r3) && Takes(r3, Parser.PART_SIZE, spare, r4) && Gives(r4, spare, r5)
    requires root < |r5| && name < |r5| && node < |r5|
    ensures var (g, r, blocks) := Parser.ParsedHeap(h, 1);
            && Laid(g, base, r5) && r == PayloadOf(base, r5, root)
            && blocks == [(PayloadOf(base, r5, node), PayloadOf(base, r5, name))]
  {
    hide Laid, Takes, Gives, Offset, Small, Release;
    TakesLaid(h, base, r0, Parser.ROOT_SIZE, root, r1);
    var h1 := Small(h, Parser.ROOT_SIZE).0;
    assert Parser.PartBlocks(h1, 0) == (h1, []);
    TakesLaid(h1, base, r1, Parser.PART_SIZE, name, r2);
    var h2 := Small(h1, Parser.PART_SIZE).0;
    TakesLaid(h2, base, r2, Parser.NODE_SIZE, node, r3);
    var h3 := Small(h2, Parser.NODE_SIZE).0;
    TakesLaid(h3, base, r3, Parser.PART_SIZE, spare, r4);
    var (h4, q) := Small(h3, Parser.PART_SIZE);
    GivesLaid(h4, base, r4, spare, q, r5);
  }

  /** The stream, the mount and the two descriptors. */
  lemma DescribedLaid(h: Heap, base: nat, r0: seq<Cell>, r1: seq<Cell>, r2: seq<Cell>, r3: seq<Cell>, r4: seq<Cell>,
          stream: nat, mount: nat, private: nat, slot: nat)
    requires Laid(h, base, r0) && Takes(r0, STREAM_SIZE, stream, r1) && Takes(r1, MOUNT_SIZE, mount, r2)
      && Takes(r2, DESCRIPTOR_SIZE, private, r3) && Takes(r3, FILE_SIZE, slot, r4)
    ensures SameStarts(r0, r4) && private < |r4| && slot < |r4|
    ensures DescribedHeap(MountedHeap(h)).1 == PayloadOf(base, r4, private)
    ensures DescribedHeap(MountedHeap(h)).2 == PayloadOf(base, r4, slot)
    ensures Laid(DescribedHeap(MountedHeap(h)).0, base, r4)
  {
    hide Laid, Takes, Offset, Small;
    TakesLaid(h, base, r0, STREAM_SIZE, stream, r1);
    var h1 := Small(h, STREAM_SIZE).0;
    TakesLaid(h1, base, r1, MOUNT_SIZE, mount, r2);
    var h2 := Small(h1, MOUNT_SIZE).0;
    TakesLaid(h2, base, r2, DESCRIPTOR_SIZE, private, r3);
    TakesLaid(Small(h2, DESCRIPTOR_SIZE).0, base, r3, FILE_SIZE, slot, r4);
  }

  /** A path of one part given back: its name, its node and its root. */
  lemma FreedLaid(h: Heap, base: nat, r0: seq<Cell>, r1: seq<Cell>, r2: seq<Cell>, r3: seq<Cell>, root: nat, name: nat,
          node: nat)
    requires Laid(h, base, r0) && Gives(r0, name, r1) && Gives(r1, node, r2) && Gives(r2, root, r3)
    requires root < |r0| && name < |r0| && node < |r0|
    ensures var blocks := [(PayloadOf(base, r0, node), PayloadOf(base, r0, name))];
            Laid(Release(Parser.FreedParts(h, blocks), PayloadOf(base, r0, root)), base, r3)
    ensures SameStarts(r0, r3)
  {
    hide Laid, Gives, Offset, Release;
    var p, a, r := PayloadOf(base, r0, name), PayloadOf(base, r0, node), PayloadOf(base, r0, root);
    GivesLaid(h, base, r0, name, p, r1);
    GivesLaid(Release(h, p), base, r1, node, a, r2);
    var g := Release(Release(h, p), a);
    GivesLaid(g, base, r2, root, r, r3);
    assert Parser.FreedParts(g, []) == g;
    assert [(a, p)][1..] == [];
  }

  /** The openings of `process_load` on a heap without blocks: the first, and the second of a raw file, after
      the process structure was made, and of an ELF file. */
  datatype Opening = First | RawAgain | ElfAgain

  function Free(size: nat): Cell
  {
    Cell(size, true)
  }

  function Used(size: nat): Cell
  {
    Cell(size, false)
  }

  /** The blocks after `i` requests and releases of opening a file with a path of one part. */
  function Rooms(o: Opening, i: nat): seq<Cell>
  {
    match o
    case First =>
      match i {
      case 0 => []
      case 1 => [Used(8)]
      case 2 => [Used(8), Used(256)]
      case 3 => [Used(8), Used(256), Used(8)]
      case 4 => [Used(8), Used(256), Used(8), Used(256)]
      case 5 => [Used(8), Used(256), Used(8), Free(256)]
      case 6 => [Used(8), Used(256), Used(8), Used(256)]
      case 7 => [Used(8), Used(256), Used(8), Used(256), Used(516)]
      case 8 => [Used(8), Used(256), Used(8), Used(256), Used(516), Used(44)]
      case 9 => [Used(8), Used(256), Used(8), Used(256), Used(516), Used(44), Used(16)]
      case 10 => [Used(8), Free(256), Used(8), Used(256), Used(516), Used(44), Used(16)]
      case 11 => [Used(8), Free(256), Free(8), Used(256), Used(516), Used(44), Used(16)]
      case _ => [Free(8), Free(256), Free(8), Used(256), Used(516), Used(44), Used(16)]
      }
    case RawAgain =>
      match i {
      case 0 => [Free(8), Used(256), Free(8), Used(256), Used(516), Free(44), Free(16)]
      case 1 => [Used(8), Used(256), Free(8), Used(256), Used(516), Free(44), Free(16)]
      case 2 => [Used(8), Used(256), Free(8), Used(256), Used(516), Free(44), Free(16), Used(256)]
      case 3 => [Used(8), Used(256), Used(8), Used(256), Used(516), Free(44), Free(16), Used(256)]
      case 4 => [Used(8), Used(256), Used(8), Used(256), Used(516), Free(44), Free(16), Used(256), Used(256)]
      case 5 => [Used(8), Used(256), Used(8), Used(256), Used(516), Free(44), Free(16), Used(256), Free(256)]
      case 6 => [Used(8), Used(256), Used(8), Used(256), Used(516), Used(44), Free(16), Used(256), Free(256)]
      case 7 => [Used(8), Used(256), Used(8), Used(256), Used(516), Used(44), Free(16), Used(256), Free(256), Used(516)]
      case 8 => [Used(8), Used(256), Used(8), Used(256), Used(516), Used(44), Free(16), Used(256), Used(256), Used(516)]
      case 9 => [Used(8), Used(256), Used(8), Used(256), Used(516), Used(44), Used(16), Used(256), Used(256), Used(516)]
      case 10 => [Used(8), Used(256), Used(8), Used(256), Used(516), Used(44), Used(16), Free(256), Used(256),
        Used(516)]
      case 11 => [Used(8), Used(256), Free(8), Used(256), Used(516), Used(44), Used(16), Free(256), Used(256),
        Used(516)]
      case _ => [Free(8), Used(256), Free(8), Used(256), Used(516), Used(44), Used(16), Free(256), Used(256), Used(516)]
      }
    case ElfAgain =>
      match i {
      case 0 => [Free(8), Free(256), Free(8), Used(256), Used(516), Free(44), Free(16)]
      case 1 => [Used(8), Free(256), Free(8), Used(256), Used(516), Free(44), Free(16)]
      case 2 => [Used(8), Used(256), Free(8), Used(256), Used(516), Free(44), Free(16)]
      case 3 => [Used(8), Used(256), Used(8), Used(256), Used(516), Free(44), Free(16)]
      case 4 => [Used(8), Used(256), Used(8), Used(256), Used(516), Free(44), Free(16), Used(256)]
      case 5 => [Used(8), Used(256), Used(8), Used(256), Used(516), Free(44), Free(16), Free(256)]
      case 6 => [Used(8), Used(256), Used(8), Used(256), Used(516), Used(44), Free(16), Free(256)]
      case 7 => [Used(8), Used(256), Used(8), Used(256), Used(516), Used(44), Free(16), Free(256), Used(516)]
      case 8 => [Used(8), Used(256), Used(8), Used(256), Used(516), Used(44), Free(16), Used(256), Used(516)]
      case 9 => [Used(8), Used(256), Used(8), Used(256), Used(516), Used(44), Used(16), Used(256), Used(516)]
      case 10 => [Used(8), Free(256), Used(8), Used(256), Used(516), Used(44), Used(16), Used(256), Used(516)]
      case 11 => [Used(8), Free(256), Free(8), Used(256), Used(516), Used(44), Used(16), Used(256), Used(516)]
      case _ => [Free(8), Free(256), Free(8), Used(256), Used(516), Used(44), Used(16), Used(256), Used(516)]
      }
  }

  /** Which block serves the request: root, name, node, spare name, stream, mount, descriptor, slot. */
  function Server(o: Opening): seq<nat>
  {
    match o
    case First => [0, 1, 2, 3, 3, 4, 5, 6]
    case RawAgain => [0, 7, 2, 8, 5, 9, 8, 6]
    case ElfAgain => [0, 1, 2, 7, 5, 8, 7, 6]
  }

  /** The blocks after the first file was opened and one of its descriptors given back. */
  function HalfClosed(): seq<Cell>
  {
    [Free(8), Free(256), Free(8), Used(256), Used(516), Free(44), Used(16)]
  }

  /** The blocks at the first aligned request for an ELF file. */
  function ElfBlocks(): seq<Cell>
  {
    [Free(8), Used(256), Free(8), Used(256), Used(516), Used(44), Used(16), Used(256), Used(516)]
  }

  ghost predicate Parses(o: Opening)
  {
    var k := Server(o);
    && Takes(Rooms(o, 0), Parser.ROOT_SIZE, k[0], Rooms(o, 1))
    && Takes(Rooms(o, 1), Parser.PART_SIZE, k[1], Rooms(o, 2))
    && Takes(Rooms(o, 2), Parser.NODE_SIZE, k[2], Rooms(o, 3))
    && Takes(Rooms(o, 3), Parser.PART_SIZE, k[3], Rooms(o, 4)) && Gives(Rooms(o, 4), k[3], Rooms(o, 5))
    && k[0] < |Rooms(o, 5)| && k[1] < |Rooms(o, 5)| && k[2] < |Rooms(o, 5)|
  }

  ghost predicate Describes(o: Opening)
  {
    var k := Server(o);
    && Takes(Rooms(o, 5), STREAM_SIZE, k[4], Rooms(o, 6)) && Takes(Rooms(o, 6), MOUNT_SIZE, k[5], Rooms(o, 7))
    && Takes(Rooms(o, 7), DESCRIPTOR_SIZE, k[6], Rooms(o, 8)) && Takes(Rooms(o, 8), FILE_SIZE, k[7], Rooms(o, 9))
  }

  ghost predicate Frees(o: Opening)
  {
    var k := Server(o);
    Gives(Rooms(o, 9), k[1], Rooms(o, 10)) && Gives(Rooms(o, 10), k[2], Rooms(o, 11))
    && Gives(Rooms(o, 11), k[0], Rooms(o, 12))
  }

  lemma FirstParses()
    ensures Parses(First)
  {
  }

  lemma FirstDescribes()
    ensures Describes(First)
  {
  }

  lemma FirstFrees()
    ensures Frees(First)
  {
  }

  lemma RawAgainParses()
    ensures Parses(RawAgain)
  {
  }

  lemma RawAgainDescribes()
    ensures Describes(RawAgain)
  {
  }

  lemma RawAgainFrees()
    ensures Frees(RawAgain)
  {
  }

  lemma ElfAgainParses()
    ensures Parses(ElfAgain)
  {
  }

  lemma ElfAgainDescribes()
    ensures Describes(ElfAgain)
  {
  }

  lemma ElfAgainFrees()
    ensures Frees(ElfAgain)
  {
  }
  lemma OpenServed(o: Opening)
    ensures Parses(o) && Describes(o) && Frees(o)
  {
    match o {
      case First => FirstParses(); FirstDescribes(); FirstFrees();
      case RawAgain => RawAgainParses(); RawAgainDescribes(); RawAgainFrees();
      case ElfAgain => ElfAgainParses(); ElfAgainDescribes(); ElfAgainFrees();
    }
    hide Parses, Describes, Frees;
  }

  /** Opening a file with a path of one part, from blocks that are laid out as in these openings. */
  lemma OpenLaid(h: Heap, base: nat, o: Opening)
    requires Laid(h, base, Rooms(o, 0))
    ensures var (g, p, a) := OpenHeap(h, 1); var (k, last) := (Server(o), Rooms(o, 12));
            && k[6] < |last| && k[7] < |last|
            && Laid(g, base, last) && p == PayloadOf(base, last, k[6]) && a == PayloadOf(base, last, k[7])
  {
    hide Laid, Takes, Gives, Offset, Small, Release, Parser.ParsedHeap, DescribedHeap, MountedHeap, Parser.FreedParts;
    hide Rooms;
    OpenServed(o);
    var k := Server(o);
    ParsedLaid(h, base, Rooms(o, 0), Rooms(o, 1), Rooms(o, 2), Rooms(o, 3), Rooms(o, 4), Rooms(o, 5), k[0], k[1],
      k[2], k[3]);
    var g := Parser.ParsedHeap(h, 1).0;
    DescribedLaid(g, base, Rooms(o, 5), Rooms(o, 6), Rooms(o, 7), Rooms(o, 8), Rooms(o, 9), k[4], k[5], k[6], k[7]);
    var f := DescribedHeap(MountedHeap(g)).0;
    FreedLaid(f, base, Rooms(o, 9), Rooms(o, 10), Rooms(o, 11), Rooms(o, 12), k[0], k[1], k[2]);
  }

  lemma ClosedLaid(file: (Heap, nat, nat), base: nat, r0: seq<Cell>, r1: seq<Cell>, r2: seq<Cell>, private: nat,
          slot: nat)
    requires Laid(file.0, base, r0) && Gives(r0, private, r1) && Gives(r1, slot, r2) && private < |r0| && slot < |r0|
    requires file.1 == PayloadOf(base, r0, private) && file.2 == PayloadOf(base, r0, slot)
    ensures Laid(ClosedHeap(file), base, r2)
  {
    hide Laid, Gives, Offset, Release;
    GivesLaid(file.0, base, r0, private, file.1, r1);
    GivesLaid(Release(file.0, file.1), base, r1, slot, file.2, r2);
  }

  lemma FirstCloses()
    ensures var k, half := Server(First), HalfClosed();
            Gives(Rooms(First, 12), k[6], half) && Gives(half, k[7], Rooms(ElfAgain, 0))
  {
  }

  /** The file opened and closed once, on a heap without blocks. */
  lemma FirstLaid(base: nat)
    ensures Laid(ClosedHeap(OpenHeap(Heap(base, [], []), 1)), base, Rooms(ElfAgain, 0))
  {
    var h := Heap(base, [], []);
    assert Laid(h, base, Rooms(First, 0));
    hide Laid, Gives, OpenHeap, ClosedHeap, Rooms, HalfClosed;
    OpenLaid(h, base, First);
    FirstCloses();
    ClosedLaid(OpenHeap(h, 1), base, Rooms(First, 12), HalfClosed(), Rooms(ElfAgain, 0), Server(First)[6],
      Server(First)[7]);
  }

  lemma ProcessTakes()
    ensures Takes(Rooms(ElfAgain, 0), PROCESS_SIZE, 1, Rooms(RawAgain, 0))
    ensures Takes(Rooms(ElfAgain, 12), PROCESS_SIZE, 1, ElfBlocks())
  {
  }

  lemma RawEnds()
    ensures |Rooms(RawAgain, 12)| == 10 && Offset(Rooms(RawAgain, 12), 10) == RAW_START
  {
    var r := Rooms(RawAgain, 12);
    assert Offset(r, 3) == 320;
    assert Offset(r, 6) == 1184;
    assert Offset(r, 9) == 1760;
  }

  lemma ElfEnds()
    ensures |ElfBlocks()| == 9 && Offset(ElfBlocks(), 9) == ELF_START
  {
    var r := ElfBlocks();
    assert Offset(r, 3) == 320;
    assert Offset(r, 6) == 1184;
  }

  /** On a heap without blocks the break at the first aligned request is a constant further. */
  lemma FreshStart(base: nat, elf: bool)
    ensures Start(Heap(base, [], []), 1, elf).brk == base + if elf then ELF_START else RAW_START
  {
    hide Laid, Takes, Offset, OpenHeap, ClosedHeap, Rooms, Small, ElfBlocks;
    var again := ClosedHeap(OpenHeap(Heap(base, [], []), 1));
    FirstLaid(base);
    ProcessTakes();
    if elf {
      OpenLaid(again, base, ElfAgain);
      TakesLaid(OpenHeap(again, 1).0, base, Rooms(ElfAgain, 12), PROCESS_SIZE, 1, ElfBlocks());
      ElfEnds();
      LaidBreak(Start(Heap(base, [], []), 1, elf), base, ElfBlocks());
    } else {
      TakesLaid(again, base, Rooms(ElfAgain, 0), PROCESS_SIZE, 1, Rooms(RawAgain, 0));
      OpenLaid(Small(again, PROCESS_SIZE).0, base, RawAgain);
      RawEnds();
      LaidBreak(Start(Heap(base, [], []), 1, elf), base, Rooms(RawAgain, 12));
    }
  }

  lemma LaidBreak(h: Heap, base: nat, rooms: seq<Cell>)
    requires Laid(h, base, rooms)
    ensures h.brk == base + Offset(rooms, |rooms|)
  {
  }
}
