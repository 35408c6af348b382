/** The descriptor table over two drives (src/fs/file.c). */
module Vfs {
  import opened Bytes
  import opened Multiples
  import opened CStrings
  import opened DiskStreams
  import opened FatLayout
  import opened FatNames
  import opened FatDirectory
  import opened Listings
  import opened Fat16
  import opened FatPaths
  import opened HeapModel
  import opened KernelHeaps
  import Parser = PathParser
  import Runs = FileRuns
  import opened TableRuns

  const MAX_FILE_DESCRIPTORS := 512

  // ----- One open file -----

  /** The bytes of a file: its chain's contents, cut at its size. */
  ghost function FileBytes(img: seq<Byte>, v: Volume, item: DirItem): seq<Byte>
    requires Charted(img, v)
  {
    if item.filesize > 0 && item.cluster in v.chains then
      ChainInside(img, v, item.cluster);
      var content := ChainBytes(img, v.bpb, v.chains[item.cluster]);
      if item.filesize <= |content| then content[..item.filesize] else content
    else []
  }

  lemma FileBytesAre(p: FatPrivate, v: Volume, item: DirItem)
    requires FileOk(p, v, item)
    ensures |FileBytes(p.Image(), v, item)| == item.filesize
    ensures item.filesize > 0 ==>
      item.filesize <= |Contents(p, v, item)| && FileBytes(p.Image(), v, item) == Contents(p, v, item)[..item.filesize]
  {
  }

  ghost function CursorOf(desc: FatFileDescriptor): Runs.Cursor
    reads desc
  {
    Runs.Cursor(desc.pos, desc.index)
  }

  /** A read through a descriptor is one step of its file's transition system, as long as position
      plus length fits 32 bits and the table can be read. */
  method ReadStep(p: FatPrivate, desc: FatFileDescriptor, size: U32, nmemb: U32, out: array<Byte>, base: nat,
          ghost v: Volume)
    returns (count: nat, ghost data: seq<Byte>, ghost cost: nat)
    requires DescOk(desc, p, v) && NoOverflow(desc.pos, size, nmemb) && FatDependable(p, v)
    requires base + Min(Asked(size, nmemb), desc.item.filesize - desc.pos) <= out.Length
    modifies p, p.stream, out, desc
    ensures DescOk(desc, p, v) && cost == p.fatReads - old(p.fatReads)
    ensures Runs.Step(FileBytes(p.Image(), v, desc.item), ClusterSize(v.bpb), old(CursorOf(desc)),
      Runs.Read(Asked(size, nmemb), data, cost), CursorOf(desc))
    ensures base + |data| <= out.Length && out[base..base + |data|] == data && |data| == desc.pos - old(desc.pos)
    ensures
      var cut := Min(Asked(size, nmemb), desc.item.filesize - old(desc.pos));
      forall j :: 0 <= j < out.Length && !(base <= j < base + cut) ==> out[j] == old(out[j])
    ensures count == WholeItems(|data|, size)
    ensures AllDependable(p) ==> |data| == Min(Asked(size, nmemb), desc.item.filesize - old(desc.pos))
  {
    hide DescOk, FatDependable, AllDependable, Contents, FileBytes, NoOverflow, Clipped, Asked;
    DescFacts(desc, p, v);
    ClipFits(desc.pos, desc.item.filesize, size, nmemb);
    ghost var content, file, pos := Contents(p, v, desc.item), FileBytes(p.Image(), v, desc.item), desc.pos;
    ghost var fetched := p.fatReads;
    ghost var c, before := CursorOf(desc), desc.lastClusterPos;
    count := Read(p, desc, size, nmemb, out, base, v);
    DescFacts(desc, p, v);
    data := file[pos..desc.pos];
    cost := p.fatReads - fetched;
    CopiedSlice(out[..], content, file, base, pos, desc.pos);
  }

  lemma ClipFits(pos: U32, filesize: U32, size: U32, nmemb: U32)
    requires pos <= filesize && NoOverflow(pos, size, nmemb)
    ensures Clipped(pos, filesize, size, nmemb) == Min(Asked(size, nmemb), filesize - pos)
  {
    ClipExact(pos, filesize, size, nmemb);
  }

  lemma DescFacts(desc: FatFileDescriptor, p: FatPrivate, v: Volume)
    requires DescOk(desc, p, v)
    ensures Mounted(p, v) && desc.pos <= desc.item.filesize == |FileBytes(p.Image(), v, desc.item)|
    ensures desc.item.filesize > 0 ==>
      && desc.item.filesize <= |Contents(p, v, desc.item)|
      && FileBytes(p.Image(), v, desc.item) == Contents(p, v, desc.item)[..desc.item.filesize]
      && desc.lastClusterPos == Times(desc.index, ClusterSize(v.bpb))
  {
    FileBytesAre(p, v, desc.item);
  }

  lemma CopiedSlice(out: seq<Byte>, content: seq<Byte>, file: seq<Byte>, base: nat, from: nat, to: nat)
    requires from <= to <= |file| && base + (to - from) <= |out|
    requires to > from ==> |file| <= |content| && file == content[..|file|]
    requires forall j :: base <= j < base + (to - from) && j + (from - base) < |content| ==>
      out[j] == content[j + (from - base)]
    ensures out[base..base + (to - from)] == file[from..to]
  {
    var a, b := out[base..base + (to - from)], file[from..to];
    assert forall k :: 0 <= k < to - from ==> a[k] == out[base + k] && b[k] == file[from + k] == content[from + k];
  }

  /** `fs_parse_mode`: the first character decides. */
  function ParseMode(mode: seq<Byte>): Mode
    requires 0 in mode
  {
    if mode[0] == 'r' as int then ModeRead
    else if mode[0] == 'w' as int then ModeWrite
    else if mode[0] == 'a' as int then ModeAppend
    else ModeInvalid
  }

  /** Gives back the blocks of a path: what was taken while it was held stays live. */
  method FreePath(root: Parser.PathRoot, heap: KernelHeap, ghost h: Heap, ghost h1: Heap, ghost taken: seq<nat>,
          ghost growth: nat, ghost room: nat)
    requires heap.Valid() && Parser.Holds(root, Live(h), Live(h1)) && Creeps(h, h1, growth)
      && Leaves(h1, heap.state, taken, room)
    modifies heap, heap.ram
    ensures heap.Valid() && Leaves(h, heap.state, taken, growth + room) && Live(heap.state) == Live(h) + Elements(taken)
    ensures heap.state == Release(Parser.FreedParts(old(heap.state), Parser.Pairs(root.nodes)), root.addr)
    ensures Spares(old(heap.state), old(heap.ram[..]), heap.state, heap.ram[..], Live(h))
  {
    hide Parser.FreedParts, Parser.Pairs, Release, KernelHeap.ValidIn, Live, Took, Creeps, Parser.Holds, Spares;
    ghost var h2, m2 := heap.state, heap.ram[..];
    CreepsTwice(h, h1, h2, growth, room);
    Parser.HoldsMore(root, Live(h), Live(h1), Live(h2), taken);
    Parser.Free(root, heap, Live(h) + Elements(taken));
    CreepsTwice(h, h2, heap.state, growth + room, 0);
    SparesLess(h2, m2, heap.state, heap.ram[..], Live(h) + Elements(taken), Live(h));
  }

  lemma HoldsList(root: Parser.PathRoot, before: set<nat>, now: set<nat>)
    requires Parser.Holds(root, before, now)
    ensures Parser.Linked(root.first, root.nodes) && Parser.Terminated(root.nodes) && before <= now
  {
  }

  // ----- Drives -----

  /** A drive with a boot sector the reader accepts is a well-formed volume whose table always reads. */
  ghost predicate DeviceOk(device: Device, v: Volume)
  {
    Bootable(device.image) ==> WellFormed(device.image, v) && Dependable(device, FatStart(v.bpb), 2 * v.limit)
  }

  /** The mount of a drive in order, if any, is of its volume. */
  ghost predicate DriveOk(disk: Disk, v: Volume)
    reads disk
  {
    && DeviceOk(disk.device, v)
    && (disk.fsPrivate != null ==>
          Bootable(disk.device.image) && disk.fsPrivate.bpb == v.bpb && disk.fsPrivate.stream.device == disk.device)
  }

  lemma MountedDrive(disk: Disk, v: Volume)
    requires DriveOk(disk, v) && disk.fsPrivate != null
    ensures Mounted(disk.fsPrivate, v) && WellFormed(disk.fsPrivate.Image(), v) && FatDependable(disk.fsPrivate, v)
    ensures disk.fsPrivate.Image() == disk.device.image
  {
  }

  /** A descriptor in good order stays so under another mount of the same drive. */
  lemma Remounted(desc: FatFileDescriptor, p: FatPrivate, q: FatPrivate, v: Volume)
    requires DescOk(desc, p, v) && Mounted(q, v) && q.Image() == p.Image()
    ensures DescOk(desc, q, v)
  {
  }

  lemma OpenFacts(disk: Disk, v: Volume)
    requires DriveOk(disk, v) && disk.fsPrivate != null
    ensures Mounted(disk.fsPrivate, v) && WellFormed(disk.fsPrivate.Image(), v) && Charted(disk.device.image, v)
    ensures disk.fsPrivate.Image() == disk.device.image && Bootable(disk.device.image)
    ensures Dependable(disk.device, 0, |disk.device.image|) ==> AllDependable(disk.fsPrivate)
  {
  }

  lemma BootFacts(disk: Disk, v: Volume)
    requires DriveOk(disk, v)
    ensures Bootable(disk.device.image) ==>
      |disk.device.image| >= 512 && ParseBpb(disk.device.image[..512]) == v.bpb && Charted(disk.device.image, v)
    ensures Bootable(disk.device.image) && Dependable(disk.device, 0, |disk.device.image|) ==>
      Dependable(disk.device, 0, 512)
  {
  }

  lemma SameMount(disk: Disk, was: FatPrivate, v: Volume)
    requires DriveOk(disk, v) && was.bpb == v.bpb && was.stream.device == disk.device && Bootable(disk.device.image)
    ensures Mounted(was, v) && was.Image() == disk.device.image
  {
  }

  const FILE_SIZE := 16

  /** How far the break moves at most for a mount and the two descriptors of a file. */
  const OPEN_GROWTH := MOUNT_GROWTH + DESCRIPTOR_SIZE + HEADER + FILE_SIZE + HEADER

  /** The same for opening this path, which is parsed first. */
  function OpenGrowth(text: seq<Byte>): nat
  {
    Parser.Growth(text) + OPEN_GROWTH
  }

  /** Room for opening any path of `n` characters. */
  function OpenRoom(n: nat): nat
  {
    Parser.ParseRoom(n) + Parser.PART_SIZE + OPEN_GROWTH + PAGE
  }

  /** The heap after the two descriptors of a file were made, and their blocks: the file system's, the slot's. */
  ghost function DescribedHeap(h: Heap): (Heap, nat, nat)
  {
    var (g, p) := Small(h, DESCRIPTOR_SIZE);
    var (f, a) := Small(g, FILE_SIZE);
    (f, p, a)
  }

  /** The heap after a file with a path of `n` parts was opened, and its two descriptors' blocks. */
  ghost function OpenHeap(h: Heap, n: nat): (Heap, nat, nat)
  {
    var (g, r, blocks) := Parser.ParsedHeap(h, n);
    var (f, p, a) := DescribedHeap(MountedHeap(g));
    (Release(Parser.FreedParts(f, blocks), r), p, a)
  }

  /** The heap after it was also closed. */
  ghost function ClosedHeap(file: (Heap, nat, nat)): Heap
  {
    Release(Release(file.0, file.1), file.2)
  }

  /** A heap and the two blocks of a descriptor. */
  ghost function WithBlocks(h: Heap, desc: FileDescriptor): (Heap, nat, nat)
  {
    (h, desc.private.addr, desc.addr)
  }

  /** The break after a file with a path of `n` parts was opened, and after it was closed. */
  lemma OpenGrows(h: Heap, n: nat)
    ensures h.brk <= OpenHeap(h, n).0.brk <= h.brk + Parser.PathGrowth(n) + OPEN_GROWTH
    ensures ClosedHeap(OpenHeap(h, n)).brk == OpenHeap(h, n).0.brk
  {
    Parser.ParsedGrows(h, n);
    var (g, r, blocks) := Parser.ParsedHeap(h, n);
    Parser.SmallGrows(g, STREAM_SIZE);
    var g1 := Small(g, STREAM_SIZE).0;
    Parser.SmallGrows(g1, MOUNT_SIZE);
    var g2 := Small(g1, MOUNT_SIZE).0;
    Parser.SmallGrows(g2, DESCRIPTOR_SIZE);
    var g3 := Small(g2, DESCRIPTOR_SIZE).0;
    Parser.SmallGrows(g3, FILE_SIZE);
    var g4 := Small(g3, FILE_SIZE).0;
    Parser.FreedBreak(g4, blocks);
    hide Small, Parser.ParsedHeap, Parser.FreedParts;
  }

  lemma GrowthFits(text: seq<Byte>)
    ensures OpenGrowth(text) + PAGE <= OpenRoom(|text|)
  {
    if Parser.HasDrive(text) {
      Parser.PartsFew(text[3..]);
    }
  }

  /** How many blocks an open that returned `r` leaves live: the stream and the mount if the drive was
      mounted, then the file system's descriptor, then the slot's. */
  function BlocksLeft(r: int): nat
  {
    if r > 0 then 4 else if r == -7 then 3 else if r == -6 || r == -5 then 2 else 0
  }

  class FileDescriptor {
    /** The heap block of the descriptor. */
    const addr: nat
    const index: nat
    const private: FatFileDescriptor
    const disk: Disk
    ghost const drive: nat

    constructor (addr: nat, index: nat, private: FatFileDescriptor, disk: Disk, ghost drive: nat)
      ensures this.addr == addr && this.index == index && this.private == private && this.disk == disk
        && this.drive == drive
    {
      this.addr, this.index, this.private, this.disk := addr, index, private, disk;
      this.drive := drive;
    }

    /** The two heap blocks that closing gives back. */
    ghost function Blocks(): set<nat> { {private.addr, addr} }
  }

  /** Every slot that is filled has two blocks of its own among `live`. */
  ghost predicate AllBacked(slots: seq<FileDescriptor?>, live: set<nat>)
  {
    && (forall i :: 0 <= i < |slots| && slots[i] != null ==>
      slots[i].private.addr != slots[i].addr && slots[i].Blocks() <= live)
    && (forall i, j :: 0 <= i < j < |slots| && slots[i] != null && slots[j] != null ==>
      slots[i].Blocks() !! slots[j].Blocks())
  }

  /** Slot `r - 1` was empty and is filled, or no slot changed. */
  ghost predicate SlotFilled(slots: seq<FileDescriptor?>, now: seq<FileDescriptor?>, r: int)
  {
    if r > 0 then r <= |slots| == |now| && slots[r - 1] == null && now == slots[r - 1 := now[r - 1]] else now == slots
  }

  /** Descriptor number `r` was put into its slot, in one new block; or nothing changed. */
  ghost predicate Installed(slots: seq<FileDescriptor?>, now: seq<FileDescriptor?>, r: int, private: FatFileDescriptor,
          h: Heap, g: Heap)
  {
    if r > 0 then
      && r <= |slots| == |now| && slots[r - 1] == null && now[r - 1] != null && now[r - 1].private == private
      && now == slots[r - 1 := now[r - 1]] && Leaves(h, g, [now[r - 1].addr], FILE_SIZE + HEADER)
      && (g, now[r - 1].addr) == Small(h, FILE_SIZE)
    else now == slots && g == h
  }

  /** A slot filled with a descriptor in two new blocks. */
  lemma BackedInstalled(slots: seq<FileDescriptor?>, i: nat, desc: FileDescriptor, live: set<nat>)
    requires AllBacked(slots, live) && i < |slots| && slots[i] == null
    requires desc.addr != desc.private.addr && desc.Blocks() !! live
    ensures AllBacked(slots[i := desc], live + desc.Blocks())
  {
    var filled := slots[i := desc];
    hide FileDescriptor.Blocks;
    forall j, k | 0 <= j < k < |filled| && filled[j] != null && filled[k] != null
      ensures filled[j].Blocks() !! filled[k].Blocks()
    {
      assert j != i ==> slots[j].Blocks() <= live;
      assert k != i ==> slots[k].Blocks() <= live;
    }
  }

  /** The blocks of the file system's descriptor and of the slot, if there was one. */
  function BothBlocks(now: seq<FileDescriptor?>, r: int, private: FatFileDescriptor): seq<nat>
  {
    if 0 < r <= |now| && now[r - 1] != null then [private.addr, now[r - 1].addr] else [private.addr]
  }

  lemma InstalledBacked(slots: seq<FileDescriptor?>, now: seq<FileDescriptor?>, r: int, private: FatFileDescriptor,
          h: Heap, h1: Heap, g: Heap, live: set<nat>)
    requires AllBacked(slots, live) && live <= Live(h) && Leaves(h, h1, [private.addr], DESCRIPTOR_SIZE + HEADER)
    requires Installed(slots, now, r, private, h1, g)
    ensures Leaves(h, g, BothBlocks(now, r, private), DESCRIPTOR_SIZE + HEADER + FILE_SIZE + HEADER)
    ensures AllBacked(now, live + Elements(BothBlocks(now, r, private)))
  {
    hide AllBacked, Leaves, Live;
    LeavesFacts(h, h1, [private.addr], DESCRIPTOR_SIZE + HEADER);
    if r > 0 {
      var desc := now[r - 1];
      LeavesFacts(h1, g, [desc.addr], FILE_SIZE + HEADER);
      LeavesTwice(h, h1, g, [private.addr], [desc.addr], DESCRIPTOR_SIZE + HEADER, FILE_SIZE + HEADER);
      assert BothBlocks(now, r, private) == [private.addr] + [desc.addr];
      assert desc.addr in [desc.addr] && private.addr in [private.addr];
      BackedInstalled(slots, r - 1, desc, live);
      assert Elements(BothBlocks(now, r, private)) == desc.Blocks();
    } else {
      LeavesMore(h, h1, [private.addr], DESCRIPTOR_SIZE + HEADER, DESCRIPTOR_SIZE + HEADER + FILE_SIZE + HEADER);
      assert BothBlocks(now, r, private) == [private.addr];
      BackedMore(slots, live, live + Elements(BothBlocks(now, r, private)));
    }
  }

  lemma BackedMore(slots: seq<FileDescriptor?>, a: set<nat>, b: set<nat>)
    requires AllBacked(slots, a) && a <= b
    ensures AllBacked(slots, b)
  {
  }

  /** A slot emptied and its blocks given back. */
  lemma BackedRemoved(slots: seq<FileDescriptor?>, i: nat, live: set<nat>)
    requires AllBacked(slots, live) && i < |slots| && slots[i] != null
    ensures AllBacked(slots[i := null], live - slots[i].Blocks())
    ensures slots[i].addr != slots[i].private.addr && slots[i].Blocks() <= live
  {
    var emptied, desc := slots[i := null], slots[i];
    hide FileDescriptor.Blocks;
    forall j | 0 <= j < |emptied| && emptied[j] != null
      ensures emptied[j].Blocks() <= live - desc.Blocks()
    {
      assert slots[j].Blocks() <= live && slots[j].Blocks() !! desc.Blocks();
    }
  }

  class Files {
    const descriptors: array<FileDescriptor?>
    const disks: seq<Disk>
    ghost const volumes: seq<Volume>

    /** `fs_init` over two drives, with an empty table. */
    constructor (first: Device, second: Device, ghost v0: Volume, ghost v1: Volume)
      requires DeviceOk(first, v0) && DeviceOk(second, v1)
      ensures Valid() && |disks| == 2 && fresh(descriptors) && fresh(disks[0]) && fresh(disks[1])
      ensures disks[0].device == first && disks[1].device == second && volumes == [v0, v1]
      ensures OpenFiles() == seq(MAX_FILE_DESCRIPTORS, i => None)
    {
      var table: array<FileDescriptor?> := new FileDescriptor?[MAX_FILE_DESCRIPTORS](i => null);
      var disk0 := new Disk(0, first);
      var disk1 := new Disk(1, second);
      descriptors := table;
      disks := [disk0, disk1];
      volumes := [v0, v1];
    }

    /** Each device holds its volume, or nothing bootable. */
    ghost predicate DevicesOk()
    {
      |disks| == 2 && |volumes| == 2 && forall k :: 0 <= k < 2 ==> DeviceOk(disks[k].device, volumes[k])
    }

    ghost predicate DrivesOk()
      reads disks
    {
      && |disks| == 2 && |volumes| == 2 && disks[0] != disks[1]
      && forall k :: 0 <= k < 2 ==> DriveOk(disks[k], volumes[k])
    }

    /** Slot `i` holds index `i + 1`, a drive and a descriptor in good order on it. */
    ghost predicate SlotOk(f: FileDescriptor, i: nat)
      requires |disks| == 2 && |volumes| == 2
      reads disks, f.private
    {
      && f.index == i + 1 && f.drive < 2 && f.disk == disks[f.drive]
      && f.disk.fsPrivate != null && DescOk(f.private, f.disk.fsPrivate, volumes[f.drive])
    }

    ghost function Privates(): set<FatFileDescriptor>
      reads descriptors
    {
      set i | 0 <= i < descriptors.Length && descriptors[i] != null :: descriptors[i].private
    }

    ghost predicate Valid()
      reads this, descriptors, disks, Privates()
    {
      && descriptors.Length == MAX_FILE_DESCRIPTORS && DrivesOk()
      && (forall i :: 0 <= i < descriptors.Length && descriptors[i] != null ==> SlotOk(descriptors[i], i))
      && (forall i, j :: 0 <= i < j < descriptors.Length && descriptors[i] != null && descriptors[j] != null ==>
            descriptors[i].private != descriptors[j].private)
    }

    ghost function View(f: FileDescriptor?): Option<OpenFile>
      reads if f == null then {} else {f.private}
    {
      if f == null then None else Some(OpenFile(f.drive, f.private.item, CursorOf(f.private)))
    }

    /** The table of open files. */
    ghost function OpenFiles(): (t: Table)
      reads descriptors, Privates()
      ensures |t| == descriptors.Length && forall i :: 0 <= i < |t| ==> t[i] == View(descriptors[i])
    {
      seq(descriptors.Length, i requires 0 <= i < descriptors.Length reads descriptors,
        Privates() => View(descriptors[i]))
    }

    /** Every open slot has two blocks of its own among `live`. */
    ghost predicate Backed(live: set<nat>)
      reads descriptors
    {
      AllBacked(descriptors[..], live)
    }

    /** What the drives hold. */
    ghost function Holdings(): Drives
    {
      TableRuns.Drives(
        (k: nat, item) => if k < |disks| && k < |volumes| && Charted(disks[k].device.image, volumes[k])
                          then FileBytes(disks[k].device.image, volumes[k], item) else [],
        (k: nat) => if k < |volumes| then ClusterSize(volumes[k].bpb) else 0)
    }

    lemma HoldingsAre(f: OpenFile)
      requires DrivesOk() && f.drive < 2 && Bootable(disks[f.drive].device.image)
      ensures Holdings().content(f.drive, f.item) == ContentOf(f) && Holdings().size(f.drive) == SizeOf(f)
    {
      BootFacts(disks[f.drive], volumes[f.drive]);
      hide Charted, Bootable, FileBytes;
    }

    /** `fs_get_descriptor`: the descriptor behind a number, or null. */
    function GetDescriptor(fd: int): FileDescriptor?
      requires descriptors.Length == MAX_FILE_DESCRIPTORS
      reads descriptors
    {
      if fd <= 0 || fd > MAX_FILE_DESCRIPTORS then null else descriptors[fd - 1]
    }

    /** A number has a descriptor exactly when it is one of 1 to 512 and its slot of the table is in use. */
    lemma DescriptorIs(fd: int)
      requires Valid()
      ensures |OpenFiles()| == 512 && (GetDescriptor(fd) != null <==> 1 <= fd <= 512 && OpenFiles()[fd - 1].Some?)
    {
      hide DriveOk, SlotOk;
    }

    /** What an operation on one descriptor may change. */
    ghost function Footprint(fd: int): set<object>
      requires descriptors.Length == MAX_FILE_DESCRIPTORS
      reads descriptors, if GetDescriptor(fd) == null then {} else {GetDescriptor(fd).disk}
    {
      var f := GetDescriptor(fd);
      if f == null || f.disk.fsPrivate == null then {} else {f.private, f.disk.fsPrivate, f.disk.fsPrivate.stream}
    }

    ghost function ContentOf(f: OpenFile): seq<Byte>
      requires DrivesOk() && f.drive < 2 && Bootable(disks[f.drive].device.image)
      reads disks
    {
      FileBytes(disks[f.drive].device.image, volumes[f.drive], f.item)
    }

    ghost function SizeOf(f: OpenFile): nat
      requires |volumes| == 2 && f.drive < 2
    {
      ClusterSize(volumes[f.drive].bpb)
    }

    lemma SlotFacts(fd: int)
      requires Valid() && GetDescriptor(fd) != null
      ensures var f := GetDescriptor(fd);
              && f.index == fd && f.drive < 2 && f.disk == disks[f.drive] && f.disk.fsPrivate != null
              && DescOk(f.private, f.disk.fsPrivate, volumes[f.drive])
                && FatDependable(f.disk.fsPrivate, volumes[f.drive])
              && Bootable(f.disk.device.image) && f.disk.fsPrivate.Image() == f.disk.device.image
              && (Dependable(f.disk.device, 0, |f.disk.device.image|) ==> AllDependable(f.disk.fsPrivate))
    {
      var f := GetDescriptor(fd);
      assert SlotOk(f, fd - 1);
      MountedDrive(f.disk, volumes[f.drive]);
    }

    lemma SlotSize(fd: int)
      requires Valid() && GetDescriptor(fd) != null
      ensures var f := GetDescriptor(fd);
              && f.drive < 2 && Bootable(disks[f.drive].device.image)
              && |ContentOf(View(f).value)| == f.private.item.filesize
    {
      hide DescOk, DriveOk, Bootable, Dependable;
      SlotFacts(fd);
      var f := GetDescriptor(fd);
      DescFacts(f.private, f.disk.fsPrivate, volumes[f.drive]);
    }

    /** Changing one descriptor within its own order keeps the whole table in order. */
    twostate lemma OneChanged(fd: int)
      requires old(Valid()) && old(GetDescriptor(fd)) != null
      requires unchanged(descriptors) && unchanged(disks)
      requires forall i :: 0 <= i < descriptors.Length && i != fd - 1 && descriptors[i] != null ==>
        unchanged(descriptors[i].private)
      requires var f := old(GetDescriptor(fd));
               && f.disk.fsPrivate != null && |volumes| == 2 && f.drive < 2
               && DescOk(f.private, f.disk.fsPrivate, volumes[f.drive])
      ensures Valid()
    {
      hide DescOk, DriveOk;
    }

    twostate lemma OneShown(fd: int)
      requires old(Valid()) && old(GetDescriptor(fd)) != null
      requires unchanged(descriptors)
      requires forall i :: 0 <= i < descriptors.Length && i != fd - 1 && descriptors[i] != null ==>
        unchanged(descriptors[i].private)
      ensures OpenFiles() == old(OpenFiles())[fd - 1 := View(GetDescriptor(fd))]
    {
      hide DescOk, DriveOk;
    }

    lemma OnStep(fd: nat, t: Table, t': Table, f: OpenFile, ev: Runs.Event, c: Runs.Cursor)
      requires DrivesOk() && 1 <= fd <= |t| && t[fd - 1] == Some(f) && t' == t[fd - 1 := Some(f.(cursor := c))]
      requires f.drive < 2 && Bootable(disks[f.drive].device.image)
      requires Runs.Step(ContentOf(f), SizeOf(f), f.cursor, ev, c)
      ensures TableStep(Holdings(), t, On(fd, ev), t')
    {
      hide Bootable, ContentOf, SizeOf, Runs.Step, TableStep, Holdings, DriveOk;
      HoldingsAre(f);
      StepOn(Holdings(), t, fd, f, ev, c);
    }

    /** The table entries fetched so far through the mount of a descriptor. */
    ghost function Fetched(fd: int): nat
      requires descriptors.Length == MAX_FILE_DESCRIPTORS
      reads descriptors, if GetDescriptor(fd) == null then {} else {GetDescriptor(fd).disk}
      reads Footprint(fd)
    {
      var f := GetDescriptor(fd);
      if f == null || f.disk.fsPrivate == null then 0 else f.disk.fsPrivate.fatReads
    }

    /** `fread`: one step of the file behind `fd`; every other open file is as before. */
    method Fread(out: array<Byte>, base: nat, size: U32, nmemb: U32, fd: int)
      returns (n: int, ghost data: seq<Byte>, ghost cost: nat)
      requires Valid()
      requires var f := GetDescriptor(fd); f != null ==>
        && f.private.pos <= f.private.item.filesize && NoOverflow(f.private.pos, size, nmemb)
        && base + Min(Asked(size, nmemb), f.private.item.filesize - f.private.pos) <= out.Length
      modifies out, Footprint(fd)
      ensures Valid()
      ensures GetDescriptor(fd) == null ==> n == -1 && OpenFiles() == old(OpenFiles()) && out[..] == old(out[..])
      ensures GetDescriptor(fd) != null ==>
        && old(OpenFiles()[fd - 1]).Some? && n == WholeItems(|data|, size) && cost == Fetched(fd) - old(Fetched(fd))
        && var f := old(OpenFiles()[fd - 1].value);
           && f.drive < 2 && Bootable(disks[f.drive].device.image)
           && var c := CursorOf(GetDescriptor(fd).private);
              && OpenFiles() == old(OpenFiles())[fd - 1 := Some(f.(cursor := c))]
              && Runs.Step(ContentOf(f), SizeOf(f), f.cursor, Runs.Read(Asked(size, nmemb), data, cost), c)
              && base + |data| <= out.Length && out[base..base + |data|] == data
              && f.cursor.pos <= f.item.filesize
              && (var cut := Min(Asked(size, nmemb), f.item.filesize - f.cursor.pos);
                  forall j :: 0 <= j < out.Length && !(base <= j < base + cut) ==> out[j] == old(out[j]))
              && (Dependable(disks[f.drive].device, 0, |disks[f.drive].device.image|) ==>
                |data| == Min(Asked(size, nmemb), f.item.filesize - f.cursor.pos))
      ensures TableStep(Holdings(), old(OpenFiles()),
        if GetDescriptor(fd) == null then Idle else On(fd, Runs.Read(Asked(size, nmemb), data, cost)), OpenFiles())
    {
      hide DescOk, DriveOk, FatDependable, AllDependable, Dependable, Bootable, FileBytes, NoOverflow, Runs.Step;
      hide Asked, TableStep, Holdings;
      data, cost := [], 0;
      var desc := GetDescriptor(fd);
      ghost var t := OpenFiles();
      if desc == null {
        IdleStep(t);
        return -1, data, cost;
      }
      SlotFacts(fd);
      DescFacts(desc.private, desc.disk.fsPrivate, volumes[desc.drive]);
      ghost var cut := Min(Asked(size, nmemb), desc.private.item.filesize - desc.private.pos);
      n, data, cost := ReadStep(desc.disk.fsPrivate, desc.private, size, nmemb, out, base, volumes[desc.drive]);
      OneChanged(fd);
      OneShown(fd);
      OnStep(fd, t, OpenFiles(), t[fd - 1].value, Runs.Read(Asked(size, nmemb), data, cost), CursorOf(desc.private));
    }

    lemma IdleStep(t: Table)
      ensures TableStep(Holdings(), t, Idle, t)
    {
    }

    ghost function SeekEvent(f: OpenFile, offset: I32, whence: Whence, r: int): Runs.Event
      requires f.cursor.pos < TWO_32
    {
      Runs.Seek(SeekTarget(f.cursor.pos, f.item.filesize, offset, whence), r == 0)
    }

    lemma SeekIsStep(f: OpenFile, offset: I32, whence: Whence, r: int, c: Runs.Cursor)
      requires DrivesOk() && f.drive < 2 && Bootable(disks[f.drive].device.image)
      requires |ContentOf(f)| == f.item.filesize < 0x8000_0000 && f.cursor.pos <= f.item.filesize
        && c.index == f.cursor.index
      requires r == 0 <==> 0 <= SeekTarget(f.cursor.pos, f.item.filesize, offset, whence) <= f.item.filesize
      requires c.pos ==
        if r == 0 then Wrap32(SeekTarget(f.cursor.pos, f.item.filesize, offset, whence)) else f.cursor.pos
      ensures Runs.Step(ContentOf(f), SizeOf(f), f.cursor, SeekEvent(f, offset, whence, r), c)
    {
      hide Bootable, ContentOf;
    }

    /** `fseek`: for files shorter than 2^31 bytes, one step of the file behind `fd`. */
    method Fseek(fd: int, offset: I32, whence: Whence) returns (r: int)
      requires Valid()
      modifies Footprint(fd)
      ensures Valid() && r in {0, -1}
      ensures GetDescriptor(fd) == null ==> r == -1 && OpenFiles() == old(OpenFiles())
      ensures GetDescriptor(fd) != null ==>
        && old(OpenFiles()[fd - 1]).Some?
        && var f, c := old(OpenFiles()[fd - 1].value), CursorOf(GetDescriptor(fd).private);
           && OpenFiles() == old(OpenFiles())[fd - 1 := Some(f.(cursor := c))]
           && f.cursor.pos <= f.item.filesize && c.index == f.cursor.index
           && (r == 0 <==> SeekAccepts(f.cursor.pos, f.item.filesize, offset, whence))
           && c.pos == (if r == 0 then Wrap32(SeekTarget(f.cursor.pos, f.item.filesize, offset, whence))
             else f.cursor.pos)
           && (f.item.filesize < 0x8000_0000 ==>
                 && (r == 0 <==> 0 <= SeekTarget(f.cursor.pos, f.item.filesize, offset, whence) <= f.item.filesize)
                 && TableStep(Holdings(), old(OpenFiles()), On(fd, SeekEvent(f, offset, whence, r)), OpenFiles()))
      ensures GetDescriptor(fd) == null ==> TableStep(Holdings(), old(OpenFiles()), Idle, OpenFiles())
    {
      hide DriveOk, FatDependable, AllDependable, Bootable, FileOk, TableStep, Holdings, ContentOf;
      var desc := GetDescriptor(fd);
      ghost var t := OpenFiles();
      if desc == null {
        IdleStep(t);
        return -1;
      }
      SlotFacts(fd);
      SlotSize(fd);
      ghost var pos := desc.private.pos;
      var ok := Seek(desc.private, offset, whence);
      r := if ok then 0 else -1;
      OneChanged(fd);
      OneShown(fd);
      if desc.private.item.filesize < 0x8000_0000 {
        SeekFaithfulMeans(pos, desc.private.item.filesize, offset, whence);
        ghost var f, c := t[fd - 1].value, CursorOf(desc.private);
        SeekIsStep(f, offset, whence, r, c);
        OnStep(fd, t, OpenFiles(), f, SeekEvent(f, offset, whence, r), c);
      }
    }

    /** `ftell`. */
    function Ftell(fd: int): int
      requires descriptors.Length == MAX_FILE_DESCRIPTORS
      reads descriptors, if GetDescriptor(fd) == null then {} else {GetDescriptor(fd).private}
    {
      if GetDescriptor(fd) == null then -1 else GetDescriptor(fd).private.pos
    }

    /** `fstat`: the size of the file. */
    function Fstat(fd: int): Option<U32>
      requires descriptors.Length == MAX_FILE_DESCRIPTORS
      reads descriptors
    {
      if GetDescriptor(fd) == null then None else Some(GetDescriptor(fd).private.item.filesize)
    }

    /** `fclose`: gives back the blocks of the descriptor, frees its slot and leaves every other open file
        alone. */
    method Fclose(fd: int, heap: KernelHeap) returns (r: int)
      requires Valid() && heap.Valid() && Backed(Live(heap.state))
      modifies descriptors, heap, heap.ram
      ensures Valid() && heap.Valid() && Backed(Live(heap.state)) && r ==
        if old(GetDescriptor(fd)) == null then -1 else 0
      ensures OpenFiles() == if r == 0 then old(OpenFiles())[fd - 1 := None] else old(OpenFiles())
      ensures descriptors[..] == if r == 0 then old(descriptors[..])[fd - 1 := null] else old(descriptors[..])
      ensures TableStep(Holdings(), old(OpenFiles()), if r == 0 then ClosedAt(fd) else Idle, OpenFiles())
      ensures Live(heap.state) == Live(old(heap.state)) - (if r == 0 then old(GetDescriptor(fd)).Blocks() else {})
      ensures r == 0 ==>
        var desc := old(GetDescriptor(fd));
        heap.state == Release(Release(old(heap.state), desc.private.addr), desc.addr)
      ensures Creeps(old(heap.state), heap.state, 0)
      ensures Spares(old(heap.state), old(heap.ram[..]), heap.state, heap.ram[..],
        Live(old(heap.state)) - (if r == 0 then old(GetDescriptor(fd)).Blocks() else {}))
      ensures forall x :: 0 <= x < heap.ram.Length && ClearOfHeaders(heap.state, x) ==> heap.ram[x] == old(heap.ram[x])
    {
      hide DescOk, DriveOk, KernelHeap.ValidIn, Live, Creeps, Release, Holdings, ClearOfHeaders, AllBacked;
      hide Spares;
      ghost var live, h := Live(heap.state), heap.state;
      var desc := GetDescriptor(fd);
      if desc == null {
        CreepsSame(h);
        SparesSame(h, heap.ram[..], live - {});
        return -1;
      }
      assert SlotOk(desc, fd - 1);
      BackedRemoved(descriptors[..], fd - 1, live);
      GiveBoth(heap, desc.private.addr, desc.addr);
      descriptors[desc.index - 1] := null;
      assert descriptors[..] == old(descriptors[..])[fd - 1 := null];
      return 0;
    }

    /** Each drive has the mount it had, or a new one. */
    twostate predicate Remounts()
      reads disks
    {
      forall k :: 0 <= k < |disks| ==>
        var p := disks[k].fsPrivate;
        p == old(disks[k].fsPrivate) || (p != null && fresh(p) && fresh(p.stream))
    }

    /** `fs_resolve` with the one registered file system: a fresh mount of the drive in two new blocks, or
        the old one and no block. */
    method ResolveDrive(k: nat, heap: KernelHeap) returns (ok: bool, ghost taken: seq<nat>)
      requires Valid() && k < 2 && heap.Valid() && heap.state.brk + MOUNT_GROWTH + PAGE < TWO_32
      modifies disks[k], heap, heap.ram
      ensures Valid() && OpenFiles() == old(OpenFiles())
      ensures ok ==>
        Bootable(disks[k].device.image) && disks[k].fsPrivate != null && fresh(disks[k].fsPrivate)
        && fresh(disks[k].fsPrivate.stream)
      ensures ok ==> disks[k].fsPrivate.stream.device == disks[k].device
      ensures Remounts()
      ensures Bootable(disks[k].device.image) && Dependable(disks[k].device, 0, |disks[k].device.image|) ==> ok
      ensures heap.Valid() && Leaves(old(heap.state), heap.state, taken, MOUNT_GROWTH) && |taken| == if ok then 2 else 0
      ensures ok ==> heap.state == MountedHeap(old(heap.state))
      ensures Spares(old(heap.state), old(heap.ram[..]), heap.state, heap.ram[..], Live(old(heap.state)))
    {
      hide DescOk, WellFormed, Bootable, FatDependable, Dependable, FileOk, Mounted, ParseBpb, KernelHeap.ValidIn;
      hide Leaves, Spares, Live, MountedHeap;
      ghost var disk, v, was := disks[k], volumes[k], disks[k].fsPrivate;
      BootFacts(disk, v);
      var code;
      code, taken := Resolve(disks[k], heap);
      ok := code == 0;
      if ok {
        MountedDrive(disk, v);
        if was != null {
          SameMount(disk, was, v);
        }
        forall i | 0 <= i < descriptors.Length && descriptors[i] != null && descriptors[i].disk == disk
          ensures DescOk(descriptors[i].private, disk.fsPrivate, v)
        {
          Remounted(descriptors[i].private, was, disk.fsPrivate, v);
        }
      }
    }

    /** Puts a new descriptor, in a block of its own, into an empty slot. */
    method FillSlot(i: nat, private: FatFileDescriptor, disk: Disk, drive: nat, heap: KernelHeap)
      requires Valid() && drive < 2 && disk == disks[drive] && disk.fsPrivate != null && i < MAX_FILE_DESCRIPTORS
      requires DescOk(private, disk.fsPrivate, volumes[drive]) && private !in Privates() && descriptors[i] == null
      requires heap.Valid() && heap.state.brk + FILE_SIZE + PAGE < TWO_32
      modifies descriptors, heap, heap.ram
      ensures Valid() && heap.Valid()
      ensures Spares(old(heap.state), old(heap.ram[..]), heap.state, heap.ram[..], Live(old(heap.state)))
      ensures OpenFiles() == old(OpenFiles())[i := Some(OpenFile(drive, private.item, CursorOf(private)))]
      ensures Footprint(i + 1) == {private, disk.fsPrivate, disk.fsPrivate.stream}
      ensures Installed(old(descriptors[..]), descriptors[..], i + 1, private, old(heap.state), heap.state)
    {
      hide DescOk, DriveOk, KernelHeap.ValidIn, Live, Creeps, Leaves, Small, Spares;
      ghost var h, slots := heap.state, descriptors[..];
      var addr := Take(heap, FILE_SIZE);
      LeavesOne(h, heap.state, addr, FILE_SIZE + HEADER);
      var desc := new FileDescriptor(addr, i + 1, private, disk, drive);
      descriptors[i] := desc;
      assert descriptors[..] == slots[i := desc];
    }

    /** `fs_new_descriptor` and what `fopen` stores there: the lowest free slot, or -7. */
    method Install(private: FatFileDescriptor, disk: Disk, drive: nat, heap: KernelHeap) returns (r: int)
      requires Valid() && drive < 2 && disk == disks[drive] && disk.fsPrivate != null
      requires DescOk(private, disk.fsPrivate, volumes[drive]) && private !in Privates()
      requires heap.Valid() && heap.state.brk + FILE_SIZE + PAGE < TWO_32
      modifies descriptors, heap, heap.ram
      ensures Valid() && heap.Valid()
      ensures var slot := FreeSlot(old(OpenFiles()), 0);
              if slot < MAX_FILE_DESCRIPTORS then
                r == slot + 1 && OpenFiles() ==
                  old(OpenFiles())[slot := Some(OpenFile(drive, private.item, CursorOf(private)))]
              else r == -7 && OpenFiles() == old(OpenFiles())
      ensures r != 0 && (r > 0 ==>
        r <= descriptors.Length && Footprint(r) == {private, disk.fsPrivate, disk.fsPrivate.stream})
      ensures Installed(old(descriptors[..]), descriptors[..], r, private, old(heap.state), heap.state)
      ensures Spares(old(heap.state), old(heap.ram[..]), heap.state, heap.ram[..], Live(old(heap.state)))
    {
      hide Valid, DescOk, DriveOk, KernelHeap.ValidIn, Leaves, MountedHeap, Spares, Live;
      InOrder();
      ghost var t := OpenFiles();
      var i := 0;
      while i < MAX_FILE_DESCRIPTORS && descriptors[i] != null
        invariant i <= MAX_FILE_DESCRIPTORS && FreeSlot(t, 0) == FreeSlot(t, i)
      {
        i := i + 1;
      }
      if i == MAX_FILE_DESCRIPTORS {
        SparesSame(heap.state, heap.ram[..], Live(heap.state));
        return -7;
      }
      FillSlot(i, private, disk, drive, heap);
      InOrder();
      return i + 1;
    }

    /** The code `fopen` returns when every sector of the drive reads: the first obstacle in the order
        the code meets them, or the number of the lowest free slot. */
    ghost function OpenCode(t: Table, drive: nat, parts: seq<seq<Byte>>, mode: Mode): int
      requires DevicesOk() && |t| == MAX_FILE_DESCRIPTORS
    {
      if parts == [] then -2
      else if drive > 1 then -3
      else if !Bootable(disks[drive].device.image) then -4
      else if mode == ModeInvalid then -5
      else if mode != ModeRead || Walk(TreeOf(disks[drive].device.image, volumes[drive]), 0, parts).None? then -6
      else if FreeSlot(t, 0) == MAX_FILE_DESCRIPTORS then -7
      else FreeSlot(t, 0) + 1
    }

    /** What an open leaves: the file the path leads to in the lowest free slot, at its start, or nothing changed. */
    ghost predicate Opened(r: int, t: Table, t': Table, drive: nat, parts: seq<seq<Byte>>, mode: Mode)
      requires DevicesOk() && |t| == MAX_FILE_DESCRIPTORS
    {
      if r > 0 then
        && r == OpenCode(t, drive, parts, mode)
        && var item := Walk(TreeOf(disks[drive].device.image, volumes[drive]), 0, parts).value;
           t' == t[r - 1 := Some(OpenFile(drive, item, Runs.Cursor(0, 0)))]
      else t' == t
    }

    /** What `fopen` answers and does, for a text that parses to `parsed`. */
    ghost predicate OpenMeans(r: int, t: Table, t': Table, parsed: Option<Parser.Path>, mode: Mode)
      requires DevicesOk() && |t| == MAX_FILE_DESCRIPTORS
    {
      match parsed
      case None => r == -1 && t' == t
      case Some(path) =>
        && Opened(r, t, t', path.drive, path.parts, mode)
        && ((path.drive < 2 ==> Dependable(disks[path.drive].device, 0, |disks[path.drive].device.image|)) ==>
              r == OpenCode(t, path.drive, path.parts, mode))
    }

    /** Only a mode that starts with an r opens anything. One that starts with neither r nor w nor a is refused
        as such, and w and a are refused like a file that is not there. */
    lemma ModeDecides(r: int, t: Table, t': Table, path: Parser.Path, modeStr: seq<Byte>)
      requires DevicesOk() && |t| == MAX_FILE_DESCRIPTORS && 0 in modeStr
      requires OpenMeans(r, t, t', Some(path), ParseMode(modeStr))
      ensures r > 0 ==> modeStr[0] == 0x72
      ensures path.drive < 2 && Bootable(disks[path.drive].device.image) && path.parts != []
              && Dependable(disks[path.drive].device, 0, |disks[path.drive].device.image|) ==>
              && (r == -5 <==> modeStr[0] !in {0x72, 0x77, 0x61})
              && (modeStr[0] in {0x77, 0x61} ==> r == -6)
              && (modeStr[0] == 0x72 && r != -6 ==> r == -7 || r > 0)
    {
      hide Dependable, Bootable, DriveOk, Walk, TreeOf, FreeSlot;
      FreeSlotRange(t);
    }

    lemma FreeSlotRange(t: Table)
      requires |t| == MAX_FILE_DESCRIPTORS
      ensures 0 <= FreeSlot(t, 0) <= MAX_FILE_DESCRIPTORS
    {
    }

    /** What `fs_list` answers and prints when every sector of the drive reads. */
    ghost predicate ListMeans(code: int, text: seq<Byte>, parsed: Option<Parser.Path>)
      requires DevicesOk()
    {
      match parsed
      case None => code == -1 && text == []
      case Some(path) =>
        if path.drive > 1 then code == -2 && text == []
        else
          var disk := disks[path.drive];
          Dependable(disk.device, 0, |disk.device.image|) ==>
            if !Bootable(disk.device.image) then code == -3 && text == []
            else
              var tree := TreeOf(disk.device.image, volumes[path.drive]);
              match WalkDirectory(tree, 0, path.parts)
              case None => code == -1 && text == []
              case Some(d) =>
                code == 0 && d in tree
                && text == Printed(LiveRecords(DirectoryBytes(disk.device.image, volumes[path.drive], d)))
    }

    /** Split at its newlines, what `fs_list` prints for a directory is one line a live record of the
        directory's bytes, in order, exactly when none of the shown names holds a newline. */
    lemma ListedLines(code: int, text: seq<Byte>, path: Parser.Path, d: nat)
      requires DevicesOk() && ListMeans(code, text, Some(path)) && path.drive <= 1
      requires Bootable(disks[path.drive].device.image)
      requires Dependable(disks[path.drive].device, 0, |disks[path.drive].device.image|)
      requires Charted(disks[path.drive].device.image, volumes[path.drive])
      requires WalkDirectory(TreeOf(disks[path.drive].device.image, volumes[path.drive]), 0, path.parts) == Some(d)
      ensures var records := LiveRecords(DirectoryBytes(disks[path.drive].device.image, volumes[path.drive], d));
              code == 0
              && ((|Lines(text)| == |records|
                   && forall i :: 0 <= i < |records| ==> Lines(text)[i] == ShownLine(records[i]))
                  <==> forall i :: 0 <= i < |records| ==> '\n' as int !in ShownName(records[i]))
    {
      hide Printed, LiveRecords, DirectoryBytes, Lines, ShownLine, ShownName, TreeOf, Charted, DriveOk, WalkDirectory;
      LinesArePrinted(LiveRecords(DirectoryBytes(disks[path.drive].device.image, volumes[path.drive], d)));
    }

    lemma OpenedStep(r: int, t: Table, t': Table, drive: nat, parts: seq<seq<Byte>>, mode: Mode)
      requires DevicesOk() && |t| == MAX_FILE_DESCRIPTORS && Opened(r, t, t', drive, parts, mode)
      ensures TableStep(Holdings(), t, if r > 0 then OpenedAt(r) else Idle, t')
    {
      hide Holdings, DriveOk, Walk, TreeOf, Bootable;
    }

    lemma InOrder()
      requires Valid()
      ensures DrivesOk() && DevicesOk() && descriptors.Length == MAX_FILE_DESCRIPTORS == |OpenFiles()|
    {
    }

    /** The part of `fopen` between parsing and freeing the path. */
    method OpenParsed(first: Parser.PathPart?, drive: nat, mode: Mode, heap: KernelHeap,
            ghost nodes: seq<Parser.PathPart>, ghost live: set<nat>)
      returns (r: int, ghost taken: seq<nat>)
      requires Valid() && Parser.Linked(first, nodes) && Parser.Terminated(nodes)
      requires heap.Valid() && heap.state.brk + OPEN_GROWTH + PAGE < TWO_32 && Backed(live) && live <= Live(heap.state)
      modifies descriptors, disks, heap, heap.ram
      ensures Valid() && Opened(r, old(OpenFiles()), OpenFiles(), drive, Parser.Names(nodes), mode)
      ensures (drive < 2 ==> Dependable(disks[drive].device, 0, |disks[drive].device.image|)) ==>
        r == OpenCode(old(OpenFiles()), drive, Parser.Names(nodes), mode)
      ensures r != 0 && descriptors.Length == MAX_FILE_DESCRIPTORS && (r > 0 ==> fresh(Footprint(r)))
      ensures heap.Valid() && Leaves(old(heap.state), heap.state, taken, OPEN_GROWTH) && |taken| == BlocksLeft(r)
      ensures r > 0 ==>
        && GetDescriptor(r) != null && taken[2..] == [GetDescriptor(r).private.addr, GetDescriptor(r).addr]
        && fresh(GetDescriptor(r).private)
      ensures Backed(live + Elements(taken)) && Remounts() && SlotFilled(old(descriptors[..]), descriptors[..], r)
      ensures r > 0 ==> WithBlocks(heap.state, GetDescriptor(r)) == DescribedHeap(MountedHeap(old(heap.state)))
      ensures Spares(old(heap.state), old(heap.ram[..]), heap.state, heap.ram[..], Live(old(heap.state)))
    {
      hide Valid, Bootable, Dependable, Walk, TreeOf, KernelHeap.ValidIn, Live, Leaves, AllBacked, SlotOk;
      hide DriveOk, MountedHeap, DescribedHeap, WithBlocks, Spares;
      InOrder();
      if first == null || drive > 1 {
        r, taken := if first == null then -2 else -3, [];
        LeavesNone(heap.state, OPEN_GROWTH);
        SparesSame(heap.state, heap.ram[..], Live(heap.state));
        BackedMore(descriptors[..], live, live + Elements(taken));
      } else {
        r, taken := OpenOnDrive(first, drive, mode, heap, nodes, live);
      }
    }

    /** Mounting the drive and opening on it. */
    method OpenOnDrive(first: Parser.PathPart, drive: nat, mode: Mode, heap: KernelHeap,
            ghost nodes: seq<Parser.PathPart>, ghost live: set<nat>)
      returns (r: int, ghost taken: seq<nat>)
      requires Valid() && Parser.Linked(first, nodes) && Parser.Terminated(nodes) && nodes != [] && drive < 2
      requires heap.Valid() && heap.state.brk + OPEN_GROWTH + PAGE < TWO_32 && Backed(live) && live <= Live(heap.state)
      modifies descriptors, disks[drive], heap, heap.ram
      ensures Valid() && Opened(r, old(OpenFiles()), OpenFiles(), drive, Parser.Names(nodes), mode)
      ensures Dependable(disks[drive].device, 0, |disks[drive].device.image|) ==>
        r == OpenCode(old(OpenFiles()), drive, Parser.Names(nodes), mode)
      ensures r != 0 && descriptors.Length == MAX_FILE_DESCRIPTORS && (r > 0 ==> fresh(Footprint(r)))
      ensures heap.Valid() && Leaves(old(heap.state), heap.state, taken, OPEN_GROWTH) && |taken| == BlocksLeft(r)
      ensures r > 0 ==>
        && GetDescriptor(r) != null && taken[2..] == [GetDescriptor(r).private.addr, GetDescriptor(r).addr]
        && fresh(GetDescriptor(r).private)
      ensures Backed(live + Elements(taken)) && Remounts() && SlotFilled(old(descriptors[..]), descriptors[..], r)
      ensures r > 0 ==> WithBlocks(heap.state, GetDescriptor(r)) == DescribedHeap(MountedHeap(old(heap.state)))
      ensures Spares(old(heap.state), old(heap.ram[..]), heap.state, heap.ram[..], Live(old(heap.state)))
    {
      hide Valid, Bootable, Dependable, Walk, TreeOf, KernelHeap.ValidIn, Live, Leaves, AllBacked, SlotOk;
      hide DriveOk, DrivesOk;
      hide Parser.Linked, Parser.Terminated, Parser.Names, Elements, FreeSlot, MountedHeap, DescribedHeap;
      hide WithBlocks, Spares;
      InOrder();
      ghost var t, h, m := OpenFiles(), heap.state, heap.ram[..];
      var ok;
      ok, taken := ResolveDrive(drive, heap);
      ghost var h1, m1 := heap.state, heap.ram[..];
      InOrder();
      LeavesMore(h, h1, taken, MOUNT_GROWTH, OPEN_GROWTH);
      LeavesFacts(h, h1, taken, MOUNT_GROWTH);
      BackedMore(descriptors[..], live, live + Elements(taken));
      if !ok || mode == ModeInvalid {
        r := if !ok then -4 else -5;
      } else {
        ghost var last;
        r, last := OpenOn(first, drive, mode, heap, nodes, live + Elements(taken));
        LeavesTwice(h, h1, heap.state, taken, last, MOUNT_GROWTH, OPEN_GROWTH - MOUNT_GROWTH);
        SparesTwice(h, m, h1, m1, heap.state, heap.ram[..], Live(h), Live(h1));
        ElementsConcat(taken, last);
        assert live + Elements(taken) + Elements(last) == live + Elements(taken + last);
        taken := taken + last;
      }
    }

    /** A new descriptor of the file system on a drive that was just mounted. */
    method OpenPrivate(first: Parser.PathPart?, drive: nat, mode: Mode, heap: KernelHeap,
            ghost nodes: seq<Parser.PathPart>)
      returns (private: FatFileDescriptor?)
      requires Valid() && Parser.Linked(first, nodes) && Parser.Terminated(nodes) && nodes != []
      requires drive < 2 && Bootable(disks[drive].device.image) && disks[drive].fsPrivate != null
      requires heap.Valid() && heap.state.brk + DESCRIPTOR_SIZE + PAGE < TWO_32
      modifies disks[drive].fsPrivate, disks[drive].fsPrivate.stream, heap, heap.ram
      ensures Valid() && OpenFiles() == old(OpenFiles()) && heap.Valid()
      ensures private != null ==>
        && fresh(private) && private !in Privates() && DescOk(private, disks[drive].fsPrivate, volumes[drive])
        && CursorOf(private) == Runs.Cursor(0, 0) && mode == ModeRead
        && Walk(TreeOf(disks[drive].device.image, volumes[drive]), 0, Parser.Names(nodes)) == Some(private.item)
      ensures private == null && Dependable(disks[drive].device, 0, |disks[drive].device.image|) ==>
        mode != ModeRead || Walk(TreeOf(disks[drive].device.image, volumes[drive]), 0, Parser.Names(nodes)) == None
      ensures Leaves(old(heap.state), heap.state,
        if private == null then [] else [private.addr], DESCRIPTOR_SIZE + HEADER)
      ensures private != null ==> (heap.state, private.addr) == Small(old(heap.state), DESCRIPTOR_SIZE)
      ensures Spares(old(heap.state), old(heap.ram[..]), heap.state, heap.ram[..], Live(old(heap.state)))
    {
      hide DescOk, WellFormed, Bootable, FatDependable, Dependable, AllDependable, FileOk, Walk, TreeOf, Charted;
      hide KernelHeap.ValidIn, Live, Took, Creeps, Small, Spares;
      ghost var h := heap.state;
      OpenFacts(disks[drive], volumes[drive]);
      private := FatPaths.Open(disks[drive].fsPrivate, first, mode, heap, nodes, volumes[drive]);
      if private != null {
        LeavesOne(h, heap.state, private.addr, DESCRIPTOR_SIZE + HEADER);
      } else {
        TookNone(Live(h));
      }
    }

    /** Opening on a drive that was just mounted. */
    method OpenOn(first: Parser.PathPart?, drive: nat, mode: Mode, heap: KernelHeap, ghost nodes: seq<Parser.PathPart>,
            ghost live: set<nat>)
      returns (r: int, ghost taken: seq<nat>)
      requires Valid() && Parser.Linked(first, nodes) && Parser.Terminated(nodes) && nodes != []
      requires drive < 2 && Bootable(disks[drive].device.image) && disks[drive].fsPrivate != null && mode != ModeInvalid
      requires heap.Valid() && heap.state.brk + OPEN_GROWTH - MOUNT_GROWTH + PAGE < TWO_32 && Backed(live)
        && live <= Live(heap.state)
      modifies descriptors, disks[drive].fsPrivate, disks[drive].fsPrivate.stream, heap, heap.ram
      ensures Valid() && Opened(r, old(OpenFiles()), OpenFiles(), drive, Parser.Names(nodes), mode)
      ensures Dependable(disks[drive].device, 0, |disks[drive].device.image|) ==>
        r == OpenCode(old(OpenFiles()), drive, Parser.Names(nodes), mode)
      ensures descriptors.Length == MAX_FILE_DESCRIPTORS && (r > 0 || r == -6 || r == -7)
      ensures r > 0 ==>
        GetDescriptor(r) != null && fresh(GetDescriptor(r).private)
        && Footprint(r) == {GetDescriptor(r).private, disks[drive].fsPrivate, disks[drive].fsPrivate.stream}
      ensures heap.Valid() && Leaves(old(heap.state), heap.state, taken, OPEN_GROWTH - MOUNT_GROWTH)
      ensures |taken| == if r > 0 then 2 else if r == -7 then 1 else 0
      ensures r > 0 ==> GetDescriptor(r) != null && taken == [GetDescriptor(r).private.addr, GetDescriptor(r).addr]
      ensures Backed(live + Elements(taken)) && SlotFilled(old(descriptors[..]), descriptors[..], r)
      ensures r > 0 ==> WithBlocks(heap.state, GetDescriptor(r)) == DescribedHeap(old(heap.state))
      ensures Spares(old(heap.state), old(heap.ram[..]), heap.state, heap.ram[..], Live(old(heap.state)))
    {
      hide Valid, DescOk, Bootable, Dependable, Walk, TreeOf, KernelHeap.ValidIn, Live, Leaves, Creeps, AllBacked;
      hide SlotOk, DriveOk, DrivesOk, Small, Spares;
      InOrder();
      ghost var t, h, m, slots := OpenFiles(), heap.state, heap.ram[..], descriptors[..];
      taken := [];
      var private := OpenPrivate(first, drive, mode, heap, nodes);
      ghost var h1, m1 := heap.state, heap.ram[..];
      InOrder();
      if private == null {
        LeavesMore(h, h1, [], DESCRIPTOR_SIZE + HEADER, OPEN_GROWTH - MOUNT_GROWTH);
        BackedMore(slots, live, live + Elements(taken));
        return -6, taken;
      }
      LeavesFacts(h, h1, [private.addr], DESCRIPTOR_SIZE + HEADER);
      r := Install(private, disks[drive], drive, heap);
      SparesTwice(h, m, h1, m1, heap.state, heap.ram[..], Live(h), Live(h1));
      InOrder();
      InstalledBacked(slots, descriptors[..], r, private, h, h1, heap.state, live);
      taken := BothBlocks(descriptors[..], r, private);
    }

    /** `fopen` from the parsed path on: opens it and gives its blocks back. */
    method OpenPath(root: Parser.PathRoot, mode: Mode, heap: KernelHeap, ghost h: Heap, ghost growth: nat)
      returns (r: int, ghost taken: seq<nat>)
      requires Valid() && heap.Valid() && Backed(Live(h)) && Parser.Holds(root, Live(h), Live(heap.state))
        && Creeps(h, heap.state, growth)
      requires heap.state.brk + OPEN_GROWTH + PAGE < TWO_32
      requires (heap.state, root.addr, Parser.Pairs(root.nodes)) == Parser.ParsedHeap(h, |root.nodes|)
      modifies heap, heap.ram, descriptors, disks
      ensures Valid() && heap.Valid() && Backed(Live(heap.state))
      ensures Remounts() && SlotFilled(old(descriptors[..]), descriptors[..], r)
      ensures Leaves(h, heap.state, taken, growth + OPEN_GROWTH) && |taken| == BlocksLeft(r)
      ensures r > 0 ==>
        && GetDescriptor(r) != null && taken[2..] == [GetDescriptor(r).private.addr, GetDescriptor(r).addr]
        && fresh(GetDescriptor(r).private)
      ensures OpenMeans(r, old(OpenFiles()), OpenFiles(), Some(Parser.Path(root.driveNo, Parser.Names(root.nodes))),
        mode)
      ensures r != 0 && descriptors.Length == MAX_FILE_DESCRIPTORS && (r > 0 ==> fresh(Footprint(r)))
      ensures TableStep(Holdings(), old(OpenFiles()), if r > 0 then OpenedAt(r) else Idle, OpenFiles())
      ensures r > 0 ==> WithBlocks(heap.state, GetDescriptor(r)) == OpenHeap(h, |root.nodes|)
      ensures Spares(old(heap.state), old(heap.ram[..]), heap.state, heap.ram[..], Live(h))
    {
      hide Parser.ParsedHeap, Parser.Pairs, Parser.FreedParts, MountedHeap, DescribedHeap, Release;
      hide KernelHeap.ValidIn, Live, Parser.Blocks, Parser.Apart, Parser.Holds;
      hide Valid, DescOk, DriveOk, DrivesOk, Dependable, Opened, OpenCode, Walk, TreeOf, Leaves, Creeps, Holdings;
      hide TableStep, AllBacked, SlotOk, SlotFilled, Spares;
      InOrder();
      ghost var h1, m1, t, parts := heap.state, heap.ram[..], OpenFiles(), Parser.Names(root.nodes);
      HoldsList(root, Live(h), Live(h1));
      r, taken := OpenParsed(root.first, root.driveNo, mode, heap, root.nodes, Live(h));
      ghost var t', h2, m2 := OpenFiles(), heap.state, heap.ram[..];
      Separate(this, heap);
      InOrder();
      OpenedStep(r, t, t', root.driveNo, parts, mode);
      FreePath(root, heap, h, h1, taken, growth, OPEN_GROWTH);
      SparesLess(h1, m1, h2, m2, Live(h1), Live(h));
      SparesTwice(h1, m1, h2, m2, heap.state, heap.ram[..], Live(h), Live(h));
      assert OpenFiles() == t';
    }

    /** `fopen`: what the path and the mode ask for. The path's blocks are given back; the blocks that
        stay live are the stream and the mount of the drive, then those of the descriptor and of the slot,
        as far as the call got. */
    method Fopen(filename: seq<Byte>, modeStr: seq<Byte>, heap: KernelHeap) returns (r: int, ghost taken: seq<nat>)
      requires Valid() && 0 in filename && 0 in modeStr && heap.Valid() && Backed(Live(heap.state))
      requires Parser.HasDrive(CStr(filename)) ==> Parser.ShortParts(CStr(filename)[3..])
      requires heap.state.brk + OpenRoom(|CStr(filename)|) < TWO_32
      modifies heap, heap.ram, descriptors, disks
      ensures Valid() && heap.Valid() && Backed(Live(heap.state))
      ensures Remounts() && SlotFilled(old(descriptors[..]), descriptors[..], r)
      ensures Leaves(old(heap.state), heap.state, taken, OpenGrowth(CStr(filename))) && |taken| == BlocksLeft(r)
      ensures r > 0 ==>
        && GetDescriptor(r) != null && taken[2..] == [GetDescriptor(r).private.addr, GetDescriptor(r).addr]
        && fresh(GetDescriptor(r).private)
      ensures OpenMeans(r, old(OpenFiles()), OpenFiles(), Parser.ParsePath(CStr(filename)), ParseMode(modeStr))
      ensures r != 0 && descriptors.Length == MAX_FILE_DESCRIPTORS && (r > 0 ==> fresh(Footprint(r)))
      ensures TableStep(Holdings(), old(OpenFiles()), if r > 0 then OpenedAt(r) else Idle, OpenFiles())
      ensures r > 0 ==>
        WithBlocks(heap.state, GetDescriptor(r)) == OpenHeap(old(heap.state), Parser.PartCount(CStr(filename)))
      ensures Spares(old(heap.state), old(heap.ram[..]), heap.state, heap.ram[..], Live(old(heap.state)))
    {
      hide Parser.ParsedHeap, Parser.Pairs, OpenHeap, WithBlocks;
      hide KernelHeap.ValidIn, CStr, Live, Parser.PartsOf, Parser.HasDrive, Parser.ShortParts, Parser.Holds;
      hide Parser.Growth;
      hide Valid, DriveOk, DrivesOk, Dependable, Opened, Leaves, Creeps, Holdings, TableStep, AllBacked, SlotOk;
      hide Spares;
      Separate(this, heap);
      InOrder();
      ghost var h, m, growth := heap.state, heap.ram[..], Parser.Growth(CStr(filename));
      var root := Parser.Parse(filename, heap);
      if root == null {
        taken := [];
        LeavesNone(h, growth + OPEN_GROWTH);
        IdleStep(OpenFiles());
        return -1, taken;
      }
      BreakMoved(h, heap.state, growth);
      ghost var h1, m1 := heap.state, heap.ram[..];
      r, taken := OpenPath(root, ParseMode(modeStr), heap, h, growth);
      SparesTwice(h, m, h1, m1, heap.state, heap.ram[..], Live(h), Live(h));
    }

    /** `fs_list`: prints what the directory at the path holds. A mount made for it leaves its two blocks
        live. */
    method FsList(path: seq<Byte>, heap: KernelHeap) returns (code: int, text: seq<Byte>, ghost taken: seq<nat>)
      requires Valid() && 0 in path && heap.Valid()
      requires Parser.HasDrive(CStr(path)) ==> Parser.ShortParts(CStr(path)[3..])
      requires heap.state.brk + OpenRoom(|CStr(path)|) < TWO_32
      modifies heap, heap.ram, disks
      ensures Valid() && heap.Valid() && OpenFiles() == old(OpenFiles()) && Remounts()
      ensures Leaves(old(heap.state), heap.state, taken, Parser.Growth(CStr(path)) + MOUNT_GROWTH)
      ensures match Parser.ParsePath(CStr(path))
              case None => taken == []
              case Some(parsed) =>
                && (taken == [] || (parsed.drive < 2 && Bootable(disks[parsed.drive].device.image) && |taken| == 2))
                && (taken == [] && parsed.drive < 2 && Bootable(disks[parsed.drive].device.image) ==>
                      code == -3 && !Dependable(disks[parsed.drive].device, 0, |disks[parsed.drive].device.image|))
      ensures TableStep(Holdings(), old(OpenFiles()), Idle, OpenFiles())
      ensures ListMeans(code, text, Parser.ParsePath(CStr(path)))
      ensures Spares(old(heap.state), old(heap.ram[..]), heap.state, heap.ram[..], Live(old(heap.state)))
    {
      hide Parser.ParsedHeap, Parser.Pairs, Parser.FreedParts, MountedHeap;
      hide KernelHeap.ValidIn, CStr, Live, Parser.PartsOf, Parser.HasDrive, Parser.ShortParts, Parser.Blocks;
      hide Parser.Apart, Parser.Holds, Parser.Growth;
      hide DescOk, DriveOk, Dependable, WalkDirectory, TreeOf, Printed, LiveRecords, DirectoryBytes, Charted, Bootable;
      hide Leaves, Creeps;
      hide TableStep, Holdings, Spares;
      text, taken := [], [];
      ghost var live, h, m, growth := Live(heap.state), heap.state, heap.ram[..], Parser.Growth(CStr(path));
      IdleStep(OpenFiles());
      var root := Parser.Parse(path, heap);
      if root == null {
        LeavesNone(h, growth + MOUNT_GROWTH);
        return -1, text, taken;
      }
      ghost var h1, m1 := heap.state, heap.ram[..];
      BreakMoved(h, h1, growth);
      HoldsList(root, live, Live(heap.state));
      if root.driveNo > 1 {
        code := -2;
        LeavesNone(h1, MOUNT_GROWTH);
        SparesSame(h1, m1, Live(h1));
      } else {
        code, text, taken := ListOn(root.first, root.driveNo, heap, root.nodes);
      }
      ghost var h2, m2 := heap.state, heap.ram[..];
      FreePath(root, heap, h, h1, taken, growth, MOUNT_GROWTH);
      SparesTwice(h, m, h1, m1, h2, m2, live, Live(h1));
      SparesTwice(h, m, h2, m2, heap.state, heap.ram[..], live, live);
    }

    method ListOn(first: Parser.PathPart?, drive: nat, heap: KernelHeap, ghost nodes: seq<Parser.PathPart>)
      returns (code: int, text: seq<Byte>, ghost taken: seq<nat>)
      requires Valid() && Parser.Linked(first, nodes) && Parser.Terminated(nodes) && drive < 2
      requires heap.Valid() && heap.state.brk + MOUNT_GROWTH + PAGE < TWO_32
      modifies disks[drive], heap, heap.ram
      ensures Valid() && OpenFiles() == old(OpenFiles()) && Remounts()
      ensures heap.Valid() && Leaves(old(heap.state), heap.state, taken, MOUNT_GROWTH)
      ensures taken == [] || (Bootable(disks[drive].device.image) && |taken| == 2)
      ensures taken == [] && Bootable(disks[drive].device.image) ==>
        code == -3 && !Dependable(disks[drive].device, 0, |disks[drive].device.image|)
      ensures Bootable(disks[drive].device.image) ==> Charted(disks[drive].device.image, volumes[drive])
      ensures Dependable(disks[drive].device, 0, |disks[drive].device.image|) ==>
        if !Bootable(disks[drive].device.image) then code == -3 && text == []
        else
          var tree := TreeOf(disks[drive].device.image, volumes[drive]);
          match WalkDirectory(tree, 0, Parser.Names(nodes))
          case None => code == -1 && text == []
          case Some(d) =>
            code == 0 && d in tree
            && text == Printed(LiveRecords(DirectoryBytes(disks[drive].device.image, volumes[drive], d)))
      ensures Spares(old(heap.state), old(heap.ram[..]), heap.state, heap.ram[..], Live(old(heap.state)))
    {
      hide Spares, Live;
      hide Parser.ParsedHeap, Parser.Pairs, Parser.FreedParts, MountedHeap;
      hide DescOk, WellFormed, Bootable, FatDependable, Dependable, AllDependable, FileOk, WalkDirectory, TreeOf;
      hide Charted, Printed, LiveRecords, DirectoryBytes;
      hide KernelHeap.ValidIn, Leaves, Files.SlotOk;
      ghost var v := volumes[drive];
      BootFacts(disks[drive], v);
      var ok;
      ok, taken := ResolveDrive(drive, heap);
      if !ok {
        return -3, [], taken;
      }
      OpenFacts(disks[drive], v);
      code, text := FatPaths.List(disks[drive].fsPrivate, first, nodes, v);
    }
  }

  /** Every slot is as it was, or was empty and is filled with a descriptor in new blocks. */
  ghost predicate SlotsStay(slots: seq<FileDescriptor?>, now: seq<FileDescriptor?>, live: set<nat>)
  {
    |now| == |slots| && forall i :: 0 <= i < |now| && now[i] != slots[i] ==>
      slots[i] == null && now[i] != null && now[i].Blocks() !! live
  }

  lemma FilledStays(slots: seq<FileDescriptor?>, now: seq<FileDescriptor?>, r: int, live: set<nat>)
    requires SlotFilled(slots, now, r) && (r > 0 ==> now[r - 1] != null && now[r - 1].Blocks() !! live)
    ensures SlotsStay(slots, now, live)
  {
    hide FileDescriptor.Blocks;
  }

  /** Blocks that were no descriptor's are none now. */
  lemma KeptSpares(slots: seq<FileDescriptor?>, now: seq<FileDescriptor?>, before: set<nat>, live: set<nat>,
          rest: set<nat>)
    requires AllBacked(slots, before - rest) && AllBacked(now, live) && SlotsStay(slots, now, before)
    requires rest <= before <= live
    ensures AllBacked(now, live - rest) && rest <= live
  {
    hide FileDescriptor.Blocks;
    forall i | 0 <= i < |now| && now[i] != null
      ensures now[i].Blocks() <= live - rest
    {
      if now[i] == slots[i] {
        assert slots[i].Blocks() <= before - rest;
      }
    }
  }

  /** A slot that was filled and emptied again. */
  lemma SlotEmptied(slots: seq<FileDescriptor?>, now: seq<FileDescriptor?>, r: int)
    requires SlotFilled(slots, now, r) && r > 0
    ensures now[r - 1 := null] == slots
  {
  }

  /** The blocks of a new descriptor were not live before. */
  lemma OpenedBlocks(desc: FileDescriptor, taken: seq<nat>, live: set<nat>)
    requires |taken| == 4 && taken[2..] == [desc.private.addr, desc.addr] && forall p :: p in taken ==> p !in live
    ensures desc.Blocks() !! live
  {
    assert taken[2] == taken[2..][0] && taken[3] == taken[2..][1];
  }

  /** The kernel heap and its memory are no part of the descriptor table. */
  lemma Separate(files: Files, heap: KernelHeap)
    requires files.Valid()
    ensures var all: set<object> := files.Privates(); heap !in all && heap.ram !in all
    ensures var all: seq<object> := files.disks; heap !in all && heap.ram !in all
    ensures var table: object := files.descriptors; heap != table && heap.ram != table
  {
  }

  lemma SeekFaithfulMeans(pos: U32, filesize: U32, offset: I32, whence: Whence)
    requires pos <= filesize < 0x8000_0000
    ensures SeekAccepts(pos, filesize, offset, whence) <==> 0 <= SeekTarget(pos, filesize, offset, whence) <= filesize
  {
    SeekExact(filesize);
    assert SeekFaithful(pos, filesize, offset, whence);
  }
}
