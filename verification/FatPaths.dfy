/** Mounting, opening and listing by path (src/fs/fat16.c:152-205 and 324-390). */
module FatPaths {
  import opened Bytes
  import opened Blocks
  import opened Multiples
  import opened CStrings
  import opened DiskStreams
  import opened FatLayout
  import opened FatNames
  import opened FatDirectory
  import opened Listings
  import opened Fat16
  import opened HeapModel
  import opened KernelHeaps
  import Parser = PathParser

  // ----- Mounting -----

  class Disk {
    const id: nat
    const device: Device
    var fsPrivate: FatPrivate?

    constructor (id: nat, device: Device)
      ensures this.id == id && this.device == device && fsPrivate == null
    {
      this.id, this.device := id, device;
      fsPrivate := null;
    }
  }

  /** The drive starts with a boot sector that the reader accepts. */
  predicate Bootable(img: seq<Byte>)
  {
    |img| >= 512 && BootOk(ParseBpb(img[..512]))
  }

  const STREAM_SIZE := 8
  const MOUNT_SIZE := 516

  /** How far the break moves at most for a stream and a mount. */
  const MOUNT_GROWTH := STREAM_SIZE + HEADER + MOUNT_SIZE + HEADER

  /** The heap after a stream and a mount were made. */
  ghost function MountedHeap(h: Heap): Heap
  {
    Small(Small(h, STREAM_SIZE).0, MOUNT_SIZE).0
  }

  /** Reads the boot sector and checks it: 0, or the code of the first thing wrong with it. */
  method CheckBoot(stream: DiskStream) returns (code: int, bpb: Bpb)
    requires stream.pos == 0
    modifies stream
    ensures code in {0, -2, -3, -4, -5}
    ensures code == 0 ==> Bootable(stream.device.image) && bpb == ParseBpb(stream.device.image[..512])
    ensures Bootable(stream.device.image) && Dependable(stream.device, 0, 512) ==> code == 0
  {
    var boot := new Byte[512];
    var ok := stream.Read(boot, 0, 512);
    bpb := ParseBpb(boot[..]);
    if !ok {
      return -2, bpb;
    }
    assert boot[..] == stream.device.image[..512];
    if bpb.bootSignature != 0xAA55 {
      return -3, bpb;
    }
    if bpb.signature != 0x29 && bpb.signature != 0x28 {
      return -4, bpb;
    }
    if bpb.bytesPerSector != 512 || bpb.sectorsPerCluster == 0 {
      return -5, bpb;
    }
    return 0, bpb;
  }

  /** `fat16_resolve`: a new stream and a new mount, whose two blocks stay live; or an error code, the old
      mount and no block. */
  method Resolve(disk: Disk, heap: KernelHeap) returns (code: int, ghost taken: seq<nat>)
    requires heap.Valid() && heap.state.brk + MOUNT_GROWTH + PAGE < TWO_32
    modifies disk, heap, heap.ram
    ensures code == 0 ==>
      Bootable(disk.device.image) && disk.fsPrivate != null && fresh(disk.fsPrivate) && fresh(disk.fsPrivate.stream)
    ensures code == 0 ==>
      disk.fsPrivate.stream.device == disk.device && disk.fsPrivate.bpb == ParseBpb(disk.device.image[..512])
    ensures code != 0 ==> disk.fsPrivate == old(disk.fsPrivate)
    ensures Bootable(disk.device.image) && Dependable(disk.device, 0, 512) ==> code == 0
    ensures heap.Valid() && Leaves(old(heap.state), heap.state, taken, MOUNT_GROWTH) && |taken| ==
      if code == 0 then 2 else 0
    ensures code == 0 ==> heap.state == MountedHeap(old(heap.state))
    ensures Spares(old(heap.state), old(heap.ram[..]), heap.state, heap.ram[..], Live(old(heap.state)))
  {
    hide KernelHeap.ValidIn, Live, Creeps, Small, Release, Bootable, ParseBpb, Dependable, Spares;
    ghost var h, live, m := heap.state, Live(heap.state), heap.ram[..];
    TookNone(live);
    var streamAddr := Take(heap, STREAM_SIZE);
    ghost var h1, m1 := heap.state, heap.ram[..];
    BreakMoved(h, h1, STREAM_SIZE + HEADER);
    var stream := new DiskStream(disk.device);
    var bpb;
    code, bpb := CheckBoot(stream);
    if code != 0 {
      Give(heap, streamAddr);
      SparesTwice(h, m, h1, m1, heap.state, heap.ram[..], live, Live(h1) - {streamAddr});
      assert live + {streamAddr} - {streamAddr} == live;
      taken := [];
      CreepsTwice(h, h1, heap.state, STREAM_SIZE + HEADER, 0);
      CreepsMore(h, heap.state, STREAM_SIZE + HEADER, MOUNT_GROWTH);
      return;
    }
    TookMore(live, live, [], streamAddr);
    var mountAddr := Take(heap, MOUNT_SIZE);
    SparesTwice(h, m, h1, m1, heap.state, heap.ram[..], live, Live(h1));
    CreepsTwice(h, h1, heap.state, STREAM_SIZE + HEADER, MOUNT_SIZE + HEADER);
    TookMore(live, live + {streamAddr}, [streamAddr], mountAddr);
    taken := [streamAddr, mountAddr];
    var p := new FatPrivate(bpb, stream);
    disk.fsPrivate := p;
    return 0, taken;
  }

  // ----- Opening -----

  datatype Mode = ModeRead | ModeWrite | ModeAppend | ModeInvalid

  /** An item in good order makes a descriptor in good order. */
  lemma NewDescriptorOk(p: FatPrivate, v: Volume, item: DirItem)
    requires Mounted(p, v) && ItemOk(v, item) && !item.IsDirectory()
    ensures FileOk(p, v, item)
    ensures item.filesize > 0 ==> ChainOf(v, item) != [] && ChainOf(v, item)[0] == item.cluster
  {
    if item.filesize > 0 {
      ChainInside(p.Image(), v, item.cluster);
    }
  }

  /** One step of the walk, in terms of the items the lookup reads. */
  lemma LookupMeans(p: FatPrivate, v: Volume, d: nat, name: seq<Byte>, parts: seq<seq<Byte>>)
    requires Mounted(p, v) && WellFormed(p.Image(), v) && d in v.dirs && parts != [] && parts[0] == name
    ensures var tree, r := TreeOf(p.Image(), v), Find(ItemsOf(p.Image(), v, d), name);
            && (r.Some? ==> ItemOk(v, r.value) && (r.value.IsDirectory() ==> r.value.cluster in v.dirs))
            && Walk(tree, d, parts) == (
              if r.None? then None
              else if |parts| == 1 then (if r.value.IsDirectory() then None else r)
              else if r.value.IsDirectory() then Walk(tree, r.value.cluster, parts[1..]) else None)
            && WalkDirectory(tree, d, parts) == (
              if r.Some? && r.value.IsDirectory() then WalkDirectory(tree, r.value.cluster, parts[1..]) else None)
  {
    FoundItemOk(p.Image(), v, d, name);
    hide ItemsOf, Find, DirectoryOk, NoCrossLinks, Charted;
    assert TreeOf(p.Image(), v)[d] == ItemsOf(p.Image(), v, d);
  }

  lemma RootIsDirectory(img: seq<Byte>, v: Volume)
    requires WellFormed(img, v)
    ensures Charted(img, v) && 0 in v.dirs
  {
  }

  const DESCRIPTOR_SIZE := 44

  /** `fat16_open`: a new descriptor, in a block of its own, on exactly the item that the walk along the
      path reaches; or null and no block. */
  method Open(p: FatPrivate, path: Parser.PathPart?, mode: Mode, heap: KernelHeap, ghost nodes: seq<Parser.PathPart>,
          ghost v: Volume)
    returns (desc: FatFileDescriptor?)
    requires Mounted(p, v) && WellFormed(p.Image(), v)
    requires nodes != [] && Parser.Linked(path, nodes) && Parser.Terminated(nodes)
    requires heap.Valid() && heap.state.brk + DESCRIPTOR_SIZE + PAGE < TWO_32
    modifies p, p.stream, heap, heap.ram
    ensures desc != null ==>
      mode == ModeRead && fresh(desc) && DescOk(desc, p, v) && desc.pos == 0 && desc.index == 0
      && desc.lastClusterPos == 0
    ensures desc != null ==> Walk(TreeOf(p.Image(), v), 0, Parser.Names(nodes)) == Some(desc.item)
    ensures mode == ModeRead && AllDependable(p) && desc == null ==>
      Walk(TreeOf(p.Image(), v), 0, Parser.Names(nodes)) == None
    ensures heap.Valid() && Creeps(old(heap.state), heap.state, DESCRIPTOR_SIZE + HEADER)
    ensures desc == null ==> Live(heap.state) == Live(old(heap.state))
    ensures desc != null ==>
      desc.addr !in Live(old(heap.state)) && Live(heap.state) == Live(old(heap.state)) + {desc.addr}
    ensures desc != null ==> (heap.state, desc.addr) == Small(old(heap.state), DESCRIPTOR_SIZE)
    ensures Spares(old(heap.state), old(heap.ram[..]), heap.state, heap.ram[..], Live(old(heap.state)))
  {
    hide KernelHeap.ValidIn, Live, Creeps, Small, WellFormed, Walk, TreeOf, AllDependable, Charted, Mounted, Spares;
    SparesSame(heap.state, heap.ram[..], Live(heap.state));
    CreepsSame(heap.state);
    CreepsMore(heap.state, heap.state, 0, DESCRIPTOR_SIZE + HEADER);
    if mode != ModeRead {
      return null;
    }
    var found, item := WalkPath(p, path, nodes, v);
    if !found || item.IsDirectory() {
      return null;
    }
    var addr := Take(heap, DESCRIPTOR_SIZE);
    desc := NewDescriptor(p, addr, item, v);
  }

  method NewDescriptor(ghost p: FatPrivate, addr: nat, item: DirItem, ghost v: Volume) returns (desc: FatFileDescriptor)
    requires Mounted(p, v) && ItemOk(v, item) && !item.IsDirectory()
    ensures fresh(desc) && desc.addr == addr && desc.item == item && DescOk(desc, p, v)
    ensures desc.pos == 0 && desc.index == 0 && desc.lastClusterPos == 0
  {
    NewDescriptorOk(p, v, item);
    desc := new FatFileDescriptor(addr, item);
  }

  /** The loop of `fat16_open`. `found` says that every lookup succeeded; the item may be a directory. */
  method WalkPath(p: FatPrivate, path: Parser.PathPart?, ghost nodes: seq<Parser.PathPart>, ghost v: Volume)
    returns (found: bool, item: DirItem)
    requires Mounted(p, v) && WellFormed(p.Image(), v)
    requires nodes != [] && Parser.Linked(path, nodes) && Parser.Terminated(nodes)
    modifies p, p.stream
    ensures found ==> ItemOk(v, item)
    ensures found ==>
      Walk(TreeOf(p.Image(), v), 0, Parser.Names(nodes)) == if item.IsDirectory() then None else Some(item)
    ensures !found && AllDependable(p) ==> Walk(TreeOf(p.Image(), v), 0, Parser.Names(nodes)) == None
  {
    hide WellFormed, Mounted, AllDependable, Walk, WalkDirectory, ItemOk, TreeOf, Charted, Find, ItemsOf;
    RootIsDirectory(p.Image(), v);
    ghost var tree, names := TreeOf(p.Image(), v), Parser.Names(nodes);
    item := DirItem(seq(11, i => 0), 0, 0, 0);
    var part, cluster: U32 := path, 0;
    ghost var i := 0;
    assert names[0..] == names;
    while part != null
      invariant i <= |nodes| && part == if i < |nodes| then nodes[i] else null
      invariant i < |nodes| ==> cluster in v.dirs && Walk(tree, 0, names) == Walk(tree, cluster, names[i..])
      invariant i == |nodes| ==>
        ItemOk(v, item) && Walk(tree, 0, names) == if item.IsDirectory() then None else Some(item)
      decreases |nodes| - i
    {
      assert names[i] == CStr(part.name) && 0 in part.name && part.next ==
        if i + 1 < |nodes| then nodes[i + 1] else null;
      LookupMeans(p, v, cluster, names[i], names[i..]);
      ghost var rest := names[i..];
      assert rest[1..] == names[i + 1..] && |rest| == |nodes| - i;
      var code;
      code, item := GetDirectoryEntry(p, cluster, part.name, v);
      if code != 0 {
        return false, item;
      }
      if part.next != null {
        if !item.IsDirectory() {
          return false, item;
        }
        cluster := item.cluster;
      }
      part := part.next;
      i := i + 1;
    }
    return true, item;
  }

  // ----- Listing -----

  const NEWLINE: Byte := 0x0A

  /** The text printed for one item. */
  function Line(item: DirItem): seq<Byte>
  {
    DecodeName(item.raw) + (if item.IsDirectory() then [Parser.SLASH] else []) + [NEWLINE]
  }

  function Text(items: seq<DirItem>): seq<Byte>
  {
    if items == [] then [] else Line(items[0]) + Text(items[1..])
  }

  lemma {:induction false} TextConcat(a: seq<DirItem>, b: seq<DirItem>)
    ensures Text(a + b) == Text(a) + Text(b)
  {
    if a == [] {
      assert a + b == b;
    } else {
      assert (a + b)[1..] == a[1..] + b;
      TextConcat(a[1..], b);
    }
  }

  lemma LineIsShown(r: Record)
    ensures Line(ParseItem(r)) == ShownLine(r) + ['\n' as int]
  {
    RecordMeans(r);
    hide DecodeName, ShownName, ParseItem;
  }

  /** The text for live items is the text for the records they come from. */
  lemma {:induction false} TextIsPrinted(items: seq<DirItem>, records: seq<Record>)
    requires SameItems(items, records)
    ensures Text(items) == Printed(records)
  {
    hide Line, ShownLine, ParseItem;
    if items != [] {
      LineIsShown(records[0]);
      TextIsPrinted(items[1..], records[1..]);
    }
  }

  method PrintItem(item: DirItem) returns (text: seq<Byte>)
    ensures text == Line(item)
  {
    var outName := new Byte[13];
    GetFullRelativeFilename(item, outName);
    CStrOfPadded(DecodeName(item.raw), 13 - |DecodeName(item.raw)|);
    text := CStr(outName[..]);
    if item.IsDirectory() {
      text := text + [Parser.SLASH];
    }
    text := text + [NEWLINE];
  }

  /** Prints the live items among `n` items from `at` on, up to the first end mark or failed read. */
  method ListItems(p: FatPrivate, at: U32, n: nat) returns (text: seq<Byte>)
    requires at + ITEM_SIZE * n <= |p.Image()| <= TWO_32
    modifies p.stream
    ensures AllDependable(p) ==> text == Text(LiveItems(ItemsAt(p.Image(), at, n)))
    ensures AllDependable(p) ==> text == Printed(LiveRecords(p.Image()[at..at + ITEM_SIZE * n]))
  {
    hide AllDependable, LiveItems, Text, Line, ParseItem, ItemsAt, DecodeName, Printed, LiveRecords;
    PrintedItems(p.Image(), at, n);
    p.stream.Seek(at);
    text := [];
    ghost var items := ItemsAt(p.Image(), at, n);
    assert items[0..] == items;
    for i := 0 to n
      invariant i < n ==> p.stream.pos == at + ITEM_SIZE * i
      invariant text + Text(LiveItems(items[i..])) == Text(LiveItems(items))
    {
      ListStep(items, i);
      var item := ReadItem(p);
      if item.None? || item.value.EndMark() {
        return;
      }
      if !item.value.Deleted() {
        var line := PrintItem(item.value);
        text := text + line;
      }
    }
    ListEnd(items[n..]);
  }

  lemma PrintedItems(img: seq<Byte>, at: nat, n: nat)
    requires at + ITEM_SIZE * n <= |img|
    ensures Text(LiveItems(ItemsAt(img, at, n))) == Printed(LiveRecords(img[at..at + ITEM_SIZE * n]))
  {
    var items, bytes := ItemsAt(img, at, n), img[at..at + ITEM_SIZE * n];
    hide Text, LiveItems, LiveRecords, Printed, ItemsAt, Parses, SameItems;
    ParsesAt(img, at, n);
    LiveMeans(items, bytes);
    TextIsPrinted(LiveItems(items), LiveRecords(bytes));
  }

  lemma ListStep(items: seq<DirItem>, i: nat)
    requires i < |items|
    ensures Text(LiveItems(items[i..])) ==
      if items[i].EndMark() then []
      else (if items[i].Live() then Line(items[i]) else []) + Text(LiveItems(items[i + 1..]))
  {
    assert items[i..][0] == items[i] && items[i..][1..] == items[i + 1..];
    if items[i].Live() {
      LineFirst(items[i], LiveItems(items[i + 1..]));
    } else if !items[i].EndMark() {
      assert LiveItems(items[i..]) == LiveItems(items[i + 1..]);
    }
  }

  lemma ListEnd(items: seq<DirItem>)
    requires items == []
    ensures Text(LiveItems(items)) == []
  {
  }

  lemma LineFirst(item: DirItem, rest: seq<DirItem>)
    ensures Text([item] + rest) == Line(item) + Text(rest)
  {
    assert ([item] + rest)[1..] == rest;
  }

  /** Prints a subdirectory, cluster by cluster. */
  method ListChain(p: FatPrivate, cluster: U32, ghost v: Volume) returns (text: seq<Byte>)
    requires Mounted(p, v) && cluster in v.dirs && cluster != 0
    modifies p, p.stream
    ensures cluster in v.chains && ChainFits(|p.Image()|, v.bpb, v.chains[cluster])
    ensures AllDependable(p) ==> text == Text(ListedItems(ChainItems(p.Image(), v.bpb, v.chains[cluster])))
  {
    hide AllDependable, FatDependable, ListedItems, Text, LiveItems, Mounted, IsChain, ChainFits, Fat;
    hide ClusterItems, ItemsAt, ItemsPerCluster, BytesPerCluster;
    InChains(p, v, cluster);
    ghost var chain := v.chains[cluster];
    ghost var blocks := ChainItems(p.Image(), v.bpb, chain);
    AllMeansFat(p, v);
    var current := cluster;
    ghost var j := 0;
    text := [];
    assert blocks[0..] == blocks;
    while current < RESERVED_MIN
      invariant j <= |chain|
        && (if j == |chain| then current >= LAST_MIN
            else current == chain[j] || (current == LAST && !FatDependable(p, v)))
      invariant AllDependable(p) ==> text + Text(ListedItems(blocks[j..])) == Text(ListedItems(blocks))
      decreases |chain| - j
    {
      DirectoryBlocks(p, v, chain, j);
      ListedStep(blocks, j);
      var at := ReaderPosition(p.bpb, current, 0);
      var lines := ListItems(p, at, BytesPerCluster(p.bpb) / ITEM_SIZE);
      text := text + lines;
      ChainLink(Fat(p, v), chain, j);
      current := GetFatEntry(p, current, v);
      j := j + 1;
    }
    ListedEnd(blocks[|chain|..]);
  }

  lemma InChains(p: FatPrivate, v: Volume, d: nat)
    requires Mounted(p, v) && d in v.dirs && d != 0
    ensures d in v.chains && ChainFits(|p.Image()|, v.bpb, v.chains[d]) && IsChain(Fat(p, v), v.chains[d])
    ensures |v.chains[d]| > 0 && v.chains[d][0] == d && forall j :: 0 <= j < |v.chains[d]| ==>
      v.chains[d][j] < RESERVED_MIN
    ensures p.bpb == v.bpb && v.bpb.bytesPerSector == 512
  {
    ChainInside(p.Image(), v, d);
  }

  lemma ListedStep(blocks: seq<seq<DirItem>>, j: nat)
    requires j < |blocks|
    ensures Text(ListedItems(blocks[j..])) == Text(LiveItems(blocks[j])) + Text(ListedItems(blocks[j + 1..]))
  {
    assert blocks[j..][1..] == blocks[j + 1..];
    TextConcat(LiveItems(blocks[j]), ListedItems(blocks[j + 1..]));
  }

  lemma ListedEnd(blocks: seq<seq<DirItem>>)
    requires blocks == []
    ensures Text(ListedItems(blocks)) == []
  {
  }

  /** The path loop of `fat16_list`: every part must name a directory. */
  method WalkDirectories(p: FatPrivate, path: Parser.PathPart?, ghost nodes: seq<Parser.PathPart>, ghost v: Volume)
    returns (found: bool, cluster: U32)
    requires Mounted(p, v) && WellFormed(p.Image(), v) && Parser.Linked(path, nodes) && Parser.Terminated(nodes)
    modifies p, p.stream
    ensures found ==> cluster in v.dirs && WalkDirectory(TreeOf(p.Image(), v), 0, Parser.Names(nodes)) == Some(cluster)
    ensures !found && AllDependable(p) ==> WalkDirectory(TreeOf(p.Image(), v), 0, Parser.Names(nodes)) == None
  {
    hide WellFormed, Mounted, AllDependable, Walk, WalkDirectory, ItemOk, TreeOf, Charted, Find, ItemsOf;
    RootIsDirectory(p.Image(), v);
    ghost var tree, names := TreeOf(p.Image(), v), Parser.Names(nodes);
    var part := path;
    cluster := 0;
    ghost var i := 0;
    assert names[0..] == names;
    while part != null
      invariant i <= |nodes| && part == if i < |nodes| then nodes[i] else null
      invariant cluster in v.dirs && WalkDirectory(tree, 0, names) == WalkDirectory(tree, cluster, names[i..])
      decreases |nodes| - i
    {
      assert names[i] == CStr(part.name) && 0 in part.name && part.next ==
        if i + 1 < |nodes| then nodes[i + 1] else null;
      LookupMeans(p, v, cluster, names[i], names[i..]);
      ghost var rest := names[i..];
      assert rest[1..] == names[i + 1..] && |rest| == |nodes| - i;
      var code, item := GetDirectoryEntry(p, cluster, part.name, v);
      if code != 0 || !item.IsDirectory() {
        return false, cluster;
      }
      cluster := item.cluster;
      part := part.next;
      i := i + 1;
    }
    WalkedAll(tree, cluster, names[i..]);
    return true, cluster;
  }

  lemma WalkedAll(tree: Tree, d: nat, rest: seq<seq<Byte>>)
    requires rest == []
    ensures WalkDirectory(tree, d, rest) == Some(d)
  {
  }

  /** What a listing of directory `d` prints is its live items, as the lookup sees them. */
  lemma ListingIsTree(img: seq<Byte>, v: Volume, d: nat)
    requires WellFormed(img, v) && d in v.dirs && d != 0
    ensures d in v.chains && ChainFits(|img|, v.bpb, v.chains[d])
    ensures ListedItems(ChainItems(img, v.bpb, v.chains[d])) == LiveItems(TreeOf(img, v)[d])
  {
    ChainInside(img, v, d);
    var clusters := ChainItems(img, v.bpb, v.chains[d]);
    hide ListedItems, LiveItems, Find, NoCrossLinks, CopiesIdentical, LayoutOk, Flatten, SilentAfterEnd, EndMarked;
    assert TreeOf(img, v)[d] == Flatten(clusters);
    assert DirectoryOk(v, TreeOf(img, v)[d]);
    EndMarkedIsSilent(clusters);
    ListingExact(clusters);
  }

  /** `fat16_list`: prints exactly the live items of the directory the path leads to, one a line, with
      a slash after directories; -1 if there is no such directory. */
  method List(p: FatPrivate, path: Parser.PathPart?, ghost nodes: seq<Parser.PathPart>, ghost v: Volume)
    returns (code: int, text: seq<Byte>)
    requires Mounted(p, v) && WellFormed(p.Image(), v) && Parser.Linked(path, nodes) && Parser.Terminated(nodes)
    modifies p, p.stream
    ensures code in {0, -1}
    ensures AllDependable(p) ==>
      var tree := TreeOf(p.Image(), v);
      match WalkDirectory(tree, 0, Parser.Names(nodes))
      case None => code == -1 && text == []
      case Some(d) => code == 0 && d in tree && text == Printed(LiveRecords(DirectoryBytes(p.Image(), v, d)))
  {
    hide WellFormed, Mounted, AllDependable, WalkDirectory, TreeOf, LiveItems, Text, ListedItems, ChainFits, ItemsAt;
    hide Printed, LiveRecords, DirectoryBytes;
    var found, cluster := WalkDirectories(p, path, nodes, v);
    if !found {
      return -1, [];
    }
    TreeEntry(p.Image(), v, cluster);
    TreePrinted(p.Image(), v, cluster);
    if cluster == 0 {
      RootEntry(p, v);
      var at := RootPosition(p, v);
      text := ListItems(p, at, p.bpb.rootDirEntries);
    } else {
      text := ListChain(p, cluster, v);
      ListingIsTree(p.Image(), v, cluster);
    }
    return 0, text;
  }

  lemma TreeEntry(img: seq<Byte>, v: Volume, d: nat)
    requires WellFormed(img, v) && d in v.dirs
    ensures Charted(img, v) && d in TreeOf(img, v)
  {
  }

  /** The live items of a directory, printed, are the live records of its bytes, printed. */
  lemma TreePrinted(img: seq<Byte>, v: Volume, d: nat)
    requires WellFormed(img, v) && d in v.dirs
    ensures Charted(img, v) && d in TreeOf(img, v)
    ensures Text(LiveItems(TreeOf(img, v)[d])) == Printed(LiveRecords(DirectoryBytes(img, v, d)))
  {
    assert Charted(img, v);
    assert TreeOf(img, v)[d] == ItemsOf(img, v, d);
    hide WellFormed, Charted, TreeOf, ItemsOf, Text, LiveItems, LiveRecords, Printed, DirectoryBytes, Parses, SameItems;
    DirectoryParses(img, v, d);
    LiveMeans(ItemsOf(img, v, d), DirectoryBytes(img, v, d));
    TextIsPrinted(LiveItems(ItemsOf(img, v, d)), LiveRecords(DirectoryBytes(img, v, d)));
  }

  lemma RootEntry(p: FatPrivate, v: Volume)
    requires Mounted(p, v) && WellFormed(p.Image(), v)
    ensures p.bpb == v.bpb && RootStart(v.bpb) + ITEM_SIZE * v.bpb.rootDirEntries <= |p.Image()|
    ensures 0 in v.dirs && TreeOf(p.Image(), v)[0] == ItemsAt(p.Image(), RootStart(v.bpb), v.bpb.rootDirEntries)
  {
  }
}
