/** From the writer to the reader: a file injected into an image, opened and read through the
    kernel's descriptor table in any split of reads. */
module RoundTrips {
  import opened Bytes
  import opened CStrings
  import opened DiskStreams
  import opened FatLayout
  import opened FatNames
  import opened FatDirectory
  import opened Fat16
  import opened FatPaths
  import opened HeapModel
  import opened KernelHeaps
  import opened TableRuns
  import opened ImageWriter
  import opened InjectTheorems
  import opened Vfs
  import opened FileReads
  import Paging
  import opened ProcessMemory
  import ElfLoader
  import opened ProcessLoader
  import opened LoadStarts
  import opened Certificates
  import Parser = PathParser
  import Runs = FileRuns

  function Sum(sizes: seq<U32>): nat
  {
    if sizes == [] then 0 else Sum(sizes[..|sizes| - 1]) + sizes[|sizes| - 1]
  }

  lemma AskedBytes(size: U32, n: nat)
    ensures Asked(1, size) == size && WholeItems(n, 1) == n
  {
  }

  lemma SamePrefix(a: seq<Byte>, b: seq<Byte>, n: nat)
    requires n <= |a| == |b| && forall j :: 0 <= j < n ==> a[j] == b[j]
    ensures a[..n] == b[..n]
  {
  }

  /** One read that goes on where the buffer ends: one event of the file's run. */
  method ReadOn(files: Files, fd: int, size: U32, out: array<Byte>, base: nat, ghost content: seq<Byte>)
    returns (n: nat, ghost ev: Runs.Event)
    requires files.Valid() && At(files, fd, content, base) && DriveReads(files, fd)
    requires |content| + size < TWO_32 && Min(base + size, |content|) <= out.Length && base <= out.Length
      && base <= |content|
    modifies out, files.Footprint(fd)
    ensures files.Valid() && At(files, fd, content, n) && n == Min(base + size, |content|) && base <= n <= out.Length
    ensures files.descriptors.Length == MAX_FILE_DESCRIPTORS
    ensures Runs.Step(content, UnitAt(files, fd), old(CursorAt(files, fd)), ev, CursorAt(files, fd))
    ensures ev.Read? && out[..n] == old(out[..base]) + ev.data
    ensures OthersKept(old(files.OpenFiles()), files.OpenFiles(), fd)
  {
    hide Files.Valid, At, DriveReads, Asked, WholeItems, Runs.Step, CursorAt, UnitAt;
    ghost var before := out[..];
    AskedBytes(size, 0);
    var r;
    ghost var got;
    r, got, ev := ReadAt(files, fd, out, base, 1, size, content, base);
    AskedBytes(size, got);
    n := base + r;
    SamePrefix(out[..], before, base);
    assert out[..n] == out[..base] + out[base..n];
  }

  /** Reads of any sizes, one after the other, as a run of the file. */
  method ReadRun(files: Files, fd: int, sizes: seq<U32>, out: array<Byte>, ghost content: seq<Byte>)
    returns (n: nat, ghost cs: seq<Runs.Cursor>, ghost evs: seq<Runs.Event>)
    requires files.Valid() && At(files, fd, content, 0) && DriveReads(files, fd)
    requires forall i :: 0 <= i < |sizes| ==> |content| + sizes[i] < TWO_32
    requires Min(Sum(sizes), |content|) <= out.Length
    modifies out, files.Footprint(fd)
    ensures files.Valid() && At(files, fd, content, n) && n == Min(Sum(sizes), |content|) && n <= out.Length
    ensures files.descriptors.Length == MAX_FILE_DESCRIPTORS && Runs.Run(content, UnitAt(files, fd), cs, evs)
    ensures cs[0].pos == 0 && cs[|evs|] == CursorAt(files, fd)
    ensures (forall i :: 0 <= i < |evs| ==> evs[i].Read?) && out[..n] == Runs.Delivered(evs)
    ensures OthersKept(old(files.OpenFiles()), files.OpenFiles(), fd)
    decreases |sizes|
  {
    hide Files.Valid, Files.DrivesOk, Files.SlotOk, Files.View, At, DriveReads, Dependable, Bootable;
    hide Files.ContentOf, Runs.Step, Runs.Delivered, CursorAt, UnitAt;
    AtOpen(files, fd, content, 0);
    if sizes == [] {
      StartOfRun(files, fd, content);
      return 0, [CursorAt(files, fd)], [];
    }
    ghost var ev;
    n, cs, evs := ReadRun(files, fd, sizes[..|sizes| - 1], out, content);
    n, ev := ReadOn(files, fd, sizes[|sizes| - 1], out, n, content);
    RunExtends(content, UnitAt(files, fd), cs, evs, ev, CursorAt(files, fd));
    cs, evs := cs + [CursorAt(files, fd)], evs + [ev];
  }

  lemma StartOfRun(files: Files, fd: int, content: seq<Byte>)
    requires files.Valid() && At(files, fd, content, 0)
    ensures files.descriptors.Length == MAX_FILE_DESCRIPTORS && CursorAt(files, fd).pos == 0 && Runs.Delivered([]) == []
  {
    AtFacts(files, fd, content, 0);
  }

  lemma RunExtends(content: seq<Byte>, size: nat, cs: seq<Runs.Cursor>, evs: seq<Runs.Event>, ev: Runs.Event,
          c: Runs.Cursor)
    requires Runs.Run(content, size, cs, evs) && Runs.Step(content, size, cs[|evs|], ev, c) && ev.Read?
    ensures Runs.Run(content, size, cs + [c], evs + [ev]) && Runs.Delivered(evs + [ev]) == Runs.Delivered(evs) + ev.data
  {
    hide Runs.Step;
    assert (evs + [ev])[..|evs|] == evs;
  }

  /** However the reads of a freshly opened file are split, they deliver its contents in order. */
  method ReadPieces(files: Files, fd: int, sizes: seq<U32>, out: array<Byte>, ghost content: seq<Byte>) returns (n: nat)
    requires files.Valid() && At(files, fd, content, 0) && DriveReads(files, fd)
    requires forall i :: 0 <= i < |sizes| ==> |content| + sizes[i] < TWO_32
    requires Min(Sum(sizes), |content|) <= out.Length
    modifies out, files.Footprint(fd)
    ensures files.Valid() && At(files, fd, content, n) && n == Min(Sum(sizes), |content|)
    ensures n <= out.Length && n <= |content| && out[..n] == content[..n]
    ensures OthersKept(old(files.OpenFiles()), files.OpenFiles(), fd)
  {
    hide Files.Valid, At, DriveReads, Runs.Run, Runs.Delivered, UnitAt, CursorAt;
    ghost var cs, evs;
    n, cs, evs := ReadRun(files, fd, sizes, out, content);
    CursorIsAt(files, fd, content, n);
    Runs.ReadsCompose(content, UnitAt(files, fd), cs, evs);
  }

  lemma CursorIsAt(files: Files, fd: int, content: seq<Byte>, pos: nat)
    requires files.Valid() && At(files, fd, content, pos)
    ensures files.descriptors.Length == MAX_FILE_DESCRIPTORS && CursorAt(files, fd).pos == pos <= |content|
  {
    AtFacts(files, fd, content, pos);
  }

  // ----- From the writer to the reader -----

  lemma AllReliable(device: Device, pos: nat, n: nat)
    requires |device.image| % SECTOR == 0 && pos + n <= |device.image|
    requires forall lba: nat :: lba < |device.image| ==> lba in device.reliable
    ensures Dependable(device, pos, n)
  {
  }

  lemma VolumeBounds(img: seq<Byte>, v: Volume)
    requires WellFormed(img, v)
    ensures Charted(img, v) && Bootable(img) && |img| % SECTOR == 0 && FatStart(v.bpb) + 2 * v.limit <= |img|
  {
  }

  lemma ShortName(name: seq<Byte>, spelling: seq<Byte>)
    requires Fits83(name) && SameIgnoringCase(name, spelling) && Parser.Printable(spelling)
    ensures |spelling| <= 12 && Parser.PartsOf(spelling) == [spelling] && Parser.ShortParts(spelling)
  {
    assert |UpperAll(name)| == |UpperAll(spelling)|;
    Parser.PartsOfJoin([spelling], false);
    assert Parser.Join([spelling], false) == spelling;
  }

  /** The text "0:/name" as it lies in memory. */
  function RootPathText(name: seq<Byte>): seq<Byte>
  {
    ['0' as int, ':' as int, '/' as int] + name + [0]
  }

  lemma RootPathIs(name: seq<Byte>)
    requires Parser.Printable(name)
    ensures 0 in RootPathText(name) && CStr(RootPathText(name)) == [Parser.ZERO, Parser.COLON, Parser.SLASH] + name
    ensures Parser.ParsePath(CStr(RootPathText(name))) == Some(Parser.Path(0, [name]))
    ensures Parser.HasDrive(CStr(RootPathText(name))) && CStr(RootPathText(name))[3..] == name
  {
    var text := [Parser.ZERO, Parser.COLON, Parser.SLASH] + name;
    assert RootPathText(name)[..|text|] == text;
    CStrEndsAt(RootPathText(name), |text|);
    Parser.ParseOfPrint(0, [name], false);
    assert Parser.Join([name], false) == name;
  }

  function SectorsBelow(n: nat): (r: set<nat>)
    ensures forall lba: nat :: lba < n ==> lba in r
  {
    if n == 0 then {} else SectorsBelow(n - 1) + {n - 1}
  }

  /** Two drives, the first holding the image and always readable. */
  method Mount(img: seq<Byte>, ghost v: Volume) returns (files: Files)
    requires WellFormed(img, v)
    ensures files.Valid() && |files.disks| == 2 && files.volumes == [v, v]
    ensures fresh(files.descriptors) && forall d :: d in files.disks ==> fresh(d)
    ensures files.disks[0].device.image == img && DrivesRead(files)
    ensures files.OpenFiles() == seq(MAX_FILE_DESCRIPTORS, i => None)
  {
    hide WellFormed, Dependable, Files.Valid;
    VolumeBounds(img, v);
    var first := new Device(img, SectorsBelow(|img|));
    AllReliable(first, 0, |img|);
    AllReliable(first, FatStart(v.bpb), 2 * v.limit);
    var second := new Device([], {});
    AllReliable(second, 0, 0);
    files := new Files(first, second, v, v);
  }

  /** The root path of a name leads to what the walk from the root finds, whichever description the walk
      goes by. */
  lemma RootNamed(files: Files, name: seq<Byte>, v: Volume, item: DirItem)
    requires files.Valid() && Parser.Printable(name)
    requires WellFormed(files.disks[0].device.image, v) && Bootable(files.disks[0].device.image)
    requires Walk(TreeOf(files.disks[0].device.image, v), 0, [name]) == Some(item)
    ensures Charts(files) && Charted(files.disks[0].device.image, v)
    ensures NamedContent(files, RootPathText(name)) == Some(FileBytes(files.disks[0].device.image, v, item))
    ensures Dependable(files.disks[0].device, 0, |files.disks[0].device.image|) ==> PathReads(files, RootPathText(name))
  {
    var img, w := files.disks[0].device.image, files.volumes[0];
    assert WellFormed(img, w);
    TableSize(files);
    hide Walk, TreeOf, FileBytes, WellFormed, Bootable, CStr, Parser.ParsePath, RootPathText, Files.Valid, Dependable;
    hide Files.DrivesOk;
    RootPathIs(name);
    SameFiles(img, v, w, [name]);
    hide Charted;
  }

  /** With no file open, no block is a descriptor's. */
  lemma NothingBacked(files: Files, live: set<nat>)
    requires files.OpenFiles() == seq(MAX_FILE_DESCRIPTORS, i => None)
    ensures files.Backed(live)
  {
    var t := files.OpenFiles();
    assert forall i :: 0 <= i < files.descriptors.Length ==> t[i] == None;
  }

  lemma FirstSlot(t: Table)
    requires t == seq(MAX_FILE_DESCRIPTORS, i => None)
    ensures FreeSlot(t, 0) == 0
  {
  }

  /** Opening what a root path reaches on the first drive. */
  method OpenRoot(files: Files, name: seq<Byte>, heap: KernelHeap, ghost v: Volume, ghost item: DirItem)
    returns (fd: int, ghost taken: seq<nat>)
    requires files.Valid() && heap.Valid() && files.Backed(Live(heap.state))
    requires WellFormed(files.disks[0].device.image, v)
    requires Dependable(files.disks[0].device, 0, |files.disks[0].device.image|)
    requires FreeSlot(files.OpenFiles(), 0) < MAX_FILE_DESCRIPTORS
    requires Walk(TreeOf(files.disks[0].device.image, v), 0, [name]) == Some(item)
    requires Parser.Printable(name) && Parser.ShortParts(name)
    requires heap.state.brk + OpenRoom(|name| + 3) < TWO_32
    modifies heap, heap.ram, files.descriptors, files.disks
    ensures files.Valid() && heap.Valid() && files.Backed(Live(heap.state))
    ensures Leaves(old(heap.state), heap.state, taken, ROOT_GROWTH) && |taken| == 4
    ensures fd - 1 == FreeSlot(old(files.OpenFiles()), 0) && OthersKept(old(files.OpenFiles()), files.OpenFiles(), fd)
    ensures files.descriptors.Length == MAX_FILE_DESCRIPTORS && fresh(files.Footprint(fd))
      && files.GetDescriptor(fd) != null
    ensures taken[2..] == [files.GetDescriptor(fd).private.addr, files.GetDescriptor(fd).addr]
    ensures Charted(files.disks[0].device.image, v)
    ensures At(files, fd, FileBytes(files.disks[0].device.image, v, item), 0) && DriveReads(files, fd)
  {
    hide Files.Valid, KernelHeap.ValidIn, Live, CStr, Parser.ParsePath, Parser.HasDrive, Parser.ShortParts;
    hide RootPathText, WellFormed, DrivesRead, DriveReads, At, FreeSlot, AllBacked, Dependable, PathReads;
    hide Walk, TreeOf, Bootable, FileBytes, Charted, Named, NamedContent, Leaves, OpenGrowth, OpenHeap, WithBlocks;
    TableSize(files);
    VolumeBounds(files.disks[0].device.image, v);
    RootPathIs(name);
    RootGrowth(name);
    RootNamed(files, name, v, item);
    ghost var content;
    fd, content, taken := OpenRead(files, heap, RootPathText(name));
  }

  /** How far the break moves at most when a file of the root directory is opened. */
  const ROOT_GROWTH := Parser.PathGrowth(1) + OPEN_GROWTH

  lemma RootGrowth(name: seq<Byte>)
    requires Parser.Printable(name)
    ensures OpenGrowth(CStr(RootPathText(name))) == ROOT_GROWTH
  {
    RootPathIs(name);
    hide RootPathText, CStr, Parser.ParsePath;
  }

  /** What injecting as `name` needs: a well-formed volume with room and no live root item of that name. */
  ghost predicate Injectable(img: seq<Byte>, v: Volume, data: seq<Byte>, name: seq<Byte>)
  {
    && WellFormed(img, v) && Room(img, v, data) && Ascii(name) && Fits83(name)
    && 0 in TreeOf(img, v) && FreshName(TreeOf(img, v)[0], name)
  }

  lemma InjectableRoundTrip(img: seq<Byte>, v: Volume, data: seq<Byte>, name: seq<Byte>, spelling: seq<Byte>)
    returns (img': seq<Byte>, v': Volume, item: DirItem)
    requires Injectable(img, v, data, name) && SameIgnoringCase(name, spelling)
    ensures Injected(img, data, name) == (Done, img') && WellFormed(img', v') && Charted(img', v')
    ensures Walk(TreeOf(img', v'), 0, [spelling]) == Some(item)
    ensures FileBytes(img', v', item) == data
  {
    hide Walk, FreshName, Room, FileBytes, ItemOk, LeadsTo, WalkDirectory, Injected, Fits83;
    v', item := RoundTrip(img, v, data, name);
    img' := Injected(img, data, name).1;
  }

  /** On any table of files whose first drive holds an image after the injection, reads reliably and has a
      free slot, whatever else is open: the file, opened under any spelling of its 8.3 name, reads back as the
      data, in any split of reads, and every other open file stays as it is. The open leaves four blocks
      live: the stream, the mount and the two descriptors. */
  method ReadInjected(files: Files, ghost img: seq<Byte>, ghost data: seq<Byte>, ghost name: seq<Byte>,
          spelling: seq<Byte>, sizes: seq<U32>, heap: KernelHeap, out: array<Byte>, ghost v: Volume)
    returns (fd: int, n: nat, ghost taken: seq<nat>)
    requires Injectable(img, v, data, name) && SameIgnoringCase(name, spelling) && Parser.Printable(spelling)
    requires files.Valid() && files.disks[0].device.image == Injected(img, data, name).1
    requires Dependable(files.disks[0].device, 0, |files.disks[0].device.image|)
    requires FreeSlot(files.OpenFiles(), 0) < MAX_FILE_DESCRIPTORS
    requires forall i :: 0 <= i < |sizes| ==> |data| + sizes[i] < TWO_32
    requires Min(Sum(sizes), |data|) <= out.Length && out != heap.ram
    requires heap.Valid() && files.Backed(Live(heap.state)) && heap.state.brk + OpenRoom(|spelling| + 3) < TWO_32
    modifies heap, heap.ram, files.descriptors, files.disks, out
    ensures n == Min(Sum(sizes), |data|) && n <= out.Length && n <= |data| && out[..n] == data[..n]
    ensures files.Valid() && files.Backed(Live(heap.state)) && At(files, fd, data, n)
    ensures fd - 1 == FreeSlot(old(files.OpenFiles()), 0) && OthersKept(old(files.OpenFiles()), files.OpenFiles(), fd)
    ensures heap.Valid() && Leaves(old(heap.state), heap.state, taken, ROOT_GROWTH) && |taken| == 4
  {
    hide Files.Valid, KernelHeap.ValidIn, Leaves, WellFormed, Injectable, Injected, Walk, TreeOf, FileBytes, FreeSlot;
    hide Charted, At, DriveReads, Dependable, Sum, OpenRoom, AllBacked, Live;
    ghost var img', v', item := InjectableRoundTrip(img, v, data, name, spelling);
    NameFits83(img, v, data, name);
    ShortName(name, spelling);
    fd, taken := OpenRoot(files, spelling, heap, v', item);
    n := ReadPieces(files, fd, sizes, out, data);
  }

  /** The same from the injection on, with the image mounted and nothing open. */
  method InjectThenRead(f: ImageFile, data: seq<Byte>, name: seq<Byte>, spelling: seq<Byte>, sizes: seq<U32>,
          heap: KernelHeap, out: array<Byte>, ghost v: Volume)
    returns (n: nat, ghost taken: seq<nat>)
    requires Injectable(f.bytes, v, data, name) && SameIgnoringCase(name, spelling) && Parser.Printable(spelling)
    requires forall i :: 0 <= i < |sizes| ==> |data| + sizes[i] < TWO_32
    requires Min(Sum(sizes), |data|) <= out.Length && out != heap.ram
    requires heap.Valid() && heap.state.brk + OpenRoom(|spelling| + 3) < TWO_32
    modifies f, heap, heap.ram, out
    ensures n == Min(Sum(sizes), |data|) && n <= out.Length && n <= |data| && out[..n] == data[..n]
    ensures heap.Valid() && Leaves(old(heap.state), heap.state, taken, ROOT_GROWTH) && |taken| == 4
  {
    hide Files.Valid, KernelHeap.ValidIn, Leaves, WellFormed, Injectable, Injected, Walk, TreeOf, FileBytes;
    hide Charted, At, DriveReads, Dependable, Sum, OpenRoom, AllBacked, FreeSlot;
    ghost var img := f.bytes;
    ghost var img', v', item := InjectableRoundTrip(img, v, data, name, spelling);
    NameFits83(f.bytes, v, data, name);
    var outcome := Inject(f, data, name);
    var files := Mount(f.bytes, v');
    assert fresh(set d | d in files.disks);
    FirstSlot(files.OpenFiles());
    NothingBacked(files, Live(heap.state));
    var fd;
    fd, n, taken := ReadInjected(files, img, data, name, spelling, sizes, heap, out, v);
  }

  lemma NameFits83(img: seq<Byte>, v: Volume, data: seq<Byte>, name: seq<Byte>)
    requires Injectable(img, v, data, name)
    ensures Fits83(name) && Ascii(name)
  {
  }

  lemma LoadedText(name: seq<Byte>)
    requires Parser.Printable(name) && |name| <= 12
    ensures ElfLoader.NameFits(RootPathText(name))
  {
    RootPathIs(name);
  }

  /** What the small requests of loading a root file may take of the page of the break. */
  const ROOT_SLACK := 2 * ROOT_GROWTH + ElfLoader.PROCESS_GROWTH

  /** There is room below 4 GiB for loading a root file. */
  predicate RootLoadFits(data: seq<Byte>, h: Heap)
    requires LoadOk(data)
  {
    h.brk + ROOT_SLACK + OpenRoom(ElfLoader.NAME_SIZE) + ProgramRoom(data) < TWO_32
  }

  lemma RootParts(name: seq<Byte>)
    requires Parser.Printable(name)
    ensures Parser.PartCount(CStr(RootPathText(name))) == 1
  {
    RootPathIs(name);
    hide RootPathText, CStr;
  }

  /** The heap at the first aligned request of loading a root file. */
  ghost function BeforePages(data: seq<Byte>, h: Heap): Heap
    requires LoadOk(data)
  {
    Start(h, 1, IsElf(data))
  }

  /** With no block on the heap yet, the page offset of the break there. */
  function FreshOffset(data: seq<Byte>, brk: nat): nat
    requires LoadOk(data)
  {
    (brk + if IsElf(data) then ELF_START else RAW_START) % PAGE
  }

  lemma FreshHeap(h: Heap)
    requires Inv(h) && h.blocks == []
    ensures h == Heap(h.brk, [], []) && PagesLive(h)
  {
    ListNonempty(h);
  }

  lemma FreshSteady(data: seq<Byte>, h: Heap)
    requires LoadOk(data) && Inv(h) && h.blocks == []
    ensures PagesLive(h) && (Steady(BeforePages(data, h)) <==> FreshOffset(data, h.brk) <= PAGE - HEADER)
  {
    hide Inv, Start, PagesLive, ElfLoader.ElfOk;
    FreshHeap(h);
    FreshStart(h.brk, IsElf(data));
  }

  /** Room for the small requests on the page of the break is enough. */
  lemma RootAmple(data: seq<Byte>, h: Heap, slack: nat)
    requires LoadOk(data) && Ample(h, ROOT_SLACK + slack)
    ensures Ample(BeforePages(data, h), slack)
  {
    hide ElfLoader.ElfOk, Start, OpenGrowth, Ample, CStr, RootPathText;
    var text := RootPathText([65]);
    RootGrowth([65]);
    RootParts([65]);
    StartGrows(h, CStr(text), IsElf(data));
    AmpleMoved(h, BeforePages(data, h), ROOT_SLACK, slack);
  }

  lemma LoadOutcomeMeans(r: ElfLoader.Outcome, data: seq<Byte>, spelling: seq<Byte>, h: Heap)
    requires LoadOutcome(r, data, CStr(RootPathText(spelling)), h) && !r.Refused? && Parser.Printable(spelling)
    requires LoadOk(data) && Sized(data) && RootLoadFits(data, h) && Inv(h)
    ensures PagesLive(h) ==>
      r == if Steady(BeforePages(data, h)) && LoadForward(data) then ElfLoader.Loaded else ElfLoader.Halted
    ensures Ample(BeforePages(data, h), Paging.CHUNK_SIZE + HEADER) && TailsLoose(data) ==> r == ElfLoader.Loaded
  {
    RootGrowth(spelling);
    RootParts(spelling);
    if PagesLive(h) {
      StartKeepsPages(h, 1, IsElf(data));
    }
    hide OpenGrowth, OpenRoom, LoadOk, LoadForward, TailsLoose, Sized, ProgramRoom, PagesLive, Ample, CStr, IsElf;
    hide RootPathText, Start, StartClosed, Inv, Parser.PartCount;
  }

  /** Where a program that fits is loaded depends on the break at the first aligned request, which
      `BeforePages` computes from the heap before the call: with every large block on a page live, it is loaded
      if and only if that break is at most 0xFF0 into its page and loading the program never moves it back. On
      a heap without blocks that is a condition on the break before the call and the program alone. */
  ghost predicate RootLoaded(r: ElfLoader.Outcome, data: seq<Byte>, h: Heap)
  {
    LoadOk(data) && Sized(data) && RootLoadFits(data, h) ==>
      && (PagesLive(h) ==>
            r == if Steady(BeforePages(data, h)) && LoadForward(data) then ElfLoader.Loaded else ElfLoader.Halted)
      && (h.blocks == [] ==>
            r == if FreshOffset(data, h.brk) <= PAGE - HEADER && LoadForward(data) then ElfLoader.Loaded
                 else ElfLoader.Halted)
      && (Ample(BeforePages(data, h), Paging.CHUNK_SIZE + HEADER) && TailsLoose(data) ==> r == ElfLoader.Loaded)
  }

  lemma RootLoadedIs(r: ElfLoader.Outcome, data: seq<Byte>, spelling: seq<Byte>, h: Heap)
    requires !r.Refused? ==> LoadOutcome(r, data, CStr(RootPathText(spelling)), h)
    requires Parser.Printable(spelling) && Inv(h) && (r.Refused? ==> !LoadOk(data))
    ensures RootLoaded(r, data, h)
  {
    hide LoadOutcome, LoadOk, RootLoadFits, Sized, LoadForward, TailsLoose, PagesLive, Ample, BeforePages, FreshOffset;
    hide Inv, CStr, RootPathText, Steady;
    if LoadOk(data) && Sized(data) && RootLoadFits(data, h) {
      LoadOutcomeMeans(r, data, spelling, h);
      if h.blocks == [] {
        FreshSteady(data, h);
      }
    }
  }

  /** On any table of files whose first drive holds an image after the injection, whatever is open: the
      program, loaded by name under any spelling, is held by the process exactly, and `RootLoaded` says when.
      On reliable drives with a free slot, loading is refused only if the data is no program. */
  method LoadInjected(files: Files, ghost img: seq<Byte>, ghost data: seq<Byte>, ghost name: seq<Byte>,
          spelling: seq<Byte>, heap: KernelHeap, ghost v: Volume)
    returns (r: ElfLoader.Outcome, proc: Process, ghost s: Paging.Space, ghost segs: seq<Segment>)
    requires Injectable(img, v, data, name) && SameIgnoringCase(name, spelling) && Parser.Printable(spelling)
    requires files.Valid() && files.disks[0].device.image == Injected(img, data, name).1
    requires DrivesRead(files) && FreeSlot(files.OpenFiles(), 0) < MAX_FILE_DESCRIPTORS
    requires heap.Valid() && files.Backed(Live(heap.state))
      && heap.state.brk + OpenRoom(ElfLoader.NAME_SIZE) < TWO_32
    modifies heap, heap.ram, files.descriptors, files.disks
    ensures files.Valid() && heap.Valid() && files.Backed(Live(heap.state))
      && Live(old(heap.state)) <= Live(heap.state)
    ensures r == ElfLoader.Loaded ==> HoldsProgram(heap, proc, data, s, segs, Live(old(heap.state)))
    ensures r.Refused? ==> !LoadOk(data)
    ensures RootLoaded(r, data, old(heap.state))
  {
    hide Files.Valid, KernelHeap.ValidIn, WellFormed, Injectable, Injected, Walk, TreeOf, FileBytes, Charted;
    hide DrivesRead, HoldsProgram, LoadOk, NamedContent, FreeSlot, RootPathText, CStr, Dependable, PathReads;
    hide Live, LoadOutcome, RootLoaded, OpenRoom, AllBacked, Inv;
    heap.ValidFacts();
    ghost var h := heap.state;
    ghost var img', v', item := InjectableRoundTrip(img, v, data, name, spelling);
    NameFits83(img, v, data, name);
    ShortName(name, spelling);
    LoadedText(spelling);
    TableSize(files);
    VolumeBounds(files.disks[0].device.image, v');
    RootNamed(files, spelling, v', item);
    ghost var content;
    r, proc, content, s, segs := ProcessLoad(files, heap, RootPathText(spelling));
    RootLoadedIs(r, data, spelling, h);
  }

  /** The same from the injection on, with the image mounted and nothing open. */
  method InjectThenLoad(f: ImageFile, data: seq<Byte>, name: seq<Byte>, spelling: seq<Byte>, heap: KernelHeap,
          ghost v: Volume)
    returns (r: ElfLoader.Outcome, proc: Process, ghost s: Paging.Space, ghost segs: seq<Segment>)
    requires Injectable(f.bytes, v, data, name) && SameIgnoringCase(name, spelling) && Parser.Printable(spelling)
    requires heap.Valid() && heap.state.brk + OpenRoom(ElfLoader.NAME_SIZE) < TWO_32
    modifies f, heap, heap.ram
    ensures heap.Valid() && Live(old(heap.state)) <= Live(heap.state)
    ensures r == ElfLoader.Loaded ==> HoldsProgram(heap, proc, data, s, segs, Live(old(heap.state)))
    ensures r.Refused? ==> !LoadOk(data)
    ensures RootLoaded(r, data, old(heap.state))
  {
    hide Files.Valid, KernelHeap.ValidIn, WellFormed, Injectable, Injected, Walk, TreeOf, FileBytes, Charted;
    hide DrivesRead, HoldsProgram, LoadOk, NamedContent, FreeSlot, RootPathText, CStr, Dependable;
    hide Live, RootLoaded, OpenRoom, AllBacked;
    ghost var img := f.bytes;
    ghost var img', v', item := InjectableRoundTrip(img, v, data, name, spelling);
    NameFits83(f.bytes, v, data, name);
    var outcome := Inject(f, data, name);
    var files := Mount(f.bytes, v');
    FirstSlot(files.OpenFiles());
    NothingBacked(files, Live(heap.state));
    assert fresh(set d | d in files.disks);
    r, proc, s, segs := LoadInjected(files, img, data, name, spelling, heap, v);
  }
}
