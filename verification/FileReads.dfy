/** What a client of the descriptor table sees of one open file: its bytes and a position in them. */
module FileReads {
  import opened Bytes
  import opened CStrings
  import opened DiskStreams
  import opened FatLayout
  import opened FatDirectory
  import Parser = PathParser
  import opened HeapModel
  import opened Fat16
  import opened FatPaths
  import opened KernelHeaps
  import opened TableRuns
  import opened Vfs
  import Runs = FileRuns

  /** Descriptor `fd` is open on a file that holds `content`, and stands at `pos`. */
  ghost predicate At(files: Files, fd: int, content: seq<Byte>, pos: nat)
    requires files.Valid()
    reads files, files.descriptors, files.disks, files.Privates()
  {
    && files.GetDescriptor(fd) != null && files.OpenFiles()[fd - 1].Some?
    && var f := files.OpenFiles()[fd - 1].value;
       && f.drive < 2 && Bootable(files.disks[f.drive].device.image)
       && files.ContentOf(f) == content && |content| == f.item.filesize
       && f.cursor.pos == pos <= |content|
  }

  /** The position and the cached cluster index of an open file. */
  ghost function CursorAt(files: Files, fd: int): Runs.Cursor
    requires files.descriptors.Length == MAX_FILE_DESCRIPTORS
    reads files.descriptors, if files.GetDescriptor(fd) == null then {} else {files.GetDescriptor(fd).private}
  {
    if files.GetDescriptor(fd) == null then Runs.Cursor(0, 0) else CursorOf(files.GetDescriptor(fd).private)
  }

  /** The cluster size of the drive of an open file. */
  ghost function UnitAt(files: Files, fd: int): nat
    requires files.descriptors.Length == MAX_FILE_DESCRIPTORS
    reads files.descriptors
  {
    var f := files.GetDescriptor(fd);
    if f == null || f.drive >= |files.volumes| then 0 else ClusterSize(files.volumes[f.drive].bpb)
  }

  /** Every sector of the drive of an open file always reads. */
  ghost predicate DriveReads(files: Files, fd: int)
    requires files.descriptors.Length == MAX_FILE_DESCRIPTORS
    reads files.descriptors
  {
    var f := files.GetDescriptor(fd);
    f != null && Dependable(f.disk.device, 0, |f.disk.device.image|)
  }

  lemma AtFacts(files: Files, fd: int, content: seq<Byte>, pos: nat)
    requires files.Valid() && At(files, fd, content, pos)
    ensures files.GetDescriptor(fd) != null && pos <= |content| == files.GetDescriptor(fd).private.item.filesize
    ensures files.GetDescriptor(fd).private.pos == pos
    ensures 1 <= fd <= MAX_FILE_DESCRIPTORS == |files.OpenFiles()| == files.descriptors.Length
      && files.OpenFiles()[fd - 1].Some?
    ensures var f := files.OpenFiles()[fd - 1].value;
            && f.cursor.pos == pos && f.item == files.GetDescriptor(fd).private.item
            && f.drive < 2 && |files.disks| == 2 && |files.volumes| == 2 && files.DrivesOk()
              && Bootable(files.disks[f.drive].device.image)
            && files.GetDescriptor(fd).disk == files.disks[f.drive]
            && files.ContentOf(f) == content
            && f.cursor == CursorAt(files, fd) && files.SizeOf(f) == UnitAt(files, fd)
  {
    hide DescOk, DriveOk, Dependable, Bootable, FileBytes;
  }

  lemma AtOpen(files: Files, fd: int, content: seq<Byte>, pos: nat)
    requires files.Valid() && At(files, fd, content, pos)
    ensures files.descriptors.Length == MAX_FILE_DESCRIPTORS && files.GetDescriptor(fd) != null
      && pos <= |content| == files.GetDescriptor(fd).private.item.filesize && files.Ftell(fd) == pos
      && files.Fstat(fd) == Some(|content|)
  {
  }

  /** A file that was just opened stands at its start. */
  lemma OpenedStart(files: Files, fd: int, f: OpenFile)
    requires files.Valid() && 1 <= fd <= |files.OpenFiles()| && files.OpenFiles()[fd - 1] == Some(f)
      && f.cursor.pos == 0
    ensures files.DrivesOk() && f.drive < 2 && Bootable(files.disks[f.drive].device.image)
    ensures At(files, fd, files.ContentOf(f), 0) && files.descriptors.Length == MAX_FILE_DESCRIPTORS
    ensures Dependable(files.disks[f.drive].device, 0, |files.disks[f.drive].device.image|) ==> DriveReads(files, fd)
  {
    hide Dependable, Bootable;
    files.SlotFacts(fd);
    var d := files.GetDescriptor(fd);
    DescFacts(d.private, d.disk.fsPrivate, files.volumes[d.drive]);
  }

  lemma StillAt(files: Files, fd: int, content: seq<Byte>, f: OpenFile)
    requires files.Valid() && files.GetDescriptor(fd) != null && files.OpenFiles()[fd - 1] == Some(f)
    requires f.drive < 2 && Bootable(files.disks[f.drive].device.image)
    requires files.ContentOf(f) == content && |content| == f.item.filesize && f.cursor.pos <= |content|
    ensures At(files, fd, content, f.cursor.pos)
  {
    hide Dependable, Bootable, Files.ContentOf, DescOk, DriveOk;
  }

  lemma SameContent(files: Files, f: OpenFile, c: Runs.Cursor)
    requires files.DrivesOk() && f.drive < 2 && Bootable(files.disks[f.drive].device.image)
    ensures files.ContentOf(f.(cursor := c)) == files.ContentOf(f)
  {
  }

  lemma StepData(content: seq<Byte>, size: nat, c: Runs.Cursor, asked: nat, data: seq<Byte>, cost: nat, c': Runs.Cursor)
    requires Runs.Step(content, size, c, Runs.Read(asked, data, cost), c')
    ensures c.pos <= c'.pos <= |content| && c'.pos - c.pos <= asked && data == content[c.pos..c'.pos]
  {
  }

  /** Two tables that differ at most in one slot. */
  predicate OthersKept(t: Table, t': Table, fd: int)
  {
    |t'| == |t| && 1 <= fd <= |t| && t' == t[fd - 1 := t'[fd - 1]]
  }

  /** `fread`: copies the contents from the position on to `out[base..]` and moves the position. */
  method ReadAt(files: Files, fd: int, out: array<Byte>, base: nat, size: U32, nmemb: U32, ghost content: seq<Byte>,
          ghost pos: nat)
    returns (n: int, ghost got: nat, ghost ev: Runs.Event)
    requires files.Valid() && At(files, fd, content, pos) && pos + Asked(size, nmemb) < TWO_32
    requires base + Min(Asked(size, nmemb), |content| - pos) <= out.Length
    modifies out, files.Footprint(fd)
    ensures files.Valid() && At(files, fd, content, pos + got)
    ensures got <= Asked(size, nmemb) && pos + got <= |content| && base + got <= out.Length
      && n == WholeItems(got, size)
    ensures out[base..base + got] == content[pos..pos + got]
    ensures forall j :: 0 <= j < out.Length && !(base <= j < base + Min(Asked(size, nmemb), |content| - pos)) ==>
      out[j] == old(out[j])
    ensures old(DriveReads(files, fd)) ==> got == Min(Asked(size, nmemb), |content| - pos)
    ensures OthersKept(old(files.OpenFiles()), files.OpenFiles(), fd)
      && files.descriptors.Length == MAX_FILE_DESCRIPTORS
    ensures Runs.Step(content, UnitAt(files, fd), old(CursorAt(files, fd)), ev, CursorAt(files, fd)) && ev.Read?
      && ev.data == content[pos..pos + got]
  {
    hide Files.Valid, Files.DrivesOk, Files.SlotOk, Files.View, At, Dependable, Bootable, Asked, Files.ContentOf;
    hide Runs.Step, WholeItems, TableStep, Files.Holdings, Files.Fetched;
    AtFacts(files, fd, content, pos);
    ghost var f := files.OpenFiles()[fd - 1].value;
    ghost var data, cost;
    n, data, cost := files.Fread(out, base, size, nmemb, fd);
    ghost var c := CursorOf(files.GetDescriptor(fd).private);
    StepData(content, files.SizeOf(f), f.cursor, Asked(size, nmemb), data, cost, c);
    got := |data|;
    SameContent(files, f, c);
    StillAt(files, fd, content, f.(cursor := c));
    ev := Runs.Read(Asked(size, nmemb), data, cost);
  }

  /** `fseek` from the start: moves to any position inside the file, and stays where it was otherwise. */
  method SeekTo(files: Files, fd: int, offset: U32, ghost content: seq<Byte>, ghost pos: nat) returns (r: int)
    requires files.Valid() && At(files, fd, content, pos) && |content| < 0x8000_0000
    modifies files.Footprint(fd)
    ensures files.Valid() && At(files, fd, content, if offset <= |content| then offset else pos)
    ensures r == if offset <= |content| then 0 else -1
  {
    hide Files.Valid, Files.DrivesOk, Files.SlotOk, Files.View, At, Dependable, Bootable, Files.ContentOf;
    hide TableStep, Files.Holdings, Files.SeekEvent;
    AtFacts(files, fd, content, pos);
    ghost var f := files.OpenFiles()[fd - 1].value;
    r := files.Fseek(fd, Signed32(offset), SeekSet);
    ghost var c := CursorOf(files.GetDescriptor(fd).private);
    SameContent(files, f, c);
    StillAt(files, fd, content, f.(cursor := c));
  }

  // ----- Opening by name -----

  /** Every drive that can be mounted holds a volume in order. */
  ghost predicate Charts(files: Files)
  {
    && |files.disks| == 2 && |files.volumes| == 2
    && forall k :: 0 <= k < 2 && Bootable(files.disks[k].device.image) ==>
      Charted(files.disks[k].device.image, files.volumes[k])
  }

  /** The file a path names: the item the walk from the root of its drive reaches. */
  ghost function Named(files: Files, path: seq<Byte>): Option<OpenFile>
    requires Charts(files)
  {
    match Parser.ParsePath(CStr(path))
    case None => None
    case Some(p) =>
      if p.drive > 1 || !Bootable(files.disks[p.drive].device.image) then None
      else
        match FatDirectory.Walk(TreeOf(files.disks[p.drive].device.image, files.volumes[p.drive]), 0, p.parts)
        case None => None
        case Some(item) => Some(OpenFile(p.drive, item, Runs.Cursor(0, 0)))
  }

  /** The bytes of the file a path names. */
  ghost function NamedContent(files: Files, path: seq<Byte>): Option<seq<Byte>>
    requires Charts(files)
  {
    match Named(files, path)
    case None => None
    case Some(f) => Some(FileBytes(files.disks[f.drive].device.image, files.volumes[f.drive], f.item))
  }

  /** Every sector of both drives always reads. */
  ghost predicate DrivesRead(files: Files)
    requires |files.disks| == 2
  {
    forall k :: 0 <= k < 2 ==> Dependable(files.disks[k].device, 0, |files.disks[k].device.image|)
  }

  /** Every sector of the drive that a path names always reads. */
  ghost predicate PathReads(files: Files, text: seq<Byte>)
    requires |files.disks| == 2
  {
    match Parser.ParsePath(CStr(text))
    case None => true
    case Some(path) =>
      path.drive < 2 ==> Dependable(files.disks[path.drive].device, 0, |files.disks[path.drive].device.image|)
  }

  lemma DrivesReadPath(files: Files, text: seq<Byte>)
    requires |files.disks| == 2 && DrivesRead(files)
    ensures PathReads(files, text)
  {
    hide Dependable, Parser.ParsePath;
  }

  lemma CodeMeans(files: Files, t: Table, path: Parser.Path, text: seq<Byte>)
    requires files.DrivesOk() && Charts(files) && |t| == MAX_FILE_DESCRIPTORS
      && Parser.ParsePath(CStr(text)) == Some(path)
    ensures files.OpenCode(t, path.drive, path.parts, ModeRead) > 0
      <==> Named(files, text).Some? && FreeSlot(t, 0) < MAX_FILE_DESCRIPTORS
    ensures files.OpenCode(t, path.drive, path.parts, ModeRead) > 0 ==>
      && files.OpenCode(t, path.drive, path.parts, ModeRead) == FreeSlot(t, 0) + 1 && path.drive < 2
      && Named(files, text).value.item ==
        FatDirectory.Walk(TreeOf(files.disks[path.drive].device.image, files.volumes[path.drive]), 0, path.parts).value
  {
    hide TreeOf, Bootable, Charted, Parser.ParsePath;
    if path.parts == [] {
      WalkNothing(files, path, text);
    }
  }

  lemma WalkNothing(files: Files, path: Parser.Path, text: seq<Byte>)
    requires Charts(files) && Parser.ParsePath(CStr(text)) == Some(path) && path.parts == []
    ensures Named(files, text) == None
  {
  }

  lemma OpenedMeans(files: Files, r: int, t: Table, t': Table, path: Parser.Path, text: seq<Byte>)
    requires files.DrivesOk() && Charts(files) && |t| == MAX_FILE_DESCRIPTORS
      && Parser.ParsePath(CStr(text)) == Some(path)
    requires files.Opened(r, t, t', path.drive, path.parts, ModeRead)
    ensures r > 0 ==>
      r == FreeSlot(t, 0) + 1 <= |t'| && Named(files, text).Some? && |t'| == |t| && t'[r - 1] == Named(files, text)
      && t' == t[r - 1 := t'[r - 1]]
    ensures r <= 0 ==> t' == t
    ensures r == files.OpenCode(t, path.drive, path.parts, ModeRead) ==>
      (r > 0 <==> Named(files, text).Some? && FreeSlot(t, 0) < MAX_FILE_DESCRIPTORS)
  {
    hide TreeOf, Bootable, Charted, Parser.ParsePath, Files.OpenCode;
    CodeMeans(files, t, path, text);
  }

  lemma MeansOpened(files: Files, r: int, t: Table, t': Table, text: seq<Byte>)
    requires files.DrivesOk() && Charts(files) && |t| == MAX_FILE_DESCRIPTORS
    requires files.OpenMeans(r, t, t', Parser.ParsePath(CStr(text)), ModeRead)
    ensures r > 0 ==>
      && r == FreeSlot(t, 0) + 1 <= |t'| && Named(files, text).Some? && |t'| == |t|
      && t'[r - 1] == Named(files, text) && t' == t[r - 1 := t'[r - 1]]
    ensures r <= 0 ==> t' == t
    ensures PathReads(files, text) ==> (r > 0 <==> Named(files, text).Some? && FreeSlot(t, 0) < MAX_FILE_DESCRIPTORS)
  {
    hide TreeOf, Bootable, Charted, Parser.ParsePath, Files.OpenCode, Files.Opened, Dependable;
    match Parser.ParsePath(CStr(text)) {
      case None =>
      case Some(path) => OpenedMeans(files, r, t, t', path, text);
    }
  }

  lemma NamedDrive(files: Files, text: seq<Byte>)
    requires Charts(files)
    ensures Named(files, text).Some? && PathReads(files, text) ==>
      var k := Named(files, text).value.drive;
      k < 2 && Dependable(files.disks[k].device, 0, |files.disks[k].device.image|)
  {
    hide Dependable, Charted, TreeOf, Bootable;
  }

  // ----- Objects behind the table -----

  /** The descriptors of the file system, and the mounts and streams behind the drives. */
  ghost function Objects(slots: seq<FileDescriptor?>, mounts: seq<FatPrivate?>): set<object>
  {
    (set d | d in slots && d != null :: d.private as object)
    + (set p: FatPrivate? | p in mounts && p != null :: p as object)
    + (set p: FatPrivate? | p in mounts && p != null :: p.stream as object)
  }

  ghost function Mounts(files: Files): (r: seq<FatPrivate?>)
    reads files.disks
    ensures |r| == |files.disks| && forall k :: 0 <= k < |r| ==> r[k] == files.disks[k].fsPrivate
  {
    seq(|files.disks|, k requires 0 <= k < |files.disks| reads files.disks => files.disks[k].fsPrivate)
  }

  /** What calls on open files may change. */
  ghost function Reach(files: Files): set<object>
    reads files.descriptors, files.disks
  {
    Objects(files.descriptors[..], Mounts(files))
  }

  /** The private descriptor of slot `r - 1`, and the mounts that are not the old ones, with their streams. */
  ghost function Added(now: seq<FileDescriptor?>, r: int, was: seq<FatPrivate?>, mounts: seq<FatPrivate?>): set<object>
    requires |was| == |mounts|
  {
    (if 0 < r <= |now| && now[r - 1] != null then {now[r - 1].private as object} else {})
    + (set k | 0 <= k < |mounts| && mounts[k] != was[k] && mounts[k] != null :: mounts[k] as object)
    + (set k | 0 <= k < |mounts| && mounts[k] != was[k] && mounts[k] != null :: mounts[k].stream as object)
  }

  lemma ReachGrows(slots: seq<FileDescriptor?>, now: seq<FileDescriptor?>, r: int, was: seq<FatPrivate?>,
          mounts: seq<FatPrivate?>)
    requires SlotFilled(slots, now, r) && |was| == |mounts|
    ensures Objects(now, mounts) <= Objects(slots, was) + Added(now, r, was, mounts)
  {
    forall d | d in now && d != null
      ensures d in slots || d.private as object in Added(now, r, was, mounts)
    {
      var i :| 0 <= i < |now| && now[i] == d;
      assert i != r - 1 ==> slots[i] == d;
    }
    forall p: FatPrivate? | p in mounts && p != null
      ensures p in was || (p as object in Added(now, r, was, mounts)
        && p.stream as object in Added(now, r, was, mounts))
    {
      var k :| 0 <= k < |mounts| && mounts[k] == p;
      assert was[k] == p || was[k] != p;
    }
  }

  lemma ReachIs(files: Files)
    ensures Reach(files) == Objects(files.descriptors[..], Mounts(files))
  {
  }

  /** Closing a file, or nothing, adds no object. */
  lemma ReachClosed(files: Files, now: seq<FileDescriptor?>, i: nat)
    requires i < |now| && (files.descriptors[..] == now[i := null] || files.descriptors[..] == now)
    ensures Reach(files) <= Objects(now, Mounts(files))
  {
    ReachShrinks(now, i, Mounts(files));
    hide Objects;
  }

  lemma ReachShrinks(slots: seq<FileDescriptor?>, i: nat, mounts: seq<FatPrivate?>)
    requires i < |slots|
    ensures Objects(slots[i := null], mounts) <= Objects(slots, mounts)
  {
    var emptied := slots[i := null];
    forall d | d in emptied && d != null
      ensures d in slots
    {
      var j :| 0 <= j < |emptied| && emptied[j] == d;
      assert slots[j] == d;
    }
  }

  /** `fopen(path, "r")`: the named file at its start, in the lowest free slot. */
  method OpenRead(files: Files, heap: KernelHeap, path: seq<Byte>)
    returns (fd: int, ghost content: seq<Byte>, ghost taken: seq<nat>)
    requires files.Valid() && heap.Valid() && 0 in path && files.Backed(Live(heap.state))
    requires Parser.HasDrive(CStr(path)) ==> Parser.ShortParts(CStr(path)[3..])
    requires heap.state.brk + OpenRoom(|CStr(path)|) < TWO_32
    modifies heap, heap.ram, files.descriptors, files.disks
    ensures files.Valid() && heap.Valid() && fd != 0 && files.Backed(Live(heap.state))
    ensures Spares(old(heap.state), old(heap.ram[..]), heap.state, heap.ram[..], Live(old(heap.state)))
    ensures SlotFilled(old(files.descriptors[..]), files.descriptors[..], fd)
    ensures fresh(Reach(files) - old(Reach(files)))
    ensures Leaves(old(heap.state), heap.state, taken, OpenGrowth(CStr(path))) && |taken| == BlocksLeft(fd)
    ensures Charts(files) && (fd > 0 ==> NamedContent(files, path) == Some(content))
    ensures fd > 0 ==>
      fd - 1 == FreeSlot(old(files.OpenFiles()), 0) && OthersKept(old(files.OpenFiles()), files.OpenFiles(), fd)
    ensures fd < 0 ==> files.OpenFiles() == old(files.OpenFiles())
    ensures fd > 0 ==>
      files.descriptors.Length == MAX_FILE_DESCRIPTORS && At(files, fd, content, 0) && fresh(files.Footprint(fd))
    ensures fd > 0 ==>
      files.GetDescriptor(fd) != null
        && taken[2..] == [files.GetDescriptor(fd).private.addr, files.GetDescriptor(fd).addr]
    ensures DrivesRead(files) || PathReads(files, path) ==>
      && (fd > 0 <==> NamedContent(files, path).Some? && FreeSlot(old(files.OpenFiles()), 0) < MAX_FILE_DESCRIPTORS)
      && (fd > 0 ==> DriveReads(files, fd))
    ensures fd > 0 ==>
      WithBlocks(heap.state, files.GetDescriptor(fd)) == OpenHeap(old(heap.state), Parser.PartCount(CStr(path)))
  {
    hide OpenHeap, WithBlocks, Parser.PartCount;
    hide Files.Valid, KernelHeap.ValidIn, Live, CStr, Parser.ParsePath, Parser.HasDrive, Parser.ShortParts;
    hide Dependable, TreeOf, Bootable;
    hide Charted, Files.OpenMeans, At, Leaves, AllBacked, OpenGrowth, OpenRoom, TableStep, Files.Holdings;
    hide Spares, SlotFilled, Objects;
    ghost var t, slots, mounts := files.OpenFiles(), files.descriptors[..], Mounts(files);
    TableSize(files);
    content := [];
    fd, taken := files.Fopen(path, ['r' as int, 0], heap);
    ReachGrows(slots, files.descriptors[..], fd, mounts, Mounts(files));
    TableSize(files);
    ghost var t' := files.OpenFiles();
    MeansOpened(files, fd, t, t', path);
    if DrivesRead(files) {
      DrivesReadPath(files, path);
    }
    if fd > 0 {
      NamedDrive(files, path);
      OpenedStart(files, fd, t'[fd - 1].value);
      content := files.ContentOf(t'[fd - 1].value);
    }
  }

  lemma TableSize(files: Files)
    requires files.Valid()
    ensures files.DrivesOk() && Charts(files) && files.descriptors.Length == MAX_FILE_DESCRIPTORS == |files.OpenFiles()|
  {
  }
}
