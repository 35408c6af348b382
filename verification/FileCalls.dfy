/** Programs of file calls (src/fs/file.c:73-184): a list of calls, executed one after the other, is a run
    of the table of open files. */
module FileCalls {
  import opened Bytes
  import opened Multiples
  import opened CStrings
  import opened DiskStreams
  import opened FatLayout
  import opened FatDirectory
  import opened Fat16
  import opened FatPaths
  import opened HeapModel
  import opened KernelHeaps
  import opened TableRuns
  import opened Vfs
  import opened FileReads
  import Parser = PathParser
  import Runs = FileRuns

  datatype Call =
    | ReadCall(fd: int, size: U32, nmemb: U32)
    | SeekCall(fd: int, offset: I32, whence: Whence)
    | CloseCall(fd: int)
    | OpenCall(path: seq<Byte>, mode: seq<Byte>)
    | ListCall(path: seq<Byte>)

  /** The text of a path or a mode ends, and no part of a path is longer than its buffer. */
  ghost predicate PathOk(path: seq<Byte>)
  {
    0 in path && (Parser.HasDrive(CStr(path)) ==> Parser.ShortParts(CStr(path)[3..]))
  }

  ghost predicate CallOk(call: Call)
  {
    match call
    case ReadCall(_, size, nmemb) => Asked(size, nmemb) < 0x8000_0000
    case OpenCall(path, mode) => PathOk(path) && 0 in mode
    case ListCall(path) => PathOk(path)
    case _ => true
  }

  /** Room on the heap for a call. */
  function CallRoom(call: Call): nat
  {
    match call
    case OpenCall(path, _) => OpenRoom(|CStr(path)|)
    case ListCall(path) => OpenRoom(|CStr(path)|)
    case _ => 0
  }

  function CallsRoom(calls: seq<Call>): nat
  {
    if calls == [] then 0 else CallRoom(calls[0]) + CallsRoom(calls[1..])
  }

  /** Every chain of both volumes is shorter than 2 GiB. */
  predicate ShortChains(volumes: seq<Volume>)
  {
    forall k, h :: 0 <= k < |volumes| && h in volumes[k].chains ==>
      Times(|volumes[k].chains[h]|, ClusterSize(volumes[k].bpb)) < 0x8000_0000
  }

  predicate IsOpen(t: Table, fd: int)
  {
    1 <= fd <= |t| && t[fd - 1].Some?
  }

  /** Every sector of the drive reads. */
  ghost predicate Reliable(files: Files, k: nat)
  {
    k < |files.disks| && Dependable(files.disks[k].device, 0, |files.disks[k].device.image|)
  }

  /** What a call answers, between the tables `t` and `t'`, is what its event says. A read delivers all it is
      asked for, up to the end of the file, if the drive is reliable; an open call opens the file that its
      path leads to, or says why not; a list call prints what the directory at its path holds. */
  ghost predicate Answers(files: Files, call: Call, t: Table, e: TableEvent, t': Table, result: int, out: seq<Byte>)
  {
    match call
    case ReadCall(fd, size, nmemb) =>
      if IsOpen(t, fd) then
        && e.On? && e.fd == fd && e.ev.Read? && e.ev.asked == Asked(size, nmemb)
        && result == WholeItems(|e.ev.data|, size) && |e.ev.data| <= |out| && out[..|e.ev.data|] == e.ev.data
        && var f := t[fd - 1].value;
           && f.cursor.pos <= f.item.filesize
           && (Reliable(files, f.drive) ==> |e.ev.data| == Min(Asked(size, nmemb), f.item.filesize - f.cursor.pos))
      else e == Idle && result == -1
    case SeekCall(fd, offset, whence) =>
      if IsOpen(t, fd) then
        && e.On? && e.fd == fd && e.ev.Seek? && result == (if e.ev.accepted then 0 else -1)
        && var f := t[fd - 1].value;
           f.cursor.pos < TWO_32 && e.ev.target == SeekTarget(f.cursor.pos, f.item.filesize, offset, whence)
      else e == Idle && result == -1
    case CloseCall(fd) => e == (if IsOpen(t, fd) then ClosedAt(fd) else Idle) && result ==
      if IsOpen(t, fd) then 0 else -1
    case OpenCall(path, mode) =>
      && e == (if result > 0 then OpenedAt(result) else Idle) && 0 in path && 0 in mode
      && files.DevicesOk() && |t| == MAX_FILE_DESCRIPTORS
      && files.OpenMeans(result, t, t', Parser.ParsePath(CStr(path)), ParseMode(mode))
    case ListCall(path) =>
      e == Idle && 0 in path && files.DevicesOk() && files.ListMeans(result, out, Parser.ParsePath(CStr(path)))
  }

  // ----- One call -----

  lemma FootprintReached(files: Files, fd: int)
    requires files.Valid() && |files.disks| == 2
    ensures files.Footprint(fd) <= Reach(files)
  {
    hide DescOk, DriveOk;
    var f := files.GetDescriptor(fd);
    if f != null {
      assert files.SlotOk(f, fd - 1);
      assert f in files.descriptors[..] && f.private as object in Reach(files);
      assert Mounts(files)[f.drive] == f.disk.fsPrivate && f.disk.fsPrivate in Mounts(files);
      assert f.disk.fsPrivate as object in Reach(files) && f.disk.fsPrivate.stream as object in Reach(files);
    }
  }

  lemma SlotShort(files: Files, fd: int)
    requires files.Valid() && files.GetDescriptor(fd) != null && ShortChains(files.volumes)
    ensures files.GetDescriptor(fd).private.pos <= files.GetDescriptor(fd).private.item.filesize < 0x8000_0000
  {
    files.SlotFacts(fd);
    var f := files.GetDescriptor(fd);
    DescFacts(f.private, f.disk.fsPrivate, files.volumes[f.drive]);
    ContentShort(f.private, f.disk.fsPrivate, files.volumes[f.drive]);
  }

  lemma ContentShort(desc: FatFileDescriptor, p: FatPrivate, v: Volume)
    requires DescOk(desc, p, v)
    requires forall h :: h in v.chains ==> Times(|v.chains[h]|, ClusterSize(v.bpb)) < 0x8000_0000
    ensures desc.item.filesize < 0x8000_0000
  {
  }

  lemma OpenIs(files: Files, fd: int)
    requires files.Valid()
    ensures files.descriptors.Length == MAX_FILE_DESCRIPTORS == |files.OpenFiles()|
    ensures IsOpen(files.OpenFiles(), fd) <==> files.GetDescriptor(fd) != null
  {
  }

  method PerformRead(files: Files, fd: int, size: U32, nmemb: U32, buffer: array<Byte>)
    returns (result: int, ghost e: TableEvent)
    requires files.Valid() && ShortChains(files.volumes) && Asked(size, nmemb) < 0x8000_0000
      && buffer.Length == Asked(size, nmemb)
    modifies buffer, files.Footprint(fd)
    ensures files.Valid() && TableStep(files.Holdings(), old(files.OpenFiles()), e, files.OpenFiles())
    ensures Reach(files) == old(Reach(files))
    ensures Answers(files, ReadCall(fd, size, nmemb), old(files.OpenFiles()), e, files.OpenFiles(), result, buffer[..])
  {
    hide Files.Valid, TableStep, Files.Holdings, Asked, WholeItems, ShortChains, Runs.Step, Dependable, Bootable;
    hide Files.ContentOf;
    OpenIs(files, fd);
    if files.GetDescriptor(fd) != null {
      SlotShort(files, fd);
    }
    ghost var data, cost;
    result, data, cost := files.Fread(buffer, 0, size, nmemb, fd);
    e := if files.GetDescriptor(fd) == null then Idle else On(fd, Runs.Read(Asked(size, nmemb), data, cost));
  }

  method PerformSeek(files: Files, fd: int, offset: I32, whence: Whence) returns (result: int, ghost e: TableEvent)
    requires files.Valid() && ShortChains(files.volumes)
    modifies files.Footprint(fd)
    ensures files.Valid() && TableStep(files.Holdings(), old(files.OpenFiles()), e, files.OpenFiles())
    ensures Reach(files) == old(Reach(files))
    ensures Answers(files, SeekCall(fd, offset, whence), old(files.OpenFiles()), e, files.OpenFiles(), result, [])
  {
    hide Files.Valid, TableStep, Files.Holdings, ShortChains, SeekTarget, SeekAccepts;
    OpenIs(files, fd);
    ghost var t := files.OpenFiles();
    if files.GetDescriptor(fd) != null {
      SlotShort(files, fd);
    }
    result := files.Fseek(fd, offset, whence);
    e := if files.GetDescriptor(fd) == null then Idle
      else On(fd, files.SeekEvent(t[fd - 1].value, offset, whence, result));
  }

  /** The blocks of an open file are none of `rest`. */
  lemma CloseSpares(slots: seq<FileDescriptor?>, fd: int, desc: FileDescriptor?, live: set<nat>, rest: set<nat>)
    requires AllBacked(slots, live - rest) && rest <= live && |slots| == MAX_FILE_DESCRIPTORS
    requires desc == if fd <= 0 || fd > MAX_FILE_DESCRIPTORS then null else slots[fd - 1]
    ensures desc != null ==>
      && AllBacked(slots[fd - 1 := null], live - desc.Blocks() - rest) && rest <= live - desc.Blocks()
  {
    if desc != null {
      BackedRemoved(slots, fd - 1, live - rest);
      assert live - rest - desc.Blocks() == live - desc.Blocks() - rest;
    }
  }

  method PerformClose(files: Files, heap: KernelHeap, fd: int, ghost rest: set<nat>)
    returns (result: int, ghost e: TableEvent)
    requires files.Valid() && heap.Valid() && files.Backed(Live(heap.state) - rest) && rest <= Live(heap.state)
    modifies heap, heap.ram, files.descriptors
    ensures files.Valid() && heap.Valid() && files.Backed(Live(heap.state) - rest) && Reach(files) <= old(Reach(files))
    ensures rest <= Live(heap.state) && Spares(old(heap.state), old(heap.ram[..]), heap.state, heap.ram[..], rest)
    ensures heap.state.brk == old(heap.state).brk
    ensures TableStep(files.Holdings(), old(files.OpenFiles()), e, files.OpenFiles())
    ensures Answers(files, CloseCall(fd), old(files.OpenFiles()), e, files.OpenFiles(), result, [])
  {
    hide Files.Valid, KernelHeap.ValidIn, Live, AllBacked, Release, ClearOfHeaders, TableStep, Files.Holdings, Spares;
    Separate(files, heap);
    OpenIs(files, fd);
    ghost var h, m, slots := heap.state, heap.ram[..], files.descriptors[..];
    BackedMore(slots, Live(h) - rest, Live(h));
    CloseSpares(slots, fd, files.GetDescriptor(fd), Live(h), rest);
    SparesSame(h, m, rest);
    ghost var desc := files.GetDescriptor(fd);
    result := files.Fclose(fd, heap);
    assert Live(h) - {} == Live(h);
    SparesLess(h, m, heap.state, heap.ram[..], Live(h) - (if result == 0 then desc.Blocks() else {}), rest);
    e := if result == 0 then ClosedAt(fd) else Idle;
    BreakMoved(h, heap.state, 0);
    assert forall i :: 0 <= i < files.descriptors.Length ==> files.descriptors[i] == files.descriptors[..][i];
    assert forall i :: 0 <= i < |slots| ==> slots[i] == old(files.descriptors[i]);
  }

  lemma OpenAnswers(files: Files, path: seq<Byte>, mode: seq<Byte>, t: Table, t': Table, result: int)
    requires 0 in path && 0 in mode && files.DevicesOk() && |t| == MAX_FILE_DESCRIPTORS
    requires files.OpenMeans(result, t, t', Parser.ParsePath(CStr(path)), ParseMode(mode))
    ensures Answers(files, OpenCall(path, mode), t, if result > 0 then OpenedAt(result) else Idle, t', result, [])
  {
    hide Files.DevicesOk, Files.OpenMeans, CStr;
  }

  method PerformOpen(files: Files, heap: KernelHeap, path: seq<Byte>, mode: seq<Byte>, ghost rest: set<nat>)
    returns (result: int, ghost e: TableEvent, ghost born: set<object>)
    requires files.Valid() && heap.Valid() && files.Backed(Live(heap.state) - rest) && rest <= Live(heap.state)
    requires PathOk(path) && 0 in mode && heap.state.brk + OpenRoom(|CStr(path)|) < TWO_32
    modifies heap, heap.ram, files.descriptors, files.disks
    ensures rest <= Live(heap.state) && Spares(old(heap.state), old(heap.ram[..]), heap.state, heap.ram[..], rest)
    ensures files.Valid() && heap.Valid() && files.Backed(Live(heap.state) - rest) && fresh(born)
      && Reach(files) <= old(Reach(files)) + born
    ensures heap.state.brk <= old(heap.state).brk + OpenRoom(|CStr(path)|)
    ensures TableStep(files.Holdings(), old(files.OpenFiles()), e, files.OpenFiles())
    ensures Answers(files, OpenCall(path, mode), old(files.OpenFiles()), e, files.OpenFiles(), result, [])
  {
    hide Files.Valid, SlotFilled, SlotsStay, Objects, KernelHeap.ValidIn, Live, AllBacked, Leaves, TableStep;
    hide Files.Holdings, Files.OpenMeans, Files.DevicesOk, CStr, OpenGrowth, OpenRoom, Answers, Parser.ParsePath;
    hide OpenHeap;
    hide WithBlocks, Parser.PartCount, Spares;
    Separate(files, heap);
    files.InOrder();
    ghost var h, m, t, slots, mounts :=
      heap.state, heap.ram[..], files.OpenFiles(), files.descriptors[..], Mounts(files);
    ghost var taken;
    BackedMore(slots, Live(h) - rest, Live(h));
    result, taken := files.Fopen(path, mode, heap);
    SparesLess(h, m, heap.state, heap.ram[..], Live(h), rest);
    e := if result > 0 then OpenedAt(result) else Idle;
    LeavesFacts(h, heap.state, taken, OpenGrowth(CStr(path)));
    GrowthFits(CStr(path));
    if result > 0 {
      OpenedBlocks(files.GetDescriptor(result), taken, Live(h));
    }
    FilledStays(slots, files.descriptors[..], result, Live(h));
    KeptSpares(slots, files.descriptors[..], Live(h), Live(heap.state), rest);
    OpenAnswers(files, path, mode, t, files.OpenFiles(), result);
    ReachGrows(slots, files.descriptors[..], result, mounts, Mounts(files));
    born := Added(files.descriptors[..], result, mounts, Mounts(files));
  }

  method PerformList(files: Files, heap: KernelHeap, path: seq<Byte>, ghost rest: set<nat>)
    returns (result: int, out: seq<Byte>, ghost e: TableEvent, ghost born: set<object>)
    requires files.Valid() && heap.Valid() && files.Backed(Live(heap.state) - rest) && rest <= Live(heap.state)
    requires PathOk(path) && heap.state.brk + OpenRoom(|CStr(path)|) < TWO_32
    modifies heap, heap.ram, files.disks
    ensures rest <= Live(heap.state) && Spares(old(heap.state), old(heap.ram[..]), heap.state, heap.ram[..], rest)
    ensures files.Valid() && heap.Valid() && files.Backed(Live(heap.state) - rest) && fresh(born)
      && Reach(files) <= old(Reach(files)) + born
    ensures heap.state.brk <= old(heap.state).brk + OpenRoom(|CStr(path)|)
    ensures TableStep(files.Holdings(), old(files.OpenFiles()), e, files.OpenFiles())
    ensures Answers(files, ListCall(path), old(files.OpenFiles()), e, files.OpenFiles(), result, out)
  {
    hide Files.Valid, SlotFilled, Objects, KernelHeap.ValidIn, Live, AllBacked, Leaves, TableStep, Files.Holdings;
    hide CStr, Dependable, Bootable, TreeOf, WalkDirectory, LiveItems, Text, Spares;
    Separate(files, heap);
    files.InOrder();
    ghost var h, m, slots, mounts := heap.state, heap.ram[..], files.descriptors[..], Mounts(files);
    ghost var taken;
    result, out, taken := files.FsList(path, heap);
    e := Idle;
    LeavesFacts(h, heap.state, taken, Parser.Growth(CStr(path)) + MOUNT_GROWTH);
    GrowthFits(CStr(path));
    BackedMore(files.descriptors[..], Live(h) - rest, Live(heap.state) - rest);
    SparesLess(h, m, heap.state, heap.ram[..], Live(h), rest);
    ReachGrows(slots, files.descriptors[..], 0, mounts, Mounts(files));
    born := Added(files.descriptors[..], 0, mounts, Mounts(files));
  }

  /** One call. What it may reach afterwards is what could be reached before, and new objects. */
  method Perform(files: Files, heap: KernelHeap, call: Call, ghost rest: set<nat>)
    returns (result: int, out: seq<Byte>, ghost e: TableEvent, ghost born: set<object>)
    requires files.Valid() && heap.Valid() && files.Backed(Live(heap.state) - rest) && rest <= Live(heap.state)
    requires ShortChains(files.volumes)
    requires CallOk(call) && heap.state.brk + CallRoom(call) < TWO_32
    modifies heap, heap.ram, files.descriptors, files.disks, Reach(files)
    ensures rest <= Live(heap.state) && Spares(old(heap.state), old(heap.ram[..]), heap.state, heap.ram[..], rest)
    ensures files.Valid() && heap.Valid() && files.Backed(Live(heap.state) - rest) && fresh(born)
      && Reach(files) <= old(Reach(files)) + born
    ensures heap.state.brk <= old(heap.state).brk + CallRoom(call)
    ensures TableStep(files.Holdings(), old(files.OpenFiles()), e, files.OpenFiles())
    ensures Answers(files, call, old(files.OpenFiles()), e, files.OpenFiles(), result, out)
  {
    hide Files.Valid, KernelHeap.ValidIn, Live, AllBacked, TableStep, Files.Holdings, ShortChains, Reach, CStr;
    hide OpenRoom, Asked, WholeItems, PathOk, Spares;
    SparesSame(heap.state, heap.ram[..], rest);
    Separate(files, heap);
    files.InOrder();
    born := {};
    match call {
      case ReadCall(fd, size, nmemb) =>
        FootprintReached(files, fd);
        var buffer := new Byte[Asked(size, nmemb)];
        result, e := PerformRead(files, fd, size, nmemb, buffer);
        out := buffer[..];
      case SeekCall(fd, offset, whence) =>
        FootprintReached(files, fd);
        result, e := PerformSeek(files, fd, offset, whence);
        out := [];
      case CloseCall(fd) =>
        result, e := PerformClose(files, heap, fd, rest);
        out := [];
      case OpenCall(path, mode) =>
        result, e, born := PerformOpen(files, heap, path, mode, rest);
        out := [];
      case ListCall(path) =>
        result, out, e, born := PerformList(files, heap, path, rest);
    }
  }

  // ----- A list of calls -----

  /** The events `es` through the tables `ts` are what the calls did and answered. */
  ghost predicate Performed(files: Files, calls: seq<Call>, results: seq<int>, outs: seq<seq<Byte>>, ts: seq<Table>,
          es: seq<TableEvent>)
  {
    && |es| == |calls| == |results| == |outs| && TableRun(files.Holdings(), ts, es)
    && forall i :: 0 <= i < |calls| ==> Answers(files, calls[i], ts[i], es[i], ts[i + 1], results[i], outs[i])
  }

  lemma PerformedNone(files: Files, t: Table)
    ensures Performed(files, [], [], [], [t], [])
  {
  }

  lemma PerformedFirst(files: Files, calls: seq<Call>, results: seq<int>, outs: seq<seq<Byte>>, ts: seq<Table>,
          es: seq<TableEvent>, t: Table, e: TableEvent, result: int, out: seq<Byte>)
    requires calls != [] && Performed(files, calls[1..], results, outs, ts, es)
    requires TableStep(files.Holdings(), t, e, ts[0]) && Answers(files, calls[0], t, e, ts[0], result, out)
    ensures Performed(files, calls, [result] + results, [out] + outs, [t] + ts, [e] + es)
  {
    hide TableStep, Answers, Files.Holdings;
    var rs, os, us, fs := [result] + results, [out] + outs, [t] + ts, [e] + es;
    forall i | 0 <= i < |calls|
      ensures TableStep(files.Holdings(), us[i], fs[i], us[i + 1])
        && Answers(files, calls[i], us[i], fs[i], us[i + 1], rs[i], os[i])
    {
      if i > 0 {
        assert calls[i] == calls[1..][i - 1] && us[i] == ts[i - 1] && us[i + 1] == ts[i] && fs[i] == es[i - 1];
      }
    }
  }

  /** Any list of file calls is a run of the table: each call is one step, from the table the one before
      left. So what holds over every run of the table holds over every list of calls. Blocks that belong to no
      open file, `rest`, stay live and keep every byte. */
  method RunCalls(files: Files, heap: KernelHeap, calls: seq<Call>, ghost rest: set<nat>)
    returns (results: seq<int>, outs: seq<seq<Byte>>, ghost ts: seq<Table>, ghost es: seq<TableEvent>,
          ghost born: set<object>)
    requires files.Valid() && heap.Valid() && files.Backed(Live(heap.state) - rest) && rest <= Live(heap.state)
    requires ShortChains(files.volumes)
    requires (forall i :: 0 <= i < |calls| ==> CallOk(calls[i])) && heap.state.brk + CallsRoom(calls) < TWO_32
    modifies heap, heap.ram, files.descriptors, files.disks, Reach(files)
    ensures rest <= Live(heap.state) && Spares(old(heap.state), old(heap.ram[..]), heap.state, heap.ram[..], rest)
    ensures files.Valid() && heap.Valid() && files.Backed(Live(heap.state) - rest) && fresh(born)
      && Reach(files) <= old(Reach(files)) + born
    ensures Performed(files, calls, results, outs, ts, es)
    ensures |ts| == |es| + 1 == |calls| + 1 && ts[0] == old(files.OpenFiles()) && ts[|calls|] == files.OpenFiles()
    decreases |calls|
  {
    hide Files.Valid, KernelHeap.ValidIn, Live, AllBacked, TableStep, Files.Holdings, ShortChains, Reach, CallOk;
    hide CallRoom, Performed, Answers, Spares;
    ghost var t, h, m := files.OpenFiles(), heap.state, heap.ram[..];
    if calls == [] {
      PerformedNone(files, t);
      SparesSame(h, m, rest);
      return [], [], [t], [], {};
    }
    var result, out;
    ghost var e, first;
    result, out, e, first := Perform(files, heap, calls[0], rest);
    ghost var h1, m1 := heap.state, heap.ram[..];
    results, outs, ts, es, born := RunCalls(files, heap, calls[1..], rest);
    SparesTwice(h, m, h1, m1, heap.state, heap.ram[..], rest, rest);
    PerformedFirst(files, calls, results, outs, ts, es, t, e, result, out);
    results, outs, ts, es, born := [result] + results, [out] + outs, [t] + ts, [e] + es, first + born;
  }

  // ----- One file among many -----

  /** The calls leave descriptor `fd` open and only read on it; on others they do as they like. */
  predicate OnlyReads(fd: int, calls: seq<Call>)
  {
    forall i :: 0 <= i < |calls| ==> calls[i] != CloseCall(fd) && (calls[i].SeekCall? ==> calls[i].fd != fd)
  }

  /** One call that does not close `fd` leaves it open; its event on `fd` is a read. */
  lemma CallKeepsOpen(files: Files, drives: Drives, call: Call, t: Table, e: TableEvent, t': Table, result: int,
          out: seq<Byte>, fd: nat)
    requires TableStep(drives, t, e, t') && Answers(files, call, t, e, t', result, out) && IsOpen(t, fd)
    requires call != CloseCall(fd) && (call.SeekCall? ==> call.fd != fd)
    ensures e != OpenedAt(fd) && e != ClosedAt(fd) && IsOpen(t', fd) && (e.On? && e.fd == fd ==> e.ev.Read?)
  {
    hide Runs.Step, Asked, WholeItems, SeekTarget, Files.ListMeans, Files.OpenMeans, CStr, Parser.ParsePath, Reliable;
  }

  lemma {:induction false} CallsKeepOpen(files: Files, calls: seq<Call>, results: seq<int>, outs: seq<seq<Byte>>,
          ts: seq<Table>, es: seq<TableEvent>, fd: nat, n: nat)
    requires Performed(files, calls, results, outs, ts, es) && OnlyReads(fd, calls) && IsOpen(ts[0], fd) && n <= |es|
    ensures IsOpen(ts[n], fd)
    ensures forall i :: 0 <= i < n ==>
      es[i] != OpenedAt(fd) && es[i] != ClosedAt(fd) && (es[i].On? && es[i].fd == fd ==> es[i].ev.Read?)
  {
    hide TableStep, Answers, Files.Holdings;
    if n > 0 {
      CallsKeepOpen(files, calls, results, outs, ts, es, fd, n - 1);
      CallKeepsOpen(files, files.Holdings(), calls[n - 1], ts[n - 1], es[n - 1], ts[n], results[n - 1], outs[n - 1],
        fd);
    }
  }

  lemma {:induction false} AllReads(fd: nat, es: seq<TableEvent>)
    requires forall i :: 0 <= i < |es| && es[i].On? && es[i].fd == fd ==> es[i].ev.Read?
    ensures forall i :: 0 <= i < |EventsOn(fd, es)| ==> EventsOn(fd, es)[i].Read?
  {
    if es != [] {
      AllReads(fd, es[..|es| - 1]);
    }
  }

  lemma OpenFileFacts(files: Files, fd: nat)
    requires files.Valid() && IsOpen(files.OpenFiles(), fd)
    ensures var f := files.OpenFiles()[fd - 1].value;
            f.cursor.pos <= |files.Holdings().content(f.drive, f.item)| == f.item.filesize
              && files.Holdings().size(f.drive) > 0
  {
    OpenIs(files, fd);
    files.SlotFacts(fd);
    files.SlotSize(fd);
    var d := files.GetDescriptor(fd);
    files.HoldingsAre(files.OpenFiles()[fd - 1].value);
    DescFacts(d.private, d.disk.fsPrivate, files.volumes[d.drive]);
    SizePositive(d.disk.fsPrivate, files.volumes[d.drive]);
  }

  lemma SizePositive(p: FatPrivate, v: Volume)
    requires Mounted(p, v)
    ensures ClusterSize(v.bpb) > 0
  {
  }

  /** What the reads of a run on one descriptor delivered and cost, from file `f` on to `f'`. */
  ghost predicate ReadOn(files: Files, f: OpenFile, f': OpenFile, evs: seq<Runs.Event>)
  {
    var content, size := files.Holdings().content(f.drive, f.item), files.Holdings().size(f.drive);
    && f'.drive == f.drive && f'.item == f.item && |content| == f.item.filesize && size > 0
    && f.cursor.pos <= f'.cursor.pos <= |content| && Runs.Delivered(evs) == content[f.cursor.pos..f'.cursor.pos]
    && (f.cursor == Runs.Cursor(0, 0) ==>
      0 <= Runs.Cost(evs) <= if content == [] then 0 else (|content| + size - 1) / size - 1)
  }

  /** Whatever a list of calls does to other descriptors, opens and closes, its reads on one descriptor that
      stays open deliver, taken together, one slice of its file, from where it stood to where it ends; and
      if it stood at the start, they fetch at most one table entry less than the file has clusters. */
  method ReadAmong(files: Files, heap: KernelHeap, calls: seq<Call>, fd: int)
    returns (results: seq<int>, outs: seq<seq<Byte>>, ghost ts: seq<Table>, ghost es: seq<TableEvent>)
    requires files.Valid() && heap.Valid() && files.Backed(Live(heap.state)) && ShortChains(files.volumes)
    requires (forall i :: 0 <= i < |calls| ==> CallOk(calls[i])) && heap.state.brk + CallsRoom(calls) < TWO_32
    requires IsOpen(files.OpenFiles(), fd) && OnlyReads(fd, calls)
    modifies heap, heap.ram, files.descriptors, files.disks, Reach(files)
    ensures files.Valid() && heap.Valid() && Performed(files, calls, results, outs, ts, es)
    ensures IsOpen(files.OpenFiles(), fd)
    ensures ReadOn(files, old(files.OpenFiles()[fd - 1].value), files.OpenFiles()[fd - 1].value, EventsOn(fd, es))
  {
    hide Files.Valid, KernelHeap.ValidIn, Live, AllBacked, ShortChains, Reach, CallOk, CallsRoom, OnlyReads;
    hide Performed, ReadOn, EventsOn, Files.Holdings;
    OpenFileFacts(files, fd);
    ghost var t := files.OpenFiles();
    ghost var born;
    assert Live(heap.state) - {} == Live(heap.state);
    results, outs, ts, es, born := RunCalls(files, heap, calls, {});
    RunReads(files, calls, results, outs, ts, es, fd);
  }

  lemma RunReads(files: Files, calls: seq<Call>, results: seq<int>, outs: seq<seq<Byte>>, ts: seq<Table>,
          es: seq<TableEvent>, fd: nat)
    requires Performed(files, calls, results, outs, ts, es) && OnlyReads(fd, calls) && IsOpen(ts[0], fd)
    requires var f := ts[0][fd - 1].value;
             f.cursor.pos <= |files.Holdings().content(f.drive, f.item)| == f.item.filesize
               && files.Holdings().size(f.drive) > 0
    ensures IsOpen(ts[|es|], fd) && ReadOn(files, ts[0][fd - 1].value, ts[|es|][fd - 1].value, EventsOn(fd, es))
  {
    hide TableStep, Answers, Files.Holdings, OnlyReads, EventsOn, Runs.Run, Runs.Cost, Runs.Delivered;
    var drives, f := files.Holdings(), ts[0][fd - 1].value;
    CallsKeepOpen(files, calls, results, outs, ts, es, fd, |es|);
    AllReads(fd, es);
    var cs := Alone(drives, ts, es, fd);
    AloneDelivers(drives, ts, es, fd);
    if f.cursor == Runs.Cursor(0, 0) {
      AloneCost(drives, ts, es, fd);
    }
  }
}
