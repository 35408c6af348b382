/** Loads and file calls in any order: every process that was loaded stays in memory as it was. */
module Sessions {
  import opened Bytes
  import opened CStrings
  import opened Fat16
  import opened FatPaths
  import opened HeapModel
  import opened KernelHeaps
  import opened TableRuns
  import opened Vfs
  import opened FileReads
  import opened FileCalls
  import opened Paging
  import opened ProcessMemory
  import opened ElfLoader
  import opened ProcessLoader
  import Parser = PathParser

  // ----- The blocks of a process -----

  ghost function PagesOfSpace(s: Space): set<nat>
  {
    {s.dir} + set d | d in s.tables :: s.tables[d]
  }

  ghost function SegmentBlocks(segs: seq<Segment>): set<nat>
  {
    set j | 0 <= j < |segs| :: segs[j].phys
  }

  /** The page directory, the page tables and the segments. */
  ghost function ProcessBlocks(s: Space, segs: seq<Segment>): set<nat>
  {
    PagesOfSpace(s) + SegmentBlocks(segs)
  }

  lemma SpaceSpared(m: seq<Byte>, h: Heap, m': seq<Byte>, h': Heap, s: Space, kept: set<nat>)
    requires SpaceOk(m, h, s) && Spares(h, m, h', m', kept) && PagesOfSpace(s) <= kept && Inv(h') && Indexed(h')
    ensures SpaceOwned(h', s) && forall x :: 0 <= x < |m| && InSpace(s, x) ==> m'[x] == m[x]
  {
    hide Owns, Inv, Indexed, DirectoryOk;
    assert Owns(h, s.dir, PAGE) && s.dir in kept;
    assert SameBytes(m, m', s.dir, PAGE);
    forall d | d in s.tables
      ensures OwnsPage(h', s.tables[d]) && SameBytes(m, m', s.tables[d], PAGE)
    {
      assert Owns(h, s.tables[d], PAGE) && s.tables[d] in kept;
    }
  }

  lemma HeldSpared(m: seq<Byte>, h: Heap, m': seq<Byte>, h': Heap, s: Space, content: seq<Byte>, g: Segment,
          kept: set<nat>)
    requires Held(m, h, s, content, g) && Spares(h, m, h', m', kept) && g.phys in kept
    ensures Held(m', h', s, content, g)
  {
    hide Owns, Beside, Filled;
    FilledInside(m, content, g);
    assert SameBytes(m, m', g.phys, g.memsz);
    FilledKept(m, m', content, g);
  }

  /** What spares the blocks of a process spares the process. */
  lemma PreparedSpared(m: seq<Byte>, h: Heap, m': seq<Byte>, h': Heap, s: Space, dir: nat, sets: seq<PageSet>,
          content: seq<Byte>, segs: seq<Segment>, rest: set<nat>, kept: set<nat>)
    requires PreparedIn(m, h, s, dir, sets, content, segs, rest) && Spares(h, m, h', m', kept)
    requires ProcessBlocks(s, segs) + rest <= kept && Inv(h') && Indexed(h')
    ensures PreparedIn(m', h', s, dir, sets, content, segs, rest)
  {
    hide Owns, Inv, Indexed, DirectoryOk, Held, Flat, SameBytes, SpaceOwned, Beside, InSpace;
    SpaceSpared(m, h, m', h', s, kept);
    SpaceUnchanged(m, m', h, h', s);
    FlatSame(m, m', s, s, sets);
    forall j | 0 <= j < |segs|
      ensures Held(m', h', s, content, segs[j])
    {
      assert segs[j].phys in SegmentBlocks(segs);
      HeldSpared(m, h, m', h', s, content, segs[j], kept);
    }
  }

  /** The process holds the file, in these bytes of memory and this heap. */
  ghost predicate HoldsIn(m: seq<Byte>, h: Heap, proc: Process, content: seq<Byte>, s: Space, segs: seq<Segment>,
          rest: set<nat>)
  {
    && |content| >= 4
    && if IsElf(content) then HoldsElfIn(m, h, proc, content, s, segs, rest)
       else |segs| == 1 && HoldsRawIn(m, h, proc, content, s, segs[0], rest)
  }

  lemma HoldsIsIn(heap: KernelHeap, proc: Process, content: seq<Byte>, s: Space, segs: seq<Segment>, rest: set<nat>)
    ensures HoldsProgram(heap, proc, content, s, segs, rest) <==>
            heap.Valid() && HoldsIn(heap.ram[..], heap.state, proc, content, s, segs, rest)
  {
    hide HoldsElfIn, HoldsRawIn, IsElf, KernelHeap.ValidIn;
  }

  /** The page settings of a loaded process. */
  function SetsOf(content: seq<Byte>, segs: seq<Segment>): seq<PageSet>
    requires |content| >= 4 && (!IsElf(content) ==> |segs| == 1)
  {
    if IsElf(content) then [ScreenSet()] + AllSets(segs)
    else SegmentSets(LOAD_ADDRESS, segs[0].phys, PagesOf(|content|)) + [ScreenSet()]
  }

  lemma HoldsPrepared(m: seq<Byte>, h: Heap, proc: Process, content: seq<Byte>, s: Space, segs: seq<Segment>,
          rest: set<nat>)
    requires HoldsIn(m, h, proc, content, s, segs, rest)
    ensures PreparedIn(m, h, s, proc.directory, SetsOf(content, segs), content, segs, rest)
  {
    hide PreparedIn, IsElf, ElfOk, LoadedUpTo, AllSets, SegmentSets;
    assert !IsElf(content) ==> segs == [segs[0]];
  }

  lemma PreparedHolds(m: seq<Byte>, h: Heap, m': seq<Byte>, h': Heap, proc: Process, content: seq<Byte>, s: Space,
          segs: seq<Segment>, rest: set<nat>, less: set<nat>)
    requires HoldsIn(m, h, proc, content, s, segs, rest)
    requires PreparedIn(m', h', s, proc.directory, SetsOf(content, segs), content, segs, less)
    ensures HoldsIn(m', h', proc, content, s, segs, less)
  {
    hide PreparedIn, IsElf, ElfOk, LoadedUpTo, AllSets, SegmentSets;
    assert !IsElf(content) ==> segs == [segs[0]];
  }

  /** What spares the blocks of a process spares the process. */
  lemma HoldsSpared(m: seq<Byte>, h: Heap, m': seq<Byte>, h': Heap, proc: Process, content: seq<Byte>, s: Space,
          segs: seq<Segment>, rest: set<nat>, kept: set<nat>)
    requires HoldsIn(m, h, proc, content, s, segs, rest) && Spares(h, m, h', m', kept)
    requires ProcessBlocks(s, segs) + rest <= kept && Inv(h') && Indexed(h')
    ensures HoldsIn(m', h', proc, content, s, segs, rest)
  {
    hide HoldsIn, PreparedIn, Spares, SetsOf, ProcessBlocks, Inv, Indexed;
    HoldsSize(m, h, proc, content, s, segs, rest);
    HoldsPrepared(m, h, proc, content, s, segs, rest);
    PreparedSpared(m, h, m', h', s, proc.directory, SetsOf(content, segs), content, segs, rest, kept);
    PreparedHolds(m, h, m', h', proc, content, s, segs, rest, rest);
  }

  lemma HoldsSize(m: seq<Byte>, h: Heap, proc: Process, content: seq<Byte>, s: Space, segs: seq<Segment>,
          rest: set<nat>)
    requires HoldsIn(m, h, proc, content, s, segs, rest)
    ensures |content| >= 4 && (!IsElf(content) ==> |segs| == 1)
  {
    hide HoldsElfIn, HoldsRawIn, IsElf;
  }

  lemma HoldsLess(m: seq<Byte>, h: Heap, proc: Process, content: seq<Byte>, s: Space, segs: seq<Segment>,
          rest: set<nat>, less: set<nat>)
    requires HoldsIn(m, h, proc, content, s, segs, rest) && less <= rest
    ensures HoldsIn(m, h, proc, content, s, segs, less)
  {
    hide HoldsIn, PreparedIn, SetsOf;
    HoldsSize(m, h, proc, content, s, segs, rest);
    HoldsPrepared(m, h, proc, content, s, segs, rest);
    PreparedLess(m, h, s, proc.directory, SetsOf(content, segs), content, segs, rest, less);
    PreparedHolds(m, h, m, h, proc, content, s, segs, rest, less);
  }

  /** The blocks of a process are live, and none of those beside it. */
  lemma BlocksLive(m: seq<Byte>, h: Heap, proc: Process, content: seq<Byte>, s: Space, segs: seq<Segment>,
          rest: set<nat>)
    requires HoldsIn(m, h, proc, content, s, segs, rest) && h.brk < TWO_32
    ensures ProcessBlocks(s, segs) <= Live(h) && ProcessBlocks(s, segs) !! rest
  {
    hide HoldsIn, PreparedIn, SetsOf;
    HoldsSize(m, h, proc, content, s, segs, rest);
    HoldsPrepared(m, h, proc, content, s, segs, rest);
    PreparedBlocks(m, h, s, proc.directory, SetsOf(content, segs), content, segs, rest);
  }

  lemma PreparedBlocks(m: seq<Byte>, h: Heap, s: Space, dir: nat, sets: seq<PageSet>, content: seq<Byte>,
          segs: seq<Segment>, rest: set<nat>)
    requires PreparedIn(m, h, s, dir, sets, content, segs, rest) && h.brk < TWO_32
    ensures ProcessBlocks(s, segs) <= Live(h) && ProcessBlocks(s, segs) !! rest
  {
    hide Inv, Owns, DirectoryOk, Flat, Filled, Live, Indexed;
    forall a | a in ProcessBlocks(s, segs)
      ensures a in Live(h) && a !in rest
    {
      BlockOwned(m, h, s, content, segs, a);
      OwnedIsLive(h, a);
    }
  }

  lemma BlockOwned(m: seq<Byte>, h: Heap, s: Space, content: seq<Byte>, segs: seq<Segment>, a: nat)
    requires SpaceOk(m, h, s) && AllHeld(m, h, s, content, segs) && a in ProcessBlocks(s, segs)
    ensures exists n: nat :: Owns(h, a, n)
  {
    hide Inv, Owns, DirectoryOk, Filled, Indexed;
    if a in SegmentBlocks(segs) {
      var j :| 0 <= j < |segs| && segs[j].phys == a;
      assert Owns(h, a, segs[j].memsz);
    } else {
      assert Owns(h, a, PAGE);
    }
  }

  lemma OwnedIsLive(h: Heap, a: nat)
    requires Inv(h) && h.brk < TWO_32 && exists n: nat :: Owns(h, a, n)
    ensures a in Live(h)
  {
    LiveIsOwned(h, a);
  }

  // ----- Sessions -----

  datatype Action = Load(name: seq<Byte>) | Invoke(call: Call)

  /** The answer to an action: the outcome of a load, and the process if there is one. */
  datatype Reply = Tried(outcome: Outcome, proc: Process) | Ran

  /** What a loaded process holds, the two blocks of its structure, and blocks that are none of its own. */
  datatype Running = Running(content: seq<Byte>, s: Space, segs: seq<Segment>, own: set<nat>, rest: set<nat>)

  ghost predicate ActionOk(a: Action)
  {
    match a
    case Load(name) => NameFits(name)
    case Invoke(call) => CallOk(call)
  }

  function ActionRoom(a: Action): nat
  {
    match a
    case Load(name) => OpenRoom(NAME_SIZE)
    case Invoke(call) => CallRoom(call)
  }

  /** The process is loaded: it holds the file its name leads to, and its structure says so. */
  ghost predicate Runs(files: Files, heap: KernelHeap, name: seq<Byte>, proc: Process, run: Running)
    reads heap, heap.ram
  {
    && Charts(files) && NamedContent(files, name) == Some(run.content)
    && HoldsProgram(heap, proc, run.content, run.s, run.segs, run.rest)
    && StructHeld(heap.ram[..], heap.state, proc, name, run.rest) && run.own == {proc.addr, proc.pagingChunk}
  }

  ghost function BlocksOf(run: Running): set<nat>
  {
    ProcessBlocks(run.s, run.segs) + run.own
  }

  /** Every load that succeeded has a process that is still there, and no two of them share a block. */
  ghost predicate AllRun(files: Files, heap: KernelHeap, actions: seq<Action>, replies: seq<Reply>,
          running: seq<Option<Running>>, rest: set<nat>)
    reads heap, heap.ram
  {
    && |running| == |replies| <= |actions|
    && (forall i :: 0 <= i < |replies| ==> (replies[i].Tried? <==> actions[i].Load?))
    && (forall i :: 0 <= i < |replies| ==>
      (running[i].Some? <==> replies[i].Tried? && replies[i].outcome == Loaded))
    && (forall i :: 0 <= i < |replies| && running[i].Some? ==>
      replies[i].Tried? && actions[i].Load?
      && Runs(files, heap, actions[i].name, replies[i].proc, running[i].value) && rest <= running[i].value.rest)
    && (forall i, j :: 0 <= i < j < |replies| && running[i].Some? && running[j].Some? ==>
      BlocksOf(running[i].value) <= running[j].value.rest)
  }

  /** One load, beside the blocks of `rest`. */
  method StepLoad(files: Files, heap: KernelHeap, name: seq<Byte>, ghost rest: set<nat>)
    returns (r: Outcome, proc: Process, ghost run: Running, ghost now: set<nat>)
    requires files.Valid() && heap.Valid() && NameFits(name)
    requires files.Backed(Live(heap.state) - rest) && rest <= Live(heap.state)
    requires heap.state.brk + OpenRoom(NAME_SIZE) < TWO_32
    modifies heap, heap.ram, files.descriptors, files.disks
    ensures files.Valid() && heap.Valid() && Spares(old(heap.state), old(heap.ram[..]), heap.state, heap.ram[..], rest)
    ensures now == (if r == Loaded then rest + BlocksOf(run) else rest) && now <= Live(heap.state)
    ensures files.Backed(Live(heap.state) - now)
    ensures r == Loaded ==> Runs(files, heap, name, proc, run) && run.rest == rest
    ensures fresh(Reach(files) - old(Reach(files)))
  {
    hide Files.Valid, KernelHeap.ValidIn, AllBacked, Live, Spares, SlotsStay, HoldsProgram, NamedContent, DrivesRead;
    hide FreeSlot, LoadOk, LoadOutcome, OpenRoom, NameFits, HoldsIn, BlocksOf, Inv, CStr, Charts, Reach, StructHeld;
    ghost var h, m, slots := heap.state, heap.ram[..], files.descriptors[..];
    BackedMore(slots, Live(h) - rest, Live(h));
    ghost var content, s, segs;
    r, proc, content, s, segs := ProcessLoad(files, heap, name);
    heap.ValidFacts();
    run := Running(content, s, segs, {proc.addr, proc.pagingChunk}, rest);
    now := if r == Loaded then rest + BlocksOf(run) else rest;
    SparesLess(h, m, heap.state, heap.ram[..], Live(h), rest);
    KeptSpares(slots, files.descriptors[..], Live(h), Live(heap.state), rest);
    if r == Loaded {
      HoldsIsIn(heap, proc, content, s, segs, Live(h));
      LoadedBeside(heap.ram[..], heap.state, proc, name, run, Live(h), rest);
      BackedMore(slots, Live(h) - rest, Live(heap.state) - now);
      HoldsIsIn(heap, proc, content, s, segs, rest);
    }
  }

  lemma OwnLive(m: seq<Byte>, h: Heap, proc: Process, name: seq<Byte>, rest: set<nat>)
    requires Inv(h) && h.brk < TWO_32 && StructHeld(m, h, proc, name, rest)
    ensures {proc.addr, proc.pagingChunk} <= Live(h) - rest
  {
    hide Inv, Live, Owns, ChunkHeld;
    StructOutside(m, h, proc, name, rest, {});
  }

  /** A process that was just loaded beside what was live. */
  lemma LoadedBeside(m: seq<Byte>, h: Heap, proc: Process, name: seq<Byte>, run: Running, before: set<nat>,
          rest: set<nat>)
    requires HoldsIn(m, h, proc, run.content, run.s, run.segs, before) && Inv(h) && h.brk < TWO_32
    requires StructHeld(m, h, proc, name, before) && run.own == {proc.addr, proc.pagingChunk}
    requires rest <= before <= Live(h) && run.rest == rest
    ensures HoldsIn(m, h, proc, run.content, run.s, run.segs, rest) && StructHeld(m, h, proc, name, rest)
    ensures rest + BlocksOf(run) <= Live(h) && before - rest <= Live(h) - (rest + BlocksOf(run))
  {
    hide HoldsIn, ProcessBlocks, Live, StructHeld, Inv;
    OwnLive(m, h, proc, name, before);
    StructLess(m, h, proc, name, before, rest);
    BlocksLive(m, h, proc, run.content, run.s, run.segs, before);
    HoldsLess(m, h, proc, run.content, run.s, run.segs, before, rest);
  }

  /** One action. `now` are the blocks of `rest` and those of the process, if one was loaded. */
  method Step(files: Files, heap: KernelHeap, a: Action, ghost rest: set<nat>)
    returns (reply: Reply, ghost run: Option<Running>, ghost now: set<nat>)
    requires files.Valid() && heap.Valid() && ActionOk(a) && ShortChains(files.volumes)
    requires files.Backed(Live(heap.state) - rest) && rest <= Live(heap.state)
    requires heap.state.brk + ActionRoom(a) < TWO_32
    modifies heap, heap.ram, files.descriptors, files.disks, Reach(files)
    ensures files.Valid() && heap.Valid() && Spares(old(heap.state), old(heap.ram[..]), heap.state, heap.ram[..], rest)
    ensures rest <= now <= Live(heap.state) && files.Backed(Live(heap.state) - now)
    ensures (reply.Tried? <==> a.Load?) && (run.Some? <==> reply.Tried? && reply.outcome == Loaded)
    ensures run.Some? ==>
      Runs(files, heap, a.name, reply.proc, run.value) && run.value.rest == rest && BlocksOf(run.value) <= now
    ensures fresh(Reach(files) - old(Reach(files)))
  {
    hide Files.Valid, KernelHeap.ValidIn, AllBacked, Live, Spares, Runs, BlocksOf, Reach, NameFits, CallOk, OpenRoom;
    hide CallRoom, ShortChains, TableStep, Answers, Files.Holdings;
    now, run := rest, None;
    match a {
      case Load(name) =>
        var r, proc;
        ghost var loaded;
        r, proc, loaded, now := StepLoad(files, heap, name, rest);
        reply := Tried(r, proc);
        run := if r == Loaded then Some(loaded) else None;
      case Invoke(call) =>
        var result, out;
        ghost var e, born;
        result, out, e, born := Perform(files, heap, call, rest);
        reply := Ran;
    }
  }

  /** Whether there is room for an action. */
  method HasActionRoom(heap: KernelHeap, a: Action) returns (b: bool)
    requires heap.Valid()
    ensures b <==> heap.state.brk + ActionRoom(a) < TWO_32
  {
    hide ActionRoom;
    BreakIs(heap);
    b := heap.placementAddress + ActionRoom(a) < TWO_32;
  }

  lemma NoneRun(files: Files, heap: KernelHeap, actions: seq<Action>, rest: set<nat>)
    ensures AllRun(files, heap, actions, [], [], rest)
  {
  }

  lemma FirstRuns(files: Files, heap: KernelHeap, actions: seq<Action>, reply: Reply, run: Option<Running>,
          replies: seq<Reply>, running: seq<Option<Running>>, rest: set<nat>, now: set<nat>)
    requires actions != [] && AllRun(files, heap, actions[1..], replies, running, now) && rest <= now
    requires (reply.Tried? <==> actions[0].Load?) && (run.Some? <==> reply.Tried? && reply.outcome == Loaded)
    requires run.Some? ==>
      Runs(files, heap, actions[0].name, reply.proc, run.value) && rest <= run.value.rest && BlocksOf(run.value) <= now
    ensures AllRun(files, heap, actions, [reply] + replies, [run] + running, rest)
  {
    hide Runs, BlocksOf;
    var rs, us := [reply] + replies, [run] + running;
    forall i | 0 <= i < |rs|
      ensures rs[i].Tried? <==> actions[i].Load?
      ensures us[i].Some? <==> rs[i].Tried? && rs[i].outcome == Loaded
      ensures us[i].Some? ==>
        rs[i].Tried? && actions[i].Load? && Runs(files, heap, actions[i].name, rs[i].proc, us[i].value)
        && rest <= us[i].value.rest
    {
      assert i > 0 ==> rs[i] == replies[i - 1] && us[i] == running[i - 1] && actions[i] == actions[1..][i - 1];
    }
    forall i, j | 0 <= i < j < |rs| && us[i].Some? && us[j].Some?
      ensures BlocksOf(us[i].value) <= us[j].value.rest
    {
      assert us[j] == running[j - 1];
      assert i > 0 ==> us[i] == running[i - 1];
    }
  }

  lemma StillRuns(files: Files, heap: KernelHeap, name: seq<Byte>, proc: Process, run: Running, m: seq<Byte>, h: Heap,
          now: set<nat>)
    requires Charts(files) && NamedContent(files, name) == Some(run.content) && heap.Valid()
    requires HoldsIn(m, h, proc, run.content, run.s, run.segs, run.rest)
    requires StructHeld(m, h, proc, name, run.rest) && run.own == {proc.addr, proc.pagingChunk}
    requires Spares(h, m, heap.state, heap.ram[..], now) && BlocksOf(run) + run.rest <= now
    ensures Runs(files, heap, name, proc, run)
  {
    hide HoldsIn, Spares, HoldsProgram, KernelHeap.ValidIn, Inv, Indexed, ProcessBlocks, Charts, NamedContent;
    hide StructHeld;
    heap.ValidFacts();
    StructKept(h, m, heap.state, heap.ram[..], now, proc, name, run.rest, run.rest);
    HoldsSpared(m, h, heap.ram[..], heap.state, proc, run.content, run.s, run.segs, run.rest, now);
    HoldsIsIn(heap, proc, run.content, run.s, run.segs, run.rest);
  }

  lemma RunsIn(files: Files, heap: KernelHeap, name: seq<Byte>, proc: Process, run: Running)
    requires Runs(files, heap, name, proc, run)
    ensures Charts(files) && NamedContent(files, name) == Some(run.content)
    ensures HoldsIn(heap.ram[..], heap.state, proc, run.content, run.s, run.segs, run.rest)
    ensures StructHeld(heap.ram[..], heap.state, proc, name, run.rest) && run.own == {proc.addr, proc.pagingChunk}
  {
    hide HoldsIn, HoldsProgram, Charts, NamedContent, StructHeld;
    HoldsIsIn(heap, proc, run.content, run.s, run.segs, run.rest);
  }

  /** The session stops early where there is no room for the next action, or where a load stopped the model. */
  ghost predicate StopsWell(h: Heap, actions: seq<Action>, replies: seq<Reply>)
  {
    |replies| < |actions| ==>
      || h.brk + ActionRoom(actions[|replies|]) >= TWO_32
      || (replies != [] && replies[|replies| - 1].Tried? && replies[|replies| - 1].outcome == Halted)
  }

  lemma FirstStops(h: Heap, actions: seq<Action>, reply: Reply, replies: seq<Reply>)
    requires actions != [] && StopsWell(h, actions[1..], replies)
    ensures StopsWell(h, actions, [reply] + replies)
  {
    hide ActionRoom;
    var count := |replies|;
    assert count < |actions[1..]| ==> actions[count + 1] == actions[1..][count];
    assert replies != [] ==> ([reply] + replies)[count] == replies[count - 1];
  }

  /** Loads and file calls in any order, as long as there is room: at the end every process that was loaded
      still holds the whole of its file, mapped as before, and no two processes share a block. The blocks of
      `rest`, those of processes loaded earlier, say, keep every byte. */
  method RunSession(files: Files, heap: KernelHeap, actions: seq<Action>, ghost rest: set<nat>)
    returns (replies: seq<Reply>, ghost running: seq<Option<Running>>)
    requires files.Valid() && heap.Valid() && ShortChains(files.volumes)
    requires forall i :: 0 <= i < |actions| ==> ActionOk(actions[i])
    requires files.Backed(Live(heap.state) - rest) && rest <= Live(heap.state)
    modifies heap, heap.ram, files.descriptors, files.disks, Reach(files)
    ensures files.Valid() && heap.Valid() && Spares(old(heap.state), old(heap.ram[..]), heap.state, heap.ram[..], rest)
    ensures AllRun(files, heap, actions, replies, running, rest)
    ensures StopsWell(heap.state, actions, replies)
    decreases |actions|
  {
    hide Files.Valid, KernelHeap.ValidIn, AllBacked, Live, Spares, Runs, BlocksOf, Reach, ActionOk, ActionRoom;
    hide ShortChains, AllRun, HoldsIn, Charts, NamedContent, StructHeld;
    ghost var h, m := heap.state, heap.ram[..];
    NoneRun(files, heap, actions, rest);
    SparesSame(h, m, rest);
    if actions == [] {
      return [], [];
    }
    Separate(files, heap);
    var room := HasActionRoom(heap, actions[0]);
    if !room {
      return [], [];
    }
    var reply;
    ghost var run, now;
    reply, run, now := Step(files, heap, actions[0], rest);
    ghost var h1, m1 := heap.state, heap.ram[..];
    if run.Some? {
      RunsIn(files, heap, actions[0].name, reply.proc, run.value);
    }
    if reply.Tried? && reply.outcome == Halted {
      NoneRun(files, heap, actions[1..], now);
      FirstRuns(files, heap, actions, reply, run, [], [], rest, now);
      assert [reply] + [] == [reply] && [run] + [] == [run];
      return [reply], [run];
    }
    replies, running := RunSession(files, heap, actions[1..], now);
    SparesLess(h1, m1, heap.state, heap.ram[..], now, rest);
    SparesTwice(h, m, h1, m1, heap.state, heap.ram[..], rest, rest);
    if run.Some? {
      StillRuns(files, heap, actions[0].name, reply.proc, run.value, m1, h1, now);
    }
    FirstRuns(files, heap, actions, reply, run, replies, running, rest, now);
    FirstStops(heap.state, actions, reply, replies);
    replies, running := [reply] + replies, [run] + running;
  }
}
