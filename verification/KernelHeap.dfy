/** The heap in memory (src/memory/heap/kheap.c): block headers are words of RAM, linked by address,
    and every operation is proved against the transition system of HeapModel. */
module KernelHeaps {
  import opened Bytes
  import opened HeapModel

  const MAGIC_NEW := 0x12345678
  const MAGIC_REUSED := 0x77777777

  /** Stores a little-endian word. */
  method SetWord(ram: array<Byte>, a: nat, w: U32)
    requires a + 4 <= ram.Length
    modifies ram
    ensures Le32At(ram[..], a) == w
    ensures forall x :: 0 <= x < ram.Length && !(a <= x < a + 4) ==> ram[x] == old(ram[x])
  {
    var bytes := Le32(w);
    hide Le32;
    ram[a] := bytes[0];
    ram[a + 1] := bytes[1];
    ram[a + 2] := bytes[2];
    ram[a + 3] := bytes[3];
  }

  /** The header of a block as it lies in memory. */
  datatype Header = Header(size: U32, next: U32, free: U32, magic: U32)

  function HeaderIn(m: seq<Byte>, a: nat): Header
    requires a + HEADER <= |m|
  {
    Header(Le32At(m, a), Le32At(m, a + 4), Le32At(m, a + 8), Le32At(m, a + 12))
  }

  method WriteHeader(ram: array<Byte>, a: nat, hd: Header)
    requires a + HEADER <= ram.Length
    modifies ram
    ensures HeaderIn(ram[..], a) == hd
    ensures forall x :: 0 <= x < ram.Length && !(a <= x < a + HEADER) ==> ram[x] == old(ram[x])
  {
    SetWord(ram, a, hd.size);
    SetWord(ram, a + 4, hd.next);
    SetWord(ram, a + 8, hd.free);
    SetWord(ram, a + 12, hd.magic);
  }

  method SetNext(ram: array<Byte>, a: nat, next: U32)
    requires a + HEADER <= ram.Length
    modifies ram
    ensures HeaderIn(ram[..], a) == old(HeaderIn(ram[..], a)).(next := next)
    ensures forall x :: 0 <= x < ram.Length && !(a <= x < a + HEADER) ==> ram[x] == old(ram[x])
  {
    SetWord(ram, a + 4, next);
  }

  method SetFree(ram: array<Byte>, a: nat, free: U32)
    requires a + HEADER <= ram.Length
    modifies ram
    ensures HeaderIn(ram[..], a) == old(HeaderIn(ram[..], a)).(free := free)
    ensures forall x :: 0 <= x < ram.Length && !(a <= x < a + HEADER) ==> ram[x] == old(ram[x])
  {
    SetWord(ram, a + 8, free);
  }

  method SetMagic(ram: array<Byte>, a: nat, magic: U32)
    requires a + HEADER <= ram.Length
    modifies ram
    ensures HeaderIn(ram[..], a) == old(HeaderIn(ram[..], a)).(magic := magic)
    ensures forall x :: 0 <= x < ram.Length && !(a <= x < a + HEADER) ==> ram[x] == old(ram[x])
  {
    SetWord(ram, a + 12, magic);
  }

  /** The header writes of a new block: the link in the last block, if any, then its own header. */
  method LinkBlock(ram: array<Byte>, last: nat, block: U32, hd: Header)
    requires block + HEADER <= ram.Length && last + HEADER <= ram.Length
    requires last != 0 ==> last + HEADER <= block || block + HEADER <= last
    modifies ram
    ensures HeaderIn(ram[..], block) == hd
    ensures last != 0 ==> HeaderIn(ram[..], last) == old(HeaderIn(ram[..], last)).(next := block)
    ensures forall x ::
      0 <= x < ram.Length && !(block <= x < block + HEADER) && !(last != 0 && last <= x < last + HEADER) ==>
        ram[x] == old(ram[x])
  {
    if last != 0 {
      SetNext(ram, last, block);
    }
    ghost var m := ram[..];
    WriteHeader(ram, block, hd);
    if last != 0 {
      HeaderUnchanged(m, ram[..], last);
    }
  }

  lemma HeaderUnchanged(m: seq<Byte>, m': seq<Byte>, a: nat)
    requires a + HEADER <= |m| == |m'| && forall x :: a <= x < a + HEADER ==> m'[x] == m[x]
    ensures HeaderIn(m', a) == HeaderIn(m, a)
  {
  }

  method MarkTaken(ram: array<Byte>, block: nat)
    requires block + HEADER <= ram.Length
    modifies ram
    ensures HeaderIn(ram[..], block) == old(HeaderIn(ram[..], block)).(free := 0, magic := MAGIC_REUSED)
    ensures forall x :: 0 <= x < ram.Length && !(block <= x < block + HEADER) ==> ram[x] == old(ram[x])
  {
    SetFree(ram, block, 0);
    SetMagic(ram, block, MAGIC_REUSED);
  }

  /** A header that says what the block is. */
  ghost predicate Describes(hd: Header, b: Block)
  {
    && hd.size == b.size
    && hd.free == (if b.free then 1 else 0)
    && (hd.magic == MAGIC_NEW || hd.magic == MAGIC_REUSED)
  }

  /** The address of the block after list position `k`, 0 at the end of the list. */
  function NextAddr(h: Heap, k: nat): nat
    requires Indexed(h) && k < |h.list|
  {
    if k + 1 < |h.list| then h.blocks[h.list[k + 1]].addr else 0
  }

  /** `hds` are the headers of the blocks, and they link the list. */
  ghost predicate StoredAs(h: Heap, hds: seq<Header>)
    requires Indexed(h)
  {
    && |hds| == |h.blocks|
    && (forall i :: 0 <= i < |hds| ==> Describes(hds[i], h.blocks[i]))
    && (forall k :: 0 <= k < |h.list| ==> hds[h.list[k]].next == NextAddr(h, k))
  }

  /** The state after a new block was linked behind list position `keep - 1`. */
  function Extended(h: Heap, keep: nat, b: Block): Heap
    requires keep <= |h.list|
  {
    Heap(b.End(), h.blocks + [b], h.list[..keep] + [|h.blocks|])
  }

  /** The headers that go with it. */
  function ExtendedHeaders(h: Heap, hds: seq<Header>, keep: nat, at: U32, hd: Header): (r: seq<Header>)
    requires Indexed(h) && keep <= |h.list| && |hds| == |h.blocks|
    ensures |r| == |hds| + 1 && r[|hds|] == hd
    ensures forall i :: 0 <= i < |hds| ==>
      r[i] == if keep > 0 && i == h.list[keep - 1] then hds[i].(next := at) else hds[i]
  {
    (if keep == 0 then hds else hds[h.list[keep - 1] := hds[h.list[keep - 1]].(next := at)]) + [hd]
  }

  lemma ExtendedLinks(h: Heap, hds: seq<Header>, keep: nat, b: Block, hd: Header, k: nat)
    requires Inv(h) && Indexed(h) && StoredAs(h, hds) && keep <= |h.list| && k <= keep
    requires hd.next == 0 && b.addr < TWO_32 && Indexed(Extended(h, keep, b))
    ensures ExtendedHeaders(h, hds, keep, b.addr, hd)[Extended(h, keep, b).list[k]].next ==
      NextAddr(Extended(h, keep, b), k)
  {
    var g := Extended(h, keep, b);
    if k < keep {
      assert g.list[k] == h.list[k] && hds[h.list[k]].next == NextAddr(h, k);
      if k < keep - 1 {
        assert h.list[k] < h.list[keep - 1];
        assert g.list[k + 1] == h.list[k + 1];
      }
    }
  }

  lemma ExtendStored(h: Heap, hds: seq<Header>, keep: nat, b: Block, hd: Header)
    requires Inv(h) && Indexed(h) && StoredAs(h, hds) && keep <= |h.list|
    requires Describes(hd, b) && hd.next == 0 && b.addr < TWO_32 && Indexed(Extended(h, keep, b))
    ensures StoredAs(Extended(h, keep, b), ExtendedHeaders(h, hds, keep, b.addr, hd))
  {
    hide Inv, NextAddr;
    var g, all := Extended(h, keep, b), ExtendedHeaders(h, hds, keep, b.addr, hd);
    forall k | 0 <= k < |g.list|
      ensures all[g.list[k]].next == NextAddr(g, k)
    {
      ExtendedLinks(h, hds, keep, b, hd, k);
    }
  }

  /** The state with the free mark of block `i` set to `free`. */
  function Marked(h: Heap, i: nat, free: bool): Heap
    requires i < |h.blocks|
  {
    h.(blocks := h.blocks[i := h.blocks[i].(free := free)])
  }

  /** `x` is in no block header. */
  ghost predicate ClearOfHeaders(h: Heap, x: nat)
  {
    forall i :: 0 <= i < |h.blocks| ==> !(h.blocks[i].addr <= x < h.blocks[i].addr + HEADER)
  }

  /** Changing only the free mark and the magic of one block. */
  lemma MarkStored(h: Heap, hds: seq<Header>, i: nat, free: bool, hd: Header)
    requires Indexed(h) && StoredAs(h, hds) && i < |h.blocks|
    requires Describes(hd, h.blocks[i].(free := free)) && hd.next == hds[i].next
    ensures Indexed(Marked(h, i, free)) && StoredAs(Marked(h, i, free), hds[i := hd])
  {
    var g := Marked(h, i, free);
    assert forall j :: 0 <= j < |h.blocks| ==> g.blocks[j].addr == h.blocks[j].addr;
    assert forall k :: 0 <= k < |h.list| ==> NextAddr(g, k) == NextAddr(h, k);
  }

  /** The headers of the blocks of `h` in memory are `hds`. */
  ghost predicate InMemory(m: seq<Byte>, h: Heap, hds: seq<Header>)
  {
    && |m| == TWO_32 && |hds| == |h.blocks|
    && (forall i :: 0 <= i < |h.blocks| ==> 0 < h.blocks[i].addr && h.blocks[i].End() < TWO_32)
    && (forall i :: 0 <= i < |h.blocks| ==> HeaderIn(m, h.blocks[i].addr) == hds[i])
  }

  lemma HeadersApart(h: Heap, i: nat, j: nat)
    requires Inv(h) && i < |h.blocks| && j < |h.blocks| && i != j
    ensures h.blocks[i].addr + HEADER <= h.blocks[j].addr || h.blocks[j].addr + HEADER <= h.blocks[i].addr
  {
    if i < j {
      assert h.blocks[i].End() <= h.blocks[j].addr;
    } else {
      assert h.blocks[j].End() <= h.blocks[i].addr;
    }
  }

  /** A write to one header, and to memory past the break, leaves the other headers. */
  lemma OtherHeaders(m: seq<Byte>, m': seq<Byte>, h: Heap, hds: seq<Header>, i: nat, past: nat)
    requires Inv(h) && InMemory(m, h, hds) && i < |h.blocks| && h.brk <= past && |m'| == |m|
    requires forall x :: 0 <= x < |m| && x < past && !(h.blocks[i].addr <= x < h.blocks[i].addr + HEADER) ==>
      m'[x] == m[x]
    ensures forall j :: 0 <= j < |h.blocks| && j != i ==> HeaderIn(m', h.blocks[j].addr) == hds[j]
  {
    forall j | 0 <= j < |h.blocks| && j != i
      ensures HeaderIn(m', h.blocks[j].addr) == hds[j]
    {
      HeadersApart(h, i, j);
      EndsBelowBreak(h, j);
      HeaderUnchanged(m, m', h.blocks[j].addr);
    }
  }

  lemma ExtendedInv(h: Heap, keep: nat, b: Block)
    requires Inv(h) && keep <= |h.list| && (h.list == [] || keep > 0)
    requires (h.brk <= b.addr || h.blocks == []) && b.size > 0
    ensures Inv(Extended(h, keep, b)) && Indexed(Extended(h, keep, b))
  {
    ListNonempty(h);
    AppendKeepsOrder(h.blocks, h.brk, b);
    LinkKeepsList(h.list, |h.blocks|, keep);
    IndexedByList(Extended(h, keep, b));
  }

  lemma MemorySize(m: seq<Byte>, h: Heap, hds: seq<Header>)
    requires InMemory(m, h, hds)
    ensures |m| == TWO_32 && |hds| == |h.blocks|
  {
  }

  lemma HeaderPlace(m: seq<Byte>, h: Heap, hds: seq<Header>, i: nat)
    requires Inv(h) && InMemory(m, h, hds) && i < |h.blocks|
    ensures 0 < h.blocks[i].addr && h.blocks[i].addr + HEADER < h.brk && h.blocks[i].addr + HEADER < |m| == TWO_32
    ensures HeaderIn(m, h.blocks[i].addr) == hds[i]
  {
    EndsBelowBreak(h, i);
  }

  /** Writing the header of a new block past the break, and the link to it. */
  lemma ExtendInMemory(m: seq<Byte>, m': seq<Byte>, h: Heap, hds: seq<Header>, keep: nat, b: Block, hd: Header)
    requires Inv(h) && Indexed(h) && InMemory(m, h, hds) && keep <= |h.list| && |m'| == |m|
    requires 0 < b.addr && (h.brk <= b.addr || h.blocks == []) && b.End() < TWO_32
    requires HeaderIn(m', b.addr) == hd
    requires keep > 0 ==> HeaderIn(m', h.blocks[h.list[keep - 1]].addr) == hds[h.list[keep - 1]].(next := b.addr)
    requires var last := if keep == 0 then 0 else h.blocks[h.list[keep - 1]].addr;
             forall x ::
               0 <= x < |m| && !(b.addr <= x < b.addr + HEADER) && !(keep > 0 && last <= x < last + HEADER) ==>
                 m'[x] == m[x]
    requires h.list == [] || keep > 0
    ensures InMemory(m', Extended(h, keep, b), ExtendedHeaders(h, hds, keep, b.addr, hd))
  {
    var g, all := Extended(h, keep, b), ExtendedHeaders(h, hds, keep, b.addr, hd);
    ListNonempty(h);
    if keep > 0 {
      OtherHeaders(m, m', h, hds, h.list[keep - 1], b.addr);
    }
    hide Inv, HeaderIn;
    forall i | 0 <= i < |g.blocks|
      ensures HeaderIn(m', g.blocks[i].addr) == all[i]
    {
    }
  }

  lemma HeaderDescribes(h: Heap, hds: seq<Header>, i: nat)
    requires Indexed(h) && StoredAs(h, hds) && i < |h.blocks|
    ensures |hds| == |h.blocks| && Describes(hds[i], h.blocks[i])
  {
  }

  /** Rewriting the free mark, and perhaps the magic, in the header of block `i`. */
  lemma MarkInMemory(m: seq<Byte>, m': seq<Byte>, h: Heap, hds: seq<Header>, i: nat, free: bool)
    requires Inv(h) && Indexed(h) && InMemory(m, h, hds) && StoredAs(h, hds) && i < |h.blocks| && |m'| == |m|
    requires var at := h.blocks[i].addr;
             && (forall x :: 0 <= x < |m| && !(at <= x < at + HEADER) ==> m'[x] == m[x])
             && (at + HEADER <= |m| ==>
               Describes(HeaderIn(m', at), h.blocks[i].(free := free)) && HeaderIn(m', at).next == HeaderIn(m, at).next)
    ensures h.blocks[i].addr + HEADER <= |m|
    ensures var g, all := Marked(h, i, free), hds[i := HeaderIn(m', h.blocks[i].addr)];
            Inv(g) && Indexed(g) && InMemory(m', g, all) && StoredAs(g, all)
  {
    HeaderPlace(m, h, hds, i);
    OtherHeaders(m, m', h, hds, i, h.brk);
    MarkKeepsOrder(h.blocks, h.brk, i, free);
    MarkStored(h, hds, i, free, HeaderIn(m', h.blocks[i].addr));
  }

  /** What a request may move the break by. */
  function Demand(op: Op): nat
  {
    match op
    case Kmalloc(size) => size + HEADER + PAGE
    case KmallocA(size) => size + HEADER + PAGE
    case Kfree(_) => 0
  }

  function Demands(ops: seq<Op>): nat
  {
    if ops == [] then 0 else Demand(ops[0]) + Demands(ops[1..])
  }

  /** Every pointer that is given back is null or a block at that time. */
  ghost predicate FreesBlocks(h: Heap, ops: seq<Op>)
    requires Inv(h) && SoundRun(h, ops)
    decreases ops
  {
    IndexedByList(h);
    ops != [] ==>
      && (ops[0].Kfree? ==> ops[0].p == 0 || BlockAt(h, ops[0].p, 0) < |h.blocks|)
      && (StepKeepsInv(h, ops[0]); FreesBlocks(Step(h, ops[0]), ops[1..]))
  }

  lemma StepDemand(h: Heap, op: Op)
    requires Indexed(h)
    ensures Step(h, op).brk <= h.brk + Demand(op)
  {
    if !op.Kfree? {
      AllocateBreak(h, op.size, op.KmallocA?);
      BumpBackward(h.brk);
      hide Allocate, AlignBump;
    }
  }

  ghost predicate InPayload(h: Heap, i: nat, x: nat)
    requires i < |h.blocks|
  {
    h.blocks[i].Payload() <= x < h.blocks[i].End()
  }

  lemma PayloadBelow(h: Heap, i: nat, x: nat)
    requires Inv(h) && i < |h.blocks| && InPayload(h, i, x)
    ensures x < h.brk
  {
    EndsBelowBreak(h, i);
  }

  /** A byte of a block's payload is still one, and in no header, after the blocks grew. */
  lemma PayloadStays(h: Heap, g: Heap, i: nat, x: nat)
    requires Inv(g) && i < |h.blocks| <= |g.blocks| && InPayload(h, i, x)
    requires g.blocks[i].addr == h.blocks[i].addr && g.blocks[i].size == h.blocks[i].size
    ensures InPayload(g, i, x) && ClearOfHeaders(g, x)
  {
    PayloadClear(g, i, x);
  }

  class KernelHeap {
    const ram: array<Byte>
    var placementAddress: nat
    var globalBase: nat
    ghost var state: Heap
    ghost var headers: seq<Header>

    /** The blocks and the list are in memory. */
    ghost predicate Stored()
      reads this, ram
    {
      Inv(state) && Indexed(state) && InMemory(ram[..], state, headers) && StoredAs(state, headers)
    }

    /** The heap is in order when memory holds `m`. */
    ghost predicate ValidIn(m: seq<Byte>)
      reads this
    {
      && Inv(state) && Indexed(state) && InMemory(m, state, headers) && StoredAs(state, headers)
      && 0 < placementAddress == state.brk < TWO_32
      && (state.list == [] ==> globalBase == 0)
      && (state.list != [] && state.blocks != [] ==> globalBase == state.blocks[0].addr)
    }

    ghost predicate Valid()
      reads this, ram
    {
      ValidIn(ram[..])
    }

    /** Writes that miss every header leave the heap in order. */
    lemma ValidKept(m: seq<Byte>, m': seq<Byte>)
      requires ValidIn(m) && |m'| == |m|
      requires forall x :: 0 <= x < |m| && !ClearOfHeaders(state, x) ==> m'[x] == m[x]
      ensures ValidIn(m')
    {
      hide HeaderIn, Inv, StoredAs;
      forall i | 0 <= i < |state.blocks|
        ensures HeaderIn(m', state.blocks[i].addr) == headers[i]
      {
        var at := state.blocks[i].addr;
        assert forall x :: at <= x < at + HEADER ==> !ClearOfHeaders(state, x);
        HeaderUnchanged(m, m', at);
      }
    }

    lemma ValidFacts()
      requires Valid()
      ensures ram.Length == TWO_32 && Inv(state) && Indexed(state) && state.brk < TWO_32
    {
    }

    constructor (ram: array<Byte>, end: nat)
      requires ram.Length == TWO_32 && 0 < end < TWO_32
      ensures Valid() && this.ram == ram && state == Heap(end, [], [])
    {
      this.ram := ram;
      placementAddress := end;
      globalBase := 0;
      state := Heap(end, [], []);
      headers := [];
    }

    /** What memory says of the `k`-th listed block. */
    lemma ListedBlock(k: nat)
      requires Valid() && k < |state.list|
      ensures var b := state.blocks[state.list[k]];
              && 0 < b.addr && b.addr + HEADER <= ram.Length
              && HeaderIn(ram[..], b.addr).size == b.size && (HeaderIn(ram[..], b.addr).free != 0 <==> b.free)
              && HeaderIn(ram[..], b.addr).next == NextAddr(state, k)
      ensures state.list[0] == 0 && globalBase == state.blocks[0].addr
    {
    }

    lemma ListedAscending(k: nat)
      requires Valid() && state.list != []
      ensures Indexed(state) && Kept(state, k) > 0
      ensures state.list[0] == 0 && 0 < globalBase == state.blocks[0].addr && globalBase + HEADER <= ram.Length
    {
      ListedBlock(0);
    }

    /** Walks the list to the first free block of at least `size` bytes; `last` trails one block behind. */
    method FindFreeBlock(size: nat) returns (block: nat, last: nat)
      requires Valid() && Indexed(state) && state.list != []
      ensures Kept(state, size) > 0
      ensures var k := FirstFit(state, size, 0);
              && block == (if k < |state.list| then state.blocks[state.list[k]].addr else 0)
              && last == state.blocks[state.list[Kept(state, size) - 1]].addr
    {
      hide Valid, HeaderIn;
      ListedAscending(size);
      block, last := globalBase, globalBase;
      ghost var k := 0;
      while block != 0 && !(HeaderIn(ram[..], block).free != 0 && HeaderIn(ram[..], block).size >= size)
        invariant k <= |state.list| && FirstFit(state, size, 0) == FirstFit(state, size, k)
        invariant block == if k < |state.list| then state.blocks[state.list[k]].addr else 0
        invariant block != 0 ==> block + HEADER <= ram.Length
        invariant last == state.blocks[state.list[if k == 0 then 0 else k - 1]].addr
        decreases |state.list| - k
      {
        if k < |state.list| { ListedBlock(k); }
        last := block;
        block := HeaderIn(ram[..], block).next;
        k := k + 1;
        if k < |state.list| { ListedBlock(k); }
      }
      if k < |state.list| { ListedBlock(k); }
    }

    /** Places a new block at the break and links it behind the block at `last`, 0 for none. */
    method RequestSpace(last: nat, size: U32, ghost keep: nat) returns (block: nat)
      requires Stored() && size > 0 && 0 < placementAddress && placementAddress + HEADER + size < TWO_32
      requires state.blocks == [] || state.brk <= placementAddress
      requires keep <= |state.list|
        && (if state.list == [] then last == 0 else keep > 0 && last == state.blocks[state.list[keep - 1]].addr)
      modifies `placementAddress, `state, `headers, ram
      ensures block == old(placementAddress)
      ensures state == Extended(old(state), keep, Block(block, size, false))
      ensures Stored() && placementAddress == state.brk
      ensures forall x ::
        0 <= x < ram.Length && !(block <= x < block + HEADER) && !(last != 0 && last <= x < last + HEADER) ==>
          ram[x] == old(ram[x])
    {
      hide Inv, StoredAs, InMemory, HeaderIn, ExtendedHeaders;
      ghost var h, hds, m := state, headers, ram[..];
      ListNonempty(h);
      if keep > 0 {
        HeaderPlace(m, h, hds, h.list[keep - 1]);
      }
      MemorySize(m, h, hds);
      var hd := Header(size, 0, 0, MAGIC_NEW);
      block := placementAddress;
      placementAddress := placementAddress + size + HEADER;
      LinkBlock(ram, last, block, hd);
      ghost var b := Block(block, size, false);
      ExtendInMemory(m, ram[..], h, hds, keep, b, hd);
      ExtendedInv(h, keep, b);
      ExtendStored(h, hds, keep, b, hd);
      state := Extended(h, keep, b);
      headers := ExtendedHeaders(h, hds, keep, block, hd);
    }

    /** Marks the block at list position `k` as taken again. */
    method ReuseBlock(block: nat, ghost k: nat)
      requires Valid() && Indexed(state) && k < |state.list| && block == state.blocks[state.list[k]].addr
      modifies `state, `headers, ram
      ensures state == Marked(old(state), old(state.list)[k], false)
      ensures Valid()
      ensures forall x :: 0 <= x < ram.Length && !(block <= x < block + HEADER) ==> ram[x] == old(ram[x])
    {
      hide Inv, InMemory, StoredAs, HeaderIn;
      ghost var h, hds, m, i := state, headers, ram[..], state.list[k];
      HeaderPlace(m, h, hds, i);
      HeaderDescribes(h, hds, i);
      MarkTaken(ram, block);
      MarkInMemory(m, ram[..], h, hds, i, false);
      state := Marked(h, i, false);
      headers := hds[i := HeaderIn(ram[..], block)];
    }

    /** Moves the break so that the next payload starts on a page. */
    method AlignPlacement()
      modifies `placementAddress
      ensures placementAddress == AlignBump(old(placementAddress))
    {
      var addr := placementAddress + HEADER;
      if addr % PAGE != 0 {
        placementAddress := placementAddress - placementAddress % PAGE;
        placementAddress := placementAddress + PAGE;
        placementAddress := placementAddress - HEADER;
      }
    }

    /** `kmalloc_int`: exactly one step of the model, writing nothing but block headers. */
    method KmallocInt(size: U32, align: bool) returns (p: nat)
      requires Valid() && Sound(state, size, align)
      requires state.brk + size + PAGE < TWO_32
      modifies this, ram
      ensures Valid() && Indexed(old(state)) && (state, p) == Allocate(old(state), size, align)
      ensures forall x :: 0 <= x < ram.Length && ClearOfHeaders(state, x) ==> ram[x] == old(ram[x])
    {
      if size == 0 {
        return 0;
      }
      if globalBase == 0 {
        p := FirstBlock(size, align);
      } else {
        p := NextBlock(size, align);
      }
    }

    method FirstBlock(size: U32, align: bool) returns (p: nat)
      requires Valid() && size > 0 && globalBase == 0 && state.brk + size + PAGE < TWO_32
      modifies this, ram
      ensures Valid() && Indexed(old(state)) && (state, p) == Allocate(old(state), size, align)
      ensures forall x :: 0 <= x < ram.Length && ClearOfHeaders(state, x) ==> ram[x] == old(ram[x])
    {
      FirstCall();
      ghost var h := state;
      if align {
        AlignPlacement();
      }
      BumpBackward(h.brk);
      var block := RequestSpace(0, size, 0);
      globalBase := block;
      assert state.blocks[0].addr == block;
      return block + HEADER;
    }

    lemma FirstCall()
      requires Valid()
      ensures Indexed(state)
      ensures globalBase == 0 <==> state.list == []
      ensures state.list == [] <==> state.blocks == []
    {
      ListNonempty(state);
      if state.list != [] { ListedBlock(0); }
    }

    /** First-fit, then the rejection of a misaligned block: 0 if new space is needed. */
    method SearchBlock(size: U32, align: bool) returns (block: nat, last: nat)
      requires Valid() && Indexed(state) && state.list != []
      ensures Kept(state, size) > 0 && last == state.blocks[state.list[Kept(state, size) - 1]].addr
      ensures var k := Reused(state, size, align);
              block == if k < |state.list| then state.blocks[state.list[k]].addr else 0
    {
      hide Valid, FirstFit, HeaderIn;
      ghost var k := FirstFit(state, size, 0);
      if k < |state.list| {
        ListedBlock(k);
      }
      block, last := FindFreeBlock(size);
      if block != 0 && align {
        var addr := block + HEADER;
        if addr % PAGE != 0 {
          block := 0;
        }
      }
    }

    /** A new block behind the block at `last`, on a page if so asked. */
    method NewBlock(last: nat, size: U32, align: bool, ghost keep: nat) returns (block: nat)
      requires Valid() && size > 0 && state.list != [] && state.brk + size + PAGE < TWO_32
      requires align ==> AlignBump(state.brk) >= state.brk
      requires 0 < keep <= |state.list| && Indexed(state) && last == state.blocks[state.list[keep - 1]].addr
      modifies this, ram
      ensures Valid()
      ensures state == Extended(old(state), keep,
        Block(if align then AlignBump(old(state).brk) else old(state).brk, size, false))
      ensures block == state.blocks[|old(state).blocks|].addr
      ensures forall x :: 0 <= x < ram.Length && ClearOfHeaders(state, x) ==> ram[x] == old(ram[x])
    {
      hide Inv, InMemory, StoredAs, AlignBump;
      FirstCall();
      ghost var h := state;
      BumpBackward(h.brk);
      if align {
        AlignPlacement();
      }
      block := RequestSpace(last, size, keep);
      assert state.blocks[h.list[keep - 1]].addr == last;
    }

    method NextBlock(size: U32, align: bool) returns (p: nat)
      requires Valid() && size > 0 && globalBase != 0 && Sound(state, size, align) && state.brk + size + PAGE < TWO_32
      modifies this, ram
      ensures Valid() && Indexed(old(state)) && (state, p) == Allocate(old(state), size, align)
      ensures forall x :: 0 <= x < ram.Length && ClearOfHeaders(state, x) ==> ram[x] == old(ram[x])
    {
      hide Valid, AlignBump;
      FirstCall();
      ghost var h, k := state, Reused(state, size, align);
      var block, last := SearchBlock(size, align);
      if block == 0 {
        if k < |h.list| { ListedBlock(k); }
        block := NewBlock(last, size, align, Kept(h, size));
      } else {
        ListedBlock(k);
        ReuseBlock(block, k);
        assert state.blocks[h.list[k]].addr == block;
      }
      return block + HEADER;
    }

    /** `kmalloc`. */
    method Kmalloc(size: U32) returns (p: nat)
      requires Valid() && state.brk + size + PAGE < TWO_32
      modifies this, ram
      ensures Valid() && Indexed(old(state)) && (state, p) == Allocate(old(state), size, false)
      ensures forall x :: 0 <= x < ram.Length && ClearOfHeaders(state, x) ==> ram[x] == old(ram[x])
    {
      hide Inv, InMemory, StoredAs, Reused, AlignBump;
      p := KmallocInt(size, false);
    }

    /** `kmalloc_a`. */
    method KmallocA(size: U32) returns (p: nat)
      requires Valid() && Sound(state, size, true) && state.brk + size + PAGE < TWO_32
      modifies this, ram
      ensures Valid() && Indexed(old(state)) && (state, p) == Allocate(old(state), size, true)
      ensures forall x :: 0 <= x < ram.Length && ClearOfHeaders(state, x) ==> ram[x] == old(ram[x])
    {
      hide Inv, InMemory, StoredAs, Reused, AlignBump;
      p := KmallocInt(size, true);
    }

    /** `kfree`: one step of the model. A pointer to no block is ignored when no magic lies before it. */
    method Kfree(p: nat)
      requires Valid() && (p == 0 || HEADER <= p < TWO_32)
      requires p == 0 || BlockAt(state, p, 0) < |state.blocks|
        || HeaderIn(ram[..], p - HEADER).magic !in {MAGIC_NEW, MAGIC_REUSED}
      modifies `state, `headers, ram
      ensures Valid() && state == Release(old(state), p)
      ensures forall x :: 0 <= x < ram.Length && ClearOfHeaders(state, x) ==> ram[x] == old(ram[x])
    {
      hide Inv, InMemory, StoredAs, HeaderIn, Describes;
      ghost var h, hds, m, i := state, headers, ram[..], BlockAt(state, p, 0);
      MemorySize(m, h, hds);
      if i < |h.blocks| {
        HeaderPlace(m, h, hds, i);
        HeaderMagic(h, hds, i);
      }
      if p == 0 {
        return;
      }
      var block := p - HEADER;
      var header := HeaderIn(ram[..], block);
      if header.magic != MAGIC_NEW && header.magic != MAGIC_REUSED {
        return;
      }
      SetFree(ram, block, 1);
      MarkInMemory(m, ram[..], h, hds, i, true);
      state := Marked(h, i, true);
      headers := hds[i := HeaderIn(ram[..], block)];
      assert state.blocks[i].addr == block;
    }

    /** One request of a list. */
    method Serve(op: Op)
      requires Valid() && Indexed(state) && SoundStep(state, op) && state.brk + Demand(op) < TWO_32
      requires op.Kfree? ==> op.p == 0 || BlockAt(state, op.p, 0) < |state.blocks|
      modifies this, ram
      ensures Valid() && Indexed(old(state)) && state == Step(old(state), op)
      ensures forall x :: 0 <= x < ram.Length && ClearOfHeaders(state, x) ==> ram[x] == old(ram[x])
    {
      hide Inv, InMemory, StoredAs, Allocate, Release, BlockAt;
      match op {
        case Kmalloc(n) =>
          var p := Kmalloc(n);
        case KmallocA(n) =>
          var p := KmallocA(n);
        case Kfree(p) =>
          BlockBound(p);
          Kfree(p);
      }
    }

    lemma BlockBound(p: nat)
      requires Valid() && (p == 0 || BlockAt(state, p, 0) < |state.blocks|)
      ensures p == 0 || HEADER <= p < TWO_32
    {
      if p != 0 {
        EndsBelowBreak(state, BlockAt(state, p, 0));
      }
    }

    /** Any sound list of requests: exactly a run of the model, in which every byte of every block there
        was stays as it is, live or not. */
    method ServeAll(ops: seq<Op>)
      requires Valid() && Inv(state) && SoundRun(state, ops) && FreesBlocks(state, ops)
        && state.brk + Demands(ops) < TWO_32
      modifies this, ram
      ensures Valid() && Inv(old(state)) && state == Run(old(state), ops)
      ensures forall i, x: nat :: 0 <= i < |old(state).blocks| && InPayload(old(state), i, x) ==>
        x < ram.Length && ram[x] == old(ram[x])
      decreases ops
    {
      hide Inv, InMemory, StoredAs, Step, InPayload;
      ValidFacts();
      if ops == [] {
        forall i, x: nat | 0 <= i < |state.blocks| && InPayload(state, i, x)
          ensures x < ram.Length
        {
          PayloadBelow(state, i, x);
        }
        return;
      }
      ghost var h := state;
      StepKeepsInv(h, ops[0]);
      StepDemand(h, ops[0]);
      Serve(ops[0]);
      ghost var h1 := state;
      forall i, x: nat | 0 <= i < |h.blocks| && InPayload(h, i, x)
        ensures InPayload(h1, i, x) && ClearOfHeaders(h1, x)
      {
        PayloadStays(h, h1, i, x);
      }
      ServeAll(ops[1..]);
    }
  }

  lemma HeaderMagic(h: Heap, hds: seq<Header>, i: nat)
    requires Indexed(h) && StoredAs(h, hds) && i < |h.blocks|
    ensures |hds| == |h.blocks| && hds[i].magic in {MAGIC_NEW, MAGIC_REUSED}
    ensures Describes(hds[i].(free := 1), h.blocks[i].(free := true))
  {
  }

  /** No byte of a block's payload lies in any header, so no heap operation changes it. */
  lemma PayloadClear(h: Heap, i: nat, x: nat)
    requires Inv(h) && i < |h.blocks| && h.blocks[i].Payload() <= x < h.blocks[i].End()
    ensures ClearOfHeaders(h, x)
  {
    forall j | 0 <= j < |h.blocks|
      ensures !(h.blocks[j].addr <= x < h.blocks[j].addr + HEADER)
    {
      if j < i {
        assert h.blocks[j].End() <= h.blocks[i].addr;
      } else if i < j {
        assert h.blocks[i].End() <= h.blocks[j].addr;
      }
    }
  }

  /** No byte of an owned payload lies in any header. */
  lemma OwnedClear(h: Heap, a: nat, n: nat)
    requires Inv(h) && Owns(h, a, n)
    ensures forall x :: a <= x < a + n ==> ClearOfHeaders(h, x)
    ensures 0 < a && a + n < TWO_32
  {
    forall x | a <= x < a + n
      ensures ClearOfHeaders(h, x)
    {
      PayloadClear(h, BlockAt(h, a, 0), x);
    }
  }

  // ----- What stays in memory -----

  /** From heap `h` in memory `m` to heap `g` in memory `m'`: the blocks of `kept` that were live still are,
      and every byte of them is as it was. */
  ghost predicate Spares(h: Heap, m: seq<Byte>, g: Heap, m': seq<Byte>, kept: set<nat>)
  {
    |m'| == |m| && forall a: nat, n: nat :: a in kept && Owns(h, a, n) ==> Owns(g, a, n) && SameBytes(m, m', a, n)
  }

  ghost predicate SameBytes(m: seq<Byte>, m': seq<Byte>, a: nat, n: nat)
  {
    forall x :: a <= x < a + n && x < |m| && x < |m'| ==> m'[x] == m[x]
  }

  lemma SparesSame(h: Heap, m: seq<Byte>, kept: set<nat>)
    ensures Spares(h, m, h, m, kept)
  {
  }

  /** One change after the other. */
  lemma SparesTwice(h: Heap, m: seq<Byte>, g: Heap, m1: seq<Byte>, f: Heap, m2: seq<Byte>, kept: set<nat>,
          more: set<nat>)
    requires Spares(h, m, g, m1, kept) && Spares(g, m1, f, m2, more) && kept <= more
    ensures Spares(h, m, f, m2, kept)
  {
    hide Owns;
    forall a: nat, n: nat | a in kept && Owns(h, a, n)
      ensures Owns(f, a, n) && SameBytes(m, m2, a, n)
    {
      assert Owns(g, a, n) && SameBytes(m, m1, a, n) && SameBytes(m1, m2, a, n);
    }
  }

  lemma SparesLess(h: Heap, m: seq<Byte>, g: Heap, m': seq<Byte>, kept: set<nat>, less: set<nat>)
    requires Spares(h, m, g, m', kept) && less <= kept
    ensures Spares(h, m, g, m', less)
  {
    hide Owns, SameBytes;
  }

  /** Writing headers only. */
  lemma SparesHeaders(h: Heap, m: seq<Byte>, g: Heap, m': seq<Byte>, kept: set<nat>)
    requires Inv(g) && |m'| == |m| && forall x :: 0 <= x < |m| && ClearOfHeaders(g, x) ==> m'[x] == m[x]
    requires forall a: nat, n: nat :: a in kept && Owns(h, a, n) ==> Owns(g, a, n)
    ensures Spares(h, m, g, m', kept)
  {
    hide Owns, Inv, ClearOfHeaders;
    forall a: nat, n: nat | a in kept && Owns(h, a, n)
      ensures SameBytes(m, m', a, n)
    {
      OwnedClear(g, a, n);
    }
  }

  /** An allocation takes nothing from any live block. */
  lemma AllocateSpares(h: Heap, m: seq<Byte>, size: nat, align: bool, m': seq<Byte>, kept: set<nat>)
    requires Inv(h) && Indexed(h) && Sound(h, size, align) && |m'| == |m|
    requires forall x :: 0 <= x < |m| && ClearOfHeaders(Allocate(h, size, align).0, x) ==> m'[x] == m[x]
    ensures Spares(h, m, Allocate(h, size, align).0, m', kept)
  {
    var g := Allocate(h, size, align).0;
    if size == 0 {
      EmptyAllocation(h, align);
    } else {
      AllocateSafe(h, size, align);
    }
    hide Owns, Inv, ClearOfHeaders, Allocate, Sound, HandsOut, Indexed;
    forall a: nat, n: nat | a in kept && Owns(h, a, n)
      ensures Owns(g, a, n)
    {
      if size > 0 {
        AllocateOwns(h, size, align, a, n);
      }
    }
    SparesHeaders(h, m, g, m', kept);
  }

  lemma EmptyAllocation(h: Heap, align: bool)
    requires Indexed(h)
    ensures Allocate(h, 0, align) == (h, 0)
  {
  }

  /** A release takes nothing from any other block. */
  lemma ReleaseSpares(h: Heap, m: seq<Byte>, p: nat, m': seq<Byte>, kept: set<nat>)
    requires Inv(h) && |m'| == |m| && p !in kept
    requires forall x :: 0 <= x < |m| && ClearOfHeaders(Release(h, p), x) ==> m'[x] == m[x]
    ensures Spares(h, m, Release(h, p), m', kept)
  {
    hide Owns, Inv, ClearOfHeaders, Release;
    ReleaseKeepsInv(h, p);
    forall a: nat, n: nat | a in kept && Owns(h, a, n)
      ensures Owns(Release(h, p), a, n)
    {
      ReleaseOwns(h, p, a, n);
    }
    SparesHeaders(h, m, Release(h, p), m', kept);
  }

  /** Allocates a block and says what that does to the live ones. */
  method Take(heap: KernelHeap, size: U32) returns (p: nat)
    requires heap.Valid() && size > 0 && heap.state.brk + size + PAGE < TWO_32
    modifies heap, heap.ram
    ensures heap.Valid() && p !in Live(old(heap.state)) && Live(heap.state) == Live(old(heap.state)) + {p}
    ensures Creeps(old(heap.state), heap.state, size + HEADER) && (heap.state, p) == Small(old(heap.state), size)
    ensures Spares(old(heap.state), old(heap.ram[..]), heap.state, heap.ram[..], Live(old(heap.state)))
  {
    hide KernelHeap.ValidIn, Inv, Allocate, Live, Creeps, Spares, ClearOfHeaders;
    heap.ValidFacts();
    ghost var h, m := heap.state, heap.ram[..];
    p := heap.Kmalloc(size);
    AllocateSpares(h, m, size, false, heap.ram[..], Live(h));
    AllocateLive(h, size, false);
    KmallocCreeps(h, size);
  }

  /** The header in front of a payload, in memory: the size, the address of the next block's header, 1 in a block
      that was given back and 0 otherwise, and one of the two magic numbers. */
  lemma HeaderBytes(heap: KernelHeap, i: nat)
    requires heap.Valid() && i < |heap.state.blocks|
    ensures var m, b := heap.ram[..], heap.state.blocks[i];
            && b.Payload() == b.addr + 16
            && NumberAt(m, b.addr, 4) == b.size && NumberAt(m, b.addr + 8, 4) == (if b.free then 1 else 0)
            && NumberAt(m, b.addr + 12, 4) in {0x1234_5678, 0x7777_7777}
  {
    HeaderNumbers(heap.ram[..], heap.state, heap.headers, i);
  }

  lemma LinkBytes(heap: KernelHeap, k: nat)
    requires heap.Valid() && k < |heap.state.list|
    ensures var h, m := heap.state, heap.ram[..];
            NumberAt(m, h.blocks[h.list[k]].addr + 4, 4) ==
              if k + 1 < |h.list| then h.blocks[h.list[k + 1]].addr else 0
  {
    HeaderNumbers(heap.ram[..], heap.state, heap.headers, heap.state.list[k]);
  }

  lemma HeaderNumbers(m: seq<Byte>, h: Heap, hds: seq<Header>, i: nat)
    requires Inv(h) && Indexed(h) && InMemory(m, h, hds) && StoredAs(h, hds) && i < |h.blocks|
    ensures var a := h.blocks[i].addr;
            && i < |hds| && NumberAt(m, a, 4) == hds[i].size && NumberAt(m, a + 4, 4) == hds[i].next
            && NumberAt(m, a + 8, 4) == hds[i].free && NumberAt(m, a + 12, 4) == hds[i].magic
  {
    hide Inv, NumberAt, StoredAs, Le32At;
    var a := h.blocks[i].addr;
    LongIs(m, a);
    LongIs(m, a + 4);
    LongIs(m, a + 8);
    LongIs(m, a + 12);
  }

  /** Gives a live block back. */
  method Give(heap: KernelHeap, p: nat)
    requires heap.Valid() && p in Live(heap.state)
    modifies heap, heap.ram
    ensures heap.Valid() && Live(heap.state) == Live(old(heap.state)) - {p}
    ensures Creeps(old(heap.state), heap.state, 0) && heap.state == Release(old(heap.state), p)
    ensures forall x :: 0 <= x < heap.ram.Length && ClearOfHeaders(heap.state, x) ==> heap.ram[x] == old(heap.ram[x])
    ensures Spares(old(heap.state), old(heap.ram[..]), heap.state, heap.ram[..], Live(old(heap.state)) - {p})
  {
    hide KernelHeap.ValidIn, Inv, Live, Creeps, Release, Spares, ClearOfHeaders;
    heap.ValidFacts();
    ghost var h, m := heap.state, heap.ram[..];
    LiveIsBlock(h, p);
    EndsBelowBreak(h, BlockAt(h, p, 0));
    heap.Kfree(p);
    ReleaseSpares(h, m, p, heap.ram[..], Live(h) - {p});
    ReleaseLive(h, p);
    ReleaseCreeps(h, p);
  }

  /** Gives two live blocks back, one after the other. */
  method GiveBoth(heap: KernelHeap, p: nat, q: nat)
    requires heap.Valid() && p in Live(heap.state) && q in Live(heap.state) && p != q
    modifies heap, heap.ram
    ensures heap.Valid() && Live(heap.state) == Live(old(heap.state)) - {p, q}
    ensures Creeps(old(heap.state), heap.state, 0) && heap.state == Release(Release(old(heap.state), p), q)
    ensures forall x :: 0 <= x < heap.ram.Length && ClearOfHeaders(heap.state, x) ==> heap.ram[x] == old(heap.ram[x])
    ensures Spares(old(heap.state), old(heap.ram[..]), heap.state, heap.ram[..], Live(old(heap.state)) - {p, q})
  {
    hide KernelHeap.ValidIn, Live, Creeps, Release, ClearOfHeaders, Spares;
    ghost var h, m := heap.state, heap.ram[..];
    Give(heap, p);
    ghost var h1, m1 := heap.state, heap.ram[..];
    Give(heap, q);
    SparesLess(h, m, h1, m1, Live(h) - {p}, Live(h) - {p, q});
    SparesTwice(h, m, h1, m1, heap.state, heap.ram[..], Live(h) - {p, q}, Live(h1) - {q});
    CreepsTwice(h, h1, heap.state, 0, 0);
    CreepsClear(h1, heap.state, 0);
  }

  /** No header goes away. */
  lemma CreepsClear(h: Heap, g: Heap, room: nat)
    requires Creeps(h, g, room)
    ensures forall x :: ClearOfHeaders(g, x) ==> ClearOfHeaders(h, x)
  {
  }

  // ----- Blocks taken -----

  function Elements(s: seq<nat>): set<nat>
  {
    set p | p in s
  }

  lemma ElementsConcat(a: seq<nat>, b: seq<nat>)
    ensures Elements(a + b) == Elements(a) + Elements(b)
  {
    assert forall p :: p in a + b <==> p in a || p in b;
  }

  /** The blocks of `taken` were handed out, each once, and nothing else became live or was given back. */
  ghost predicate Took(before: set<nat>, now: set<nat>, taken: seq<nat>)
  {
    && (forall i :: 0 <= i < |taken| ==> taken[i] !in before)
    && (forall i, j :: 0 <= i < j < |taken| ==> taken[i] != taken[j])
    && now == before + Elements(taken)
  }

  lemma TookNone(live: set<nat>)
    ensures Took(live, live, [])
  {
  }

  /** From `h` to `g` exactly the blocks of `taken` became live, and the break crept by at most `room`. */
  ghost predicate Leaves(h: Heap, g: Heap, taken: seq<nat>, room: nat)
  {
    Took(Live(h), Live(g), taken) && Creeps(h, g, room)
  }

  lemma LeavesNone(h: Heap, room: nat)
    ensures Leaves(h, h, [], room)
  {
    hide Live, Creeps;
    TookNone(Live(h));
    CreepsSame(h);
    CreepsMore(h, h, 0, room);
  }

  lemma LeavesMore(h: Heap, g: Heap, taken: seq<nat>, room: nat, more: nat)
    requires Leaves(h, g, taken, room) && room <= more
    ensures Leaves(h, g, taken, more)
  {
    hide Live, Creeps, Took;
    CreepsMore(h, g, room, more);
  }

  lemma LeavesOne(h: Heap, g: Heap, p: nat, room: nat)
    requires p !in Live(h) && Live(g) == Live(h) + {p} && Creeps(h, g, room)
    ensures Leaves(h, g, [p], room)
  {
    hide Live, Creeps, Took;
    TookNone(Live(h));
    TookMore(Live(h), Live(h), [], p);
    assert [] + [p] == [p];
  }

  lemma LeavesTwice(h: Heap, g: Heap, f: Heap, first: seq<nat>, second: seq<nat>, a: nat, b: nat)
    requires Leaves(h, g, first, a) && Leaves(g, f, second, b)
    ensures Leaves(h, f, first + second, a + b)
  {
    hide Live, Creeps, Took;
    TookTwice(Live(h), Live(g), Live(f), first, second);
    CreepsTwice(h, g, f, a, b);
  }

  /** What an open leaves: the break is bounded, and what was live stays so. */
  lemma LeavesFacts(h: Heap, g: Heap, taken: seq<nat>, room: nat)
    requires Leaves(h, g, taken, room)
    ensures h.brk <= g.brk <= h.brk + room && Live(h) <= Live(g) && Elements(taken) <= Live(g)
    ensures forall p :: p in taken ==> p !in Live(h)
  {
    hide Live;
  }

  /** Closing what was opened: the descriptor's blocks are not left. */
  lemma LeavesClosed(h: Heap, g: Heap, f: Heap, taken: seq<nat>, room: nat)
    requires Leaves(h, g, taken, room) && |taken| == 4 && Live(f) == Live(g) - {taken[2], taken[3]} && Creeps(g, f, 0)
    ensures Leaves(h, f, taken[..2], room)
  {
    hide Live, Creeps;
    CreepsTwice(h, g, f, room, 0);
    assert Elements(taken) == {taken[0], taken[1], taken[2], taken[3]};
    assert Elements(taken[..2]) == {taken[0], taken[1]};
  }

  lemma TookTwice(before: set<nat>, mid: set<nat>, now: set<nat>, first: seq<nat>, second: seq<nat>)
    requires Took(before, mid, first) && Took(mid, now, second)
    ensures Took(before, now, first + second)
  {
    var all := first + second;
    assert forall i :: 0 <= i < |first| ==> first[i] in first && all[i] == first[i];
    assert forall i :: |first| <= i < |all| ==> all[i] == second[i - |first|];
    assert forall p :: p in all <==> p in first || p in second;
  }

  lemma TookMore(before: set<nat>, now: set<nat>, taken: seq<nat>, p: nat)
    requires Took(before, now, taken) && p !in now
    ensures Took(before, now + {p}, taken + [p])
  {
    var more := taken + [p];
    assert forall i :: 0 <= i < |taken| ==> taken[i] in taken && more[i] == taken[i];
    assert forall q :: q in more <==> q in taken || q == p;
  }
}
