/** The kernel heap as a transition system (src/memory/heap/kheap.c): a break that only new blocks
    move, all blocks ever made, and the singly linked list that first-fit searches. */
module HeapModel {
  import opened Bytes

  const HEADER := 16
  const PAGE := 4096

  datatype Block = Block(addr: nat, size: nat, free: bool) {
    function Payload(): nat { addr + HEADER }
    function End(): nat { addr + HEADER + size }
  }

  /** `blocks` in order of creation; `list` holds the indices of the linked ones, in list order. */
  datatype Heap = Heap(brk: nat, blocks: seq<Block>, list: seq<nat>)

  /** The break after it was moved so that the next payload starts on a page. */
  function AlignBump(brk: nat): nat
  {
    if (brk + HEADER) % PAGE != 0 then brk - brk % PAGE + PAGE - HEADER else brk
  }

  predicate Fits(b: Block, size: nat)
  {
    b.free && b.size >= size
  }

  /** The first list position from `k` on whose block is free and large enough, or the list length. */
  function FirstFit(h: Heap, size: nat, k: nat): (r: nat)
    requires k <= |h.list| && Indexed(h)
    ensures k <= r <= |h.list|
    ensures forall j :: k <= j < r ==> !Fits(h.blocks[h.list[j]], size)
    ensures r < |h.list| ==> Fits(h.blocks[h.list[r]], size)
    decreases |h.list| - k
  {
    if k == |h.list| || Fits(h.blocks[h.list[k]], size) then k else FirstFit(h, size, k + 1)
  }

  predicate Indexed(h: Heap)
  {
    forall k :: 0 <= k < |h.list| ==> 0 <= h.list[k] < |h.blocks|
  }

  /** The list position whose block an allocation takes over, or the list length if it needs new space. */
  function Reused(h: Heap, size: nat, align: bool): (k: nat)
    requires Indexed(h)
    ensures k <= |h.list|
    ensures k < |h.list| ==> Fits(h.blocks[h.list[k]], size) && (align ==> h.blocks[h.list[k]].Payload() % PAGE == 0)
  {
    var k := FirstFit(h, size, 0);
    if k < |h.list| && align && h.blocks[h.list[k]].Payload() % PAGE != 0 then |h.list| else k
  }

  /** How much of the list stays when a new block is linked: up to the block searched last. */
  function Kept(h: Heap, size: nat): nat
    requires Indexed(h)
  {
    var k := FirstFit(h, size, 0);
    if k == 0 && |h.list| > 0 then 1 else k
  }

  /** One allocation: the new state and the pointer handed out, 0 for an empty request. */
  function Allocate(h: Heap, size: nat, align: bool): (r: (Heap, nat))
    requires Indexed(h)
  {
    if size == 0 then (h, 0)
    else
      var k := Reused(h, size, align);
      if k < |h.list| then
        var b := h.blocks[h.list[k]];
        (h.(blocks := h.blocks[h.list[k] := b.(free := false)]), b.Payload())
      else
        var at := if align then AlignBump(h.brk) else h.brk;
        var b := Block(at, size, false);
        (Heap(b.End(), h.blocks + [b], h.list[..Kept(h, size)] + [|h.blocks|]), b.Payload())
  }

  /** `kmalloc`, on any state. */
  ghost function Small(h: Heap, size: nat): (Heap, nat)
  {
    if Indexed(h) then Allocate(h, size, false) else (h, 0)
  }

  /** The block at list position `k` is the first that is free and has `size` bytes. */
  predicate Serves(h: Heap, size: nat, k: nat)
    requires Indexed(h)
  {
    && k < |h.list| && h.blocks[h.list[k]].free && h.blocks[h.list[k]].size >= size
    && forall j :: 0 <= j < k ==> !h.blocks[h.list[j]].free || h.blocks[h.list[j]].size < size
  }

  /** Where an allocation gets its memory: from the first free block of the list that is large enough, if that
      is on a page where one is asked for, and else from the break, moved on to the next page where needed. */
  lemma AllocateWhere(h: Heap, size: nat, align: bool)
    requires Indexed(h) && size > 0
    ensures var (g, p) := Allocate(h, size, align);
            && (forall k: nat :: Serves(h, size, k) && (align ==> (h.blocks[h.list[k]].addr + 16) % 0x1000 == 0) ==>
                  var b := h.blocks[h.list[k]];
                  p == b.addr + 16 && g == Heap(h.brk, h.blocks[h.list[k] := Block(b.addr, b.size, false)], h.list))
            && ((forall k: nat :: Serves(h, size, k) ==> align && (h.blocks[h.list[k]].addr + 16) % 0x1000 != 0) ==>
                  && p == (if align && (h.brk + 16) % 0x1000 != 0 then h.brk - h.brk % 0x1000 + 0x1000 else h.brk + 16)
                  && g.brk == p + size && g.blocks == h.blocks + [Block(p - 16, size, false)])
  {
    var k := FirstFit(h, size, 0);
    assert k < |h.list| ==> Serves(h, size, k);
    assert forall l: nat :: Serves(h, size, l) ==> l == k;
  }

  /** The block behind a payload pointer, or the number of blocks. */
  function BlockAt(h: Heap, p: nat, i: nat): (r: nat)
    requires i <= |h.blocks|
    ensures i <= r <= |h.blocks|
    ensures r < |h.blocks| ==> h.blocks[r].Payload() == p
    ensures forall j :: i <= j < r ==> h.blocks[j].Payload() != p
    decreases |h.blocks| - i
  {
    if i == |h.blocks| || h.blocks[i].Payload() == p then i else BlockAt(h, p, i + 1)
  }

  /** `kfree`: a pointer to no block changes nothing. */
  function Release(h: Heap, p: nat): Heap
  {
    var i := BlockAt(h, p, 0);
    if i < |h.blocks| then h.(blocks := h.blocks[i := h.blocks[i].(free := true)]) else h
  }

  // ----- Invariant -----

  /** Blocks lie one after another, none over another, up to the break. */
  ghost predicate Ordered(blocks: seq<Block>, brk: nat)
  {
    && (forall i, j :: 0 <= i < j < |blocks| ==> blocks[i].End() <= blocks[j].addr)
    && (forall i :: 0 <= i < |blocks| ==> blocks[i].size > 0)
    && (|blocks| > 0 ==> blocks[|blocks| - 1].End() == brk)
  }

  /** The list starts with the first block and ascends. */
  ghost predicate Listed(list: seq<nat>, n: nat)
  {
    && (forall k :: 0 <= k < |list| ==> list[k] < n)
    && (forall k, l :: 0 <= k < l < |list| ==> list[k] < list[l])
    && (n > 0 ==> list != [] && list[0] == 0)
  }

  ghost predicate Inv(h: Heap)
  {
    Ordered(h.blocks, h.brk) && Listed(h.list, |h.blocks|)
  }

  /** The request does not move the break back into the last block. */
  predicate Sound(h: Heap, size: nat, align: bool)
    requires Indexed(h)
  {
    size > 0 && align && Reused(h, size, align) == |h.list| ==> AlignBump(h.brk) >= h.brk
  }

  /** The aligned bump moves the break back exactly when less than a header is left on the page. */
  lemma BumpBackward(brk: nat)
    ensures AlignBump(brk) < brk <==> brk % PAGE > PAGE - HEADER
    ensures (AlignBump(brk) + HEADER) % PAGE == 0
    ensures brk - (HEADER - 1) <= AlignBump(brk) <= brk + (PAGE - HEADER)
  {
  }

  // ----- One step -----

  lemma MarkKeepsOrder(blocks: seq<Block>, brk: nat, i: nat, free: bool)
    requires Ordered(blocks, brk) && i < |blocks|
    ensures Ordered(blocks[i := blocks[i].(free := free)], brk)
  {
    var marked := blocks[i := blocks[i].(free := free)];
    assert forall j :: 0 <= j < |blocks| ==> marked[j].addr == blocks[j].addr && marked[j].size == blocks[j].size;
  }

  lemma AppendKeepsOrder(blocks: seq<Block>, brk: nat, b: Block)
    requires Ordered(blocks, brk) && (brk <= b.addr || blocks == []) && b.size > 0
    ensures Ordered(blocks + [b], b.End())
  {
    var more := blocks + [b];
    forall i, j | 0 <= i < j < |more|
      ensures more[i].End() <= more[j].addr
    {
      if j == |blocks| && i < |blocks| - 1 {
        assert blocks[i].End() <= blocks[|blocks| - 1].addr;
      }
    }
  }

  lemma LinkKeepsList(list: seq<nat>, n: nat, keep: nat)
    requires Listed(list, n) && keep <= |list| && (n > 0 ==> keep > 0)
    ensures Listed(list[..keep] + [n], n + 1)
  {
    var more := list[..keep] + [n];
    assert forall k :: 0 <= k < keep ==> more[k] == list[k];
  }

  /** The index of the block an allocation hands out. */
  function Taken(h: Heap, size: nat, align: bool): nat
    requires Indexed(h)
  {
    var k := Reused(h, size, align);
    if k < |h.list| then h.list[k] else |h.blocks|
  }

  /** `g` is `h` with block `i` handed out as `p`: a block that was free or not there, and no other changed. */
  ghost predicate HandsOut(h: Heap, g: Heap, i: nat, p: nat, size: nat)
  {
    && i < |g.blocks| && |h.blocks| <= |g.blocks| <= |h.blocks| + 1
    && g.blocks[i].Payload() == p && !g.blocks[i].free && g.blocks[i].size >= size
    && (i < |h.blocks| ==> h.blocks[i].free && g.blocks[i] == h.blocks[i].(free := false))
    && (forall j :: 0 <= j < |g.blocks| && j != i ==> j < |h.blocks| && g.blocks[j] == h.blocks[j])
  }

  lemma IndexedByList(h: Heap)
    requires Inv(h)
    ensures Indexed(h)
  {
  }

  /** A sound allocation keeps the invariant, hands out a block that was not live and is large enough,
      on a page if so asked, and leaves every other block as it was. */
  lemma AllocateSafe(h: Heap, size: nat, align: bool)
    requires Inv(h) && Indexed(h) && size > 0 && Sound(h, size, align)
    ensures var (g, p) := Allocate(h, size, align);
            Inv(g) && Indexed(g) && HandsOut(h, g, Taken(h, size, align), p, size) && (align ==> p % PAGE == 0)
  {
    hide Ordered, Listed;
    var k := Reused(h, size, align);
    var (g, p) := Allocate(h, size, align);
    BumpBackward(h.brk);
    if k < |h.list| {
      MarkKeepsOrder(h.blocks, h.brk, h.list[k], false);
    } else {
      var at := if align then AlignBump(h.brk) else h.brk;
      AppendKeepsOrder(h.blocks, h.brk, Block(at, size, false));
      ListNonempty(h);
      LinkKeepsList(h.list, |h.blocks|, Kept(h, size));
    }
    IndexedByList(g);
  }

  lemma ListNonempty(h: Heap)
    requires Inv(h)
    ensures |h.blocks| > 0 <==> h.list != []
  {
    assert h.list != [] ==> h.list[0] < |h.blocks|;
  }

  lemma PayloadsDistinct(h: Heap)
    requires Inv(h)
    ensures forall i, j :: 0 <= i < j < |h.blocks| ==> h.blocks[i].Payload() < h.blocks[j].Payload()
  {
    forall i, j | 0 <= i < j < |h.blocks|
      ensures h.blocks[i].Payload() < h.blocks[j].Payload()
    {
      assert h.blocks[i].End() <= h.blocks[j].addr;
    }
  }

  lemma ReleaseKeepsInv(h: Heap, p: nat)
    requires Inv(h)
    ensures var g := Release(h, p);
            && Inv(g) && |g.blocks| == |h.blocks| && g.list == h.list && g.brk == h.brk
            && forall i :: 0 <= i < |h.blocks| ==>
              g.blocks[i] == if h.blocks[i].Payload() == p then h.blocks[i].(free := true) else h.blocks[i]
  {
    PayloadsDistinct(h);
    hide Ordered, Listed;
    var i := BlockAt(h, p, 0);
    if i < |h.blocks| {
      MarkKeepsOrder(h.blocks, h.brk, i, true);
    }
  }

  // ----- Live blocks -----

  /** The payload addresses handed out and not yet released. */
  ghost function Live(h: Heap): set<nat>
  {
    set i | 0 <= i < |h.blocks| && !h.blocks[i].free :: h.blocks[i].Payload()
  }

  lemma LiveMember(h: Heap, p: nat)
    ensures p in Live(h) <==> exists i :: 0 <= i < |h.blocks| && !h.blocks[i].free && h.blocks[i].Payload() == p
  {
  }

  lemma HandsOutLive(h: Heap, g: Heap, i: nat, p: nat, size: nat)
    requires Inv(g) && HandsOut(h, g, i, p, size)
    ensures p !in Live(h) && Live(g) == Live(h) + {p}
  {
    PayloadsDistinct(g);
    hide Inv;
    assert p in Live(g) by { LiveMember(g, p); }
    forall q
      ensures q in Live(h) <==> q in Live(g) && q != p
    {
      LiveMember(g, q);
      LiveMember(h, q);
    }
  }

  lemma LiveIsBlock(h: Heap, p: nat)
    requires p in Live(h)
    ensures var i := BlockAt(h, p, 0); i < |h.blocks| && h.blocks[i].Payload() == p && HEADER <= p
  {
    LiveMember(h, p);
  }

  /** An allocation adds exactly one address to the live ones, and a new one. */
  lemma AllocateLive(h: Heap, size: nat, align: bool)
    requires Inv(h) && Indexed(h) && size > 0 && Sound(h, size, align)
    ensures var (g, p) := Allocate(h, size, align); p !in Live(h) && Live(g) == Live(h) + {p}
  {
    hide Allocate, Inv, Sound, HandsOut;
    AllocateSafe(h, size, align);
    var (g, p) := Allocate(h, size, align);
    HandsOutLive(h, g, Taken(h, size, align), p, size);
  }

  /** A release removes exactly its address. */
  lemma ReleaseLive(h: Heap, p: nat)
    requires Inv(h)
    ensures Live(Release(h, p)) == Live(h) - {p}
  {
    hide Release, Inv;
    ReleaseKeepsInv(h, p);
    var g := Release(h, p);
    forall q
      ensures q in Live(g) <==> q in Live(h) && q != p
    {
      LiveMember(g, q);
      LiveMember(h, q);
    }
  }

  // ----- Where disjointness ends, and what truncation loses -----

  /** An aligned new block stays clear of the last block exactly when the break is not in the last
      header's width of its page. */
  lemma OverlapExact(h: Heap, size: nat)
    requires Inv(h) && Indexed(h) && h.blocks != [] && size > 0 && Reused(h, size, true) == |h.list|
    ensures var g := Allocate(h, size, true).0;
            h.blocks[|h.blocks| - 1].End() <= g.blocks[|h.blocks|].addr <==> h.brk % PAGE <= PAGE - HEADER
    ensures var g := Allocate(h, size, true).0;
            h.brk + size + 1 <= g.brk <= h.brk + size + PAGE
  {
    BumpBackward(h.brk);
  }

  /** Linking a new block keeps the whole list exactly when first-fit found nothing to reject, or the
      list has one block. */
  lemma TruncationExact(h: Heap, size: nat, align: bool)
    requires Inv(h) && Indexed(h) && size > 0 && h.list != [] && Reused(h, size, align) == |h.list|
    ensures Allocate(h, size, align).0.list == h.list + [|h.blocks|] <==>
            FirstFit(h, size, 0) == |h.list| || |h.list| == 1
  {
    var k := FirstFit(h, size, 0);
    assert |h.list[..Kept(h, size)] + [|h.blocks|]| == Kept(h, size) + 1;
    if k == |h.list| || |h.list| == 1 {
      assert h.list[..Kept(h, size)] == h.list;
    }
  }

  // ----- Runs -----

  datatype Op = Kmalloc(size: nat) | KmallocA(size: nat) | Kfree(p: nat)

  function Step(h: Heap, op: Op): Heap
    requires Indexed(h)
  {
    match op
    case Kmalloc(size) => Allocate(h, size, false).0
    case KmallocA(size) => Allocate(h, size, true).0
    case Kfree(p) => Release(h, p)
  }

  predicate SoundStep(h: Heap, op: Op)
    requires Indexed(h)
  {
    op.KmallocA? ==> Sound(h, op.size, true)
  }

  lemma StepKeepsInv(h: Heap, op: Op)
    requires Inv(h) && Indexed(h) && SoundStep(h, op)
    ensures var g := Step(h, op);
            && Inv(g) && Indexed(g)
            && |h.blocks| <= |g.blocks|
            && (forall i :: 0 <= i < |h.blocks| ==>
              g.blocks[i].addr == h.blocks[i].addr && g.blocks[i].size == h.blocks[i].size)
            && (forall i :: i in g.list ==> i in h.list || i >= |h.blocks|)
  {
    hide Inv, Allocate, Release;
    match op {
      case Kmalloc(size) => AllocateStep(h, size, false);
      case KmallocA(size) => AllocateStep(h, size, true);
      case Kfree(p) => ReleaseKeepsInv(h, p); IndexedByList(Release(h, p));
    }
  }

  lemma AllocateStep(h: Heap, size: nat, align: bool)
    requires Inv(h) && Indexed(h) && Sound(h, size, align)
    ensures var g := Allocate(h, size, align).0;
            && Inv(g) && Indexed(g)
            && |h.blocks| <= |g.blocks|
            && (forall i :: 0 <= i < |h.blocks| ==>
              g.blocks[i].addr == h.blocks[i].addr && g.blocks[i].size == h.blocks[i].size)
            && (forall i :: i in g.list ==> i in h.list || i >= |h.blocks|)
  {
    if size > 0 {
      AllocateSafe(h, size, align);
    }
  }

  /** No operation of the run moves the break back. */
  ghost predicate SoundRun(h: Heap, ops: seq<Op>)
    requires Inv(h)
    decreases ops
  {
    IndexedByList(h);
    ops != [] ==> SoundStep(h, ops[0]) && (StepKeepsInv(h, ops[0]); SoundRun(Step(h, ops[0]), ops[1..]))
  }

  ghost function Run(h: Heap, ops: seq<Op>): Heap
    requires Inv(h) && SoundRun(h, ops)
    decreases ops
  {
    if ops == [] then h
    else
      IndexedByList(h);
      StepKeepsInv(h, ops[0]);
      Run(Step(h, ops[0]), ops[1..])
  }

  /** Over every such run blocks stay disjoint and in place, the list stays ascending, and a block once
      cut off the list is never found again. */
  lemma {:induction false} RunSafe(h: Heap, ops: seq<Op>)
    requires Inv(h) && SoundRun(h, ops)
    ensures var g := Run(h, ops);
            && Inv(g)
            && |h.blocks| <= |g.blocks|
            && (forall i :: 0 <= i < |h.blocks| ==>
              g.blocks[i].addr == h.blocks[i].addr && g.blocks[i].size == h.blocks[i].size)
            && (forall i :: i in g.list ==> i in h.list || i >= |h.blocks|)
    decreases ops
  {
    if ops != [] {
      IndexedByList(h);
      StepKeepsInv(h, ops[0]);
      hide Inv, Step;
      RunSafe(Step(h, ops[0]), ops[1..]);
    }
  }

  predicate Granular(op: Op)
  {
    op.Kfree? || op.size % HEADER == 0
  }

  lemma GranularAllocation(h: Heap, size: nat, align: bool)
    requires Indexed(h) && h.brk % HEADER == 0 && size % HEADER == 0
    ensures Sound(h, size, true) && Allocate(h, size, align).0.brk % HEADER == 0
  {
    hide Allocate, Sound, AlignBump, Indexed;
    AllocateBreak(h, size, align);
    GranularBump(h.brk);
    SteadyIsSound(h, size);
  }

  lemma GranularBump(brk: nat)
    requires brk % HEADER == 0
    ensures brk % PAGE <= PAGE - HEADER && AlignBump(brk) % HEADER == 0
  {
  }

  lemma GranularStep(h: Heap, op: Op)
    requires Inv(h) && Indexed(h) && h.brk % HEADER == 0 && Granular(op)
    ensures SoundStep(h, op) && Step(h, op).brk % HEADER == 0
  {
    hide Inv, Allocate, Sound, BlockAt;
    match op {
      case Kmalloc(size) => GranularAllocation(h, size, false);
      case KmallocA(size) => GranularAllocation(h, size, true);
      case Kfree(_) =>
    }
  }

  /** If the break and every size are multiples of 16, every run is sound. */
  lemma {:induction false} GranularRunsAreSound(h: Heap, ops: seq<Op>)
    requires Inv(h) && h.brk % HEADER == 0
    requires forall i :: 0 <= i < |ops| ==> Granular(ops[i])
    ensures SoundRun(h, ops)
    decreases ops
  {
    if ops != [] {
      IndexedByList(h);
      GranularStep(h, ops[0]);
      StepKeepsInv(h, ops[0]);
      hide Inv, Step, SoundStep;
      GranularRunsAreSound(Step(h, ops[0]), ops[1..]);
    }
  }

  // ----- Ownership of pages -----

  /** Address `a` is the page-aligned payload of a live block of at least `size` bytes. */
  ghost predicate Owns(h: Heap, a: nat, size: nat)
  {
    var i := BlockAt(h, a, 0);
    i < |h.blocks| && !h.blocks[i].free && h.blocks[i].size >= size && h.blocks[i].End() < TWO_32
  }

  /** Below 4 GiB the live blocks are the owned ones. */
  lemma LiveIsOwned(h: Heap, a: nat)
    requires Inv(h) && h.brk < TWO_32
    ensures a in Live(h) <==> Owns(h, a, 0)
  {
    if a in Live(h) {
      LiveMember(h, a);
      var i :| 0 <= i < |h.blocks| && !h.blocks[i].free && h.blocks[i].Payload() == a;
      BlockAtIndex(h, i);
      EndsBelowBreak(h, i);
    }
    if Owns(h, a, 0) {
      LiveMember(h, a);
    }
  }

  /** A release leaves every other block owned. */
  lemma ReleaseOwns(h: Heap, p: nat, a: nat, n: nat)
    requires Inv(h) && Owns(h, a, n) && a != p
    ensures Owns(Release(h, p), a, n)
  {
    ReleaseKeepsInv(h, p);
    var i := BlockAt(h, a, 0);
    BlockAtIndex(Release(h, p), i);
    hide Inv, Release;
  }

  lemma BlockAtIndex(h: Heap, i: nat)
    requires Inv(h) && i < |h.blocks|
    ensures BlockAt(h, h.blocks[i].Payload(), 0) == i
  {
    PayloadsDistinct(h);
  }

  /** What an allocation leaves owned, and what it newly owns. */
  lemma AllocateOwns(h: Heap, size: nat, align: bool, a: nat, n: nat)
    requires Inv(h) && Indexed(h) && size > 0 && Sound(h, size, align)
    ensures var (g, p) := Allocate(h, size, align); Owns(h, a, n) ==> Owns(g, a, n) && a != p
  {
    hide Allocate, Sound;
    AllocateSafe(h, size, align);
    var (g, p) := Allocate(h, size, align);
    var i, t := BlockAt(h, a, 0), Taken(h, size, align);
    if Owns(h, a, n) {
      assert g.blocks[i] == h.blocks[i];
      BlockAtIndex(g, i);
      BlockAtIndex(g, t);
    }
  }

  lemma AllocateOwnsNew(h: Heap, size: nat, align: bool)
    requires Inv(h) && Indexed(h) && size > 0 && Sound(h, size, align)
    ensures var (g, p) := Allocate(h, size, align);
            && (g.brk < TWO_32 ==> Owns(g, p, size))
            && (align ==> p % PAGE == 0) && p > 0
  {
    hide Allocate, Sound;
    AllocateSafe(h, size, align);
    var (g, p) := Allocate(h, size, align);
    var t := Taken(h, size, align);
    BlockAtIndex(g, t);
    EndsBelowBreak(g, t);
  }

  lemma EndsBelowBreak(h: Heap, i: nat)
    requires Inv(h) && i < |h.blocks|
    ensures h.blocks[i].End() <= h.brk
  {
    if i < |h.blocks| - 1 {
      assert h.blocks[i].End() <= h.blocks[|h.blocks| - 1].addr;
    }
  }

  /** Two owned payloads do not overlap. */
  lemma OwnedApart(h: Heap, a: nat, n: nat, b: nat, k: nat)
    requires Inv(h) && Owns(h, a, n) && Owns(h, b, k) && a != b
    ensures a + n <= b || b + k <= a
  {
    var i, j := BlockAt(h, a, 0), BlockAt(h, b, 0);
    if i < j {
      assert h.blocks[i].End() <= h.blocks[j].addr;
    } else {
      assert h.blocks[j].End() <= h.blocks[i].addr;
    }
  }

  /** The break leaves room for another header on its page, so an aligned bump moves forward. */
  predicate Steady(h: Heap)
  {
    h.brk % PAGE <= PAGE - HEADER
  }

  lemma SteadyIsSound(h: Heap, size: nat)
    requires Indexed(h) && Steady(h)
    ensures Sound(h, size, true)
  {
    BumpBackward(h.brk);
  }

  lemma PageOffset(a: nat, n: nat)
    requires a % PAGE == 0
    ensures (a + n) % PAGE == n % PAGE
  {
  }

  lemma AllocateBreak(h: Heap, size: nat, align: bool)
    requires Indexed(h)
    ensures var g := Allocate(h, size, align).0;
            g.brk == h.brk || g.brk == (if align then AlignBump(h.brk) else h.brk) + HEADER + size
  {
  }

  /** Aligned allocations whose size leaves such room keep it so. */
  lemma SteadyStep(h: Heap, size: nat)
    requires Indexed(h) && Steady(h) && size % PAGE <= PAGE - HEADER
    ensures Steady(Allocate(h, size, true).0)
    ensures h.brk <= Allocate(h, size, true).0.brk <= h.brk + size + PAGE
  {
    hide Allocate, AlignBump;
    AllocateBreak(h, size, true);
    BumpBackward(h.brk);
    PageOffset(AlignBump(h.brk) + HEADER, size);
  }

  // ----- Small requests -----

  /** The break leaves `slack` bytes and another header on its page. */
  predicate Ample(h: Heap, slack: nat)
  {
    h.brk % PAGE + slack <= PAGE - HEADER
  }

  lemma AmpleMoved(h: Heap, g: Heap, moved: nat, slack: nat)
    requires Ample(h, moved + slack) && h.brk <= g.brk <= h.brk + moved
    ensures Ample(g, slack) && g.brk / PAGE == h.brk / PAGE
  {
  }

  /** From `h` to `g` the break moved forward by at most `room`, and no block moved. */
  ghost predicate Creeps(h: Heap, g: Heap, room: nat)
  {
    && h.brk <= g.brk <= h.brk + room
    && |h.blocks| <= |g.blocks| && (forall i :: 0 <= i < |h.blocks| ==> g.blocks[i].addr == h.blocks[i].addr)
  }

  lemma CreepsTwice(h: Heap, g: Heap, f: Heap, a: nat, b: nat)
    requires Creeps(h, g, a) && Creeps(g, f, b)
    ensures Creeps(h, f, a + b)
  {
  }

  lemma CreepsMore(h: Heap, g: Heap, a: nat, b: nat)
    requires Creeps(h, g, a) && a <= b
    ensures Creeps(h, g, b)
  {
  }

  lemma BreakMoved(h: Heap, g: Heap, room: nat)
    requires Creeps(h, g, room)
    ensures h.brk <= g.brk <= h.brk + room
  {
  }

  lemma CreepsSame(h: Heap)
    ensures Creeps(h, h, 0)
  {
  }

  lemma KmallocCreeps(h: Heap, size: nat)
    requires Indexed(h) && size > 0
    ensures Creeps(h, Allocate(h, size, false).0, size + HEADER)
  {
    hide Reused, Kept;
  }

  lemma ReleaseCreeps(h: Heap, p: nat)
    ensures Creeps(h, Release(h, p), 0)
  {
  }

  /** Every block of at least `m` bytes that starts on a page is live. */
  ghost predicate AlignedLive(h: Heap, m: nat)
  {
    forall i :: 0 <= i < |h.blocks| && h.blocks[i].Payload() % PAGE == 0 && h.blocks[i].size >= m ==> !h.blocks[i].free
  }

  /** Every block of more than 0xFF0 bytes that starts on a page is live. */
  ghost predicate PagesLive(h: Heap)
  {
    AlignedLive(h, PAGE - HEADER + 1)
  }

  /** An allocation keeps that. */
  lemma AllocateKeepsAligned(h: Heap, size: nat, align: bool, m: nat)
    requires Indexed(h) && AlignedLive(h, m)
    ensures AlignedLive(Allocate(h, size, align).0, m)
  {
    hide Reused, Kept;
  }

  /** Giving back the block at `p` leaves every block of at least `m` bytes on a page live. */
  ghost predicate Harmless(h: Heap, p: nat, m: nat)
  {
    p % PAGE != 0 || forall i :: 0 <= i < |h.blocks| && h.blocks[i].Payload() == p ==> h.blocks[i].size < m
  }

  lemma ReleaseHarmless(h: Heap, p: nat, m: nat)
    requires AlignedLive(h, m)
    ensures Harmless(h, p, m) ==> AlignedLive(Release(h, p), m)
    ensures Release(h, p).brk == h.brk
  {
  }

  lemma WasHarmless(h: Heap, p: nat, m: nat)
    requires Inv(h) && AlignedLive(Release(h, p), m)
    ensures AlignedLive(h, m) && Harmless(h, p, m)
  {
    ReleaseKeepsInv(h, p);
    hide Inv, Release;
  }

  lemma StaysHarmless(h: Heap, size: nat, align: bool, p: nat, m: nat)
    requires Indexed(h) && Harmless(h, p, m) && p != Allocate(h, size, align).1
    ensures Harmless(Allocate(h, size, align).0, p, m)
  {
    hide Reused, Kept;
  }

  lemma ReleaseKeepsHarmless(h: Heap, q: nat, p: nat, m: nat)
    ensures Harmless(Release(h, q), p, m) <==> Harmless(h, p, m)
  {
    var g := Release(h, q);
    assert |g.blocks| == |h.blocks|;
    assert forall i :: 0 <= i < |h.blocks| ==>
      g.blocks[i].addr == h.blocks[i].addr && g.blocks[i].size == h.blocks[i].size;
  }

  // ----- Runs of aligned requests -----

  /** With no free block on a page that is large enough, an aligned request takes new space. */
  lemma AlignedIsNew(h: Heap, size: nat, m: nat)
    requires Indexed(h) && AlignedLive(h, m) && 0 < size && m <= size
    ensures Reused(h, size, true) == |h.list|
    ensures Sound(h, size, true) <==> h.brk % PAGE <= PAGE - HEADER
    ensures var (g, p) := Allocate(h, size, true);
            && p == AlignBump(h.brk) + HEADER && g.brk == p + size && p % PAGE == 0
            && g.brk % PAGE == size % PAGE && AlignedLive(g, m)
  {
    BumpBackward(h.brk);
    hide AlignBump, FirstFit, Kept;
    PageOffset(AlignBump(h.brk) + HEADER, size);
  }

  /** What taking whole pages does to the break: it moves by at most `room` and stands no further into its
      page than before; and if every large block on a page is live, all stay so, and the break stands on a
      page if a page was taken, and otherwise as far into its page as before. */
  ghost predicate Settles(h: Heap, g: Heap, taken: bool, room: nat)
  {
    && h.brk <= g.brk <= h.brk + room && g.brk % PAGE <= h.brk % PAGE
    && (PagesLive(h) ==> PagesLive(g) && g.brk % PAGE == if taken then 0 else h.brk % PAGE)
  }

  lemma SettlesTwice(h: Heap, g: Heap, f: Heap, a: bool, b: bool, m: nat, n: nat)
    requires Settles(h, g, a, m) && Settles(g, f, b, n)
    ensures Settles(h, f, a || b, m + n)
  {
    hide PagesLive;
  }

  lemma SettlesMore(h: Heap, g: Heap, taken: bool, m: nat, n: nat)
    requires Settles(h, g, taken, m) && m <= n
    ensures Settles(h, g, taken, n)
  {
    hide PagesLive;
  }

  /** The break after pages were taken: where it was on its page at most. */
  lemma SettledBreak(h: Heap, g: Heap, taken: bool, room: nat)
    requires Settles(h, g, taken, room)
    ensures h.brk <= g.brk <= h.brk + room && g.brk % PAGE <= h.brk % PAGE
    ensures Steady(h) ==> Steady(g)
    ensures forall slack: nat :: Ample(h, slack) ==> Ample(g, slack)
    ensures PagesLive(h) ==> PagesLive(g) && g.brk % PAGE == if taken then 0 else h.brk % PAGE
  {
    hide PagesLive;
  }

  lemma PageSettles(h: Heap)
    requires Inv(h) && Indexed(h) && Sound(h, PAGE, true)
    ensures Settles(h, Allocate(h, PAGE, true).0, true, 2 * PAGE)
  {
    AllocateBreak(h, PAGE, true);
    BumpBackward(h.brk);
    hide Reused, Kept, Inv, AlignBump, AlignedLive;
    PageOffset(AlignBump(h.brk) + HEADER, PAGE);
    if PagesLive(h) {
      AlignedIsNew(h, PAGE, PAGE - HEADER + 1);
    }
  }

  /** What an aligned request on a steady heap does to the break. */
  ghost predicate Grants(h: Heap, g: Heap, size: nat)
  {
    && h.brk <= g.brk <= h.brk + size + PAGE
    && (g.brk % PAGE == h.brk % PAGE || g.brk % PAGE == size % PAGE)
    && (PagesLive(h) ==> PagesLive(g) && (size > PAGE - HEADER ==> g.brk % PAGE == size % PAGE))
  }

  lemma AlignedGrants(h: Heap, size: nat)
    requires Indexed(h) && Steady(h)
    ensures Grants(h, Allocate(h, size, true).0, size)
  {
    AllocateBreak(h, size, true);
    BumpBackward(h.brk);
    if size % PAGE <= PAGE - HEADER {
      SteadyStep(h, size);
    }
    hide Reused, Kept, AlignBump, AlignedLive;
    PageOffset(AlignBump(h.brk) + HEADER, size);
    if PagesLive(h) {
      AllocateKeepsAligned(h, size, true, PAGE - HEADER + 1);
      if size > PAGE - HEADER {
        AlignedIsNew(h, size, PAGE - HEADER + 1);
      }
    }
  }

  function Requests(sizes: seq<nat>): seq<Op>
  {
    seq(|sizes|, i requires 0 <= i < |sizes| => KmallocA(sizes[i]))
  }

  /** The break has room for a header on its page, and so has the end of every request but the last. */
  predicate Forward(brk: nat, sizes: seq<nat>)
  {
    && (sizes != [] ==> brk % PAGE <= PAGE - HEADER)
    && forall i :: 0 <= i < |sizes| - 1 ==> sizes[i] % PAGE <= PAGE - HEADER
  }

  lemma ForwardStep(brk: nat, sizes: seq<nat>, next: nat)
    requires sizes != [] && next % PAGE == sizes[0] % PAGE
    ensures Forward(brk, sizes) <==> brk % PAGE <= PAGE - HEADER && Forward(next, sizes[1..])
  {
    assert forall i :: 0 <= i < |sizes| - 1 ==> sizes[i + 1] == sizes[1..][i];
    assert forall i :: 1 <= i < |sizes| ==> sizes[i] == sizes[1..][i - 1];
  }

  /** A run of aligned requests never moves the break back if and only if the break, and every request
      before the last, end at most 0xFF0 into their page. */
  lemma {:induction false} AlignedRunExact(h: Heap, sizes: seq<nat>, m: nat)
    requires Inv(h) && AlignedLive(h, m) && forall i :: 0 <= i < |sizes| ==> 0 < sizes[i] && m <= sizes[i]
    ensures SoundRun(h, Requests(sizes)) <==> Forward(h.brk, sizes)
    decreases sizes
  {
    IndexedByList(h);
    if sizes != [] {
      AlignedIsNew(h, sizes[0], m);
      var g := Allocate(h, sizes[0], true).0;
      ForwardStep(h.brk, sizes, g.brk);
      assert Requests(sizes)[0] == KmallocA(sizes[0]) && Requests(sizes)[1..] == Requests(sizes[1..]);
      hide Inv, Sound, Allocate, Forward, AlignedLive, Requests;
      if Sound(h, sizes[0], true) {
        StepKeepsInv(h, KmallocA(sizes[0]));
        AlignedRunExact(g, sizes[1..], m);
      }
    }
  }

  /** The block of the next aligned request lies inside the payload of the one before if and only if that
      payload ends more than 0xFF0 into its page; its header then covers the payload's last bytes. */
  lemma TailExact(h: Heap, size: nat, next: nat, m: nat)
    requires Inv(h) && Indexed(h) && AlignedLive(h, m) && size > 0 && next > 0 && m <= size && m <= next
    ensures var (g, p) := Allocate(h, size, true);
            && Indexed(g)
            && var (f, q) := Allocate(g, next, true);
               && (q - HEADER < p + size <==> size % PAGE > PAGE - HEADER)
               && (q - HEADER < p + size ==> q - HEADER == p + (size - size % PAGE) + (PAGE - HEADER))
  {
    AlignedIsNew(h, size, m);
    var (g, p) := Allocate(h, size, true);
    NewIsIndexed(h, size);
    AlignedIsNew(g, next, m);
    hide Allocate, Inv, AlignedLive;
    BumpAfter(p, size);
  }

  lemma NewIsIndexed(h: Heap, size: nat)
    requires Indexed(h)
    ensures Indexed(Allocate(h, size, true).0)
  {
  }

  lemma BumpAfter(p: nat, size: nat)
    requires p % PAGE == 0 && size > 0
    ensures AlignBump(p + size) < p + size <==> size % PAGE > PAGE - HEADER
    ensures size % PAGE > PAGE - HEADER ==> AlignBump(p + size) == p + (size - size % PAGE) + (PAGE - HEADER)
  {
    BumpBackward(p + size);
    PageOffset(p, size);
  }

  lemma AppendsBlock(h: Heap, size: nat, m: nat)
    requires Indexed(h) && AlignedLive(h, m) && size > 0 && m <= size
    ensures var (g, p) := Allocate(h, size, true);
            p >= HEADER && g.blocks == h.blocks + [Block(p - HEADER, size, false)] && Indexed(g) && AlignedLive(g, m)
  {
    AlignedIsNew(h, size, m);
    NewIsIndexed(h, size);
    hide AlignBump, FirstFit, Kept, Reused, AlignedLive, Indexed;
  }

  /** For instance: on a fresh heap the page directory made after a block of 4090 bytes starts, with its
      header, 4080 bytes into that block. */
  lemma TailOf4090(end: nat)
    requires end > 0
    ensures var h := Heap(end, [], []);
            && Inv(h) && Indexed(h)
            && var (g, p) := Allocate(h, 4090, true);
               && p >= HEADER && Indexed(g) && g.blocks == [Block(p - HEADER, 4090, false)]
               && var (f, q) := Allocate(g, PAGE, true);
                  |f.blocks| == 2 && f.blocks[1].addr == p + 4080 < g.blocks[0].End()
  {
    var h := Heap(end, [], []);
    var (g, p) := Allocate(h, 4090, true);
    TailExact(h, 4090, PAGE, 0);
    AppendsBlock(h, 4090, 0);
    AppendsBlock(g, PAGE, 0);
    hide Allocate;
  }
}
