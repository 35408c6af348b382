/** The memory of a process: blocks of the kernel heap filled from a file and mapped at the addresses
    the process uses. Shared by src/loader/elf.c and src/task/process.c. */
module ProcessMemory {
  import opened Bytes
  import opened CStrings
  import opened HeapModel
  import opened KernelHeaps
  import opened Paging

  // ----- Growing memory -----

  /** What any number of allocations and page settings do: blocks stay owned, tables are only added, on
      fresh pages, and bytes outside headers and tables stay. */
  ghost predicate Evolves(m: seq<Byte>, h: Heap, s: Space, m': seq<Byte>, h': Heap, t: Space)
  {
    && |m'| == |m| && HeapGrows(h, h', TWO_32) && Extends(s, t) && NewTablesFresh(h, s, t) && Untouched(m, m', h', t)
  }

  lemma EvolvesSame(m: seq<Byte>, h: Heap, s: Space)
    ensures Evolves(m, h, s, m, h, s)
  {
    hide Owns;
  }

  lemma GrowsMore(h: Heap, h': Heap, a: nat, b: nat)
    requires HeapGrows(h, h', a) && a <= b
    ensures HeapGrows(h, h', b)
  {
    hide Owns;
  }

  lemma FreshBefore(h: Heap, h1: Heap, s: Space, t: Space, u: Space)
    requires NewTablesFresh(h, s, t) && NewTablesFresh(h1, t, u) && HeapGrows(h, h1, TWO_32) && Extends(s, t)
      && Extends(t, u)
    ensures NewTablesFresh(h, s, u) && Extends(s, u)
  {
    hide Owns;
    forall d | d in u.tables
      ensures (d in s.tables && u.tables[d] == s.tables[d]) || (forall n :: !Owns(h, u.tables[d], n))
    {
      if !(d in t.tables && u.tables[d] == t.tables[d]) {
        forall n
          ensures !Owns(h, u.tables[d], n)
        {
          assert !Owns(h1, u.tables[d], n);
        }
      }
    }
  }

  lemma EvolvesTwice(m: seq<Byte>, h: Heap, s: Space, m1: seq<Byte>, h1: Heap, t: Space, m2: seq<Byte>, h2: Heap,
          u: Space)
    requires Evolves(m, h, s, m1, h1, t) && Evolves(m1, h1, t, m2, h2, u) && h2.brk < TWO_32
    ensures Evolves(m, h, s, m2, h2, u)
  {
    FreshBefore(h, h1, s, t, u);
    ExtendsContains(t, u);
    UntouchedTwice(m, m1, m2, h1, h2, TWO_32, t, u);
    hide Owns, Untouched, InSpace, NewTablesFresh, Extends;
    assert HeapGrows(h, h2, TWO_32);
  }

  // ----- Segments in memory -----

  /** `memsz` bytes in a block at `phys`, seen at `vaddr`: the first `filesz` are those of a file from
      `start` on, the others are zero. */
  datatype Segment = Segment(vaddr: U32, phys: nat, memsz: nat, start: nat, filesz: nat)

  function ByteOf(content: seq<Byte>, g: Segment, k: nat): Byte
    requires g.start + g.filesz <= |content|
  {
    if k < g.filesz then content[g.start + k] else 0
  }

  /** `a` is no page of the address space. */
  ghost predicate Beside(s: Space, a: nat)
  {
    a != s.dir && forall d :: d in s.tables ==> s.tables[d] != a
  }

  ghost predicate Filled(m: seq<Byte>, content: seq<Byte>, g: Segment)
  {
    && g.phys + g.memsz <= |m| && g.filesz <= g.memsz && g.start + g.filesz <= |content|
    && forall k :: 0 <= k < g.memsz ==> m[g.phys + k] == ByteOf(content, g, k)
  }

  /** A segment in a page-aligned block of its own, with its bytes in place. */
  ghost predicate Held(m: seq<Byte>, h: Heap, s: Space, content: seq<Byte>, g: Segment)
  {
    && g.memsz > 0 && g.phys % PAGE == 0 && Owns(h, g.phys, g.memsz) && Beside(s, g.phys)
    && Filled(m, content, g)
  }

  lemma BesideMore(h: Heap, s: Space, t: Space, a: nat, n: nat)
    requires Beside(s, a) && Owns(h, a, n) && Extends(s, t) && NewTablesFresh(h, s, t)
    ensures Beside(t, a)
  {
    hide Owns;
  }

  lemma FilledKept(m: seq<Byte>, m': seq<Byte>, content: seq<Byte>, g: Segment)
    requires Filled(m, content, g) && |m'| == |m| && forall x :: g.phys <= x < g.phys + g.memsz ==> m'[x] == m[x]
    ensures Filled(m', content, g)
  {
  }

  /** A segment stays in place while memory grows around it. */
  lemma HeldEvolves(m: seq<Byte>, h: Heap, s: Space, m': seq<Byte>, h': Heap, t: Space, content: seq<Byte>, g: Segment)
    requires Held(m, h, s, content, g) && Evolves(m, h, s, m', h', t) && Inv(h') && SpaceOwned(h', t)
    ensures Held(m', h', t, content, g)
  {
    hide Owns, Inv, InSpace, ClearOfHeaders, SpaceOwned, Filled;
    BesideMore(h, s, t, g.phys, g.memsz);
    assert Owns(h', g.phys, g.memsz);
    OwnedClear(h', g.phys, g.memsz);
    FilledInside(m, content, g);
    PayloadOutside(h', t, g.phys, g.memsz);
    FilledKept(m, m', content, g);
  }

  lemma FilledInside(m: seq<Byte>, content: seq<Byte>, g: Segment)
    requires Filled(m, content, g)
    ensures g.phys + g.memsz <= |m|
  {
  }

  /** A segment stays in place while another block is written. */
  lemma HeldBeside(m: seq<Byte>, m': seq<Byte>, h: Heap, s: Space, content: seq<Byte>, g: Segment, p: nat, n: nat)
    requires Held(m, h, s, content, g) && Inv(h) && Owns(h, p, n) && p != g.phys && |m'| == |m|
    requires forall x :: 0 <= x < |m| && !(p <= x < p + n) ==> m'[x] == m[x]
    ensures Held(m', h, s, content, g)
  {
    hide Owns, Inv, Filled;
    OwnedApart(h, g.phys, g.memsz, p, n);
    FilledInside(m, content, g);
    FilledKept(m, m', content, g);
  }

  // ----- Mapping -----

  const MAPPED := 7

  /** How many pages `n` bytes take. */
  function PagesOf(n: nat): nat { (n + (PAGE - 1)) / PAGE }

  /** The page settings for the first `n` pages of a segment. */
  function SegmentSets(vaddr: U32, phys: nat, n: nat): (r: seq<PageSet>)
    ensures |r| == n
  {
    if n == 0 then []
    else
      var one := PageSet(Wrap32(vaddr + (n - 1) * PAGE), Wrap32(phys + (n - 1) * PAGE + MAPPED));
      SegmentSets(vaddr, phys, n - 1) + [one]
  }

  lemma OverlayOne(base: U32, page: nat, sets: seq<PageSet>, one: PageSet)
    ensures Overlay(base, page, sets + [one]) == if Hits(one, page) then one.val else Overlay(base, page, sets)
  {
    assert (sets + [one])[..|sets|] == sets;
  }

  lemma {:induction false} OverlayAppend(base: U32, page: nat, a: seq<PageSet>, b: seq<PageSet>)
    ensures Overlay(base, page, a + b) == Overlay(Overlay(base, page, a), page, b)
  {
    if b == [] {
      assert a + b == a;
    } else {
      var n := |b| - 1;
      assert (a + b)[..|a + b| - 1] == a + b[..n];
      OverlayAppend(base, page, a, b[..n]);
    }
  }

  /** The entry of a page in a new address space made with present and writeable set. */
  function BasePte(page: nat): U32
  {
    if page / ENTRIES < 16 then page * PAGE + (PRESENT + WRITEABLE) else 0
  }

  /** The address space is the new one overlaid by the given page settings. */
  ghost predicate Flat(m: seq<Byte>, s: Space, sets: seq<PageSet>)
    requires forall d :: d in s.tables ==> s.tables[d] + PAGE <= |m|
  {
    forall page :: 0 <= page < PAGES ==> Pte(m, s, page) == Overlay(BasePte(page), page, sets)
  }

  /** Whether a setting at this address needs a table that is not there yet. */
  method NeedsTable(heap: KernelHeap, ghost s: Space, dir: nat, virt: U32) returns (b: bool)
    requires heap.Valid() && SpaceOk(heap.ram[..], heap.state, s) && s.dir == dir
    ensures b <==> !(SlotOf(virt) <= s.tables.Keys)
  {
    hide KernelHeap.ValidIn, SpaceOk, Entry, FrameOf;
    SpaceBounds(heap.ram[..], heap.state, s);
    SlotFacts(heap.ram[..], heap.state, s, virt / 0x40_0000);
    b := virt % PAGE == 0 && FrameOf(Entry(heap.ram[..], dir, virt / 0x40_0000)) == 0;
  }

  /** Whether an aligned allocation would move the break forward and stay below 4 GiB. Where it would
      not, the model stops. */
  method HasRoom(heap: KernelHeap, need: nat) returns (b: bool)
    requires heap.Valid()
    ensures b <==> Steady(heap.state) && heap.state.brk + need < TWO_32
  {
    b := heap.placementAddress % PAGE <= PAGE - HEADER && heap.placementAddress + need < TWO_32;
  }

  lemma FlatSame(m: seq<Byte>, m': seq<Byte>, s: Space, t: Space, sets: seq<PageSet>)
    requires forall d :: d in s.tables ==> s.tables[d] + PAGE <= |m|
    requires forall d :: d in t.tables ==> t.tables[d] + PAGE <= |m'|
    requires Flat(m, s, sets) && forall page :: 0 <= page < PAGES ==> Pte(m', t, page) == Pte(m, s, page)
    ensures Flat(m', t, sets)
  {
    hide Pte;
  }

  lemma FlatSet(m: seq<Byte>, m': seq<Byte>, s: Space, t: Space, sets: seq<PageSet>, one: PageSet)
    requires forall d :: d in s.tables ==> s.tables[d] + PAGE <= |m|
    requires forall d :: d in t.tables ==> t.tables[d] + PAGE <= |m'|
    requires Flat(m, s, sets)
    requires forall page :: 0 <= page < PAGES ==>
      Pte(m', t, page) == if Hits(one, page) then one.val else Pte(m, s, page)
    ensures Flat(m', t, sets + [one])
  {
    hide Pte, Hits;
    forall page | 0 <= page < PAGES
      ensures Pte(m', t, page) == Overlay(BasePte(page), page, sets + [one])
    {
      OverlayOne(BasePte(page), page, sets, one);
    }
  }

  /** One `paging_set` on the address space of a process. */
  method SetPage(heap: KernelHeap, ghost s: Space, dir: nat, virt: U32, val: U32, ghost sets: seq<PageSet>)
    returns (ghost t: Space)
    requires heap.Valid() && (SlotOf(virt) <= s.tables.Keys || PageFits(heap.state))
    requires SpaceOk(heap.ram[..], heap.state, s) && s.dir == dir && Flat(heap.ram[..], s, sets)
    modifies heap, heap.ram
    ensures heap.Valid() && SpaceOk(heap.ram[..], heap.state, t) && t.dir == dir
    ensures Flat(heap.ram[..], t, sets + [PageSet(virt, val)])
    ensures Evolves(old(heap.ram[..]), old(heap.state), s, heap.ram[..], heap.state, t)
    ensures t.tables.Keys == s.tables.Keys + SlotOf(virt)
    ensures if SlotOf(virt) <= s.tables.Keys then heap.state == old(heap.state)
      else Settles(old(heap.state), heap.state, true, 2 * PAGE)
  {
    hide KernelHeap.ValidIn, SpaceOk, Pte, Flat, HeapGrows, NewTablesFresh, Extends, Untouched, Settles, PageFits;
    hide SlotOf;
    SpaceBounds(heap.ram[..], heap.state, s);
    ghost var m, h := heap.ram[..], heap.state;
    var ok;
    ok, t := PagingSet(heap, s, dir, virt, val);
    SpaceBounds(heap.ram[..], heap.state, t);
    GrowsMore(h, heap.state, 2 * PAGE, TWO_32);
    FlatSet(m, heap.ram[..], s, t, sets, PageSet(virt, val));
  }

  /** The directory slots that mapping `n` pages from `vaddr` on needs tables in. */
  function SlotsOf(vaddr: U32, n: nat): set<nat>
  {
    if n == 0 then {} else SlotsOf(vaddr, n - 1) + SlotOf(Wrap32(vaddr + (n - 1) * PAGE))
  }

  lemma {:induction false} SlotsGrow(vaddr: U32, n: nat, k: nat)
    requires n <= k
    ensures SlotsOf(vaddr, n) <= SlotsOf(vaddr, k)
  {
    if n < k {
      SlotsGrow(vaddr, n, k - 1);
    }
  }

  /** How the first `n` pages of a segment were mapped from heap `h` and address space `s` on: tables were
      added exactly where there was none, on a heap that was steady if one was needed. */
  ghost predicate MappedSoFar(h: Heap, g: Heap, s: Space, t: Space, vaddr: U32, n: nat)
  {
    var slots := SlotsOf(vaddr, n);
    && t.tables.Keys == s.tables.Keys + slots
    && (if slots <= s.tables.Keys then g == h else Steady(h) && Settles(h, g, true, 2 * PAGE * n))
  }

  lemma NothingMapped(h: Heap, s: Space, vaddr: U32)
    ensures MappedSoFar(h, h, s, s, vaddr, 0)
  {
  }

  lemma OneMoreMapped(h: Heap, g: Heap, f: Heap, s: Space, t: Space, u: Space, vaddr: U32, n: nat)
    requires MappedSoFar(h, g, s, t, vaddr, n)
    requires var slot := SlotOf(Wrap32(vaddr + n * PAGE));
             && u.tables.Keys == t.tables.Keys + slot
             && if slot <= t.tables.Keys then f == g else Steady(g) && Settles(g, f, true, 2 * PAGE)
    ensures MappedSoFar(h, f, s, u, vaddr, n + 1)
  {
    hide Settles, SlotOf, Steady;
    var slots, slot := SlotsOf(vaddr, n), SlotOf(Wrap32(vaddr + n * PAGE));
    assert SlotsOf(vaddr, n + 1) == slots + slot;
    if slot <= t.tables.Keys {
      assert slots <= s.tables.Keys ==> slots + slot <= s.tables.Keys;
      if !(slots <= s.tables.Keys) {
        SettlesMore(h, g, true, 2 * PAGE * n, 2 * PAGE * (n + 1));
      }
    } else if slots <= s.tables.Keys {
      SettlesMore(g, f, true, 2 * PAGE, 2 * PAGE * (n + 1));
    } else {
      SettlesTwice(h, g, f, true, true, 2 * PAGE * n, 2 * PAGE);
    }
  }

  lemma MappedBreak(h: Heap, g: Heap, s: Space, t: Space, vaddr: U32, n: nat)
    requires MappedSoFar(h, g, s, t, vaddr, n)
    ensures h.brk <= g.brk <= h.brk + 2 * PAGE * n && (Steady(h) ==> Steady(g))
    ensures SlotsOf(vaddr, n) <= s.tables.Keys ==> g == h
    ensures Steady(h) || SlotsOf(vaddr, n) <= s.tables.Keys
  {
    hide Settles, Steady, SlotsOf;
    if !(SlotsOf(vaddr, n) <= s.tables.Keys) {
      SettledBreak(h, g, true, 2 * PAGE * n);
    }
  }

  /** The break's room that mapping `memsz` bytes may take. */
  function MapRoom(memsz: nat): nat { 2 * PAGE * PagesOf(memsz) }

  /** When the mapping loop goes through, given room: if the heap is steady or no table is missing. */
  ghost predicate MapOutcome(ok: bool, h: Heap, g: Heap, s: Space, t: Space, vaddr: U32, memsz: nat)
  {
    && (h.brk + MapRoom(memsz) < TWO_32 ==> (ok <==> Steady(h) || SlotsOf(vaddr, PagesOf(memsz)) <= s.tables.Keys))
    && (ok ==> MappedSoFar(h, g, s, t, vaddr, PagesOf(memsz)))
  }

  /** Where the loop stops, a table is missing and the heap is not steady, or there is no room. */
  lemma StopsRightly(h: Heap, g: Heap, s: Space, t: Space, vaddr: U32, n: nat, memsz: nat)
    requires MappedSoFar(h, g, s, t, vaddr, n) && n < PagesOf(memsz)
    requires !(SlotOf(Wrap32(vaddr + n * PAGE)) <= t.tables.Keys) && !(Steady(g) && g.brk + 2 * PAGE < TWO_32)
    ensures MapOutcome(false, h, g, s, t, vaddr, memsz)
  {
    hide Settles, Steady, SlotOf, PagesOf;
    MappedBreak(h, g, s, t, vaddr, n);
    SlotsGrow(vaddr, n + 1, PagesOf(memsz));
    assert SlotsOf(vaddr, n + 1) == SlotsOf(vaddr, n) + SlotOf(Wrap32(vaddr + n * PAGE));
  }

  lemma GoesThrough(h: Heap, g: Heap, s: Space, t: Space, vaddr: U32, memsz: nat)
    requires MappedSoFar(h, g, s, t, vaddr, PagesOf(memsz))
    ensures MapOutcome(true, h, g, s, t, vaddr, memsz)
  {
    hide Settles, Steady, SlotsOf;
  }

  /** The mapping loop: one page after another, until the segment is covered. */
  method MapPages(heap: KernelHeap, ghost s: Space, dir: nat, vaddr: U32, phys: U32, memsz: nat,
          ghost sets: seq<PageSet>)
    returns (ok: bool, ghost t: Space)
    requires heap.Valid() && SpaceOk(heap.ram[..], heap.state, s) && s.dir == dir && Flat(heap.ram[..], s, sets)
    requires phys % PAGE == 0 && phys + memsz + PAGE < TWO_32
    modifies heap, heap.ram
    ensures heap.Valid() && SpaceOk(heap.ram[..], heap.state, t) && t.dir == dir
    ensures ok ==> Flat(heap.ram[..], t, sets + SegmentSets(vaddr, phys, PagesOf(memsz)))
    ensures Evolves(old(heap.ram[..]), old(heap.state), s, heap.ram[..], heap.state, t)
    ensures MapOutcome(ok, old(heap.state), heap.state, s, t, vaddr, memsz)
  {
    hide KernelHeap.ValidIn, SpaceOk, Steady, Flat, Evolves, Pte, MappedSoFar, MapOutcome, SlotOf;
    ghost var m, h := heap.ram[..], heap.state;
    SpaceBounds(m, h, s);
    EvolvesSame(m, h, s);
    NothingMapped(h, s, vaddr);
    assert sets + SegmentSets(vaddr, phys, 0) == sets;
    t := s;
    var b := 0;
    ghost var n := 0;
    while b < memsz
      invariant b == n * PAGE && n <= PagesOf(memsz)
      invariant heap.Valid() && SpaceOk(heap.ram[..], heap.state, t) && t.dir == dir
      invariant forall d :: d in t.tables ==> t.tables[d] + PAGE <= heap.ram.Length
      invariant Flat(heap.ram[..], t, sets + SegmentSets(vaddr, phys, n))
      invariant Evolves(m, h, s, heap.ram[..], heap.state, t) && MappedSoFar(h, heap.state, s, t, vaddr, n)
      decreases memsz - b
    {
      var missing := NeedsTable(heap, t, dir, Wrap32(vaddr + b));
      if missing {
        var room := HasRoom(heap, 2 * PAGE);
        if !room {
          StopsRightly(h, heap.state, s, t, vaddr, n, memsz);
          return false, t;
        }
      }
      t, n := MapPage(heap, m, h, s, t, dir, vaddr, phys, b, n, sets);
      b := b + PAGE;
    }
    GoesThrough(h, heap.state, s, t, vaddr, memsz);
    return true, t;
  }

  /** One round of the mapping loop. */
  method MapPage(heap: KernelHeap, ghost m: seq<Byte>, ghost h: Heap, ghost s: Space, ghost t: Space, dir: nat,
          vaddr: U32, phys: U32, b: nat, ghost n: nat, ghost sets: seq<PageSet>)
    returns (ghost u: Space, ghost next: nat)
    requires heap.Valid()
      && (SlotOf(Wrap32(vaddr + b)) <= t.tables.Keys || (Steady(heap.state) && heap.state.brk + 2 * PAGE < TWO_32))
    requires SpaceOk(heap.ram[..], heap.state, t) && t.dir == dir
      && Flat(heap.ram[..], t, sets + SegmentSets(vaddr, phys, n))
    requires b == n * PAGE && phys % PAGE == 0 && phys + b + MAPPED < TWO_32
    requires Evolves(m, h, s, heap.ram[..], heap.state, t) && MappedSoFar(h, heap.state, s, t, vaddr, n)
    modifies heap, heap.ram
    ensures heap.Valid() && SpaceOk(heap.ram[..], heap.state, u) && u.dir == dir && next == n + 1
    ensures forall d :: d in u.tables ==> u.tables[d] + PAGE <= heap.ram.Length
    ensures Flat(heap.ram[..], u, sets + SegmentSets(vaddr, phys, n + 1))
    ensures Evolves(m, h, s, heap.ram[..], heap.state, u) && MappedSoFar(h, heap.state, s, u, vaddr, n + 1)
  {
    hide KernelHeap.ValidIn, SpaceOk, Steady, Flat, Evolves, Pte, PageFits, MappedSoFar, Settles, SlotOf, Inv, Indexed;
    SpaceBounds(heap.ram[..], heap.state, t);
    heap.ValidFacts();
    ghost var m1, h1 := heap.ram[..], heap.state;
    if !(SlotOf(Wrap32(vaddr + b)) <= t.tables.Keys) {
      SteadyFits(h1);
    }
    u := SetPage(heap, t, dir, Wrap32(vaddr + b), phys + b + MAPPED, sets + SegmentSets(vaddr, phys, n));
    SpaceBounds(heap.ram[..], heap.state, u);
    heap.ValidFacts();
    EvolvesTwice(m, h, s, m1, h1, t, heap.ram[..], heap.state, u);
    OneMoreMapped(h, h1, heap.state, s, t, u, vaddr, n);
    ghost var one := PageSet(Wrap32(vaddr + b), phys + b + MAPPED);
    assert sets + SegmentSets(vaddr, phys, n) + [one] == sets + SegmentSets(vaddr, phys, n + 1);
    next := n + 1;
  }

  // ----- Blocks to be filled -----

  /** Bytes that belong to no header and no page of the address space. */
  ghost predicate Open(h: Heap, s: Space, p: nat, n: nat)
  {
    forall x :: p <= x < p + n ==> ClearOfHeaders(h, x) && !InSpace(s, x)
  }

  /** What an aligned allocation gives: nothing for an empty request, and otherwise a block of its own. */
  ghost predicate Granted(h: Heap, h': Heap, s: Space, p: nat, n: nat)
  {
    && Open(h', s, p, n) && p % PAGE == 0 && p + n < TWO_32
    && (if n == 0 then p == 0 else Owns(h', p, n) && Beside(s, p) && forall k :: !Owns(h, p, k))
  }

  lemma AlignedForward(h: Heap, size: nat)
    requires Indexed(h) && Steady(h)
    ensures h.brk <= Allocate(h, size, true).0.brk
  {
    AllocateBreak(h, size, true);
    BumpBackward(h.brk);
    hide Allocate, AlignBump;
    if size == 0 { EmptyRequest(h); }
  }

  lemma EmptyRequest(h: Heap)
    requires Indexed(h)
    ensures Allocate(h, 0, true) == (h, 0)
  {
  }

  lemma BesideNew(h: Heap, s: Space, p: nat)
    requires SpaceOwned(h, s) && forall a, n :: Owns(h, a, n) ==> a != p
    ensures Beside(s, p) && forall k :: !Owns(h, p, k)
  {
    hide Owns;
    assert Owns(h, s.dir, PAGE) && forall d :: d in s.tables ==> Owns(h, s.tables[d], PAGE);
  }

  /** What the heap model says of an aligned allocation beside an address space. */
  lemma AllocationEvolves(m: seq<Byte>, m': seq<Byte>, h: Heap, s: Space, size: nat)
    requires SpaceOk(m, h, s) && Steady(h) && size > 0 && |m'| == |m| && Allocate(h, size, true).0.brk < TWO_32
    requires forall x :: 0 <= x < |m| && ClearOfHeaders(Allocate(h, size, true).0, x) ==> m'[x] == m[x]
    ensures var (g, p) := Allocate(h, size, true);
            Granted(h, g, s, p, size) && Evolves(m, h, s, m', g, s) && Inv(g) && Indexed(g) && SpaceOwned(g, s)
  {
    hide Allocate, Steady, Sound, Inv, Indexed, Owns, ClearOfHeaders, InSpace, DirectoryOk;
    SteadyIsSound(h, size);
    AllocationGrows(h, size, true);
    AllocateOwnsNew(h, size, true);
    AlignedForward(h, size);
    var (g, p) := Allocate(h, size, true);
    OwnedKept(h, g, s);
    BesideNew(h, s, p);
    PayloadOutside(g, s, p, size);
    OwnedClear(g, p, size);
  }

  /** Writes that hit only headers leave an address space as it is. */
  lemma SpaceAfter(m: seq<Byte>, m': seq<Byte>, h: Heap, h': Heap, s: Space, sets: seq<PageSet>)
    requires SpaceOk(m, h, s) && Inv(h') && Indexed(h') && SpaceOwned(h', s) && |m'| == |m|
    requires forall x :: 0 <= x < |m| && ClearOfHeaders(h', x) ==> m'[x] == m[x]
    requires (forall d :: d in s.tables ==> s.tables[d] + PAGE <= |m|) && Flat(m, s, sets)
    ensures SpaceOk(m', h', s) && Flat(m', s, sets)
  {
    hide Inv, Indexed, Owns, ClearOfHeaders, InSpace, DirectoryOk, Pte, SpaceOwned;
    SpaceClear(h', s);
    SpaceUnchanged(m, m', h, h', s);
    FlatSame(m, m', s, s, sets);
  }

  /** `kmalloc_a` beside the address space of a process. */
  method AllocateBeside(heap: KernelHeap, size: U32, ghost s: Space, ghost sets: seq<PageSet>) returns (p: U32)
    requires heap.Valid() && Steady(heap.state) && heap.state.brk + size + PAGE < TWO_32
    requires SpaceOk(heap.ram[..], heap.state, s) && Flat(heap.ram[..], s, sets)
    modifies heap, heap.ram
    ensures heap.Valid() && SpaceOk(heap.ram[..], heap.state, s) && Flat(heap.ram[..], s, sets)
    ensures Granted(old(heap.state), heap.state, s, p, size)
    ensures Indexed(old(heap.state)) && (heap.state, p) == Allocate(old(heap.state), size, true)
    ensures Grants(old(heap.state), heap.state, size)
    ensures Evolves(old(heap.ram[..]), old(heap.state), s, heap.ram[..], heap.state, s)
  {
    hide Grants, Allocate, Steady, KernelHeap.ValidIn, Inv, Indexed, Owns, ClearOfHeaders, InSpace, SpaceOk, Flat;
    hide Granted, Evolves, SpaceOwned;
    ghost var m, h := heap.ram[..], heap.state;
    SpaceBounds(m, h, s);
    heap.ValidFacts();
    SteadyIsSound(h, size);
    EnoughBreak(h, size);
    AlignedGrants(h, size);
    var q := heap.KmallocA(size);
    heap.ValidFacts();
    if size > 0 {
      AllocationEvolves(m, heap.ram[..], h, s, size);
    } else {
      EmptyRequest(h);
      NothingGranted(m, heap.ram[..], h, s);
    }
    SpaceAfter(m, heap.ram[..], h, heap.state, s, sets);
    GrantedSmall(h, heap.state, s, q, size);
    return q;
  }

  lemma NothingGranted(m: seq<Byte>, m': seq<Byte>, h: Heap, s: Space)
    requires SpaceOk(m, h, s) && |m'| == |m| && forall x :: 0 <= x < |m| && ClearOfHeaders(h, x) ==> m'[x] == m[x]
    ensures Granted(h, h, s, 0, 0) && Evolves(m, h, s, m', h, s) && SpaceOwned(h, s)
  {
    hide Owns, Inv, ClearOfHeaders, InSpace, DirectoryOk, SpaceOwned;
  }

  lemma GrantedSmall(h: Heap, h': Heap, s: Space, p: nat, n: nat)
    requires Granted(h, h', s, p, n)
    ensures p < TWO_32
  {
  }

  lemma EnoughBreak(h: Heap, size: nat)
    requires Indexed(h) && h.brk + size + PAGE < TWO_32
    ensures Allocate(h, size, true).0.brk < TWO_32
  {
    AllocateBreak(h, size, true);
    BumpBackward(h.brk);
  }

  /** Writing in an open block keeps the heap, the address space and the map. */
  lemma BlockWritten(heap: KernelHeap, m: seq<Byte>, m': seq<Byte>, s: Space, sets: seq<PageSet>, p: nat, n: nat)
    requires heap.ValidIn(m) && SpaceOk(m, heap.state, s) && (forall d :: d in s.tables ==> s.tables[d] + PAGE <= |m|)
      && Flat(m, s, sets)
    requires Open(heap.state, s, p, n) && |m'| == |m|
    requires forall x :: 0 <= x < |m| && !(p <= x < p + n) ==> m'[x] == m[x]
    ensures heap.ValidIn(m') && SpaceOk(m', heap.state, s) && Flat(m', s, sets)
  {
    hide KernelHeap.ValidIn, Inv, Indexed, ClearOfHeaders, InSpace, DirectoryOk, Pte, SpaceOwned;
    heap.ValidKept(m, m');
    SpaceUnchanged(m, m', heap.state, heap.state, s);
    FlatSame(m, m', s, s, sets);
  }

  ghost predicate AllHeld(m: seq<Byte>, h: Heap, s: Space, content: seq<Byte>, segs: seq<Segment>)
  {
    forall j :: 0 <= j < |segs| ==> Held(m, h, s, content, segs[j])
  }

  lemma AllEvolve(m: seq<Byte>, h: Heap, s: Space, m': seq<Byte>, h': Heap, t: Space, content: seq<Byte>,
          segs: seq<Segment>)
    requires AllHeld(m, h, s, content, segs) && Evolves(m, h, s, m', h', t) && SpaceOk(m', h', t)
    ensures AllHeld(m', h', t, content, segs)
  {
    hide Evolves, Held, Inv, SpaceOwned, DirectoryOk;
    forall j | 0 <= j < |segs|
      ensures Held(m', h', t, content, segs[j])
    {
      HeldEvolves(m, h, s, m', h', t, content, segs[j]);
    }
  }

  /** Writing a block that was just granted leaves every segment in place. */
  lemma AllBeside(m: seq<Byte>, m': seq<Byte>, h0: Heap, h: Heap, s: Space, content: seq<Byte>, segs: seq<Segment>,
          p: nat, n: nat)
    requires AllHeld(m, h, s, content, segs) && Granted(h0, h, s, p, n) && Inv(h) && |m'| == |m|
    requires forall j :: 0 <= j < |segs| ==> Owns(h0, segs[j].phys, segs[j].memsz)
    requires forall x :: 0 <= x < |m| && !(p <= x < p + n) ==> m'[x] == m[x]
    ensures AllHeld(m', h, s, content, segs)
  {
    hide Held, Inv, Owns, Open, Beside;
    if n == 0 {
      assert m' == m;
    } else {
      forall j | 0 <= j < |segs|
        ensures Held(m', h, s, content, segs[j])
      {
        HeldBeside(m, m', h, s, content, segs[j], p, n);
      }
    }
  }

  /** Live blocks that are none of the process: no page of its address space and no segment. */
  ghost predicate Others(h: Heap, s: Space, segs: seq<Segment>, rest: set<nat>)
  {
    forall a :: a in rest ==> Owns(h, a, 0) && Beside(s, a) && forall j :: 0 <= j < |segs| ==> segs[j].phys != a
  }

  lemma OthersEvolve(m: seq<Byte>, h: Heap, s: Space, m': seq<Byte>, h': Heap, t: Space, segs: seq<Segment>,
          rest: set<nat>)
    requires Others(h, s, segs, rest) && Evolves(m, h, s, m', h', t)
    ensures Others(h', t, segs, rest)
  {
    hide Owns, Beside, Extends, NewTablesFresh, Untouched;
    forall a | a in rest
      ensures Owns(h', a, 0) && Beside(t, a)
    {
      BesideMore(h, s, t, a, 0);
    }
  }

  lemma OthersLive(h: Heap, s: Space, segs: seq<Segment>, rest: set<nat>)
    requires Others(h, s, segs, rest) && Inv(h) && h.brk < TWO_32
    ensures rest <= Live(h)
  {
    hide Owns, Inv, Beside, Live;
    forall a | a in rest
      ensures a in Live(h)
    {
      LiveIsOwned(h, a);
    }
  }

  /** What was live before an address space was made is none of it. */
  lemma OthersOfNew(h: Heap, h': Heap, s: Space, rest: set<nat>)
    requires Inv(h) && h.brk < TWO_32 && rest <= Live(h) && SpaceFresh(h, s) && HeapGrows(h, h', 36 * PAGE)
    ensures Others(h', s, [], rest)
  {
    hide Owns, Inv, Live;
    forall a | a in rest
      ensures Owns(h, a, 0) && Owns(h', a, 0) && Beside(s, a)
    {
      LiveIsOwned(h, a);
    }
  }

  /** The memory of a process in the making: the address space as set so far, all segments so far in
      place, and the blocks of `rest` live beside it. */
  ghost predicate PreparedIn(m: seq<Byte>, h: Heap, s: Space, dir: nat, sets: seq<PageSet>, content: seq<Byte>,
          segs: seq<Segment>, rest: set<nat>)
  {
    && Others(h, s, segs, rest) && SpaceOk(m, h, s) && s.dir == dir
    && (forall d :: d in s.tables ==> s.tables[d] + PAGE <= |m|)
    && Flat(m, s, sets) && AllHeld(m, h, s, content, segs)
  }

  ghost predicate Prepared(heap: KernelHeap, s: Space, dir: nat, sets: seq<PageSet>, content: seq<Byte>,
          segs: seq<Segment>, rest: set<nat>)
    reads heap, heap.ram
  {
    heap.Valid() && PreparedIn(heap.ram[..], heap.state, s, dir, sets, content, segs, rest)
  }

  // ----- What stays in memory beside a process in the making -----

  /** Steps on an address space leave the blocks beside it as they are. */
  lemma EvolvesSpares(m: seq<Byte>, h: Heap, s: Space, m': seq<Byte>, h': Heap, t: Space, segs: seq<Segment>,
          rest: set<nat>)
    requires Others(h, s, segs, rest) && Evolves(m, h, s, m', h', t) && SpaceOk(m', h', t)
    ensures Spares(h, m, h', m', rest)
  {
    hide Owns, Inv, InSpace, ClearOfHeaders, SpaceOwned, Beside, DirectoryOk, Extends, NewTablesFresh;
    forall a: nat, n: nat | a in rest && Owns(h, a, n)
      ensures Owns(h', a, n) && SameBytes(m, m', a, n)
    {
      BesideMore(h, s, t, a, n);
      OwnedClear(h', a, n);
      BesideOutside(h', t, a, n);
    }
  }

  lemma BesideOutside(h: Heap, s: Space, a: nat, n: nat)
    requires Inv(h) && SpaceOwned(h, s) && Owns(h, a, n) && Beside(s, a)
    ensures forall x :: a <= x < a + n ==> !InSpace(s, x)
  {
    hide Owns, Inv, InSpace, SpaceOwned;
    PayloadOutside(h, s, a, n);
  }

  /** Writing a granted block leaves the blocks that were there before as they are. */
  lemma WrittenSpares(m: seq<Byte>, m': seq<Byte>, h0: Heap, h: Heap, s: Space, p: nat, n: nat, segs: seq<Segment>,
          rest: set<nat>)
    requires Granted(h0, h, s, p, n) && OwnedBefore(h0, segs, rest) && Inv(h) && |m'| == |m|
    requires forall x :: 0 <= x < |m| && !(p <= x < p + n) ==> m'[x] == m[x]
    ensures Spares(h, m, h, m', rest)
  {
    hide Owns, Inv, Open, Beside;
    if n > 0 {
      forall a: nat, k: nat | a in rest && Owns(h, a, k)
        ensures SameBytes(m, m', a, k)
      {
        assert Owns(h0, a, 0);
        OwnedApart(h, a, k, p, n);
      }
    }
  }

  /** A new address space lies beside every block there was. */
  lemma NewSpaceSpares(m: seq<Byte>, h: Heap, m': seq<Byte>, h': Heap, s: Space, chunk: nat, kept: set<nat>)
    requires SpaceFresh(h, s) && HeapGrows(h, h', 36 * PAGE) && SpaceOk(m', h', s) && |m'| == |m|
    requires Owns(h', chunk, 4) && forall n :: !Owns(h, chunk, n)
    requires forall x ::
      0 <= x < |m| && ClearOfHeaders(h', x) && !InSpace(s, x) && !(chunk <= x < chunk + 4) ==> m'[x] == m[x]
    ensures Spares(h, m, h', m', kept)
  {
    hide Owns, Inv, InSpace, ClearOfHeaders, SpaceOwned, DirectoryOk;
    forall a: nat, n: nat | a in kept && Owns(h, a, n)
      ensures Owns(h', a, n) && SameBytes(m, m', a, n)
    {
      OwnedClear(h', a, n);
      OwnedApart(h', a, n, chunk, 4);
      FreshOutside(h, h', s, a, n);
    }
  }

  lemma FreshOutside(h: Heap, h': Heap, s: Space, a: nat, n: nat)
    requires SpaceFresh(h, s) && Owns(h, a, n) && Owns(h', a, n) && Inv(h') && SpaceOwned(h', s)
    ensures forall x :: a <= x < a + n ==> !InSpace(s, x)
  {
    hide Owns, Inv, InSpace, SpaceOwned;
    PayloadOutside(h', s, a, n);
  }

  lemma GrantedBelow(h: Heap, size: nat)
    requires Inv(h) && Indexed(h) && Steady(h) && h.brk + size + 3 * PAGE < TWO_32
    ensures var (g, p) := Allocate(h, size, true); p + size + PAGE < TWO_32
  {
    if size == 0 {
      EmptyRequest(h);
    } else {
      SteadyIsSound(h, size);
      AllocateSafe(h, size, true);
      AllocateBreak(h, size, true);
      BumpBackward(h.brk);
      hide Allocate, Sound, AlignBump;
      EndsBelowBreak(Allocate(h, size, true).0, Taken(h, size, true));
    }
  }

  /** All blocks so far were owned before the next one was handed out. */
  ghost predicate OwnedBefore(h: Heap, segs: seq<Segment>, rest: set<nat>)
  {
    && (forall j :: 0 <= j < |segs| ==> Owns(h, segs[j].phys, segs[j].memsz))
    && (forall a :: a in rest ==> Owns(h, a, 0))
  }

  lemma AllOwnedBefore(m: seq<Byte>, h: Heap, s: Space, content: seq<Byte>, segs: seq<Segment>, rest: set<nat>)
    requires AllHeld(m, h, s, content, segs) && Others(h, s, segs, rest)
    ensures OwnedBefore(h, segs, rest)
  {
    hide Owns, Filled, Beside;
  }

  /** `kmalloc_a` for a segment of a process in the making. */
  method GrantBlock(heap: KernelHeap, size: U32, ghost s: Space, ghost dir: nat, ghost sets: seq<PageSet>,
          ghost content: seq<Byte>, ghost segs: seq<Segment>, ghost rest: set<nat>)
    returns (p: U32)
    requires Prepared(heap, s, dir, sets, content, segs, rest) && Steady(heap.state)
      && heap.state.brk + size + 3 * PAGE < TWO_32
    modifies heap, heap.ram
    ensures Prepared(heap, s, dir, sets, content, segs, rest) && Granted(old(heap.state), heap.state, s, p, size)
    ensures OwnedBefore(old(heap.state), segs, rest) && Grants(old(heap.state), heap.state, size)
    ensures p + size + PAGE < TWO_32
    ensures Spares(old(heap.state), old(heap.ram[..]), heap.state, heap.ram[..], rest)
  {
    hide Grants, OwnedBefore, Others, KernelHeap.ValidIn, Inv, Indexed, Owns, ClearOfHeaders, InSpace, SpaceOk;
    hide Flat, Granted, Evolves, SpaceOwned, Held, AllHeld, Steady, Allocate, Spares;
    ghost var m, h := heap.ram[..], heap.state;
    heap.ValidFacts();
    AllOwnedBefore(m, h, s, content, segs, rest);
    GrantedBelow(h, size);
    p := AllocateBeside(heap, size, s, sets);
    OthersEvolve(m, h, s, heap.ram[..], heap.state, s, segs, rest);
    AllEvolve(m, h, s, heap.ram[..], heap.state, s, content, segs);
    SpaceBounds(heap.ram[..], heap.state, s);
    EvolvesSpares(m, h, s, heap.ram[..], heap.state, s, segs, rest);
  }

  /** A new segment beside the others. */
  lemma OneMoreHeld(m: seq<Byte>, h0: Heap, h: Heap, s: Space, content: seq<Byte>, segs: seq<Segment>, g: Segment)
    requires AllHeld(m, h, s, content, segs) && Granted(h0, h, s, g.phys, g.memsz) && Filled(m, content, g)
      && g.memsz > 0
    ensures AllHeld(m, h, s, content, segs + [g])
  {
    hide Owns, Open, Filled, Beside;
  }

  /** Maps a segment that is in place. */
  method MapSegment(heap: KernelHeap, ghost s: Space, dir: nat, vaddr: U32, phys: U32, memsz: nat,
          ghost sets: seq<PageSet>, ghost content: seq<Byte>, ghost segs: seq<Segment>, ghost rest: set<nat>)
                      returns (ok: bool, ghost t: Space)
    requires Prepared(heap, s, dir, sets, content, segs, rest) && phys % PAGE == 0 && phys + memsz + PAGE < TWO_32
    modifies heap, heap.ram
    ensures heap.Valid() && rest <= Live(heap.state)
    ensures ok ==> Prepared(heap, t, dir, sets + SegmentSets(vaddr, phys, PagesOf(memsz)), content, segs, rest)
    ensures MapOutcome(ok, old(heap.state), heap.state, s, t, vaddr, memsz)
    ensures Spares(old(heap.state), old(heap.ram[..]), heap.state, heap.ram[..], rest)
  {
    hide KernelHeap.ValidIn, SpaceOk, Flat, Evolves, AllHeld, SegmentSets, MapOutcome, Others, Inv, Live, Spares;
    ghost var m, h := heap.ram[..], heap.state;
    ok, t := MapPages(heap, s, dir, vaddr, phys, memsz, sets);
    OthersEvolve(m, h, s, heap.ram[..], heap.state, t, segs, rest);
    heap.ValidFacts();
    OthersLive(heap.state, t, segs, rest);
    EvolvesSpares(m, h, s, heap.ram[..], heap.state, t, segs, rest);
    if ok {
      AllEvolve(m, h, s, heap.ram[..], heap.state, t, content, segs);
      SpaceBounds(heap.ram[..], heap.state, t);
    }
  }

  // ----- Giving back blocks beside a process -----

  lemma ReleaseKeepsSpace(h: Heap, p: nat, s: Space)
    requires Inv(h) && SpaceOwned(h, s) && Beside(s, p)
    ensures SpaceOwned(Release(h, p), s)
  {
    hide Inv, Owns, Release;
    ReleaseOwns(h, p, s.dir, PAGE);
    forall d | d in s.tables
      ensures Owns(Release(h, p), s.tables[d], PAGE)
    {
      ReleaseOwns(h, p, s.tables[d], PAGE);
    }
  }

  lemma ReleaseKeepsHeld(m: seq<Byte>, m': seq<Byte>, h: Heap, p: nat, s: Space, content: seq<Byte>, g: Segment)
    requires Inv(h) && Held(m, h, s, content, g) && g.phys != p && |m'| == |m|
    requires forall x :: 0 <= x < |m| && ClearOfHeaders(Release(h, p), x) ==> m'[x] == m[x]
    ensures Held(m', Release(h, p), s, content, g)
  {
    hide Inv, Owns, Release, ClearOfHeaders, Filled, Beside;
    ReleaseOwns(h, p, g.phys, g.memsz);
    ReleaseKeepsInv(h, p);
    OwnedClear(Release(h, p), g.phys, g.memsz);
    FilledInside(m, content, g);
    FilledKept(m, m', content, g);
  }

  lemma ReleaseKeepsOthers(h: Heap, p: nat, s: Space, segs: seq<Segment>, rest: set<nat>)
    requires Inv(h) && Others(h, s, segs, rest)
    ensures Others(Release(h, p), s, segs, rest - {p})
  {
    hide Inv, Owns, Release, Beside;
    forall a | a in rest - {p}
      ensures Owns(Release(h, p), a, 0)
    {
      ReleaseOwns(h, p, a, 0);
    }
  }

  /** Giving back a block of `rest` leaves the process as it is. */
  lemma ReleaseBeside(m: seq<Byte>, m': seq<Byte>, h: Heap, p: nat, s: Space, dir: nat, sets: seq<PageSet>,
          content: seq<Byte>, segs: seq<Segment>, rest: set<nat>)
    requires PreparedIn(m, h, s, dir, sets, content, segs, rest) && p in rest && |m'| == |m|
    requires forall x :: 0 <= x < |m| && ClearOfHeaders(Release(h, p), x) ==> m'[x] == m[x]
    ensures PreparedIn(m', Release(h, p), s, dir, sets, content, segs, rest - {p})
  {
    hide Inv, Owns, Release, ClearOfHeaders, Flat, Held, Beside, SpaceOwned, DirectoryOk;
    ReleaseKeepsInv(h, p);
    IndexedByList(Release(h, p));
    ReleaseKeepsSpace(h, p, s);
    SpaceAfter(m, m', h, Release(h, p), s, sets);
    ReleaseKeepsOthers(h, p, s, segs, rest);
    forall j | 0 <= j < |segs|
      ensures Held(m', Release(h, p), s, content, segs[j])
    {
      ReleaseKeepsHeld(m, m', h, p, s, content, segs[j]);
    }
  }

  lemma PreparedLess(m: seq<Byte>, h: Heap, s: Space, dir: nat, sets: seq<PageSet>, content: seq<Byte>,
          segs: seq<Segment>, rest: set<nat>, less: set<nat>)
    requires PreparedIn(m, h, s, dir, sets, content, segs, rest) && less <= rest
    ensures PreparedIn(m, h, s, dir, sets, content, segs, less)
  {
    hide Owns, Flat, AllHeld, SpaceOk, Beside;
  }

  /** The same for two blocks, one after the other. */
  lemma ReleasedBeside(m: seq<Byte>, m': seq<Byte>, h: Heap, p: nat, q: nat, s: Space, dir: nat, sets: seq<PageSet>,
          content: seq<Byte>, segs: seq<Segment>, rest: set<nat>, less: set<nat>)
    requires PreparedIn(m, h, s, dir, sets, content, segs, rest) && p in rest && q in rest && p != q
      && less <= rest - {p, q}
    requires |m'| == |m| && forall x :: 0 <= x < |m| && ClearOfHeaders(Release(Release(h, p), q), x) ==> m'[x] == m[x]
    ensures PreparedIn(m', Release(Release(h, p), q), s, dir, sets, content, segs, less)
  {
    hide PreparedIn, Release, ClearOfHeaders;
    ReleaseBeside(m, m, h, p, s, dir, sets, content, segs, rest);
    ReleaseBeside(m, m', Release(h, p), q, s, dir, sets, content, segs, rest - {p});
    PreparedLess(m', Release(Release(h, p), q), s, dir, sets, content, segs, rest - {p} - {q}, less);
  }

  // ----- A new process -----

  const PROCESS_SIZE := 96
  const VGA := 0xB8000

  /** What a loaded process keeps: its block on the heap, its name, its page directory and the chunk
      that holds it, the address in `ptr` and its size. */
  datatype Process = Process(addr: nat, name: seq<Byte>, pagingChunk: nat, directory: nat, ptr: U32, size: U32)

  /** The page setting for the text screen. */
  function ScreenSet(): PageSet { PageSet(VGA, VGA + MAPPED) }

  lemma NewIsFlat(m: seq<Byte>, s: Space)
    requires forall d :: d in s.tables ==> s.tables[d] + PAGE <= |m|
    requires forall page :: 0 <= page < PAGES ==> Pte(m, s, page) == IdentityPte(page, 16, PRESENT + WRITEABLE)
    ensures Flat(m, s, [])
  {
    hide Pte;
  }

  /** The block through which a process finds its page directory. */
  ghost predicate ChunkHeld(m: seq<Byte>, h: Heap, chunk: nat, dir: nat)
  {
    Owns(h, chunk, 4) && chunk + 4 <= |m| && NumberAt(m, chunk, 4) == dir
  }

  /** The block of the process structure, its name and the way to its directory: two blocks that were not live. */
  ghost predicate StructHeld(m: seq<Byte>, h: Heap, proc: Process, filename: seq<Byte>, rest: set<nat>)
  {
    && proc.name == filename && Owns(h, proc.addr, 96) && ChunkHeld(m, h, proc.pagingChunk, proc.directory)
    && proc.addr !in rest && proc.pagingChunk !in rest && proc.addr != proc.pagingChunk
  }

  lemma ChunkKept(h: Heap, m: seq<Byte>, g: Heap, m': seq<Byte>, kept: set<nat>, chunk: nat, dir: nat)
    requires ChunkHeld(m, h, chunk, dir) && chunk in kept && Spares(h, m, g, m', kept)
    ensures ChunkHeld(m', g, chunk, dir)
  {
    hide Owns, Number;
    assert SameBytes(m, m', chunk, 4);
    assert m[chunk..chunk + 4] == m'[chunk..chunk + 4];
  }

  lemma StructKept(h: Heap, m: seq<Byte>, g: Heap, m': seq<Byte>, kept: set<nat>, proc: Process, filename: seq<Byte>,
          rest: set<nat>, less: set<nat>)
    requires StructHeld(m, h, proc, filename, rest) && proc.addr in kept && proc.pagingChunk in kept && less <= rest
    requires Spares(h, m, g, m', kept)
    ensures StructHeld(m', g, proc, filename, less)
  {
    ChunkKept(h, m, g, m', kept, proc.pagingChunk, proc.directory);
    hide Owns, ChunkHeld;
  }

  /** The new block is no page of the address space and was not live. */
  lemma ChunkBeside(h: Heap, h': Heap, m': seq<Byte>, s: Space, segs: seq<Segment>, chunk: nat, dir: nat,
          rest: set<nat>)
    requires Inv(h) && h.brk < TWO_32 && rest <= Live(h) && Others(h', s, segs, rest)
    requires Owns(h', chunk, 4) && !InSpace(s, chunk) && forall n :: !Owns(h, chunk, n)
    requires chunk + 4 <= |m'| && Le32At(m', chunk) == dir && forall j :: 0 <= j < |segs| ==> segs[j].phys != chunk
    ensures Others(h', s, segs, rest + {chunk}) && chunk !in rest && ChunkHeld(m', h', chunk, dir)
  {
    hide Live, Inv, NumberAt, Le32At;
    LongIs(m', chunk);
    assert Owns(h', chunk, 0);
    if chunk in rest {
      LiveIsOwned(h, chunk);
      assert false;
    }
    hide Owns;
  }

  /** `paging_new_4gb` with present and writeable set, or the model stops. */
  method NewProcessSpace(heap: KernelHeap, ghost content: seq<Byte>, ghost rest: set<nat>)
    returns (ok: bool, chunk: nat, dir: nat, ghost s: Space)
    requires heap.Valid() && rest <= Live(heap.state)
    modifies heap, heap.ram
    ensures heap.Valid() && rest <= Live(heap.state)
    ensures ok <==> Steady(old(heap.state)) && old(heap.state).brk + 36 * PAGE < TWO_32
    ensures ok ==> Prepared(heap, s, dir, [], content, [], rest + {chunk}) && s.tables.Keys == SlotsBelow(16)
    ensures ok ==> chunk !in rest && ChunkHeld(heap.ram[..], heap.state, chunk, dir)
    ensures ok ==> SpaceMade(old(heap.state), heap.state)
    ensures Spares(old(heap.state), old(heap.ram[..]), heap.state, heap.ram[..], rest)
  {
    hide KernelHeap.ValidIn, SpaceOk, Steady, Flat, Pte, SpaceMade, Others, HeapGrows, SpaceFresh, Inv, Live;
    hide Owns, InSpace, ClearOfHeaders, Spares, ChunkHeld, Le32At;
    SparesSame(heap.state, heap.ram[..], rest);
    s, chunk, dir := Space(0, map[]), 0, 0;
    var room := HasRoom(heap, 36 * PAGE);
    if !room {
      return false, chunk, dir, s;
    }
    heap.ValidFacts();
    ghost var h, m := heap.state, heap.ram[..];
    chunk, dir, s := PagingNew4gb(heap, PRESENT + WRITEABLE);
    SpaceBounds(heap.ram[..], heap.state, s);
    NewIsFlat(heap.ram[..], s);
    NewSpaceSpares(m, h, heap.ram[..], heap.state, s, chunk, rest);
    OthersOfNew(h, heap.state, s, rest);
    heap.ValidFacts();
    OthersLive(heap.state, s, [], rest);
    ChunkBeside(h, heap.state, heap.ram[..], s, [], chunk, dir, rest);
    return true, chunk, dir, s;
  }

  /** Maps the text screen for a process. Its table is there from the start, so nothing is allocated. */
  method MapScreen(heap: KernelHeap, ghost s: Space, dir: nat, ghost sets: seq<PageSet>, ghost content: seq<Byte>,
          ghost segs: seq<Segment>, ghost rest: set<nat>)
    returns (ghost t: Space)
    requires Prepared(heap, s, dir, sets, content, segs, rest) && 0 in s.tables.Keys
    modifies heap, heap.ram
    ensures Prepared(heap, t, dir, sets + [ScreenSet()], content, segs, rest)
    ensures t.tables.Keys == s.tables.Keys && heap.state == old(heap.state)
    ensures Spares(old(heap.state), old(heap.ram[..]), heap.state, heap.ram[..], rest)
  {
    hide KernelHeap.ValidIn, SpaceOk, Flat, Evolves, AllHeld, Others, Spares;
    ghost var m, h := heap.ram[..], heap.state;
    assert SlotOf(VGA) == {0};
    t := SetPage(heap, s, dir, VGA, VGA + MAPPED, sets);
    AllEvolve(m, h, s, heap.ram[..], heap.state, t, content, segs);
    OthersEvolve(m, h, s, heap.ram[..], heap.state, t, segs, rest);
    SpaceBounds(heap.ram[..], heap.state, t);
    EvolvesSpares(m, h, s, heap.ram[..], heap.state, t, segs, rest);
    assert t.tables.Keys == s.tables.Keys;
  }

  /** `process_alloc`: the block of the structure, or 0 where the model stops for want of room. */
  method AllocateProcess(heap: KernelHeap) returns (addr: nat)
    requires heap.Valid()
    modifies heap, heap.ram
    ensures heap.Valid() && Creeps(old(heap.state), heap.state, PROCESS_SIZE + HEADER)
      && Live(old(heap.state)) <= Live(heap.state)
    ensures addr != 0 ==> (heap.state, addr) == Small(old(heap.state), 96)
    ensures addr == 0 <==> old(heap.state).brk + PROCESS_SIZE + PAGE >= TWO_32
    ensures Spares(old(heap.state), old(heap.ram[..]), heap.state, heap.ram[..], Live(old(heap.state)))
  {
    hide KernelHeap.ValidIn, Small, Live, Creeps, Spares;
    SparesSame(heap.state, heap.ram[..], Live(heap.state));
    BreakIs(heap);
    if heap.placementAddress + PROCESS_SIZE + PAGE >= TWO_32 {
      CreepsSame(heap.state);
      CreepsMore(heap.state, heap.state, 0, PROCESS_SIZE + HEADER);
      return 0;
    }
    addr := Take(heap, PROCESS_SIZE);
    TakenSomewhere(heap.state, addr);
  }

  lemma TakenSomewhere(h: Heap, p: nat)
    requires p in Live(h)
    ensures p > 0
  {
    LiveIsBlock(h, p);
  }

  lemma BreakIs(heap: KernelHeap)
    requires heap.Valid()
    ensures heap.state.brk == heap.placementAddress
  {
  }

  /** The block of the structure is new. */
  lemma StructTaken(h: Heap, g: Heap, addr: nat, rest: set<nat>)
    requires Inv(h) && Indexed(h) && Inv(g) && g.brk < TWO_32 && (g, addr) == Small(h, PROCESS_SIZE) && rest <= Live(h)
    ensures addr !in rest && Owns(g, addr, 96) && rest + {addr} <= Live(g)
  {
    hide Inv, Live, Allocate, Owns;
    AllocateLive(h, PROCESS_SIZE, false);
    AllocateOwnsNew(h, PROCESS_SIZE, false);
  }

  /** Kept through the new address space, the screen's mapping and the segments. */
  lemma StructStays(h1: Heap, m1: seq<Byte>, g: Heap, k: seq<Byte>, h: Heap, m: seq<Byte>, h2: Heap, m2: seq<Byte>,
          proc: Process, filename: seq<Byte>, rest: set<nat>)
    requires var a, c := proc.addr, proc.pagingChunk;
             && Owns(h1, a, 96) && Spares(h1, m1, g, k, rest + {a}) && ChunkHeld(k, g, c, proc.directory)
             && Spares(g, k, h2, m2, rest + {a} + {c}) && Spares(h2, m2, h, m, rest + {a} + {c})
             && a !in rest && c !in rest + {a} && proc.name == filename
    ensures StructHeld(m, h, proc, filename, rest)
  {
    var a, c := proc.addr, proc.pagingChunk;
    hide ChunkHeld, Owns, SameBytes;
    ChunkKept(g, k, h2, m2, rest + {a} + {c}, c, proc.directory);
    ChunkKept(h2, m2, h, m, rest + {a} + {c}, c, proc.directory);
    assert Owns(g, a, 96) && Owns(h2, a, 96) && Owns(h, a, 96);
  }

  /** Its two blocks are live and none of those that were. */
  lemma StructOutside(m: seq<Byte>, h: Heap, proc: Process, filename: seq<Byte>, rest: set<nat>, gone: set<nat>)
    requires Inv(h) && h.brk < TWO_32 && StructHeld(m, h, proc, filename, rest) && gone <= rest
    ensures proc.addr in Live(h) - gone && proc.pagingChunk in Live(h) - gone
  {
    assert Owns(h, proc.addr, 0) && Owns(h, proc.pagingChunk, 0);
    hide Inv, Owns, Live, ChunkHeld;
    LiveIsOwned(h, proc.addr);
    LiveIsOwned(h, proc.pagingChunk);
  }

  lemma StructLess(m: seq<Byte>, h: Heap, proc: Process, filename: seq<Byte>, rest: set<nat>, less: set<nat>)
    requires StructHeld(m, h, proc, filename, rest) && less <= rest
    ensures StructHeld(m, h, proc, filename, less)
  {
    hide Owns, ChunkHeld;
  }

  /** So giving back others leaves them. */
  lemma StructClosed(h: Heap, m: seq<Byte>, g: Heap, m': seq<Byte>, gone: set<nat>, proc: Process, filename: seq<Byte>,
          rest: set<nat>, less: set<nat>)
    requires Inv(h) && h.brk < TWO_32 && StructHeld(m, h, proc, filename, rest) && gone <= rest && less <= rest
    requires Spares(h, m, g, m', Live(h) - gone)
    ensures StructHeld(m', g, proc, filename, less)
  {
    hide Inv, Live, Spares, StructHeld;
    StructOutside(m, h, proc, filename, rest, gone);
    StructKept(h, m, g, m', Live(h) - gone, proc, filename, rest, less);
  }

  lemma PreparedRest(heap: KernelHeap, s: Space, dir: nat, sets: seq<PageSet>, content: seq<Byte>, segs: seq<Segment>,
          rest: set<nat>, less: set<nat>)
    requires Prepared(heap, s, dir, sets, content, segs, rest) && less <= rest
    ensures Prepared(heap, s, dir, sets, content, segs, less)
  {
    hide KernelHeap.ValidIn, PreparedIn;
    PreparedLess(heap.ram[..], heap.state, s, dir, sets, content, segs, rest, less);
  }

  // ----- What the process sees -----

  /** The byte the process reads at a virtual address, if the page is present. */
  function Fetch(m: seq<Byte>, dir: nat, va: U32): Option<Byte>
    requires dir + PAGE <= |m| == TWO_32
  {
    match Paging.Walk(m, dir, va / PAGE)
    case None => None
    case Some(pte) => Some(m[FrameOf(pte) + va % PAGE])
  }

  /** The pages of a segment, seen at page-aligned addresses below 4 GiB and held in a block below 4 GiB. */
  predicate Placeable(g: Segment)
  {
    g.vaddr % PAGE == 0 && g.vaddr + g.memsz <= TWO_32 && g.phys % PAGE == 0 && g.phys + g.memsz + PAGE < TWO_32
  }

  /** Mapping the segment leaves this page alone. */
  predicate Misses(g: Segment, page: nat)
  {
    g.vaddr % PAGE != 0 || !(g.vaddr / PAGE <= page < g.vaddr / PAGE + PagesOf(g.memsz))
  }

  lemma SetOfPage(vaddr: U32, phys: nat, n: nat, page: nat)
    requires vaddr + n * PAGE < TWO_32 && phys % PAGE == 0 && phys + n * PAGE + MAPPED < TWO_32
    ensures var one := PageSet(Wrap32(vaddr + n * PAGE), Wrap32(phys + n * PAGE + MAPPED));
            && one.val == phys + n * PAGE + MAPPED
            && (Hits(one, page) <==> vaddr % PAGE == 0 && page == vaddr / PAGE + n)
  {
  }

  /** The map of a segment: the frames of its block, one after another. */
  lemma {:induction false} SegmentSetsAt(base: U32, vaddr: U32, phys: nat, n: nat, page: nat)
    requires n > 0 ==> vaddr + (n - 1) * PAGE < TWO_32 && phys + (n - 1) * PAGE + MAPPED < TWO_32
    requires phys % PAGE == 0
    ensures Overlay(base, page, SegmentSets(vaddr, phys, n)) ==
      if vaddr % PAGE == 0 && vaddr / PAGE <= page < vaddr / PAGE + n then phys + (page - vaddr / PAGE) * PAGE + MAPPED
        else base
  {
    if n > 0 {
      SegmentSetsAt(base, vaddr, phys, n - 1, page);
      SetOfPage(vaddr, phys, n - 1, page);
      hide Hits, Wrap32;
      OverlayOne(base, page, SegmentSets(vaddr, phys, n - 1),
        PageSet(Wrap32(vaddr + (n - 1) * PAGE), Wrap32(phys + (n - 1) * PAGE + MAPPED)));
    }
  }

  /** All page settings of a list of segments, in order. */
  function AllSets(segs: seq<Segment>): seq<PageSet>
  {
    if segs == [] then []
    else
      var g := segs[|segs| - 1];
      AllSets(segs[..|segs| - 1]) + SegmentSets(g.vaddr, g.phys, PagesOf(g.memsz))
  }

  /** The frame a segment gives a page it covers. */
  function FrameIn(g: Segment, page: nat): int
  {
    g.phys + (page - g.vaddr / PAGE) * PAGE
  }

  lemma OverlaySegment(base: U32, page: nat, g: Segment)
    requires g.phys % PAGE == 0 && g.vaddr + g.memsz <= TWO_32 && g.phys + g.memsz + PAGE < TWO_32
    ensures Overlay(base, page, SegmentSets(g.vaddr, g.phys, PagesOf(g.memsz))) ==
      if Misses(g, page) then base else FrameIn(g, page) + MAPPED
  {
    var n := PagesOf(g.memsz);
    assert n > 0 ==> (n - 1) * PAGE < g.memsz;
    SegmentSetsAt(base, g.vaddr, g.phys, n, page);
  }

  /** A page that a segment covers and no later one does has that segment's frame. */
  lemma {:induction false} AllSetsAt(base: U32, segs: seq<Segment>, i: nat, page: nat)
    requires i < |segs| && forall l :: 0 <= l < |segs| ==>
      segs[l].phys % PAGE == 0 && segs[l].vaddr + segs[l].memsz <= TWO_32
      && segs[l].phys + segs[l].memsz + PAGE < TWO_32
    requires !Misses(segs[i], page) && forall l :: i < l < |segs| ==> Misses(segs[l], page)
    ensures Overlay(base, page, AllSets(segs)) == FrameIn(segs[i], page) + MAPPED
    decreases |segs|
  {
    var n := |segs| - 1;
    var g := segs[n];
    hide Misses, FrameIn, Overlay, SegmentSets;
    OverlayAppend(base, page, AllSets(segs[..n]), SegmentSets(g.vaddr, g.phys, PagesOf(g.memsz)));
    OverlaySegment(Overlay(base, page, AllSets(segs[..n])), page, g);
    if i < n {
      AllSetsAt(base, segs[..n], i, page);
    }
  }

  /** A mapped page: the walk finds its entry, and the process may read and write it. */
  lemma SeenPage(m: seq<Byte>, h: Heap, s: Space, page: nat, frame: nat)
    requires SpaceOk(m, h, s) && s.dir + PAGE <= |m| == TWO_32 && page < PAGES && frame % PAGE == 0
      && frame + MAPPED < TWO_32
    requires forall d :: d in s.tables ==> s.tables[d] + PAGE <= |m|
    requires Pte(m, s, page) == frame + MAPPED
    ensures Paging.Walk(m, s.dir, page) == Some(frame + MAPPED) && FrameOf(frame + MAPPED) == frame
    ensures EffectiveRight(m, s.dir, page, WRITEABLE) && EffectiveRight(m, s.dir, page, ACCESS_FROM_ALL)
  {
    hide Pte, SpaceOk, FrameOf, Bit, Paging.Walk, EffectiveRight;
    FrameOfMapped(frame, MAPPED);
    LowBits(frame + MAPPED);
    WalkIsFlat(m, h, s, page);
    RightsAreThePtes(m, h, s, page, WRITEABLE);
    RightsAreThePtes(m, h, s, page, ACCESS_FROM_ALL);
  }

  lemma HeldByte(m: seq<Byte>, h: Heap, s: Space, content: seq<Byte>, g: Segment, k: nat)
    requires Held(m, h, s, content, g) && k < g.memsz
    ensures g.start + g.filesz <= |content| && g.phys + k < |m| && m[g.phys + k] == ByteOf(content, g, k)
  {
    hide Owns, Beside;
  }

  /** The bytes of a covered page are those of the segment. */
  lemma SeenByte(m: seq<Byte>, h: Heap, s: Space, content: seq<Byte>, g: Segment, k: nat, va: U32)
    requires SpaceOk(m, h, s) && Held(m, h, s, content, g) && Placeable(g) && k < g.memsz && va == g.vaddr + k
    requires s.dir + PAGE <= |m| == TWO_32 && forall d :: d in s.tables ==> s.tables[d] + PAGE <= |m|
    requires Pte(m, s, va / PAGE) == FrameIn(g, va / PAGE) + MAPPED
    ensures g.start + g.filesz <= |content|
    ensures Fetch(m, s.dir, va) == Some(ByteOf(content, g, k))
    ensures EffectiveRight(m, s.dir, va / PAGE, WRITEABLE) && EffectiveRight(m, s.dir, va / PAGE, ACCESS_FROM_ALL)
  {
    hide Pte, SpaceOk, FrameOf, FrameIn, Paging.Walk, EffectiveRight, Held, ByteOf;
    InPage(g, k);
    HeldByte(m, h, s, content, g, k);
    SeenPage(m, h, s, va / PAGE, FrameIn(g, va / PAGE));
  }

  lemma InPage(g: Segment, k: nat)
    requires Placeable(g) && k < g.memsz
    ensures var page := (g.vaddr + k) / PAGE;
            && page < PAGES && FrameIn(g, page) % PAGE == 0 && 0 <= FrameIn(g, page)
              && FrameIn(g, page) + MAPPED < TWO_32
            && FrameIn(g, page) + (g.vaddr + k) % PAGE == g.phys + k
  {
    assert (g.vaddr + k) / PAGE == g.vaddr / PAGE + k / PAGE;
  }
}
