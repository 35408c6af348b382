/** Two-level page tables in memory (src/memory/paging/paging.c), proved against a flat map from
    pages to table entries. */
module Paging {
  import opened Bytes
  import opened HeapModel
  import opened KernelHeaps

  const ENTRIES := 1024
  const PAGES := 0x10_0000
  const PRESENT := 1
  const WRITEABLE := 2
  const ACCESS_FROM_ALL := 4

  // ----- Entries -----

  /** The `i`-th word of the table at `table`. */
  function Entry(m: seq<Byte>, table: nat, i: nat): U32
    requires table + 4 * i + 4 <= |m|
  {
    Le32At(m, table + 4 * i)
  }

  function FrameOf(entry: U32): U32 { entry - entry % PAGE }

  predicate Bit(entry: U32, mask: nat)
    requires mask > 0
  {
    entry / mask % 2 == 1
  }

  /** What the processor makes of a virtual page: the entry of its page table, if both levels are present. */
  function Walk(m: seq<Byte>, dir: nat, page: nat): Option<U32>
    requires dir + PAGE <= |m| == TWO_32 && page < PAGES
  {
    var pde := Entry(m, dir, page / ENTRIES);
    if !Bit(pde, PRESENT) then None
    else
      var pte := Entry(m, FrameOf(pde), page % ENTRIES);
      if Bit(pte, PRESENT) then Some(pte) else None
  }

  /** A write to one word leaves the words elsewhere. */
  lemma EntryUnchanged(m: seq<Byte>, m': seq<Byte>, table: nat, i: nat)
    requires table + 4 * i + 4 <= |m| == |m'|
    requires forall x :: table + 4 * i <= x < table + 4 * i + 4 ==> m'[x] == m[x]
    ensures Entry(m', table, i) == Entry(m, table, i)
  {
  }

  method SetEntry(ram: array<Byte>, table: nat, i: nat, w: U32)
    requires i < ENTRIES && table + PAGE <= ram.Length
    modifies ram
    ensures Entry(ram[..], table, i) == w
    ensures forall j :: 0 <= j < ENTRIES && j != i ==> Entry(ram[..], table, j) == old(Entry(ram[..], table, j))
    ensures forall x :: 0 <= x < ram.Length && !(table + 4 * i <= x < table + 4 * i + 4) ==> ram[x] == old(ram[x])
  {
    ghost var m := ram[..];
    SetWord(ram, table + 4 * i, w);
    ghost var m' := ram[..];
    hide Entry;
    forall j | 0 <= j < ENTRIES && j != i
      ensures Entry(m', table, j) == Entry(m, table, j)
    {
      EntryUnchanged(m, m', table, j);
    }
    assert Entry(m', table, i) == w by { EntryIsWord(m', table, i); }
  }

  lemma EntryIsWord(m: seq<Byte>, table: nat, i: nat)
    requires table + 4 * i + 4 <= |m|
    ensures Entry(m, table, i) == Le32At(m, table + 4 * i)
  {
  }

  /** The loop that clears a directory or a new table. */
  method ClearTable(ram: array<Byte>, table: nat)
    requires table + PAGE <= ram.Length
    modifies ram
    ensures forall i :: 0 <= i < ENTRIES ==> Entry(ram[..], table, i) == 0
    ensures forall x :: 0 <= x < ram.Length && !(table <= x < table + PAGE) ==> ram[x] == old(ram[x])
  {
    hide Entry;
    for i := 0 to ENTRIES
      invariant forall j :: 0 <= j < i ==> Entry(ram[..], table, j) == 0
      invariant forall x :: 0 <= x < ram.Length && !(table <= x < table + PAGE) ==> ram[x] == old(ram[x])
    {
      SetEntry(ram, table, i, 0);
    }
  }

  /** The loop that maps the `n`-th 4 MB region to itself. */
  method IdentityTable(ram: array<Byte>, table: nat, n: nat, flags: Byte)
    requires table + PAGE <= ram.Length && n < 16
    modifies ram
    ensures forall i :: 0 <= i < ENTRIES ==> Entry(ram[..], table, i) == (n * ENTRIES + i) * PAGE + flags
    ensures forall x :: 0 <= x < ram.Length && !(table <= x < table + PAGE) ==> ram[x] == old(ram[x])
  {
    hide Entry;
    for i := 0 to ENTRIES
      invariant forall j :: 0 <= j < i ==> Entry(ram[..], table, j) == (n * ENTRIES + j) * PAGE + flags
      invariant forall x :: 0 <= x < ram.Length && !(table <= x < table + PAGE) ==> ram[x] == old(ram[x])
    {
      SetEntry(ram, table, i, (n * ENTRIES + i) * PAGE + flags);
    }
  }

  // ----- Address spaces -----

  /** A page directory and the page tables it points to, by directory index. */
  datatype Space = Space(dir: nat, tables: map<nat, nat>)

  ghost predicate OwnsPage(h: Heap, a: nat)
  {
    a % PAGE == 0 && Owns(h, a, PAGE)
  }

  /** The directory and the tables are different owned pages. */
  ghost predicate SpaceOwned(h: Heap, s: Space)
  {
    && OwnsPage(h, s.dir)
    && (forall d :: d in s.tables ==> d < ENTRIES && OwnsPage(h, s.tables[d]) && s.tables[d] != s.dir)
    && (forall d, e :: d in s.tables && e in s.tables && d != e ==> s.tables[d] != s.tables[e])
  }

  /** The directory points to the tables, each present, writeable and open to user access. */
  ghost predicate DirectoryOk(m: seq<Byte>, s: Space)
    requires s.dir + PAGE <= |m|
  {
    forall d :: 0 <= d < ENTRIES ==>
      if d in s.tables then FrameOf(Entry(m, s.dir, d)) == s.tables[d] > 0 && Entry(m, s.dir, d) % 8 == 7
      else Entry(m, s.dir, d) == 0
  }

  ghost predicate SpaceOk(m: seq<Byte>, h: Heap, s: Space)
  {
    && |m| == TWO_32 && Inv(h) && Indexed(h) && SpaceOwned(h, s)
    && s.dir + PAGE <= |m| && DirectoryOk(m, s)
    && (forall d :: d in s.tables ==> s.tables[d] + PAGE <= |m|)
  }

  /** The flat map: the table entry of a page, 0 where there is no table. */
  ghost function Pte(m: seq<Byte>, s: Space, page: nat): U32
    requires forall d :: d in s.tables ==> s.tables[d] + PAGE <= |m|
  {
    if page / ENTRIES in s.tables then Entry(m, s.tables[page / ENTRIES], page % ENTRIES) else 0
  }

  lemma SpaceBounds(m: seq<Byte>, h: Heap, s: Space)
    requires SpaceOk(m, h, s)
    ensures s.dir + PAGE <= |m| == TWO_32
    ensures forall d :: d in s.tables ==> s.tables[d] + PAGE <= |m|
  {
  }

  lemma DirectoryEntry(m: seq<Byte>, h: Heap, s: Space, d: nat)
    requires SpaceOk(m, h, s) && d < ENTRIES
    ensures var pde := Entry(m, s.dir, d);
            if d in s.tables then FrameOf(pde) == s.tables[d] && Bit(pde, PRESENT) && Bit(pde, WRITEABLE)
              && Bit(pde, ACCESS_FROM_ALL)
            else !Bit(pde, PRESENT)
  {
    hide Entry, SpaceOwned, Inv, Bit, FrameOf;
    LowBits(Entry(m, s.dir, d));
    NoBitOfZero(PRESENT);
  }

  lemma LowBits(e: U32)
    ensures e % 8 == 7 ==> Bit(e, PRESENT) && Bit(e, WRITEABLE) && Bit(e, ACCESS_FROM_ALL)
  {
  }

  /** The two-level walk is the flat map, cut to the present pages. */
  lemma WalkIsFlat(m: seq<Byte>, h: Heap, s: Space, page: nat)
    requires SpaceOk(m, h, s) && page < PAGES
    ensures Walk(m, s.dir, page) == if Bit(Pte(m, s, page), PRESENT) then Some(Pte(m, s, page)) else None
  {
    hide Entry, SpaceOk, FrameOf;
    SpaceBounds(m, h, s);
    DirectoryEntry(m, h, s, page / ENTRIES);
  }

  /** The processor's combined right on a page: both levels must grant it. */
  predicate EffectiveRight(m: seq<Byte>, dir: nat, page: nat, mask: nat)
    requires dir + PAGE <= |m| == TWO_32 && page < PAGES && mask > 0
  {
    match Walk(m, dir, page)
    case None => false
    case Some(pte) => Bit(Entry(m, dir, page / ENTRIES), mask) && Bit(pte, mask)
  }

  /** Because every directory entry is writeable and user-accessible, the table entry alone decides. */
  lemma RightsAreThePtes(m: seq<Byte>, h: Heap, s: Space, page: nat, mask: nat)
    requires SpaceOk(m, h, s) && page < PAGES && mask in {WRITEABLE, ACCESS_FROM_ALL}
    ensures EffectiveRight(m, s.dir, page, mask) <==> Bit(Pte(m, s, page), PRESENT) && Bit(Pte(m, s, page), mask)
  {
    hide Entry, SpaceOk, FrameOf, Walk, Bit;
    SpaceBounds(m, h, s);
    WalkIsFlat(m, h, s, page);
    DirectoryEntry(m, h, s, page / ENTRIES);
    NoBitOfZero(mask);
  }

  lemma NoBitOfZero(mask: nat)
    requires mask > 0
    ensures !Bit(0, mask)
  {
  }

  lemma PagesApart(a: nat, b: nat)
    requires a % PAGE == 0 && b % PAGE == 0 && a != b
    ensures a + PAGE <= b || b + PAGE <= a
  {
  }

  /** A whole table elsewhere is not affected by a write. */
  lemma TableUnchanged(m: seq<Byte>, m': seq<Byte>, table: nat)
    requires table + PAGE <= |m| == |m'|
    requires forall x :: table <= x < table + PAGE ==> m'[x] == m[x]
    ensures forall i :: 0 <= i < ENTRIES ==> Entry(m', table, i) == Entry(m, table, i)
  {
    forall i | 0 <= i < ENTRIES
      ensures Entry(m', table, i) == Entry(m, table, i)
    {
      EntryUnchanged(m, m', table, i);
    }
  }

  /** `x` belongs to the directory or to a table. */
  ghost predicate InSpace(s: Space, x: nat)
  {
    s.dir <= x < s.dir + PAGE || exists d :: d in s.tables && s.tables[d] <= x < s.tables[d] + PAGE
  }

  /** Memory that differs only outside an address space holds the same address space. */
  lemma SpaceUnchanged(m: seq<Byte>, m': seq<Byte>, h: Heap, h': Heap, s: Space)
    requires SpaceOk(m, h, s) && |m'| == |m| && Inv(h') && Indexed(h') && SpaceOwned(h', s)
    requires forall x :: 0 <= x < |m| && InSpace(s, x) ==> m'[x] == m[x]
    ensures SpaceOk(m', h', s)
    ensures forall page :: 0 <= page < PAGES ==> Pte(m', s, page) == Pte(m, s, page)
  {
    hide Entry, SpaceOwned, Inv, Indexed;
    TableUnchanged(m, m', s.dir);
    forall page | 0 <= page < PAGES
      ensures Pte(m', s, page) == Pte(m, s, page)
    {
      var d := page / ENTRIES;
      if d in s.tables {
        TableUnchanged(m, m', s.tables[d]);
      }
    }
  }

  // ----- Setting a page -----

  /** A table added to an address space. */
  function Added(s: Space, d: nat, table: nat): Space
  {
    s.(tables := s.tables[d := table])
  }

  /** Same directory, and at least the same tables. */
  ghost predicate Extends(s: Space, t: Space)
  {
    t.dir == s.dir && forall d :: d in s.tables ==> d in t.tables && t.tables[d] == s.tables[d]
  }

  lemma ExtendsContains(s: Space, t: Space)
    requires Extends(s, t)
    ensures forall x :: 0 <= x && InSpace(s, x) ==> InSpace(t, x)
  {
    forall x | 0 <= x && InSpace(s, x)
      ensures InSpace(t, x)
    {
      if !(s.dir <= x < s.dir + PAGE) {
        var e :| e in s.tables && s.tables[e] <= x < s.tables[e] + PAGE;
        assert e in t.tables && t.tables[e] == s.tables[e];
      }
    }
  }

  lemma AddedOwned(h: Heap, h': Heap, s: Space, d: nat, table: nat)
    requires SpaceOwned(h, s) && d < ENTRIES && OwnsPage(h', table)
    requires forall a, n :: Owns(h, a, n) ==> Owns(h', a, n) && a != table
    ensures SpaceOwned(h', Added(s, d, table)) && SpaceOwned(h', s)
    ensures table != s.dir && forall e :: e in s.tables ==> s.tables[e] != table
  {
    hide Owns;
    assert Owns(h, s.dir, PAGE);
    assert forall e :: e in s.tables ==> Owns(h, s.tables[e], PAGE);
  }

  lemma FrameOfMapped(a: nat, flags: nat)
    requires a % PAGE == 0 && flags < PAGE && a + flags < TWO_32
    ensures FrameOf(a + flags) == a && (a + flags) % 8 == flags % 8
  {
    PageOffset(a, flags);
    LowBitsOfPage(a, flags);
  }

  lemma LowBitsOfPage(a: nat, flags: nat)
    requires a % PAGE == 0
    ensures (a + flags) % 8 == flags % 8
  {
    var k := a / PAGE;
    assert a == 8 * (512 * k);
  }

  lemma AddedDirectory(m: seq<Byte>, m': seq<Byte>, s: Space, d: nat, table: nat, rights: nat)
    requires s.dir + PAGE <= |m| == |m'| && DirectoryOk(m, s) && d < ENTRIES && 0 < table && table % PAGE == 0
    requires rights < PAGE && rights % 8 == 7 && table + rights < TWO_32
    requires forall i :: 0 <= i < ENTRIES && i != d ==> Entry(m', s.dir, i) == Entry(m, s.dir, i)
    requires Entry(m', s.dir, d) == table + rights
    ensures DirectoryOk(m', Added(s, d, table))
  {
    hide Entry, FrameOf;
    FrameOfMapped(table, rights);
  }

  lemma AddedPte(m: seq<Byte>, m': seq<Byte>, s: Space, d: nat, table: nat, page: nat)
    requires |m| == |m'| && d !in s.tables && page < PAGES
    requires s.dir % PAGE == 0 && table % PAGE == 0 && table != s.dir && table + PAGE <= |m|
    requires forall e :: e in s.tables ==> s.tables[e] % PAGE == 0 && s.tables[e] != s.dir && s.tables[e] + PAGE <= |m|
    requires forall x :: 0 <= x < |m| && !(s.dir <= x < s.dir + PAGE) ==> m'[x] == m[x]
    ensures Pte(m', Added(s, d, table), page) ==
      if page / ENTRIES == d then Entry(m, table, page % ENTRIES) else Pte(m, s, page)
  {
    hide Entry;
    var e := page / ENTRIES;
    if e == d {
      TableElsewhere(m, m', s.dir, table);
    } else if e in s.tables {
      TableElsewhere(m, m', s.dir, s.tables[e]);
    }
  }

  /** Writing the directory entry of a new table extends the address space by that table's entries. */
  lemma AddedOk(m: seq<Byte>, m': seq<Byte>, h: Heap, s: Space, d: nat, table: nat, rights: nat)
    requires SpaceOk(m, h, s) && d < ENTRIES && d !in s.tables && |m'| == |m| && table > 0
    requires SpaceOwned(h, Added(s, d, table)) && OwnsPage(h, table) && table + PAGE <= |m|
    requires table != s.dir && rights < PAGE && rights % 8 == 7 && table + rights < TWO_32
    requires forall i :: 0 <= i < ENTRIES && i != d ==> Entry(m', s.dir, i) == Entry(m, s.dir, i)
    requires Entry(m', s.dir, d) == table + rights
    requires forall x :: 0 <= x < |m| && !(s.dir <= x < s.dir + PAGE) ==> m'[x] == m[x]
    ensures SpaceOk(m', h, Added(s, d, table))
    ensures forall page :: 0 <= page < PAGES ==>
      Pte(m', Added(s, d, table), page) ==
        if page / ENTRIES == d then Entry(m, table, page % ENTRIES) else Pte(m, s, page)
  {
    hide Entry, Inv, Indexed, Owns, Pte, DirectoryOk;
    AddedDirectory(m, m', s, d, table, rights);
    forall page | 0 <= page < PAGES
      ensures Pte(m', Added(s, d, table), page) ==
        if page / ENTRIES == d then Entry(m, table, page % ENTRIES) else Pte(m, s, page)
    {
      AddedPte(m, m', s, d, table, page);
    }
  }

  lemma TableElsewhere(m: seq<Byte>, m': seq<Byte>, written: nat, table: nat)
    requires written % PAGE == 0 && table % PAGE == 0 && written != table && table + PAGE <= |m| == |m'|
    requires forall x :: 0 <= x < |m| && !(written <= x < written + PAGE) ==> m'[x] == m[x]
    ensures forall i :: 0 <= i < ENTRIES ==> Entry(m', table, i) == Entry(m, table, i)
  {
    PagesApart(written, table);
    TableUnchanged(m, m', table);
  }

  /** What a step on an address space leaves alone: memory outside headers and outside the space. */
  ghost predicate Untouched(m: seq<Byte>, m': seq<Byte>, h: Heap, s: Space)
    requires |m| == |m'|
  {
    forall x :: 0 <= x < |m| && ClearOfHeaders(h, x) && !InSpace(s, x) ==> m'[x] == m[x]
  }

  /** Every payload that was owned stays owned, headers stay where they are, and the break moves at most `room`. */
  ghost predicate HeapGrows(h: Heap, h': Heap, room: nat)
  {
    && (forall a, n :: Owns(h, a, n) ==> Owns(h', a, n))
    && |h.blocks| <= |h'.blocks| && (forall i :: 0 <= i < |h.blocks| ==> h'.blocks[i].addr == h.blocks[i].addr)
    && h.brk <= h'.brk <= h.brk + room
  }

  /** What an allocation does for owned payloads. */
  lemma AllocationGrows(h: Heap, size: nat, align: bool)
    requires Inv(h) && Indexed(h) && size > 0 && Sound(h, size, align)
    ensures var (g, p) := Allocate(h, size, align);
            && (forall a, n :: Owns(h, a, n) ==> Owns(g, a, n) && a != p)
            && |h.blocks| <= |g.blocks| && (forall i :: 0 <= i < |h.blocks| ==> g.blocks[i].addr == h.blocks[i].addr)
            && Inv(g) && Indexed(g)
  {
    hide Allocate, Sound, Owns, Inv;
    AllocateSafe(h, size, align);
    var (g, p) := Allocate(h, size, align);
    forall a, n | Owns(h, a, n)
      ensures Owns(g, a, n) && a != p
    {
      AllocateOwns(h, size, align, a, n);
    }
  }

  /** An aligned request of a page would not move the break back, and fits below 4 GiB. */
  predicate PageFits(h: Heap)
  {
    Indexed(h) && Sound(h, PAGE, true) && h.brk + 2 * PAGE < TWO_32
  }

  lemma SteadyFits(h: Heap)
    requires Indexed(h) && Steady(h) && h.brk + 2 * PAGE < TWO_32
    ensures PageFits(h)
  {
    SteadyIsSound(h, PAGE);
  }

  /** Allocates a page. */
  method NewPage(heap: KernelHeap) returns (page: nat)
    requires heap.Valid() && PageFits(heap.state)
    modifies heap, heap.ram
    ensures heap.Valid() && Settles(old(heap.state), heap.state, true, 2 * PAGE)
    ensures OwnsPage(heap.state, page) && 0 < page && page + PAGE < TWO_32
    ensures HeapGrows(old(heap.state), heap.state, 2 * PAGE)
    ensures forall a, n :: Owns(old(heap.state), a, n) ==> a != page
    ensures forall x :: 0 <= x < heap.ram.Length && ClearOfHeaders(heap.state, x) ==> heap.ram[x] == old(heap.ram[x])
  {
    hide Allocate, Sound, KernelHeap.ValidIn, Inv, Indexed, ClearOfHeaders, Owns, Settles;
    ghost var h := heap.state;
    heap.ValidFacts();
    PageSettles(h);
    SettledBreak(h, Allocate(h, PAGE, true).0, true, 2 * PAGE);
    page := heap.KmallocA(PAGE);
    heap.ValidFacts();
    AllocateOwnsNew(h, PAGE, true);
    OwnedClear(heap.state, page, PAGE);
    AllocationGrows(h, PAGE, true);
  }

  /** The directory and tables of an owned space lie clear of every header. */
  lemma SpaceClear(h: Heap, s: Space)
    requires Inv(h) && SpaceOwned(h, s)
    ensures forall x :: 0 <= x && InSpace(s, x) ==> ClearOfHeaders(h, x)
  {
    hide Inv, Owns, ClearOfHeaders;
    OwnedClear(h, s.dir, PAGE);
    forall d | d in s.tables
      ensures forall x :: s.tables[d] <= x < s.tables[d] + PAGE ==> ClearOfHeaders(h, x)
    {
      OwnedClear(h, s.tables[d], PAGE);
    }
  }

  lemma OwnedKept(h: Heap, h': Heap, s: Space)
    requires SpaceOwned(h, s) && (forall a, n :: Owns(h, a, n) ==> Owns(h', a, n))
    ensures SpaceOwned(h', s)
  {
    hide Owns;
    assert Owns(h, s.dir, PAGE);
    assert forall e :: e in s.tables ==> Owns(h, s.tables[e], PAGE);
  }

  lemma SlotFacts(m: seq<Byte>, h: Heap, s: Space, d: nat)
    requires SpaceOk(m, h, s) && d < ENTRIES
    ensures if d in s.tables then FrameOf(Entry(m, s.dir, d)) == s.tables[d] > 0 else FrameOf(Entry(m, s.dir, d)) == 0
    ensures forall e :: e in s.tables ==> s.tables[e] + PAGE <= |m|
    ensures s.dir + PAGE <= |m| == TWO_32
  {
    hide Entry, SpaceOwned, Inv, FrameOf;
    FrameOfMapped(0, 0);
  }

  /** A cleared page that is no part of an address space leaves it as it is. */
  method ClearNewTable(heap: KernelHeap, table: nat, ghost s: Space)
    requires heap.Valid() && SpaceOk(heap.ram[..], heap.state, s) && OwnsPage(heap.state, table)
    requires table != s.dir && forall e :: e in s.tables ==> s.tables[e] != table
    modifies heap.ram
    ensures heap.Valid() && SpaceOk(heap.ram[..], heap.state, s)
    ensures forall page :: 0 <= page < PAGES ==> Pte(heap.ram[..], s, page) == old(Pte(heap.ram[..], s, page))
    ensures table + PAGE <= heap.ram.Length && forall i :: 0 <= i < ENTRIES ==> Entry(heap.ram[..], table, i) == 0
    ensures forall x :: 0 <= x < heap.ram.Length && !(table <= x < table + PAGE) ==> heap.ram[x] == old(heap.ram[x])
  {
    hide KernelHeap.ValidIn, Inv, Owns, ClearOfHeaders, Entry, Indexed, DirectoryOk, Pte, InSpace;
    heap.ValidFacts();
    OwnedClear(heap.state, table, PAGE);
    ghost var m := heap.ram[..];
    ClearTable(heap.ram, table);
    heap.ValidKept(m, heap.ram[..]);
    NotInSpace(heap.state, s, table);
    SpaceUnchanged(m, heap.ram[..], heap.state, heap.state, s);
  }

  lemma NotInSpace(h: Heap, s: Space, page: nat)
    requires SpaceOwned(h, s) && page % PAGE == 0 && page != s.dir && forall e :: e in s.tables ==> s.tables[e] != page
    ensures forall x :: page <= x < page + PAGE ==> !InSpace(s, x)
  {
    PagesApart(page, s.dir);
    forall e | e in s.tables
      ensures page + PAGE <= s.tables[e] || s.tables[e] + PAGE <= page
    {
      PagesApart(page, s.tables[e]);
    }
  }

  /** Allocates, clears and enters a table. */
  method AddTable(heap: KernelHeap, ghost s: Space, dir: nat, d: nat) returns (table: nat, ghost t: Space)
    requires heap.Valid() && PageFits(heap.state)
    requires SpaceOk(heap.ram[..], heap.state, s) && s.dir == dir && d < ENTRIES && d !in s.tables
    modifies heap, heap.ram
    ensures heap.Valid() && Settles(old(heap.state), heap.state, true, 2 * PAGE) && SpaceOk(heap.ram[..], heap.state, t)
    ensures t == Added(s, d, table)
    ensures forall page :: 0 <= page < PAGES ==> Pte(heap.ram[..], t, page) == old(Pte(heap.ram[..], s, page))
    ensures HeapGrows(old(heap.state), heap.state, 2 * PAGE)
    ensures forall a, n :: Owns(old(heap.state), a, n) ==> a != table
    ensures Untouched(old(heap.ram[..]), heap.ram[..], heap.state, t)
  {
    hide KernelHeap.ValidIn, Inv, Indexed, Owns, ClearOfHeaders, Entry, Settles, Pte, DirectoryOk, PageFits;
    ghost var m, h := heap.ram[..], heap.state;
    table := NewPage(heap);
    t := Added(s, d, table);
    heap.ValidFacts();
    ghost var m1, g := heap.ram[..], heap.state;
    AddedOwned(h, g, s, d, table);
    SpaceClear(g, s);
    SpaceUnchanged(m, m1, h, g, s);
    ClearNewTable(heap, table, s);
    ghost var m2 := heap.ram[..];
    EnterTable(heap, s, dir, d, table, PRESENT + WRITEABLE + ACCESS_FROM_ALL);
    NoTableNoEntry(m, s, d);
    UntouchedBy(m, m1, m2, heap.ram[..], g, s, d, table);
  }

  lemma NoTableNoEntry(m: seq<Byte>, s: Space, d: nat)
    requires d !in s.tables && forall e :: e in s.tables ==> s.tables[e] + PAGE <= |m|
    ensures forall page :: 0 <= page < PAGES && page / ENTRIES == d ==> Pte(m, s, page) == 0
  {
  }

  /** Three kinds of writes that together touch only headers, the new table and the directory. */
  lemma UntouchedBy(m: seq<Byte>, m1: seq<Byte>, m2: seq<Byte>, m3: seq<Byte>, g: Heap, s: Space, d: nat, table: nat)
    requires |m| == |m1| == |m2| == |m3|
    requires forall x :: 0 <= x < |m| && ClearOfHeaders(g, x) ==> m1[x] == m[x]
    requires forall x :: 0 <= x < |m| && !(table <= x < table + PAGE) ==> m2[x] == m1[x]
    requires forall x :: 0 <= x < |m| && !(s.dir <= x < s.dir + PAGE) ==> m3[x] == m2[x]
    ensures Untouched(m, m3, g, Added(s, d, table))
  {
    hide ClearOfHeaders;
    var t := Added(s, d, table);
    assert d in t.tables && t.tables[d] == table;
  }

  /** Writes the directory entry of a new table. */
  method EnterTable(heap: KernelHeap, ghost s: Space, dir: nat, d: nat, table: nat, rights: nat)
    requires heap.Valid() && SpaceOk(heap.ram[..], heap.state, s) && s.dir == dir && d < ENTRIES && d !in s.tables
    requires SpaceOwned(heap.state, Added(s, d, table)) && OwnsPage(heap.state, table) && 0 < table
      && table + PAGE < TWO_32
    requires table != s.dir && rights < PAGE && rights % 8 == 7
    modifies heap.ram
    ensures heap.Valid() && SpaceOk(heap.ram[..], heap.state, Added(s, d, table)) && heap.ram.Length == TWO_32
    ensures forall page :: 0 <= page < PAGES ==>
      Pte(heap.ram[..], Added(s, d, table), page)
        == if page / ENTRIES == d then old(Entry(heap.ram[..], table, page % ENTRIES))
          else old(Pte(heap.ram[..], s, page))
    ensures forall x :: 0 <= x < heap.ram.Length && !(dir <= x < dir + PAGE) ==> heap.ram[x] == old(heap.ram[x])
  {
    hide KernelHeap.ValidIn, Inv, Indexed, Owns, ClearOfHeaders, Entry, Pte, DirectoryOk;
    ghost var m := heap.ram[..];
    heap.ValidFacts();
    OwnedClear(heap.state, dir, PAGE);
    SetEntry(heap.ram, dir, d, table + rights);
    heap.ValidKept(m, heap.ram[..]);
    AddedOk(m, heap.ram[..], heap.state, s, d, table, rights);
  }

  /** The table of a directory slot, allocated and entered if there is none yet. */
  method EnsureTable(heap: KernelHeap, ghost s: Space, dir: nat, d: nat) returns (table: nat, ghost t: Space)
    requires heap.Valid() && (d !in s.tables ==> PageFits(heap.state))
    requires SpaceOk(heap.ram[..], heap.state, s) && s.dir == dir && d < ENTRIES
    modifies heap, heap.ram
    ensures heap.Valid() && SpaceOk(heap.ram[..], heap.state, t)
    ensures
      if d in s.tables then heap.state == old(heap.state) else Settles(old(heap.state), heap.state, true, 2 * PAGE)
    ensures t.dir == dir && d in t.tables && table == t.tables[d] && t.tables.Keys == s.tables.Keys + {d}
    ensures forall page :: 0 <= page < PAGES ==> Pte(heap.ram[..], t, page) == old(Pte(heap.ram[..], s, page))
    ensures HeapGrows(old(heap.state), heap.state, 2 * PAGE)
    ensures t == s || (t == Added(s, d, table) && forall a, n :: Owns(old(heap.state), a, n) ==> a != table)
    ensures Extends(s, t)
    ensures Untouched(old(heap.ram[..]), heap.ram[..], heap.state, t)
  {
    hide KernelHeap.ValidIn, SpaceOk, Inv, Owns, ClearOfHeaders, Entry, FrameOf, Settles, PageFits, Pte;
    hide HeapGrows, Untouched, Extends;
    SlotFacts(heap.ram[..], heap.state, s, d);
    NothingMoved(heap.ram[..], heap.state, s);
    var entry := Entry(heap.ram[..], dir, d);
    table := FrameOf(entry);
    t := s;
    if table == 0 {
      table, t := AddTable(heap, s, dir, d);
      AddedExtends(s, d, table);
    }
  }

  lemma NothingMoved(m: seq<Byte>, h: Heap, s: Space)
    ensures HeapGrows(h, h, 2 * PAGE) && Untouched(m, m, h, s) && Extends(s, s)
  {
    hide Owns;
  }

  lemma AddedExtends(s: Space, d: nat, table: nat)
    requires d !in s.tables
    ensures Extends(s, Added(s, d, table))
  {
  }

  lemma SetPte(m: seq<Byte>, m': seq<Byte>, h: Heap, s: Space, d: nat, i: nat, val: U32)
    requires SpaceOk(m, h, s) && d in s.tables && i < ENTRIES && |m'| == |m|
    requires Entry(m', s.tables[d], i) == val
    requires forall j :: 0 <= j < ENTRIES && j != i ==> Entry(m', s.tables[d], j) == Entry(m, s.tables[d], j)
    requires forall x :: 0 <= x < |m| && !(s.tables[d] <= x < s.tables[d] + PAGE) ==> m'[x] == m[x]
    ensures SpaceOk(m', h, s)
    ensures forall page :: 0 <= page < PAGES ==>
      Pte(m', s, page) == if page == d * ENTRIES + i then val else Pte(m, s, page)
  {
    hide Entry, Inv, Indexed, Owns;
    TableElsewhere(m, m', s.tables[d], s.dir);
    forall page | 0 <= page < PAGES
      ensures Pte(m', s, page) == if page == d * ENTRIES + i then val else Pte(m, s, page)
    {
      var e := page / ENTRIES;
      if e in s.tables && e != d {
        TableElsewhere(m, m', s.tables[d], s.tables[e]);
      }
    }
  }

  /** Every table of `t` that is not one of `s` lies on a page nothing owned before. */
  ghost predicate NewTablesFresh(h: Heap, s: Space, t: Space)
  {
    forall d :: d in t.tables ==>
      (d in s.tables && t.tables[d] == s.tables[d]) || (forall n :: !Owns(h, t.tables[d], n))
  }

  /** Directory slots that a setting at this address needs a table in. */
  function SlotOf(virt: U32): set<nat>
  {
    if virt % PAGE == 0 then {virt / 0x40_0000} else {}
  }

  /** `paging_set`: changes the flat map at one page and nowhere else, or refuses an unaligned address. It
      takes a page from the heap exactly when the directory slot has no table. */
  method PagingSet(heap: KernelHeap, ghost s: Space, dir: nat, virt: U32, val: U32) returns (ok: bool, ghost t: Space)
    requires heap.Valid() && (SlotOf(virt) <= s.tables.Keys || PageFits(heap.state))
    requires SpaceOk(heap.ram[..], heap.state, s) && s.dir == dir
    modifies heap, heap.ram
    ensures ok <==> virt % PAGE == 0
    ensures heap.Valid() && SpaceOk(heap.ram[..], heap.state, t) && t.dir == dir
    ensures if SlotOf(virt) <= s.tables.Keys then heap.state == old(heap.state)
      else Settles(old(heap.state), heap.state, true, 2 * PAGE)
    ensures t.tables.Keys == s.tables.Keys + SlotOf(virt)
    ensures forall page :: 0 <= page < PAGES ==>
      Pte(heap.ram[..], t, page) == if ok && page == virt / PAGE then val else old(Pte(heap.ram[..], s, page))
    ensures HeapGrows(old(heap.state), heap.state, 2 * PAGE)
    ensures NewTablesFresh(old(heap.state), s, t) && Extends(s, t)
    ensures Untouched(old(heap.ram[..]), heap.ram[..], heap.state, t)
  {
    hide KernelHeap.ValidIn, SpaceOk, Inv, Owns, ClearOfHeaders, Entry, FrameOf, Settles, PageFits, Pte;
    if virt % PAGE != 0 {
      return false, s;
    }
    var directoryIndex := virt / 0x40_0000;
    var tableIndex := virt / PAGE % ENTRIES;
    var table;
    ghost var m := heap.ram[..];
    table, t := EnsureTable(heap, s, dir, directoryIndex);
    WriteTable(heap, t, directoryIndex, table, tableIndex, val);
    return true, t;
  }

  method WriteTable(heap: KernelHeap, ghost s: Space, ghost d: nat, table: nat, i: nat, val: U32)
    requires heap.Valid() && SpaceOk(heap.ram[..], heap.state, s) && d in s.tables && table == s.tables[d]
      && i < ENTRIES
    modifies heap.ram
    ensures heap.Valid() && SpaceOk(heap.ram[..], heap.state, s)
    ensures forall page :: 0 <= page < PAGES ==>
      Pte(heap.ram[..], s, page) == if page == d * ENTRIES + i then val else old(Pte(heap.ram[..], s, page))
    ensures forall x :: 0 <= x < heap.ram.Length && !InSpace(s, x) ==> heap.ram[x] == old(heap.ram[x])
  {
    hide KernelHeap.ValidIn, Inv, Indexed, Owns, ClearOfHeaders, Entry, Pte, DirectoryOk;
    ghost var m := heap.ram[..];
    heap.ValidFacts();
    OwnedClear(heap.state, table, PAGE);
    SetEntry(heap.ram, table, i, val);
    heap.ValidKept(m, heap.ram[..]);
    SetPte(m, heap.ram[..], heap.state, s, d, i, val);
  }

  // ----- A new address space -----

  /** `x | mask` for a mask of one bit. */
  function WithBit(x: nat, mask: nat): nat
    requires mask > 0
  {
    if x / mask % 2 == 1 then x else x + mask
  }

  function DirectoryRights(flags: Byte): nat
  {
    WithBit(WithBit(flags, WRITEABLE), ACCESS_FROM_ALL)
  }

  lemma DirectoryRightsOpen(flags: Byte)
    requires flags % 2 == 1
    ensures DirectoryRights(flags) % 8 == 7 && DirectoryRights(flags) < PAGE
  {
    BitAdded(flags, 1);
    hide WithBit;
    BitAdded(WithBit(flags, WRITEABLE), 2);
  }

  /** Setting a bit above `k` bits that are all set. */
  lemma BitAdded(x: nat, k: nat)
    requires 1 <= k <= 2 && x % (if k == 1 then 2 else 4) == (if k == 1 then 1 else 3)
    ensures k == 1 ==> WithBit(x, WRITEABLE) % 4 == 3 && WithBit(x, WRITEABLE) <= x + 2
    ensures k == 2 ==> WithBit(x, ACCESS_FROM_ALL) % 8 == 7 && WithBit(x, ACCESS_FROM_ALL) <= x + 4
  {
  }

  /** Neither the directory nor a table lies on a page owned before. */
  ghost predicate SpaceFresh(h: Heap, s: Space)
  {
    (forall n :: !Owns(h, s.dir, n)) && forall d, n :: d in s.tables ==> !Owns(h, s.tables[d], n)
  }

  lemma EmptySpaceOk(m: seq<Byte>, h: Heap, dir: nat)
    requires |m| == TWO_32 && Inv(h) && Indexed(h) && OwnsPage(h, dir) && dir + PAGE <= |m|
    requires forall i :: 0 <= i < ENTRIES ==> Entry(m, dir, i) == 0
    ensures SpaceOk(m, h, Space(dir, map[])) && forall page :: 0 <= page < PAGES ==>
      Pte(m, Space(dir, map[]), page) == 0
  {
    hide Entry, Owns, Inv;
  }

  /** Allocates and clears a directory. */
  method NewDirectory(heap: KernelHeap) returns (dir: nat, ghost s: Space)
    requires heap.Valid() && PageFits(heap.state)
    modifies heap, heap.ram
    ensures heap.Valid() && SpaceOk(heap.ram[..], heap.state, s) && s == Space(dir, map[])
    ensures Settles(old(heap.state), heap.state, true, 2 * PAGE)
    ensures forall page :: 0 <= page < PAGES ==> Pte(heap.ram[..], s, page) == 0
    ensures HeapGrows(old(heap.state), heap.state, 2 * PAGE) && SpaceFresh(old(heap.state), s)
    ensures Untouched(old(heap.ram[..]), heap.ram[..], heap.state, s)
  {
    hide KernelHeap.ValidIn, Inv, Indexed, Owns, ClearOfHeaders, Entry, Settles, PageFits, Pte, DirectoryOk, SpaceOk;
    dir := NewPage(heap);
    s := Space(dir, map[]);
    heap.ValidFacts();
    ghost var m := heap.ram[..];
    OwnedClear(heap.state, dir, PAGE);
    ClearTable(heap.ram, dir);
    heap.ValidKept(m, heap.ram[..]);
    EmptySpaceOk(heap.ram[..], heap.state, dir);
  }

  /** Fills a new page with the identity map of the `n`-th region. */
  method FillIdentity(heap: KernelHeap, table: nat, n: nat, flags: Byte, ghost s: Space)
    requires heap.Valid() && SpaceOk(heap.ram[..], heap.state, s) && OwnsPage(heap.state, table) && n < 16
    requires table != s.dir && forall e :: e in s.tables ==> s.tables[e] != table
    modifies heap.ram
    ensures heap.Valid() && SpaceOk(heap.ram[..], heap.state, s)
    ensures forall page :: 0 <= page < PAGES ==> Pte(heap.ram[..], s, page) == old(Pte(heap.ram[..], s, page))
    ensures table + PAGE <= heap.ram.Length && forall i :: 0 <= i < ENTRIES ==>
      Entry(heap.ram[..], table, i) == (n * ENTRIES + i) * PAGE + flags
    ensures forall x :: 0 <= x < heap.ram.Length && !(table <= x < table + PAGE) ==> heap.ram[x] == old(heap.ram[x])
  {
    hide KernelHeap.ValidIn, Inv, Owns, ClearOfHeaders, Entry, Indexed, DirectoryOk, Pte, InSpace;
    heap.ValidFacts();
    OwnedClear(heap.state, table, PAGE);
    ghost var m := heap.ram[..];
    IdentityTable(heap.ram, table, n, flags);
    heap.ValidKept(m, heap.ram[..]);
    NotInSpace(heap.state, s, table);
    SpaceUnchanged(m, heap.ram[..], heap.state, heap.state, s);
  }

  /** Maps the `n`-th 4 MB region to itself through a new table. */
  method MapRegion(heap: KernelHeap, ghost s: Space, dir: nat, n: nat, flags: Byte) returns (ghost t: Space)
    requires heap.Valid() && PageFits(heap.state)
    requires SpaceOk(heap.ram[..], heap.state, s) && s.dir == dir && n < 16 && n !in s.tables && flags % 2 == 1
    modifies heap, heap.ram
    ensures heap.Valid() && SpaceOk(heap.ram[..], heap.state, t) && Settles(old(heap.state), heap.state, true, 2 * PAGE)
    ensures t.dir == dir && t.tables.Keys == s.tables.Keys + {n}
    ensures forall page :: 0 <= page < PAGES ==>
      Pte(heap.ram[..], t, page) == if page / ENTRIES == n then page * PAGE + flags else old(Pte(heap.ram[..], s, page))
    ensures HeapGrows(old(heap.state), heap.state, 2 * PAGE)
    ensures exists table :: t == Added(s, n, table) && forall k :: !Owns(old(heap.state), table, k)
    ensures Untouched(old(heap.ram[..]), heap.ram[..], heap.state, t)
  {
    hide KernelHeap.ValidIn, Inv, Indexed, Owns, ClearOfHeaders, Entry, Settles, PageFits, Pte, DirectoryOk;
    ghost var m, h := heap.ram[..], heap.state;
    var table := NewPage(heap);
    t := Added(s, n, table);
    heap.ValidFacts();
    ghost var m1, g := heap.ram[..], heap.state;
    AddedOwned(h, g, s, n, table);
    SpaceClear(g, s);
    SpaceUnchanged(m, m1, h, g, s);
    FillIdentity(heap, table, n, flags, s);
    ghost var m2 := heap.ram[..];
    DirectoryRightsOpen(flags);
    EnterTable(heap, s, dir, n, table, DirectoryRights(flags));
    UntouchedBy(m, m1, m2, heap.ram[..], g, s, n, table);
    RegionPages(n, flags);
  }

  lemma RegionPages(n: nat, flags: Byte)
    ensures forall page: nat :: page / ENTRIES == n ==>
      (n * ENTRIES + page % ENTRIES) * PAGE + flags == page * PAGE + flags
  {
    forall page: nat | page / ENTRIES == n
      ensures n * ENTRIES + page % ENTRIES == page
    {
    }
  }

  lemma GrowsTwice(h: Heap, g: Heap, f: Heap, a: nat, b: nat)
    requires HeapGrows(h, g, a) && HeapGrows(g, f, b)
    ensures HeapGrows(h, f, a + b)
  {
    hide Owns;
  }

  lemma ClearBackwards(h: Heap, g: Heap, room: nat)
    requires HeapGrows(h, g, room)
    ensures forall x :: ClearOfHeaders(g, x) ==> ClearOfHeaders(h, x)
  {
    hide Owns;
  }

  /** Steps on a growing heap compose. */
  lemma UntouchedTwice(m: seq<Byte>, m1: seq<Byte>, m2: seq<Byte>, h: Heap, g: Heap, room: nat, s: Space, t: Space)
    requires |m| == |m1| == |m2| && Untouched(m, m1, h, s) && Untouched(m1, m2, g, t)
    requires HeapGrows(h, g, room)
    requires forall x :: 0 <= x && InSpace(s, x) ==> InSpace(t, x)
    ensures Untouched(m, m2, g, t)
  {
    ClearBackwards(h, g, room);
    hide ClearOfHeaders, InSpace, HeapGrows;
  }

  lemma AddedContains(s: Space, d: nat, table: nat)
    requires d !in s.tables
    ensures forall x :: 0 <= x && InSpace(s, x) ==> InSpace(Added(s, d, table), x)
  {
    hide InSpace;
    AddedExtends(s, d, table);
    ExtendsContains(s, Added(s, d, table));
  }

  lemma AddedFresh(h: Heap, g: Heap, room: nat, s: Space, t: Space, d: nat)
    requires SpaceFresh(h, s) && HeapGrows(h, g, room) && d !in s.tables
    requires exists table :: t == Added(s, d, table) && forall k :: !Owns(g, table, k)
    ensures SpaceFresh(h, t)
  {
    hide Owns;
    var table :| t == Added(s, d, table) && forall k :: !Owns(g, table, k);
    forall k
      ensures !Owns(h, table, k)
    {
      assert !Owns(g, table, k);
    }
  }

  /** The flat map after the first `n` regions were mapped. */
  function IdentityPte(page: nat, n: nat, flags: Byte): nat
  {
    if page / ENTRIES < n then page * PAGE + flags else 0
  }

  function SlotsBelow(n: nat): (r: set<nat>)
    ensures forall d :: d in r <==> 0 <= d < n
  {
    if n == 0 then {} else SlotsBelow(n - 1) + {n - 1}
  }

  /** The directory and its 16 identity tables. */
  method NewSpace(heap: KernelHeap, flags: Byte) returns (dir: nat, ghost s: Space)
    requires heap.Valid() && Steady(heap.state) && heap.state.brk + 34 * PAGE < TWO_32 && flags % 2 == 1
    modifies heap, heap.ram
    ensures heap.Valid() && SpaceOk(heap.ram[..], heap.state, s) && s.dir == dir
    ensures Settles(old(heap.state), heap.state, true, 34 * PAGE) && s.tables.Keys == SlotsBelow(16)
    ensures forall page :: 0 <= page < PAGES ==> Pte(heap.ram[..], s, page) == IdentityPte(page, 16, flags)
    ensures HeapGrows(old(heap.state), heap.state, 34 * PAGE) && SpaceFresh(old(heap.state), s)
    ensures Untouched(old(heap.ram[..]), heap.ram[..], heap.state, s)
  {
    hide KernelHeap.ValidIn, Inv, Owns, ClearOfHeaders, InSpace, Steady, SpaceOk, Pte, HeapGrows, SpaceFresh;
    hide Untouched, Settles, PageFits;
    ghost var m, h := heap.ram[..], heap.state;
    ghost var room: nat := 2 * PAGE;
    heap.ValidFacts();
    SteadyFits(h);
    dir, s := NewDirectory(heap);
    SettledBreak(h, heap.state, true, room);
    SpaceBounds(heap.ram[..], heap.state, s);
    for n := 0 to 16
      invariant heap.Valid() && SpaceOk(heap.ram[..], heap.state, s) && s.dir == dir
      invariant Settles(h, heap.state, true, room) && Steady(heap.state)
      invariant forall d :: d in s.tables ==> s.tables[d] + PAGE <= heap.ram.Length
      invariant s.tables.Keys == SlotsBelow(n)
      invariant forall page :: 0 <= page < PAGES ==> Pte(heap.ram[..], s, page) == IdentityPte(page, n, flags)
      invariant room == 2 * PAGE * (n + 1) && heap.state.brk <= h.brk + room
      invariant HeapGrows(h, heap.state, room) && SpaceFresh(h, s)
      invariant Untouched(m, heap.ram[..], heap.state, s)
    {
      ghost var m1, h1, s1 := heap.ram[..], heap.state, s;
      heap.ValidFacts();
      SteadyFits(h1);
      s := MapRegion(heap, s, dir, n, flags);
      AddedFresh(h, h1, room, s1, s, n);
      GrowsTwice(h, h1, heap.state, room, 2 * PAGE);
      SettlesTwice(h, h1, heap.state, true, true, room, 2 * PAGE);
      room := room + 2 * PAGE;
      SettledBreak(h, heap.state, true, room);
      ghost var table :| s == Added(s1, n, table);
      AddedContains(s1, n, table);
      UntouchedTwice(m, m1, heap.ram[..], h1, heap.state, 2 * PAGE, s1, s);
      SpaceBounds(heap.ram[..], heap.state, s);
    }
  }

  lemma BoundedBreak(h: Heap, g: Heap, room: nat)
    requires HeapGrows(h, g, room)
    ensures g.brk <= h.brk + room
  {
  }

  /** An owned payload that is none of the space's pages lies outside the space. */
  lemma PayloadOutside(h: Heap, s: Space, a: nat, n: nat)
    requires Inv(h) && SpaceOwned(h, s) && Owns(h, a, n)
    requires a != s.dir && forall d :: d in s.tables ==> s.tables[d] != a
    ensures forall x :: a <= x < a + n ==> !InSpace(s, x)
  {
    hide Inv, Owns;
    OwnedApart(h, a, n, s.dir, PAGE);
    forall d | d in s.tables
      ensures a + n <= s.tables[d] || s.tables[d] + PAGE <= a
    {
      OwnedApart(h, a, n, s.tables[d], PAGE);
    }
  }

  /** Allocates a small block beside an address space. */
  method BlockBeside(heap: KernelHeap, size: U32, ghost s: Space) returns (p: nat)
    requires heap.Valid() && 0 < size <= PAGE && heap.state.brk + 2 * PAGE < TWO_32
    requires SpaceOk(heap.ram[..], heap.state, s)
    modifies heap, heap.ram
    ensures heap.Valid() && SpaceOk(heap.ram[..], heap.state, s)
    ensures forall page :: 0 <= page < PAGES ==> Pte(heap.ram[..], s, page) == old(Pte(heap.ram[..], s, page))
    ensures HeapGrows(old(heap.state), heap.state, 2 * PAGE)
    ensures Indexed(old(heap.state)) && heap.state == Allocate(old(heap.state), size, false).0
    ensures Owns(heap.state, p, size) && p + size <= heap.ram.Length && forall n :: !Owns(old(heap.state), p, n)
    ensures forall x :: p <= x < p + size ==> ClearOfHeaders(heap.state, x) && !InSpace(s, x)
    ensures forall x :: 0 <= x < heap.ram.Length && ClearOfHeaders(heap.state, x) ==> heap.ram[x] == old(heap.ram[x])
  {
    hide KernelHeap.ValidIn, Inv, Indexed, Owns, ClearOfHeaders, InSpace, Pte, DirectoryOk, Allocate;
    ghost var m, h := heap.ram[..], heap.state;
    heap.ValidFacts();
    p := heap.Kmalloc(size);
    heap.ValidFacts();
    AllocationGrows(h, size, false);
    AllocateOwnsNew(h, size, false);
    AllocateBreak(h, size, false);
    OwnedKept(h, heap.state, s);
    assert Owns(h, s.dir, PAGE) && forall d :: d in s.tables ==> Owns(h, s.tables[d], PAGE);
    PayloadOutside(heap.state, s, p, size);
    OwnedClear(heap.state, p, size);
    SpaceClear(heap.state, s);
    SpaceUnchanged(m, heap.ram[..], h, heap.state, s);
  }

  /** A word stored in a payload beside an address space. */
  method StoreBeside(heap: KernelHeap, p: nat, w: U32, ghost s: Space)
    requires heap.Valid() && SpaceOk(heap.ram[..], heap.state, s) && p + 4 <= heap.ram.Length
    requires forall x :: p <= x < p + 4 ==> ClearOfHeaders(heap.state, x) && !InSpace(s, x)
    modifies heap.ram
    ensures heap.Valid() && SpaceOk(heap.ram[..], heap.state, s) && Le32At(heap.ram[..], p) == w
    ensures forall page :: 0 <= page < PAGES ==> Pte(heap.ram[..], s, page) == old(Pte(heap.ram[..], s, page))
    ensures forall x :: 0 <= x < heap.ram.Length && !(p <= x < p + 4) ==> heap.ram[x] == old(heap.ram[x])
  {
    hide KernelHeap.ValidIn, Inv, Indexed, Owns, ClearOfHeaders, InSpace, Pte, DirectoryOk;
    heap.ValidFacts();
    ghost var m := heap.ram[..];
    SetWord(heap.ram, p, w);
    heap.ValidKept(m, heap.ram[..]);
    SpaceUnchanged(m, heap.ram[..], heap.state, heap.state, s);
  }

  const CHUNK_SIZE := 4

  /** What `paging_new_4gb` does to the break: 17 pages and a small block. The heap is then steady if the
      break had room for the small block and two headers on its page, or every large block on a page was live. */
  ghost predicate SpaceMade(h: Heap, g: Heap)
  {
    && h.brk <= g.brk <= h.brk + 36 * PAGE
    && (Ample(h, CHUNK_SIZE + HEADER) ==> Steady(g))
    && (PagesLive(h) ==> PagesLive(g) && g.brk % PAGE <= CHUNK_SIZE + HEADER)
  }

  lemma SpaceIsMade(h: Heap, h1: Heap)
    requires Settles(h, h1, true, 34 * PAGE) && Indexed(h1)
    ensures SpaceMade(h, Allocate(h1, CHUNK_SIZE, false).0)
  {
    var g := Allocate(h1, CHUNK_SIZE, false).0;
    SettledBreak(h, h1, true, 34 * PAGE);
    KmallocCreeps(h1, CHUNK_SIZE);
    BreakMoved(h1, g, CHUNK_SIZE + HEADER);
    hide Allocate, Settles, Creeps, AlignedLive;
    if Ample(h, CHUNK_SIZE + HEADER) {
      AmpleMoved(h1, g, CHUNK_SIZE + HEADER, 0);
    }
    if PagesLive(h) {
      AllocateKeepsAligned(h1, CHUNK_SIZE, false, PAGE - HEADER + 1);
      BreakOffset(h1.brk, g.brk);
    }
  }

  lemma BreakOffset(a: nat, b: nat)
    requires a % PAGE == 0 && a <= b <= a + CHUNK_SIZE + HEADER
    ensures b % PAGE <= CHUNK_SIZE + HEADER
  {
    PageOffset(a, b - a);
  }

  /** `paging_new_4gb`: identity on the first 64 MB with the given flags, nothing elsewhere. The
      returned chunk holds the directory's address. */
  method PagingNew4gb(heap: KernelHeap, flags: Byte) returns (chunk: nat, dir: nat, ghost s: Space)
    requires heap.Valid() && Steady(heap.state) && heap.state.brk + 36 * PAGE < TWO_32 && flags % 2 == 1
    modifies heap, heap.ram
    ensures heap.Valid() && SpaceOk(heap.ram[..], heap.state, s) && s.dir == dir && s.tables.Keys == SlotsBelow(16)
    ensures SpaceMade(old(heap.state), heap.state)
    ensures forall page :: 0 <= page < PAGES ==> Pte(heap.ram[..], s, page) == IdentityPte(page, 16, flags)
    ensures HeapGrows(old(heap.state), heap.state, 36 * PAGE) && SpaceFresh(old(heap.state), s)
    ensures Owns(heap.state, chunk, 4) && (forall n :: !Owns(old(heap.state), chunk, n))
    ensures chunk + 4 <= heap.ram.Length && Le32At(heap.ram[..], chunk) == dir && !InSpace(s, chunk)
    ensures forall x ::
      0 <= x < heap.ram.Length && ClearOfHeaders(heap.state, x) && !InSpace(s, x) && !(chunk <= x < chunk + 4) ==>
        heap.ram[x] == old(heap.ram[x])
  {
    hide KernelHeap.ValidIn, Inv, Owns, ClearOfHeaders, InSpace, Steady, SpaceOk, Pte, SpaceFresh, Settles;
    hide Creeps, Live, PagesLive, SpaceMade;
    ghost var m, h := heap.ram[..], heap.state;
    dir, s := NewSpace(heap, flags);
    SpaceBounds(heap.ram[..], heap.state, s);
    ghost var m1, h1 := heap.ram[..], heap.state;
    chunk := BlockBeside(heap, CHUNK_SIZE, s);
    SpaceIsMade(h, h1);
    SpaceBounds(heap.ram[..], heap.state, s);
    DirIsAddress(heap.ram[..], heap.state, s);
    StoreBeside(heap, chunk, dir, s);
    GrowsTwice(h, h1, heap.state, 34 * PAGE, 2 * PAGE);
    ClearBackwards(h1, heap.state, 2 * PAGE);
  }

  lemma DirIsAddress(m: seq<Byte>, h: Heap, s: Space)
    requires SpaceOk(m, h, s)
    ensures s.dir < TWO_32
  {
  }

  // ----- Runs -----

  datatype PageSet = PageSet(virt: U32, val: U32)

  predicate Hits(one: PageSet, page: nat)
  {
    one.virt % PAGE == 0 && one.virt / PAGE == page
  }

  /** The flat map after a run of `paging_set` calls, the latest last. */
  function Overlay(base: U32, page: nat, sets: seq<PageSet>): U32
  {
    if sets == [] then base
    else
      var last := sets[|sets| - 1];
      if Hits(last, page) then last.val
      else Overlay(base, page, sets[..|sets| - 1])
  }

  /** The value of a page after a run is that of the last set that hit it. */
  lemma {:induction false} OverlayIsLatest(base: U32, page: nat, sets: seq<PageSet>, i: nat)
    requires i < |sets| && Hits(sets[i], page) && forall j :: i < j < |sets| ==> !Hits(sets[j], page)
    ensures Overlay(base, page, sets) == sets[i].val
    decreases |sets|
  {
    var n := |sets| - 1;
    if i < n {
      assert !Hits(sets[n], page);
      OverlayIsLatest(base, page, sets[..n], i);
    }
  }

  /** A page that no set hits keeps its value. */
  lemma {:induction false} OverlayUntouched(base: U32, page: nat, sets: seq<PageSet>)
    requires forall i :: 0 <= i < |sets| ==> !Hits(sets[i], page)
    ensures Overlay(base, page, sets) == base
  {
    if sets != [] {
      var n := |sets| - 1;
      assert !Hits(sets[n], page);
      OverlayUntouched(base, page, sets[..n]);
    }
  }

  /** Any run of `paging_set` calls leaves each page with the value set last, or as it was. */
  method RunSets(heap: KernelHeap, ghost s: Space, dir: nat, sets: seq<PageSet>) returns (ghost t: Space)
    requires heap.Valid() && Steady(heap.state) && heap.state.brk + 2 * PAGE * (|sets| + 1) < TWO_32
    requires SpaceOk(heap.ram[..], heap.state, s) && s.dir == dir
    modifies heap, heap.ram
    ensures heap.Valid() && SpaceOk(heap.ram[..], heap.state, t) && t.dir == dir
    ensures forall page :: 0 <= page < PAGES ==>
      Pte(heap.ram[..], t, page) == Overlay(old(Pte(heap.ram[..], s, page)), page, sets)
  {
    hide KernelHeap.ValidIn, Steady, SpaceOk, Pte, Settles, PageFits, Inv;
    ghost var h := heap.state;
    SpaceBounds(heap.ram[..], heap.state, s);
    t := s;
    for i := 0 to |sets|
      invariant heap.Valid() && Steady(heap.state) && SpaceOk(heap.ram[..], heap.state, t) && t.dir == dir
      invariant heap.state.brk <= h.brk + 2 * PAGE * i
      invariant forall d :: d in t.tables ==> t.tables[d] + PAGE <= heap.ram.Length
      invariant forall page :: 0 <= page < PAGES ==>
        Pte(heap.ram[..], t, page) == Overlay(old(Pte(heap.ram[..], s, page)), page, sets[..i])
    {
      assert sets[..i + 1][..i] == sets[..i];
      ghost var h1, s1 := heap.state, t;
      var ok;
      heap.ValidFacts();
      SteadyFits(h1);
      ok, t := PagingSet(heap, t, dir, sets[i].virt, sets[i].val);
      BoundedBreak(h1, heap.state, 2 * PAGE);
      if !(SlotOf(sets[i].virt) <= s1.tables.Keys) {
        SettledBreak(h1, heap.state, true, 2 * PAGE);
      }
      SpaceBounds(heap.ram[..], heap.state, t);
    }
    assert sets[..|sets|] == sets;
  }

  /** What the processor makes of a flat entry. */
  function Shown(pte: U32): Option<U32>
  {
    if Bit(pte, PRESENT) then Some(pte) else None
  }

  /** `paging_new_4gb` and then any run of `paging_set` calls: the processor's walk finds the identity on the
      first 64 MB overlaid by the settings, the latest last, cut to the present pages. */
  method NewThenSet(heap: KernelHeap, flags: Byte, sets: seq<PageSet>) returns (chunk: nat, dir: nat, ghost t: Space)
    requires heap.Valid() && Ample(heap.state, CHUNK_SIZE + HEADER) && flags % 2 == 1
    requires heap.state.brk + 36 * PAGE + 2 * PAGE * (|sets| + 1) < TWO_32
    modifies heap, heap.ram
    ensures heap.Valid() && SpaceOk(heap.ram[..], heap.state, t) && t.dir == dir
    ensures dir + PAGE <= heap.ram.Length == TWO_32
    ensures forall page :: 0 <= page < PAGES ==>
      Walk(heap.ram[..], dir, page) == Shown(Overlay(IdentityPte(page, 16, flags), page, sets))
  {
    hide KernelHeap.ValidIn, SpaceOk, Pte, Steady, Walk, Bit, Owns, SpaceFresh, HeapGrows, PagesLive;
    hide ClearOfHeaders, InSpace;
    ghost var s;
    SteadyFromAmple(heap.state);
    chunk, dir, s := PagingNew4gb(heap, flags);
    SpaceBounds(heap.ram[..], heap.state, s);
    t := RunSets(heap, s, dir, sets);
    SpaceBounds(heap.ram[..], heap.state, t);
    forall page | 0 <= page < PAGES
      ensures Walk(heap.ram[..], dir, page) == Shown(Overlay(IdentityPte(page, 16, flags), page, sets))
    {
      WalkIsFlat(heap.ram[..], heap.state, t, page);
    }
  }

  lemma SteadyFromAmple(h: Heap)
    requires Ample(h, CHUNK_SIZE + HEADER)
    ensures Steady(h)
  {
  }
}
