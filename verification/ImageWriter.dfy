/** Writing a file onto a FAT16 image (inject_file.py:5-91). An image is a file of bytes with a
    position; a read at its end is short and a write past its end makes it longer. */
module ImageWriter {
  import opened Bytes
  import opened Multiples
  import opened FatLayout
  import opened CStrings
  import opened FatNames
  import opened NewEntries
  import opened VolumeFormats

  // ----- The image as a file -----

  /** `s` after `data` was written at position `at`; a gap is filled with zeros. */
  function Overwrite(s: seq<Byte>, at: nat, data: seq<Byte>): (r: seq<Byte>)
    ensures at + |data| <= |s| ==> r == Patch(s, at, data)
  {
    if at + |data| <= |s| then Patch(s, at, data)
    else if data == [] then s
    else Front(s, at) + data
  }

  /** Two writes one behind the other are one write. */
  lemma OverwriteTwice(s: seq<Byte>, at: nat, a: seq<Byte>, b: seq<Byte>)
    requires a != []
    ensures Overwrite(Overwrite(s, at, a), at + |a|, b) == Overwrite(s, at, a + b)
  {
    if b == [] {
      assert a + b == a;
    } else if at + |a| + |b| <= |s| {
      PatchTwice(s, at, a, b);
    } else {
      OverwritePastEnd(s, at, a, b);
    }
  }

  lemma PatchTwice(s: seq<Byte>, at: nat, a: seq<Byte>, b: seq<Byte>)
    requires at + |a| + |b| <= |s|
    ensures Patch(Patch(s, at, a), at + |a|, b) == Patch(s, at, a + b)
  {
    hide Patch;
    var x, y := Patch(Patch(s, at, a), at + |a|, b), Patch(s, at, a + b);
    assert forall k :: 0 <= k < |s| ==> x[k] == y[k];
  }

  lemma OverwritePastEnd(s: seq<Byte>, at: nat, a: seq<Byte>, b: seq<Byte>)
    requires a != [] && b != [] && at + |a| + |b| > |s|
    ensures Overwrite(Overwrite(s, at, a), at + |a|, b) == Overwrite(s, at, a + b)
  {
    var first := Overwrite(s, at, a);
    FrontOf(s, at, a);
    FrontOf(s, at, a + b);
    FrontOf(first, at + |a|, b);
    hide Overwrite;
    assert first[..at + |a|] + b == Front(s, at) + (a + b);
  }

  /** `s` cut or padded to `at` bytes. */
  function Front(s: seq<Byte>, at: nat): (r: seq<Byte>)
    ensures |r| == at
  {
    if at <= |s| then s[..at] else s + Zeros(at - |s|)
  }

  lemma FrontOf(s: seq<Byte>, at: nat, data: seq<Byte>)
    requires data != []
    ensures var r := Overwrite(s, at, data);
            && at + |data| <= |r| && r[..at + |data|] == Front(s, at) + data
            && |r| == (if at + |data| <= |s| then |s| else at + |data|)
  {
    hide Patch;
    if at + |data| <= |s| {
      assert Patch(s, at, data)[..at + |data|] == s[..at] + data;
    }
  }

  /** Every byte of a file after a write: the data where it was written, zeros where it left a gap behind the old
      end, and the old bytes elsewhere. */
  lemma OverwriteAt(s: seq<Byte>, at: nat, data: seq<Byte>, k: nat)
    requires data != [] && (k < |s| || k < at + |data|)
    ensures var r := Overwrite(s, at, data);
            k < |r| && r[k] == if at <= k < at + |data| then data[k - at] else if k < |s| then s[k] else 0
  {
    hide Patch;
    FrontOf(s, at, data);
    if at + |data| > |s| {
      FrontAt(s, at, k);
      var r := Overwrite(s, at, data);
      assert r == Front(s, at) + data;
    }
  }

  lemma FrontAt(s: seq<Byte>, at: nat, k: nat)
    ensures k < at ==> Front(s, at)[k] == if k < |s| then s[k] else 0
  {
  }

  class ImageFile {
    var bytes: seq<Byte>
    var pos: nat

    constructor (bytes: seq<Byte>)
      ensures this.bytes == bytes && pos == 0
    {
      this.bytes := bytes;
      pos := 0;
    }

    method Seek(to: nat)
      modifies `pos
      ensures pos == to
    {
      pos := to;
    }

    method Read(n: nat) returns (r: seq<Byte>)
      modifies `pos
      ensures |r| == if old(pos) + n <= |bytes| then n else if old(pos) <= |bytes| then |bytes| - old(pos) else 0
      ensures pos == old(pos) + |r| && (r != [] ==> pos <= |bytes| && r == bytes[old(pos)..pos])
    {
      if pos >= |bytes| {
        return [];
      }
      var end := Min(pos + n, |bytes|);
      r := bytes[pos..end];
      pos := end;
    }

    method Write(data: seq<Byte>)
      modifies this
      ensures bytes == Overwrite(old(bytes), old(pos), data) && pos == old(pos) + |data|
    {
      bytes := Overwrite(bytes, pos, data);
      pos := pos + |data|;
    }

    /** A little-endian 16-bit word, or nothing where `struct.unpack` raises an error. */
    method ReadWord() returns (r: Option<U16>)
      modifies `pos
      ensures r == if old(pos) + 2 <= |bytes| then Some(Le16At(bytes, old(pos))) else None
      ensures r.Some? ==> pos == old(pos) + 2
    {
      var s := Read(2);
      if |s| < 2 {
        return None;
      }
      return Some(Le16At(s, 0));
    }

    method ReadByte() returns (r: Option<Byte>)
      modifies `pos
      ensures r == if old(pos) + 1 <= |bytes| then Some(bytes[old(pos)]) else None
      ensures r.Some? ==> pos == old(pos) + 1
    {
      var s := Read(1);
      if |s| < 1 {
        return None;
      }
      return Some(s[0]);
    }
  }

  // ----- Geometry -----

  datatype Geometry = Geometry(fatStart: nat, fatBytes: nat, fats: nat, rootStart: nat, rootEntries: nat,
                               dataStart: nat, clusterSize: nat)

  /** What the writer computes from the boot sector; it checks no signature. */
  function GeometryOf(img: seq<Byte>): Geometry
    requires |img| >= 24
  {
    var perSector := Le16At(img, 11);
    var fatStart, fatBytes := Times(Le16At(img, 14), perSector), Times(Le16At(img, 22), perSector);
    var rootStart, rootEntries: nat := fatStart + Times(img[16], fatBytes), Le16At(img, 17);
    Geometry(fatStart, fatBytes, img[16], rootStart, rootEntries, rootStart + rootEntries * 32,
      Times(img[13], perSector))
  }

  method Product(n: nat, d: nat) returns (x: nat)
    ensures x == Times(n, d)
  {
    TimesIsProduct(n, d);
    x := n * d;
  }

  method ReadGeometry(f: ImageFile) returns (r: Option<Geometry>)
    modifies f`pos
    ensures r == if |f.bytes| >= 24 then Some(GeometryOf(f.bytes)) else None
  {
    f.Seek(11);
    var perSector := f.ReadWord();
    if perSector.None? { return None; }
    var perCluster := f.ReadByte();
    if perCluster.None? { return None; }
    var reserved := f.ReadWord();
    if reserved.None? { return None; }
    var fats := f.ReadByte();
    if fats.None? { return None; }
    var rootEntries := f.ReadWord();
    if rootEntries.None? { return None; }
    f.Seek(22);
    var perFat := f.ReadWord();
    if perFat.None? { return None; }
    var fatStart := Product(reserved.value, perSector.value);
    var fatBytes := Product(perFat.value, perSector.value);
    var tables := Product(fats.value, fatBytes);
    var clusterSize := Product(perCluster.value, perSector.value);
    var rootStart, entries: nat := fatStart + tables, rootEntries.value;
    return Some(Geometry(fatStart, fatBytes, fats.value, rootStart, entries, rootStart + entries * 32, clusterSize));
  }

  /** How many clusters of `size` bytes `length` bytes take. */
  function Needed(length: nat, size: nat): nat
    requires size > 0
  {
    (length + size - 1) / size
  }

  // ----- The two searches -----

  datatype Slot = Free(index: nat) | Full | Short

  /** The first root entry from `i` on that is unused or deleted; `Short` where the image ends first. */
  function RootSlot(img: seq<Byte>, at: nat, n: nat, i: nat): (r: Slot)
    requires i <= n
    ensures r.Free? ==> i <= r.index < n && at + ITEM_SIZE * r.index < |img|
    decreases n - i
  {
    if i == n then Full
    else if at + ITEM_SIZE * i >= |img| then Short
    else if img[at + ITEM_SIZE * i] in {0x00, 0xE5} then Free(i)
    else RootSlot(img, at, n, i + 1)
  }

  method FindRootSlot(f: ImageFile, at: nat, n: nat) returns (r: Slot)
    modifies f`pos
    ensures r == RootSlot(f.bytes, at, n, 0)
  {
    f.Seek(at);
    for i := 0 to n
      invariant f.pos == at + ITEM_SIZE * i || (f.pos == |f.bytes| <= at + ITEM_SIZE * i)
      invariant RootSlot(f.bytes, at, n, 0) == RootSlot(f.bytes, at, n, i)
    {
      var entry := f.Read(ITEM_SIZE);
      if entry == [] {
        return Short;
      }
      if entry[0] == 0x00 || entry[0] == 0xE5 {
        return Free(i);
      }
    }
    return Full;
  }

  const CLUSTER_NUMBERS := 0x1_0000

  ghost predicate Numbers(free: seq<nat>)
  {
    forall i :: 0 <= i < |free| ==> 2 <= free[i] < CLUSTER_NUMBERS
  }

  /** The clusters from `i` on whose table entry is 0, behind those in `free`, until there are `needed`
      or all numbers were tried; nothing where the image ends first. */
  function Scan(img: seq<Byte>, start: nat, needed: nat, i: nat, free: seq<nat>): (r: Option<seq<nat>>)
    requires 2 <= i <= CLUSTER_NUMBERS && Numbers(free)
    ensures r.Some? ==> Numbers(r.value)
    decreases CLUSTER_NUMBERS - i
  {
    if i == CLUSTER_NUMBERS then Some(free)
    else if start + 2 * i + 2 > |img| then None
    else if Le16At(img, start + 2 * i) != 0 then Scan(img, start, needed, i + 1, free)
    else if |free| + 1 == needed then Some(free + [i])
    else Scan(img, start, needed, i + 1, free + [i])
  }

  method FindFreeClusters(f: ImageFile, start: nat, needed: nat) returns (r: Option<seq<nat>>)
    modifies f`pos
    ensures r == Scan(f.bytes, start, needed, 2, [])
  {
    f.Seek(start + 4);
    var free: seq<nat> := [];
    for i := 2 to CLUSTER_NUMBERS
      invariant Numbers(free) && f.pos == start + 2 * i
      invariant Scan(f.bytes, start, needed, 2, []) == Scan(f.bytes, start, needed, i, free)
    {
      var entry := f.ReadWord();
      if entry.None? {
        return None;
      }
      if entry.value == 0 {
        free := free + [i];
        if |free| == needed {
          break;
        }
      }
    }
    return Some(free);
  }

  // ----- The writes -----

  /** The table entry of the `i`-th cluster of a new chain. */
  function Link(taken: seq<nat>, i: nat): U16
    requires i < |taken| && Numbers(taken)
  {
    if i == |taken| - 1 then 0xFFFF else taken[i + 1]
  }

  /** The image after the first `n` links of the chain were written to the table at `start`. */
  function LinkFat(img: seq<Byte>, start: nat, taken: seq<nat>, n: nat): seq<Byte>
    requires n <= |taken| && Numbers(taken)
  {
    if n == 0 then img
    else Overwrite(LinkFat(img, start, taken, n - 1), start + 2 * taken[n - 1], Le16(Link(taken, n - 1)))
  }

  /** The image after the chain was written to the first `k` copies of the table. */
  function LinkCopies(img: seq<Byte>, g: Geometry, taken: seq<nat>, k: nat): seq<Byte>
    requires Numbers(taken)
  {
    if k == 0 then img
    else LinkFat(LinkCopies(img, g, taken, k - 1), g.fatStart + Times(k - 1, g.fatBytes), taken, |taken|)
  }

  method LinkChain(f: ImageFile, g: Geometry, taken: seq<nat>)
    requires Numbers(taken)
    modifies f
    ensures f.bytes == LinkCopies(old(f.bytes), g, taken, g.fats)
  {
    hide Overwrite;
    ghost var img := f.bytes;
    for k := 0 to g.fats
      invariant f.bytes == LinkCopies(img, g, taken, k)
    {
      ghost var before := f.bytes;
      var offset := Product(k, g.fatBytes);
      var start := g.fatStart + offset;
      for i := 0 to |taken|
        invariant f.bytes == LinkFat(before, start, taken, i)
      {
        f.Seek(start + 2 * taken[i]);
        if i == |taken| - 1 {
          f.Write(Le16(LAST));
        } else {
          f.Write(Le16(taken[i + 1]));
        }
      }
    }
  }

  function ClusterAt(g: Geometry, cluster: nat): nat
    requires cluster >= 2
  {
    g.dataStart + Times(cluster - 2, g.clusterSize)
  }

  /** The `i`-th piece of the data, cut to what there is. */
  function Chunk(data: seq<Byte>, i: nat, size: nat): seq<Byte>
  {
    var start: nat := Min(Times(i, size), |data|);
    data[start..Min(start + size, |data|)]
  }

  /** The image after the first `n` pieces of the data were written. */
  function WriteData(img: seq<Byte>, g: Geometry, data: seq<Byte>, taken: seq<nat>, n: nat): seq<Byte>
    requires n <= |taken| && Numbers(taken)
  {
    if n == 0 then img
    else Overwrite(WriteData(img, g, data, taken, n - 1), ClusterAt(g, taken[n - 1]), Chunk(data, n - 1, g.clusterSize))
  }

  method WriteChunk(f: ImageFile, g: Geometry, data: seq<Byte>, cluster: nat, i: nat)
    requires cluster >= 2
    modifies f
    ensures f.bytes == Overwrite(old(f.bytes), ClusterAt(g, cluster), Chunk(data, i, g.clusterSize))
  {
    hide Overwrite;
    var offset := Product(cluster - 2, g.clusterSize);
    f.Seek(g.dataStart + offset);
    var from := Product(i, g.clusterSize);
    var start: nat := Min(from, |data|);
    f.Write(data[start..Min(start + g.clusterSize, |data|)]);
  }

  method WriteClusters(f: ImageFile, g: Geometry, data: seq<Byte>, taken: seq<nat>)
    requires Numbers(taken)
    modifies f
    ensures f.bytes == WriteData(old(f.bytes), g, data, taken, |taken|)
  {
    hide Overwrite, ClusterAt, Chunk;
    ghost var img := f.bytes;
    for i := 0 to |taken|
      invariant f.bytes == WriteData(img, g, data, taken, i)
    {
      WriteChunk(f, g, data, taken[i], i);
    }
  }

  /** The first 26 bytes of a new entry: name, attribute, reserved bytes, time and date. */
  function EntryHead(name: seq<Byte>): (r: seq<Byte>)
    ensures |r| == 26
  {
    EncodeName(name) + [ARCHIVE] + Zeros(14)
  }

  method WriteHead(f: ImageFile, at: nat, name: seq<Byte>)
    modifies f
    ensures f.bytes == Overwrite(old(f.bytes), at, EntryHead(name)) && f.pos == at + 26
  {
    hide BeforeDot, Extension, Fit, Overwrite, UpperAll;
    ghost var img := f.bytes;
    var upper := UpperAll(name);
    var base, ext := Fit(BeforeDot(upper), 8), Fit(Extension(upper), 3);
    f.Seek(at);
    f.Write(base);
    f.Write(ext);
    OverwriteTwice(img, at, base, ext);
    f.Write([ARCHIVE]);
    OverwriteTwice(img, at, base + ext, [ARCHIVE]);
    f.Write(Zeros(10));
    OverwriteTwice(img, at, base + ext + [ARCHIVE], Zeros(10));
    WriteStamps(f, img, at, base + ext + [ARCHIVE]);
  }

  /** The zero time and date behind the reserved bytes. */
  method WriteStamps(f: ImageFile, ghost img: seq<Byte>, ghost at: nat, ghost front: seq<Byte>)
    requires |front| == 12 && f.bytes == Overwrite(img, at, front + Zeros(10)) && f.pos == at + 22
    modifies f
    ensures f.bytes == Overwrite(img, at, front + Zeros(14)) && f.pos == at + 26
  {
    hide Overwrite;
    f.Write(Le16(0));
    OverwriteTwice(img, at, front + Zeros(10), Le16(0));
    f.Write(Le16(0));
    OverwriteTwice(img, at, front + Zeros(10) + Le16(0), Le16(0));
    assert front + Zeros(10) + Le16(0) + Le16(0) == front + Zeros(14);
  }

  // ----- The whole program -----

  /** `Failed` stands for an exception: a short read, a division by zero, an empty list of free
      clusters or a size of 4 GiB and more. */
  datatype Outcome = Done | NoRootEntry | NoClusters | Failed

  /** The entry of the new file replaces what was at `at`; the two failures come part-way through. */
  function Entered(img: seq<Byte>, at: nat, name: seq<Byte>, free: seq<nat>, length: nat): (Outcome, seq<Byte>)
    requires Numbers(free)
  {
    if free == [] then (Failed, Overwrite(img, at, EntryHead(name)))
    else if length >= TWO_32 then (Failed, Overwrite(img, at, EntryHead(name) + Le16(free[0])))
    else (Done, Overwrite(img, at, EncodeItem(EncodeName(name), free[0], length)))
  }

  /** What the program writes once both searches are done. */
  function Placed(img: seq<Byte>, g: Geometry, data: seq<Byte>, name: seq<Byte>, index: nat, free: seq<nat>,
          needed: nat): (Outcome, seq<Byte>)
    requires Numbers(free)
  {
    if |free| < needed then (NoClusters, img)
    else
      var taken := free[..needed];
      var written := WriteData(LinkCopies(img, g, taken, g.fats), g, data, taken, needed);
      Entered(written, g.rootStart + ITEM_SIZE * index, name, free, |data|)
  }

  /** What the program makes of an image. */
  function Injected(img: seq<Byte>, data: seq<Byte>, name: seq<Byte>): (Outcome, seq<Byte>)
  {
    if |img| < 24 || GeometryOf(img).clusterSize == 0 then (Failed, img)
    else
      var g := GeometryOf(img);
      var needed := Needed(|data|, g.clusterSize);
      match RootSlot(img, g.rootStart, g.rootEntries, 0)
      case Short => (Failed, img)
      case Full => (NoRootEntry, img)
      case Free(index) =>
        match Scan(img, g.fatStart, needed, 2, [])
        case None => (Failed, img)
        case Some(free) => Placed(img, g, data, name, index, free, needed)
  }

  method WriteEntry(f: ImageFile, at: nat, name: seq<Byte>, free: seq<nat>, length: nat) returns (r: Outcome)
    requires Numbers(free)
    modifies f
    ensures (r, f.bytes) == Entered(old(f.bytes), at, name, free, length)
  {
    hide Overwrite, EncodeName;
    ghost var img := f.bytes;
    WriteHead(f, at, name);
    if free == [] {
      return Failed;
    }
    f.Write(Le16(free[0]));
    OverwriteTwice(img, at, EntryHead(name), Le16(free[0]));
    if length >= TWO_32 {
      return Failed;
    }
    f.Write(Le32(length));
    OverwriteTwice(img, at, EntryHead(name) + Le16(free[0]), Le32(length));
    EntryPieces(name, free[0], length);
    return Done;
  }

  lemma EntryPieces(name: seq<Byte>, cluster: U16, size: U32)
    ensures EntryHead(name) + Le16(cluster) + Le32(size) == EncodeItem(EncodeName(name), cluster, size)
  {
    hide EncodeName;
    var raw := EncodeName(name);
    assert raw + [ARCHIVE] + Zeros(14) + Le16(cluster) + Le32(size) ==
      raw + ([ARCHIVE] + Zeros(14) + Le16(cluster) + Le32(size));
  }

  // ----- The new entry -----

  lemma {:induction false} SlotIsFirst(img: seq<Byte>, at: nat, n: nat, i: nat)
    requires i <= n && forall j: nat :: j < i ==> at + 32 * j < |img| && img[at + 32 * j] !in {0x00, 0xE5}
    ensures var slot := RootSlot(img, at, n, i); slot.Free? ==> slot.index < n && FirstUnused(img, at, slot.index)
    decreases n - i
  {
    if i < n && at + 32 * i < |img| && img[at + 32 * i] !in {0x00, 0xE5} {
      SlotIsFirst(img, at, n, i + 1);
    }
  }

  lemma {:induction false} ScanIsFirst(img: seq<Byte>, start: nat, needed: nat, i: nat)
    requires 2 <= i <= CLUSTER_NUMBERS && forall d: nat :: 2 <= d < i ==> NumberAt(img, start + 2 * d, 2) != 0
    ensures var r := Scan(img, start, needed, i, []);
            r.Some? && r.value != [] ==> FirstFree(img, start, r.value[0])
    decreases CLUSTER_NUMBERS - i
  {
    hide NumberAt;
    if i < CLUSTER_NUMBERS && start + 2 * i + 2 <= |img| {
      WordIs(img, start + 2 * i);
      if Le16At(img, start + 2 * i) != 0 {
        ScanIsFirst(img, start, needed, i + 1);
      } else {
        var none: seq<nat> := [];
        assert none + [i] == [i];
        ScanKeeps(img, start, needed, i + 1, [i]);
        assert FirstFree(img, start, i);
      }
    }
  }

  lemma {:induction false} ScanKeeps(img: seq<Byte>, start: nat, needed: nat, i: nat, free: seq<nat>)
    requires 2 <= i <= CLUSTER_NUMBERS && Numbers(free) && free != []
    ensures var r := Scan(img, start, needed, i, free); r.Some? ==> r.value != [] && r.value[0] == free[0]
    decreases CLUSTER_NUMBERS - i
  {
    if i < CLUSTER_NUMBERS && start + 2 * i + 2 <= |img| {
      ScanKeeps(img, start, needed, i + 1, free);
      ScanKeeps(img, start, needed, i + 1, free + [i]);
    }
  }

  lemma GeometryIs(img: seq<Byte>)
    requires |img| >= 24
    ensures GeometryOf(img).fatStart == TableAt(img) && GeometryOf(img).rootStart == RootAt(img)
    ensures GeometryOf(img).rootEntries == NumberAt(img, 17, 2)
  {
    hide Times;
    WordIs(img, 11);
    WordIs(img, 14);
    WordIs(img, 17);
    WordIs(img, 22);
    ByteIs(img, 16);
    hide Le16At, NumberAt, Number;
    Products(NumberAt(img, 14, 2), NumberAt(img, 11, 2), img[16], NumberAt(img, 22, 2));
  }

  lemma Products(reserved: nat, perSector: nat, fats: nat, perFat: nat)
    ensures Times(reserved, perSector) == reserved * perSector
    ensures Times(fats, Times(perFat, perSector)) == fats * (perFat * perSector)
  {
    hide Times;
    TimesIsProduct(reserved, perSector);
    TimesIsProduct(perFat, perSector);
    TimesIsProduct(fats, perFat * perSector);
  }

  lemma EntryBytes(img: seq<Byte>, at: nat, name: seq<Byte>, cluster: U16, size: U32)
    ensures var r := Overwrite(img, at, EncodeItem(EncodeName(name), cluster, size));
            && at + 32 <= |r|
            && forall base, ext :: Splits(name, base, ext) ==> EntrySpells(r[at..at + 32], base, ext, cluster, size)
  {
    hide Overwrite, EncodeName, EntrySpells, Splits;
    var item := EncodeItem(EncodeName(name), cluster, size);
    FrontOf(img, at, item);
    var r := Overwrite(img, at, item);
    assert r[at..at + 32] == r[..at + 32][at..] == item;
    forall base, ext | Splits(name, base, ext)
      ensures EntrySpells(item, base, ext, cluster, size)
    {
      EntryIs(name, base, ext, cluster, size);
    }
  }

  /** The last write of a run that succeeds. */
  lemma LastWrite(img: seq<Byte>, data: seq<Byte>, name: seq<Byte>)
    returns (index: nat, free: seq<nat>, written: seq<Byte>)
    requires Injected(img, data, name).0 == Done
    ensures |img| >= 24 && GeometryOf(img).clusterSize > 0 && |data| < TWO_32 && free != [] && Numbers(free)
    ensures var g := GeometryOf(img);
            && RootSlot(img, g.rootStart, g.rootEntries, 0) == Free(index)
            && Scan(img, g.fatStart, Needed(|data|, g.clusterSize), 2, []) == Some(free)
            && Injected(img, data, name).1 ==
               Overwrite(written, g.rootStart + ITEM_SIZE * index, EncodeItem(EncodeName(name), free[0], |data|))
  {
    hide GeometryOf, RootSlot, Scan, LinkCopies, WriteData, Needed, Overwrite, EncodeName;
    var g := GeometryOf(img);
    var needed := Needed(|data|, g.clusterSize);
    index := RootSlot(img, g.rootStart, g.rootEntries, 0).index;
    free := Scan(img, g.fatStart, needed, 2, []).value;
    var taken := free[..needed];
    written := WriteData(LinkCopies(img, g, taken, g.fats), g, data, taken, needed);
  }

  /** Whatever the image: when the program succeeds, it has entered the file, in capitals, under its first free
      cluster in the first slot that the root directory does not use. */
  lemma NewEntry(img: seq<Byte>, data: seq<Byte>, name: seq<Byte>)
    requires Injected(img, data, name).0 == Done
    ensures exists index: nat, c: nat :: EntryAt(img, Injected(img, data, name).1, name, |data|, index, c)
  {
    hide GeometryOf, RootSlot, Scan, Needed, Overwrite, EncodeName, EncodeItem, EntrySpells, Splits;
    hide FirstFree, FirstUnused, RootAt, TableAt, NumberAt, Injected;
    var index, free, written := LastWrite(img, data, name);
    var g := GeometryOf(img);
    GeometryIs(img);
    SlotIsFirst(img, g.rootStart, g.rootEntries, 0);
    ScanIsFirst(img, g.fatStart, Needed(|data|, g.clusterSize), 2);
    EntryBytes(written, g.rootStart + ITEM_SIZE * index, name, free[0], |data|);
    assert EntryAt(img, Injected(img, data, name).1, name, |data|, index, free[0]);
  }

  lemma EntryFollows(img: seq<Byte>, data: seq<Byte>, name: seq<Byte>, r: Outcome, img': seq<Byte>)
    requires (r, img') == Injected(img, data, name)
    ensures r == Done ==> exists index: nat, c: nat :: EntryAt(img, img', name, |data|, index, c)
  {
    hide Injected, EntryAt;
    if r == Done {
      NewEntry(img, data, name);
    }
  }

  /** What `encode('ascii')` accepts. */
  predicate Ascii(name: seq<Byte>)
  {
    forall i :: 0 <= i < |name| ==> name[i] < 0x80
  }

  /** `inject`: the whole program on an open image. */
  method Inject(f: ImageFile, data: seq<Byte>, name: seq<Byte>) returns (r: Outcome)
    requires Ascii(name)
    modifies f
    ensures (r, f.bytes) == Injected(old(f.bytes), data, name)
    ensures r == Done ==>
      exists index: nat, c: nat :: EntryAt(old(f.bytes), f.bytes, name, |data|, index, c)
  {
    hide GeometryOf, RootSlot, Scan, LinkCopies, WriteData, Entered, Needed, EntryAt;
    ghost var img := f.bytes;
    var geometry := ReadGeometry(f);
    if geometry.None? || geometry.value.clusterSize == 0 {
      return Failed;
    }
    var g := geometry.value;
    var needed := CountClusters(|data|, g.clusterSize);
    var slot := FindRootSlot(f, g.rootStart, g.rootEntries);
    match slot {
      case Short => return Failed;
      case Full => return NoRootEntry;
      case Free(index) =>
        var found := FindFreeClusters(f, g.fatStart, needed);
        if found.None? {
          return Failed;
        }
        var free := found.value;
        if |free| < needed {
          return NoClusters;
        }
        LinkChain(f, g, free[..needed]);
        WriteClusters(f, g, data, free[..needed]);
        r := WriteEntry(f, g.rootStart + ITEM_SIZE * index, name, free, |data|);
        EntryFollows(img, data, name, r, f.bytes);
    }
  }

  method CountClusters(length: nat, size: nat) returns (n: nat)
    requires size > 0
    ensures n == Needed(length, size)
  {
    n := (length + size - 1) / size;
  }
}
