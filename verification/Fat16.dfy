/** The FAT16 reader (src/fs/fat16.c): table walks, the descriptor with its cluster cache, reads
    and seeks, directory lookup, listing and opening. */
module Fat16 {
  import opened Bytes
  import opened Multiples
  import opened Blocks
  import opened DiskStreams
  import opened FatLayout
  import opened CStrings
  import opened FatNames
  import opened FatDirectory

  class FatPrivate {
    const bpb: Bpb
    const stream: DiskStream
    /** Table entries fetched so far. */
    ghost var fatReads: nat

    constructor (bpb: Bpb, stream: DiskStream)
      ensures this.bpb == bpb && this.stream == stream && fatReads == 0
    {
      this.bpb := bpb;
      this.stream := stream;
      fatReads := 0;
    }

    ghost function Image(): seq<Byte> { stream.device.image }
  }

  ghost predicate Mounted(p: FatPrivate, v: Volume)
  {
    p.bpb == v.bpb && FatDirectory.Charted(p.Image(), v)
  }

  ghost function Fat(p: FatPrivate, v: Volume): seq<U16>
    requires Mounted(p, v)
  {
    FatTable(p.Image(), v.bpb, v.limit)
  }

  /** The sectors of the table always read. */
  ghost predicate FatDependable(p: FatPrivate, v: Volume)
  {
    Dependable(p.stream.device, FatStart(v.bpb), 2 * v.limit)
  }

  /** Every sector of the image always reads. */
  ghost predicate AllDependable(p: FatPrivate)
  {
    Dependable(p.stream.device, 0, |p.Image()|)
  }

  function BytesPerCluster(b: Bpb): (size: nat)
    ensures b.bytesPerSector == 512 ==> size == ClusterSize(b)
  {
    var perCluster: int := b.sectorsPerCluster;
    Nonnegative(perCluster, b.bytesPerSector);
    perCluster * b.bytesPerSector
  }

  lemma Nonnegative(a: nat, b: nat)
    ensures a * b >= 0
  {
  }

  // ----- The allocation table -----

  method GetFatEntry(p: FatPrivate, cluster: U32, ghost v: Volume) returns (entry: U32)
    requires Mounted(p, v) && 2 <= cluster < v.limit
    modifies p, p.stream
    ensures entry == Fat(p, v)[cluster] || (entry == LAST && !FatDependable(p, v))
    ensures p.fatReads == old(p.fatReads) + 1
  {
    p.fatReads := p.fatReads + 1;
    ReaderPositionsExact(v.bpb, v.limit, |p.Image()|, cluster, 0);
    var at := FatEntryPosition(p.bpb, cluster);
    p.stream.Seek(at);
    var buffer := new Byte[2];
    var ok := p.stream.Read(buffer, 0, 2);
    if !ok {
      return LAST;
    }
    entry := Le16At(buffer[..], 0);
    assert buffer[..] == p.Image()[at..at + 2];
  }

  /** `content` is what the chain holds on the mounted volume, in clusters of `size` bytes. */
  ghost predicate View(p: FatPrivate, v: Volume, chain: seq<nat>, content: seq<Byte>, size: nat)
  {
    && Mounted(p, v)
    && IsChain(Fat(p, v), chain)
    && ChainFits(|p.Image()|, v.bpb, chain)
    && content == ChainBytes(p.Image(), v.bpb, chain)
    && size == ClusterSize(v.bpb)
  }

  lemma ViewFacts(p: FatPrivate, v: Volume, chain: seq<nat>, content: seq<Byte>, size: nat)
    requires View(p, v, chain, content, size)
    ensures |content| == Times(|chain|, size)
    ensures 0 < size < TWO_32 && size == BytesPerCluster(p.bpb)
    ensures |content| < TWO_32
  {
    ChainBounded(Fat(p, v), chain);
    ClustersBelow4G(v.bpb, v.limit, |p.Image()|, |chain|);
  }

  method Quotient(x: nat, size: nat, ghost n: nat) returns (q: nat)
    requires Times(n, size) <= x < Times(n, size) + size
    ensures q == n
  {
    QuotientOf(n, x - Times(n, size), size);
    q := x / size;
  }

  /** The start of the cluster that holds file position `pos`. */
  method RoundDown(pos: nat, size: nat, ghost n: nat) returns (start: nat)
    requires Times(n, size) <= pos < Times(n, size) + size
    ensures start == Times(n, size)
  {
    QuotientOf(n, pos - Times(n, size), size);
    TimesIsProduct(n, size);
    start := pos / size * size;
  }

  /** Walks `skip` links on from the `i`-th cluster of a chain, where `skip` is the quotient of
      `offset` and the cluster size. */
  method GetClusterForOffset(p: FatPrivate, startCluster: U32, offset: U32, ghost v: Volume, ghost chain: seq<nat>,
          ghost content: seq<Byte>, ghost size: nat, ghost i: nat, ghost skip: nat)
    returns (cluster: U32)
    requires View(p, v, chain, content, size) && i < |chain| && chain[i] == startCluster
    requires Times(skip, size) <= offset < Times(skip, size) + size
    modifies p, p.stream
    ensures cluster < RESERVED_MIN ==>
      i + skip < |chain| && cluster == chain[i + skip] && p.fatReads == old(p.fatReads) + skip
    ensures cluster >= RESERVED_MIN ==> cluster == LAST && (FatDependable(p, v) ==> |chain| <= i + skip)
  {
    ViewFacts(p, v, chain, content, size);
    var clusterSize := BytesPerCluster(p.bpb);
    var clustersToSkip := Quotient(offset, clusterSize, skip);
    cluster := startCluster;
    for n := 0 to clustersToSkip
      invariant i + n < |chain| && cluster == chain[i + n]
      invariant p.fatReads == old(p.fatReads) + n
    {
      ChainLink(Fat(p, v), chain, i + n);
      cluster := GetFatEntry(p, cluster, v);
      if cluster >= LAST_MIN {
        return LAST;
      }
    }
    ChainLink(Fat(p, v), chain, i + skip);
  }

  // ----- Descriptors -----

  class FatFileDescriptor {
    /** The heap block of the descriptor. */
    const addr: nat
    const item: DirItem
    var pos: U32
    var lastCluster: U32
    var lastClusterPos: U32
    /** Which cluster of the chain the cache holds. */
    ghost var index: nat

    constructor (addr: nat, item: DirItem)
      ensures this.addr == addr && this.item == item
      ensures pos == 0 && lastCluster == item.cluster && lastClusterPos == 0 && index == 0
    {
      this.addr, this.item := addr, item;
      pos, lastCluster, lastClusterPos := 0, item.cluster, 0;
      index := 0;
    }

    /** The cache names the `index`-th cluster of the chain and the position where it starts. */
    ghost predicate CacheOk(size: nat, chain: seq<nat>)
      reads this
    {
      index < |chain| && lastCluster == chain[index] && lastClusterPos == Times(index, size)
    }
  }

  /** Copies part of the `i`-th cluster of a chain, flat position `lo` on, to `out[at..]`. */
  method ReadPiece(p: FatPrivate, cluster: U32, offsetInCluster: U32, n: U32, out: array<Byte>, at: nat,
          ghost v: Volume, ghost chain: seq<nat>, ghost content: seq<Byte>, ghost size: nat, ghost i: nat,
          ghost lo: nat, ghost shift: int)
    returns (ok: bool)
    requires View(p, v, chain, content, size) && i < |chain| && chain[i] == cluster
    requires 0 < n && offsetInCluster + n <= size && lo == Times(i, size) + offsetInCluster == at + shift
    requires at + n <= out.Length
    modifies p.stream, out
    ensures lo + n <= |content|
    ensures ok ==> forall j :: at <= j < at + n ==> out[j] == content[j + shift]
    ensures forall j :: 0 <= j < out.Length && !(at <= j < at + n) ==> out[j] == old(out[j])
    ensures AllDependable(p) ==> ok
  {
    ReaderPositionsExact(v.bpb, v.limit, |p.Image()|, cluster, offsetInCluster);
    var absPos := ReaderPosition(p.bpb, cluster, offsetInCluster);
    p.stream.Seek(absPos);
    ok := p.stream.Read(out, at, n);
    ChainBytesSlice(p.Image(), v.bpb, chain, i, offsetInCluster, lo, absPos, n);
    if ok {
      SameSlices(out[..], content, at, lo, n, shift);
    }
  }

  lemma SameSlices(a: seq<Byte>, b: seq<Byte>, at: nat, lo: nat, n: nat, shift: int)
    requires at + n <= |a| && lo + n <= |b| && a[at..at + n] == b[lo..lo + n] && lo == at + shift
    ensures forall j :: at <= j < at + n ==> a[j] == b[j + shift]
  {
    var x, y := a[at..at + n], b[lo..lo + n];
    assert forall j :: at <= j < at + n ==> a[j] == x[j - at] == y[j - at] == b[j + shift];
  }

  /** Moves the cache of a descriptor to the cluster after the cached one. */
  method AdvanceCluster(p: FatPrivate, desc: FatFileDescriptor, offsetInFile: U32, ghost v: Volume,
          ghost chain: seq<nat>, ghost content: seq<Byte>, ghost size: nat)
    returns (cluster: U32)
    requires View(p, v, chain, content, size) && desc.CacheOk(size, chain)
    requires offsetInFile == desc.lastClusterPos + size
    modifies p, p.stream, desc`lastCluster, desc`lastClusterPos, desc`index
    ensures cluster == desc.lastCluster && desc.lastClusterPos == offsetInFile
    ensures desc.index == old(desc.index) + 1 && p.fatReads == old(p.fatReads) + 1
    ensures offsetInFile == Times(desc.index, size) <= |content|
    ensures cluster < RESERVED_MIN ==> offsetInFile < |content|
    ensures desc.CacheOk(size, chain) <==> cluster < RESERVED_MIN
    ensures cluster >= RESERVED_MIN && FatDependable(p, v) ==> offsetInFile == |content|
  {
    ViewFacts(p, v, chain, content, size);
    ChainLink(Fat(p, v), chain, desc.index);
    TimesOrder(desc.index, |chain|, size);
    if desc.index + 1 < |chain| {
      TimesOrder(desc.index + 1, |chain|, size);
    }
    cluster := GetFatEntry(p, desc.lastCluster, v);
    desc.lastCluster := cluster;
    desc.lastClusterPos := offsetInFile;
    desc.index := desc.index + 1;
  }

  /** Where the cache of a descriptor stands while a read is `offset` bytes into the file: in the
      cached cluster, or, once something was read, possibly at its end. */
  ghost predicate CacheAt(desc: FatFileDescriptor, offset: nat, started: bool, chain: seq<nat>, size: nat)
    reads desc
  {
    && desc.CacheOk(size, chain)
    && desc.lastClusterPos <= offset <= desc.lastClusterPos + size
    && (if started then desc.lastClusterPos < offset else offset < desc.lastClusterPos + size)
  }

  /** One round of the loop of `fat16_read`: moves on along the chain if the cluster is used up, then
      copies as much as the cluster holds. `n` is 0 when the loop must stop. */
  method ReadRound(p: FatPrivate, desc: FatFileDescriptor, offsetInFile: U32, started: bool, left: U32,
          out: array<Byte>, at: nat, ghost v: Volume, ghost chain: seq<nat>, ghost content: seq<Byte>, ghost size: nat,
          ghost shift: int)
    returns (n: U32)
    requires View(p, v, chain, content, size) && CacheAt(desc, offsetInFile, started, chain, size)
    requires 0 < left && at + left <= out.Length && offsetInFile == at + shift
    modifies p, p.stream, out, desc`lastCluster, desc`lastClusterPos, desc`index
    ensures n <= left && offsetInFile + n <= |content|
    ensures forall j :: at <= j < at + n ==> out[j] == content[j + shift]
    ensures forall j :: 0 <= j < out.Length && !(at <= j < at + left) ==> out[j] == old(out[j])
    ensures n > 0 ==> CacheAt(desc, offsetInFile + n, true, chain, size)
    ensures n == 0 && AllDependable(p) && FatDependable(p, v) ==> offsetInFile == |content|
    ensures n > 0 || (FatDependable(p, v) && offsetInFile < |content|) ==>
              && desc.CacheOk(size, chain) && desc.lastClusterPos <= offsetInFile
              && p.fatReads - old(p.fatReads) == desc.index - old(desc.index) >= 0
  {
    ViewFacts(p, v, chain, content, size);
    var clusterSize := BytesPerCluster(p.bpb);
    TimesOrder(desc.index, |chain|, size);
    OffsetInCluster(desc.index, desc.lastClusterPos, offsetInFile, size);
    var currentCluster := desc.lastCluster;
    var offsetInCluster := offsetInFile % clusterSize;
    if started && offsetInCluster == 0 {
      currentCluster := AdvanceCluster(p, desc, offsetInFile, v, chain, content, size);
    }
    if currentCluster >= RESERVED_MIN {
      return 0;
    }
    n := clusterSize - offsetInCluster;
    if n > left {
      n := left;
    }
    var ok := ReadPiece(p, currentCluster, offsetInCluster, n, out, at, v, chain, content, size, desc.index,
      offsetInFile, shift);
    if !ok {
      n := 0;
    }
  }

  /** The loop of `fat16_read`: copies up to `total` bytes of the flat contents, from the position of
      the descriptor on, moving the cache along the chain. */
  method ReadClusters(p: FatPrivate, desc: FatFileDescriptor, total: U32, out: array<Byte>, base: nat, ghost v: Volume,
          ghost chain: seq<nat>, ghost content: seq<Byte>, ghost size: nat, ghost shift: int)
    returns (totalRead: U32)
    requires View(p, v, chain, content, size) && CacheAt(desc, desc.pos, false, chain, size)
    requires 0 < total && base + total <= out.Length && desc.pos == base + shift
    modifies p, p.stream, out, desc`lastCluster, desc`lastClusterPos, desc`index
    ensures totalRead <= total && desc.pos + totalRead <= |content|
    ensures forall j :: base <= j < base + totalRead ==> out[j] == content[j + shift]
    ensures forall j :: 0 <= j < out.Length && !(base <= j < base + total) ==> out[j] == old(out[j])
    ensures AllDependable(p) ==> totalRead == Min(total, |content| - desc.pos)
    ensures FatDependable(p, v) && desc.pos + total <= |content| ==>
              && desc.CacheOk(size, chain) && desc.lastClusterPos <= desc.pos + totalRead
                && desc.lastClusterPos < desc.pos + total
              && p.fatReads - old(p.fatReads) == desc.index - old(desc.index) >= 0
  {
    ViewFacts(p, v, chain, content, size);
    AllImpliesFat(p, v, chain, content, size);
    TimesOrder(desc.index, |chain|, size);
    totalRead := 0;
    while totalRead < total
      invariant totalRead <= total && desc.pos + totalRead <= |content|
      invariant forall j :: base <= j < base + totalRead ==> out[j] == content[j + shift]
      invariant forall j :: 0 <= j < out.Length && !(base <= j < base + total) ==> out[j] == old(out[j])
      invariant CacheAt(desc, desc.pos + totalRead, totalRead > 0, chain, size)
      invariant p.fatReads - old(p.fatReads) == desc.index - old(desc.index) >= 0
    {
      var n := ReadRound(p, desc, desc.pos + totalRead, totalRead > 0, total - totalRead, out, base + totalRead, v,
        chain, content, size, shift);
      if n == 0 {
        break;
      }
      totalRead := totalRead + n;
    }
  }

  lemma AllImpliesFat(p: FatPrivate, v: Volume, chain: seq<nat>, content: seq<Byte>, size: nat)
    requires View(p, v, chain, content, size)
    ensures AllDependable(p) ==> FatDependable(p, v)
  {
  }

  lemma OffsetInCluster(index: nat, start: nat, offset: nat, size: nat)
    requires start == Times(index, size) && start <= offset <= start + size && size > 0
    ensures offset % size == if offset == start + size then 0 else offset - start
  {
    if offset == start + size {
      QuotientOf(index + 1, 0, size);
    } else {
      QuotientOf(index, offset - start, size);
    }
  }

  lemma ClusterIndex(pos: nat, i: nat, n: nat, size: nat) returns (q: nat)
    requires size > 0 && Times(i, size) <= pos
    ensures i <= q && Times(q, size) <= pos < Times(q, size) + size
    ensures Times(q - i, size) == Times(q, size) - Times(i, size)
    ensures q < n <==> pos < Times(n, size)
  {
    q := pos / size;
    Split(pos, size);
    if q < i {
      TimesOrder(q, i, size);
    }
    TimesAdd(i, q - i, size);
    QuotientBelow(pos, n, size);
  }

  /** The index from which a read at the position of the descriptor starts to walk. */
  ghost function WalkStart(desc: FatFileDescriptor): nat
    reads desc
  {
    if desc.pos >= desc.lastClusterPos then desc.index else 0
  }

  /** Caches `cluster`, the `q`-th of the chain, which holds the position of the descriptor. */
  method UpdateCache(desc: FatFileDescriptor, cluster: U32, clusterSize: nat, ghost chain: seq<nat>, ghost q: nat)
    requires q < |chain| && cluster == chain[q]
    requires Times(q, clusterSize) <= desc.pos < Times(q, clusterSize) + clusterSize
    modifies desc`lastCluster, desc`lastClusterPos, desc`index
    ensures CacheAt(desc, desc.pos, false, chain, clusterSize) && desc.index == q
  {
    var start := RoundDown(desc.pos, clusterSize, q);
    desc.lastCluster, desc.lastClusterPos := cluster, start;
    desc.index := q;
  }

  /** Finds the cluster that holds the position of the descriptor, from the cached cluster if it is
      not beyond, and caches it. */
  method LocateCluster(p: FatPrivate, desc: FatFileDescriptor, ghost v: Volume, ghost chain: seq<nat>,
          ghost content: seq<Byte>, ghost size: nat)
    returns (cluster: U32)
    requires View(p, v, chain, content, size) && desc.CacheOk(size, chain) && chain[0] == desc.item.cluster
    modifies p, p.stream, desc`lastCluster, desc`lastClusterPos, desc`index
    ensures cluster < RESERVED_MIN ==> CacheAt(desc, desc.pos, false, chain, size)
    ensures cluster >= RESERVED_MIN ==>
      desc.CacheOk(size, chain) && desc.index == old(desc.index) && (FatDependable(p, v) ==> desc.pos >= |content|)
    ensures cluster < RESERVED_MIN && FatDependable(p, v) ==>
      p.fatReads - old(p.fatReads) == desc.index - old(WalkStart(desc)) >= 0
  {
    hide View, FatDependable;
    ViewFacts(p, v, chain, content, size);
    var startCluster, startPos := desc.item.cluster, 0;
    ghost var i := 0;
    if desc.pos >= desc.lastClusterPos {
      startCluster, startPos := desc.lastCluster, desc.lastClusterPos;
      i := desc.index;
    }
    assert i == WalkStart(desc);
    assert startPos == Times(i, size) <= desc.pos && i < |chain| && chain[i] == startCluster;
    ghost var q := ClusterIndex(desc.pos, i, |chain|, size);
    cluster := GetClusterForOffset(p, startCluster, desc.pos - startPos, v, chain, content, size, i, q - i);
    if cluster < RESERVED_MIN {
      UpdateCache(desc, cluster, BytesPerCluster(p.bpb), chain, q);
    }
  }

  // ----- Reading -----

  /** The number of bytes asked for, as a 32-bit product. */
  function Asked(size: U32, nmemb: U32): U32
  {
    Wrap32(size * nmemb)
  }

  /** The length `fat16_read` sets out to copy, in its own 32-bit arithmetic. */
  function Clipped(pos: U32, filesize: U32, size: U32, nmemb: U32): U32
  {
    var asked := Asked(size, nmemb);
    if Wrap32(pos + asked) > filesize then Wrap32(filesize - pos) else asked
  }

  /** The clip keeps a read inside the file exactly when position plus length fits 32 bits. */
  lemma ClipExact(pos: U32, filesize: U32, size: U32, nmemb: U32)
    requires pos <= filesize
    ensures Clipped(pos, filesize, size, nmemb) == Min(Asked(size, nmemb), filesize - pos)
       <==> pos + Asked(size, nmemb) < TWO_32
    ensures Clipped(pos, filesize, size, nmemb) <= Asked(size, nmemb)
    ensures filesize == 0 ==> Clipped(pos, filesize, size, nmemb) == 0
  {
    ClipAsked(pos, filesize, Asked(size, nmemb));
  }

  lemma ClipAsked(pos: U32, filesize: U32, asked: U32)
    requires pos <= filesize
    ensures (if Wrap32(pos + asked) > filesize then Wrap32(filesize - pos) else asked) == Min(asked, filesize - pos)
       <==> pos + asked < TWO_32
    ensures pos + asked >= TWO_32 ==> Wrap32(pos + asked) <= filesize
  {
  }

  function ChainOf(v: Volume, item: DirItem): seq<nat>
  {
    if item.cluster in v.chains then v.chains[item.cluster] else []
  }

  /** The flat contents of the clusters of an item, uncut. */
  ghost function Contents(p: FatPrivate, v: Volume, item: DirItem): seq<Byte>
    requires Mounted(p, v)
  {
    if item.cluster in v.chains then
      ChainInside(p.Image(), v, item.cluster);
      ChainBytes(p.Image(), v.bpb, v.chains[item.cluster])
    else []
  }

  /** A file in good order: its chain is recorded and long enough for its size. */
  ghost predicate FileOk(p: FatPrivate, v: Volume, item: DirItem)
  {
    Mounted(p, v) && (item.filesize > 0 ==> item.cluster in v.chains && item.filesize <= |Contents(p, v, item)|)
  }

  ghost predicate DescOk(desc: FatFileDescriptor, p: FatPrivate, v: Volume)
    reads desc
  {
    && FileOk(p, v, desc.item)
    && desc.pos <= desc.item.filesize
    && (desc.item.filesize > 0 ==> desc.CacheOk(ClusterSize(v.bpb), ChainOf(v, desc.item)))
  }

  predicate NoOverflow(pos: U32, size: U32, nmemb: U32)
  {
    pos + Asked(size, nmemb) < TWO_32
  }

  lemma DescView(desc: FatFileDescriptor, p: FatPrivate, v: Volume)
    requires DescOk(desc, p, v) && desc.item.filesize > 0
    ensures View(p, v, ChainOf(v, desc.item), Contents(p, v, desc.item), ClusterSize(v.bpb))
    ensures ChainOf(v, desc.item) != [] && ChainOf(v, desc.item)[0] == desc.item.cluster
    ensures desc.CacheOk(ClusterSize(v.bpb), ChainOf(v, desc.item))
    ensures desc.pos <= desc.item.filesize <= |Contents(p, v, desc.item)|
  {
    ChainInside(p.Image(), v, desc.item.cluster);
  }

  /** The part of `fat16_read` after the clip: locates the cluster, copies, moves the position. */
  method ReadFrom(p: FatPrivate, desc: FatFileDescriptor, total: U32, out: array<Byte>, base: nat, ghost v: Volume,
          ghost chain: seq<nat>, ghost content: seq<Byte>, ghost size: nat)
    returns (totalRead: U32)
    requires View(p, v, chain, content, size) && desc.CacheOk(size, chain) && chain[0] == desc.item.cluster
    requires 0 < total && base + total <= out.Length && desc.pos <= |content|
    modifies p, p.stream, out, desc
    ensures desc.pos == old(desc.pos) + totalRead && totalRead <= total && desc.pos <= |content|
    ensures forall j :: base <= j < base + totalRead ==> out[j] == content[j + (old(desc.pos) - base)]
    ensures forall j :: 0 <= j < out.Length && !(base <= j < base + total) ==> out[j] == old(out[j])
    ensures AllDependable(p) ==> totalRead == Min(total, |content| - old(desc.pos))
    ensures FatDependable(p, v) && old(desc.pos) + total <= |content| ==>
              && desc.CacheOk(size, chain) && desc.lastClusterPos <= desc.pos
                && desc.lastClusterPos < old(desc.pos) + total
              && p.fatReads - old(p.fatReads) == desc.index - old(WalkStart(desc)) >= 0
  {
    hide FatDependable, AllDependable, View;
    ViewFacts(p, v, chain, content, size);
    AllImpliesFat(p, v, chain, content, size);
    var currentCluster := LocateCluster(p, desc, v, chain, content, size);
    if currentCluster >= RESERVED_MIN {
      return 0;
    }
    totalRead := ReadClusters(p, desc, total, out, base, v, chain, content, size, desc.pos - base);
    desc.pos := desc.pos + totalRead;
  }

  lemma ClipFacts(pos: U32, filesize: U32, size: U32, nmemb: U32)
    requires pos <= filesize
    ensures NoOverflow(pos, size, nmemb) ==> pos + Clipped(pos, filesize, size, nmemb) <= filesize
    ensures Clipped(pos, filesize, size, nmemb) > 0 ==> filesize > 0 && size > 0
  {
    ClipExact(pos, filesize, size, nmemb);
  }

  /** How many whole items of `size` bytes were delivered. */
  function WholeItems(delivered: nat, size: nat): nat
  {
    if size == 0 then 0 else delivered / size
  }

  /** A read of `nmemb` items of `size` bytes, of which the product fits 32 bits, delivers all of them or as many
      whole ones as the `left` bytes hold. */
  lemma ItemsDelivered(size: U32, nmemb: U32, left: nat)
    requires size > 0 && nmemb * size < 0x1_0000_0000
    ensures WholeItems(Min(Asked(size, nmemb), left), size) == Min(nmemb, left / size)
  {
    hide Times;
    TimesIsProduct(nmemb, size);
    var all := Times(nmemb, size);
    assert Asked(size, nmemb) == all;
    hide Asked;
    QuotientBelow(left, nmemb, size);
    QuotientOf(nmemb, 0, size);
  }

  /** `fat16_read`: delivers the flat contents from the position of the descriptor on and moves the
      position past what was delivered, keeping the cache in step with the chain. */
  method Read(p: FatPrivate, desc: FatFileDescriptor, size: U32, nmemb: U32, out: array<Byte>, base: nat,
          ghost v: Volume)
    returns (count: nat)
    requires DescOk(desc, p, v)
    requires base + Clipped(desc.pos, desc.item.filesize, size, nmemb) <= out.Length
    modifies p, p.stream, out, desc
    ensures old(desc.pos) <= desc.pos
    ensures var content, clipped := Contents(p, v, desc.item), old(Clipped(desc.pos, desc.item.filesize, size, nmemb));
            && desc.pos <= old(desc.pos) + clipped
            && (desc.pos > old(desc.pos) ==> desc.pos <= |content|)
            && (forall j :: base <= j < base + (desc.pos - old(desc.pos)) ==>
              out[j] == content[j + (old(desc.pos) - base)])
            && (forall j :: 0 <= j < out.Length && !(base <= j < base + clipped) ==> out[j] == old(out[j]))
            && (AllDependable(p) && clipped > 0 ==> desc.pos - old(desc.pos) == Min(clipped, |content| - old(desc.pos)))
    ensures count == WholeItems(desc.pos - old(desc.pos), size)
    ensures FatDependable(p, v) && NoOverflow(old(desc.pos), size, nmemb) ==> DescOk(desc, p, v)
    ensures FatDependable(p, v) && NoOverflow(old(desc.pos), size, nmemb) ==>
              if old(Clipped(desc.pos, desc.item.filesize, size, nmemb)) == 0
              then
                && p.fatReads == old(p.fatReads)
                && desc.index == old(desc.index) && desc.lastClusterPos == old(desc.lastClusterPos)
              else
                && p.fatReads - old(p.fatReads) == desc.index - old(WalkStart(desc)) >= 0
                && desc.lastClusterPos <= desc.pos && desc.lastClusterPos < desc.item.filesize
  {
    hide View, FatDependable, AllDependable, Contents, Clipped, NoOverflow, Asked;
    ClipFacts(desc.pos, desc.item.filesize, size, nmemb);
    var totalToRead := Clipped(desc.pos, desc.item.filesize, size, nmemb);
    if totalToRead == 0 {
      return 0;
    }
    DescView(desc, p, v);
    var totalRead := ReadFrom(p, desc, totalToRead, out, base, v, ChainOf(v, desc.item), Contents(p, v, desc.item),
      ClusterSize(v.bpb));
    return WholeItems(totalRead, size);
  }

  // ----- Seeking -----

  datatype Whence = SeekSet | SeekCur | SeekEnd

  type I32 = x: int | -0x8000_0000 <= x < 0x8000_0000

  /** The position a seek asks for. */
  function SeekTarget(pos: U32, filesize: U32, offset: I32, whence: Whence): int
  {
    match whence
    case SeekSet => offset
    case SeekCur => pos + offset
    case SeekEnd => filesize + offset
  }

  predicate SeekAccepts(pos: U32, filesize: U32, offset: I32, whence: Whence)
  {
    Wrap32(SeekTarget(pos, filesize, offset, whence)) <= filesize
  }

  /** A seek to `pos'` counts the offset from the start, from the old position or back from the end. */
  predicate SeekMoves(pos: U32, filesize: U32, offset: I32, whence: Whence, pos': U32)
  {
    match whence
    case SeekSet => (pos' - offset) % 0x1_0000_0000 == 0
    case SeekCur => (pos' - pos - offset) % 0x1_0000_0000 == 0
    case SeekEnd => (filesize - pos' + offset) % 0x1_0000_0000 == 0
  }

  /** `fat16_seek`, in its wrapping 32-bit arithmetic. */
  method Seek(desc: FatFileDescriptor, offset: I32, whence: Whence) returns (ok: bool)
    modifies desc`pos
    ensures ok <==> SeekAccepts(old(desc.pos), desc.item.filesize, offset, whence)
    ensures desc.pos ==
      if ok then Wrap32(SeekTarget(old(desc.pos), desc.item.filesize, offset, whence)) else old(desc.pos)
    ensures old(desc.pos) <= desc.item.filesize ==> desc.pos <= desc.item.filesize
    ensures ok ==> SeekMoves(old(desc.pos), desc.item.filesize, offset, whence, desc.pos)
  {
    var newPos := desc.pos;
    match whence {
      case SeekSet => newPos := Wrap32(offset);
      case SeekCur => newPos := Wrap32(newPos + offset);
      case SeekEnd => newPos := Wrap32(desc.item.filesize + offset);
    }
    if newPos > desc.item.filesize {
      return false;
    }
    desc.pos := newPos;
    return true;
  }

  predicate SeekFaithful(pos: U32, filesize: U32, offset: I32, whence: Whence)
  {
    SeekAccepts(pos, filesize, offset, whence) <==> 0 <= SeekTarget(pos, filesize, offset, whence) <= filesize
  }

  /** A seek accepts exactly the targets inside the file, for every position, offset and mode, when
      and only when the file is shorter than 2^31 bytes. */
  lemma SeekExact(filesize: U32)
    ensures (forall pos: U32, offset: I32, whence: Whence :: pos <= filesize ==>
      SeekFaithful(pos, filesize, offset, whence))
       <==> filesize < 0x8000_0000
  {
    if filesize >= 0x8000_0000 {
      assert !SeekFaithful(0, filesize, -0x8000_0000, SeekSet);
    } else {
      forall pos: U32, offset: I32, whence: Whence | pos <= filesize
        ensures SeekFaithful(pos, filesize, offset, whence)
      {
      }
    }
  }

  // ----- Lookup -----

  method ItemMatches(item: DirItem, name: seq<Byte>) returns (same: bool)
    requires 0 in name
    ensures same <==> NameMatches(DecodeName(item.raw), CStr(name))
  {
    hide DecodeName, SameIgnoringCase, CStr;
    var outName := new Byte[13];
    GetFullRelativeFilename(item, outName);
    var shown := DecodeName(item.raw);
    CStrOfPadded(shown, 13 - |shown|);
    var r := Strncasecmp(outName[..], name, 13);
    ComparisonIsExact(shown, CStr(name));
    assert UpTo(shown, 13) == shown;
    return r == 0;
  }

  /** Reads the directory item at the stream position. */
  method ReadItem(p: FatPrivate) returns (r: Option<DirItem>)
    requires p.stream.pos + ITEM_SIZE <= |p.Image()| <= TWO_32
    modifies p.stream
    ensures r.Some? ==> r.value == ParseItem(p.Image()[old(p.stream.pos)..old(p.stream.pos) + ITEM_SIZE])
    ensures r.Some? ==> p.stream.pos == Wrap32(old(p.stream.pos) + ITEM_SIZE)
    ensures AllDependable(p) ==> r.Some?
  {
    var buffer := new Byte[ITEM_SIZE];
    var ok := p.stream.Read(buffer, 0, ITEM_SIZE);
    if !ok {
      return None;
    }
    assert buffer[..] == p.Image()[old(p.stream.pos)..old(p.stream.pos) + ITEM_SIZE];
    return Some(ParseItem(buffer[..]));
  }

  datatype Scan = Found(item: DirItem) | Ended | Exhausted | Failed

  /** Reads `n` items from `at` on until one matches or marks the end. */
  method ScanItems(p: FatPrivate, at: U32, n: nat, name: seq<Byte>) returns (r: Scan)
    requires 0 in name && at + ITEM_SIZE * n <= |p.Image()| <= TWO_32
    modifies p.stream
    ensures var items := ItemsAt(p.Image(), at, n);
            match r
            case Found(e) => Find(items, CStr(name)) == Some(e)
            case Ended => Find(items, CStr(name)) == None && HasEnd(items)
            case Exhausted => Find(items, CStr(name)) == None && !HasEnd(items)
            case Failed => !AllDependable(p)
  {
    hide AllDependable;
    p.stream.Seek(at);
    ghost var items := ItemsAt(p.Image(), at, n);
    for i := 0 to n
      invariant i < n ==> p.stream.pos == at + ITEM_SIZE * i
      invariant Find(items, CStr(name)) == Find(items[i..], CStr(name)) && HasEnd(items) == HasEnd(items[i..])
    {
      var item := ReadItem(p);
      if item.None? {
        return Failed;
      }
      assert items[i..][0] == item.value && items[i..][1..] == items[i + 1..];
      if item.value.EndMark() {
        return Ended;
      }
      if !item.value.Deleted() {
        var same := ItemMatches(item.value, name);
        if same {
          return Found(item.value);
        }
      }
    }
    assert items[n..] == [];
    return Exhausted;
  }

  /** `fat16_get_directory_entry`: 0 with the item, or -1 and -2 for a failed read, -3 for an end mark
      in a subdirectory, -4 for nothing found. Cluster 0 is the root directory. */
  method GetDirectoryEntry(p: FatPrivate, cluster: U32, name: seq<Byte>, ghost v: Volume)
    returns (code: int, item: DirItem)
    requires Mounted(p, v) && cluster in v.dirs && 0 in name
    modifies p, p.stream
    ensures code in {0, -1, -2, -3, -4}
    ensures code == 0 ==> Find(ItemsOf(p.Image(), v, cluster), CStr(name)) == Some(item)
    ensures AllDependable(p) && code != 0 ==>
      Find(ItemsOf(p.Image(), v, cluster), CStr(name)) == None && code in {-3, -4}
  {
    item := DirItem(seq(11, i => 0), 0, 0, 0);
    if cluster == 0 {
      var at := RootPosition(p, v);
      var r := ScanItems(p, at, p.bpb.rootDirEntries, name);
      match r {
        case Found(e) => return 0, e;
        case Failed => return -1, item;
        case Ended => return -4, item;
        case Exhausted => return -4, item;
      }
    } else {
      code, item := GetSubdirectoryEntry(p, cluster, name, v);
    }
  }

  /** The byte position of the root directory. */
  method RootPosition(p: FatPrivate, ghost v: Volume) returns (at: U32)
    requires Mounted(p, v)
    ensures at == RootStart(v.bpb)
    ensures at + ITEM_SIZE * v.bpb.rootDirEntries <= |p.Image()| <= TWO_32
  {
    RootPositionExact(v.bpb, v.limit, |p.Image()|);
    hide RootDirectoryPosition;
    return RootDirectoryPosition(p.bpb);
  }

  /** The blocks of items of a subdirectory, and their length. */
  lemma DirectoryBlocks(p: FatPrivate, v: Volume, chain: seq<nat>, j: nat)
    requires Mounted(p, v) && IsChain(Fat(p, v), chain) && ChainFits(|p.Image()|, v.bpb, chain) && j < |chain|
    ensures 2 <= chain[j] < v.limit <= RESERVED_MIN && |Fat(p, v)| == v.limit
    ensures ReaderPosition(p.bpb, chain[j], 0) == ClusterStart(v.bpb, chain[j])
    ensures ClusterStart(v.bpb, chain[j]) + ITEM_SIZE * ItemsPerCluster(v.bpb) <= |p.Image()| <= TWO_32
    ensures BytesPerCluster(p.bpb) / ITEM_SIZE == ItemsPerCluster(v.bpb)
    ensures ClusterItems(p.Image(), v.bpb, chain[j]) ==
      ItemsAt(p.Image(), ClusterStart(v.bpb, chain[j]), ItemsPerCluster(v.bpb))
  {
    ReaderPositionsExact(v.bpb, v.limit, |p.Image()|, chain[j], 0);
  }

  lemma AllMeansFat(p: FatPrivate, v: Volume)
    requires Mounted(p, v)
    ensures AllDependable(p) ==> FatDependable(p, v)
  {
  }

  method GetSubdirectoryEntry(p: FatPrivate, cluster: U32, name: seq<Byte>, ghost v: Volume)
    returns (code: int, item: DirItem)
    requires Mounted(p, v) && cluster in v.dirs && cluster != 0 && 0 in name
    modifies p, p.stream
    ensures code in {0, -2, -3, -4}
    ensures code == 0 ==> Find(ItemsOf(p.Image(), v, cluster), CStr(name)) == Some(item)
    ensures AllDependable(p) && code != 0 ==>
      Find(ItemsOf(p.Image(), v, cluster), CStr(name)) == None && code in {-3, -4}
  {
    hide NameMatches, DecodeName, CStr, ParseItem, ItemsAt, ClusterStart, AllDependable, FatDependable;
    AllMeansFat(p, v);
    item := DirItem(seq(11, i => 0), 0, 0, 0);
    ghost var chain := v.chains[cluster];
    ChainInside(p.Image(), v, cluster);
    ghost var blocks := ChainItems(p.Image(), v.bpb, chain);
    var current := cluster;
    ghost var j := 0;
    while current < RESERVED_MIN
      invariant j <= |chain|
        && (if j == |chain| then current >= LAST_MIN
            else current == chain[j] || (current == LAST && !FatDependable(p, v)))
      invariant Find(Flatten(blocks), CStr(name)) == Find(Flatten(blocks[j..]), CStr(name))
      decreases |chain| - j
    {
      DirectoryBlocks(p, v, chain, j);
      assert blocks[j..][0] == ClusterItems(p.Image(), v.bpb, current) && blocks[j..][1..] == blocks[j + 1..];
      FindConcat(blocks[j], Flatten(blocks[j + 1..]), CStr(name));
      var at := ReaderPosition(p.bpb, current, 0);
      var r := ScanItems(p, at, BytesPerCluster(p.bpb) / ITEM_SIZE, name);
      match r {
        case Found(e) => return 0, e;
        case Failed => return -2, item;
        case Ended => return -3, item;
        case Exhausted =>
      }
      ChainLink(Fat(p, v), chain, j);
      current := GetFatEntry(p, current, v);
      j := j + 1;
    }
    assert j == |chain| ==> blocks[j..] == [];
    return -4, item;
  }
}
