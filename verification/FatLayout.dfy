/** Where a FAT16 volume keeps things: the positions src/fs/fat16.c computes in 32-bit
    arithmetic, the exact positions, allocation chains and the bytes they hold. */
module FatLayout {
  import opened Bytes
  import opened Multiples
  import opened Blocks

  const RESERVED_MIN := 0xFFF0
  const LAST_MIN := 0xFFF8
  const LAST := 0xFFFF

  /** The fields of the boot sector that the reader or the writer uses. */
  datatype Bpb = Bpb(bytesPerSector: U16, sectorsPerCluster: Byte, reservedSectors: U16, fatCopies: Byte,
                     rootDirEntries: U16, fatSectors: U16, signature: Byte, bootSignature: U16)

  function ParseBpb(boot: seq<Byte>): Bpb
    requires |boot| >= 512
  {
    Bpb(Le16At(boot, 11), boot[13], Le16At(boot, 14), boot[16], Le16At(boot, 17), Le16At(boot, 22),
        boot[38], Le16At(boot, 510))
  }

  // ----- The reader's own arithmetic -----

  function RootDirectorySector(b: Bpb): U32
  {
    var copies: int, sectors: int := b.fatCopies, b.fatSectors;
    Wrap32(b.reservedSectors + copies * sectors)
  }

  function ClusterToSector(b: Bpb, cluster: U32): U32
    requires b.bytesPerSector > 0
  {
    var copies: int, sectors: int, entries: int := b.fatCopies, b.fatSectors, b.rootDirEntries;
    var rootDirSectors := (entries * 32 + (b.bytesPerSector - 1)) / b.bytesPerSector;
    var firstDataSector := b.reservedSectors + copies * sectors + rootDirSectors;
    var perCluster: int := b.sectorsPerCluster;
    Wrap32(firstDataSector + (cluster - 2) * perCluster)
  }

  /** The byte position at which `fat16_read` and the directory loops seek for a cluster. */
  function ReaderPosition(b: Bpb, cluster: U32, offset: U32): U32
    requires b.bytesPerSector > 0
  {
    var sector: int := ClusterToSector(b, cluster);
    Wrap32(sector * b.bytesPerSector + offset)
  }

  /** The byte position at which the root directory loops seek. */
  function RootDirectoryPosition(b: Bpb): U32
  {
    var sector: int := RootDirectorySector(b);
    Wrap32(sector * b.bytesPerSector)
  }

  function FatEntryPosition(b: Bpb, cluster: U32): U32
  {
    var reserved: int, entry: int := b.reservedSectors, cluster;
    Wrap32(reserved * b.bytesPerSector + entry * 2)
  }

  // ----- Exact positions on a volume with 512-byte sectors -----

  function FatStart(b: Bpb): nat { 512 * (b.reservedSectors as int) }

  function FatBytes(b: Bpb): nat { 512 * (b.fatSectors as int) }

  /** Where copy `k` of the table starts. */
  function FatCopyStart(b: Bpb, k: nat): nat { FatStart(b) + Times(k, FatBytes(b)) }

  function RootStart(b: Bpb): nat { FatCopyStart(b, b.fatCopies) }

  function DataStart(b: Bpb): nat { RootStart(b) + 32 * (b.rootDirEntries as int) }

  function ClusterSize(b: Bpb): nat { 512 * (b.sectorsPerCluster as int) }

  function ClusterStart(b: Bpb, cluster: nat): nat
    requires 2 <= cluster
  {
    DataStart(b) + Times(cluster - 2, ClusterSize(b))
  }

  lemma ClusterOrder(b: Bpb, c: nat, d: nat)
    requires 2 <= c < d
    ensures ClusterStart(b, c) + ClusterSize(b) == ClusterStart(b, c + 1) <= ClusterStart(b, d)
  {
    TimesOrder(c - 2, d - 2, ClusterSize(b));
  }

  // ----- Volumes -----

  /** A description of an image: its geometry, the first cluster number past the usable ones, the
      allocation chain that starts at each allocated head, and the directories by first cluster,
      with 0 for the root directory. */
  datatype Volume = Volume(bpb: Bpb, limit: nat, chains: map<nat, seq<nat>>, dirs: set<nat>)

  predicate BootOk(b: Bpb)
  {
    b.bootSignature == 0xAA55 && b.signature in {0x28, 0x29} && b.bytesPerSector == 512 && b.sectorsPerCluster != 0
  }

  predicate GeometryOk(b: Bpb, limit: nat, length: nat)
  {
    && b.bytesPerSector == 512
    && 1 <= b.sectorsPerCluster <= 128
    && b.reservedSectors >= 1
    && b.fatCopies >= 1
    && b.rootDirEntries > 0 && b.rootDirEntries % 16 == 0
    && 2 <= limit <= 0xFFF0
    && 2 * limit <= FatBytes(b)
    && ClusterStart(b, limit) <= length
    && length % 512 == 0
    && length <= TWO_32
  }

  predicate LayoutOk(img: seq<Byte>, v: Volume)
  {
    && |img| >= 512
    && ParseBpb(img[..512]) == v.bpb
    && BootOk(v.bpb)
    && GeometryOk(v.bpb, v.limit, |img|)
  }

  /** The landmarks of a volume come in order and inside the image. */
  lemma Landmarks(b: Bpb, limit: nat, length: nat)
    requires GeometryOk(b, limit, length)
    ensures 512 <= FatStart(b)
    ensures FatStart(b) + FatBytes(b) <= RootStart(b) <= DataStart(b) <= length
    ensures DataStart(b) == ClusterStart(b, 2)
    ensures forall c: nat :: 2 <= c < limit ==>
      DataStart(b) <= ClusterStart(b, c) && ClusterStart(b, c) + ClusterSize(b) <= length
  {
    TimesOrder(0, b.fatCopies, FatBytes(b));
    forall c: nat | 2 <= c < limit
      ensures DataStart(b) <= ClusterStart(b, c) && ClusterStart(b, c) + ClusterSize(b) <= length
    {
      ClusterOrder(b, c, limit);
      if c > 2 { ClusterOrder(b, 2, c); }
    }
  }

  /** No chain of usable clusters holds 4 GiB. */
  lemma ClustersBelow4G(b: Bpb, limit: nat, length: nat, n: nat)
    requires GeometryOk(b, limit, length) && n <= limit - 2
    ensures Times(n, ClusterSize(b)) < TWO_32
  {
    if n < limit - 2 {
      TimesOrder(n, limit - 2, ClusterSize(b));
    }
  }

  /** The exact sector number of a cluster, which the reader computes reduced to 32 bits. */
  lemma ExactSector(b: Bpb, c: U32) returns (s: int)
    requires b.bytesPerSector == 512 && b.rootDirEntries % 16 == 0 && 2 <= c
    ensures ClusterStart(b, c) == 512 * s && ClusterToSector(b, c) == Wrap32(s)
  {
    var copies: int, sectors: int, entries: int, per: int :=
      b.fatCopies, b.fatSectors, b.rootDirEntries, b.sectorsPerCluster;
    s := b.reservedSectors + copies * sectors + entries / 16 + (c - 2) * per;
    TimesScale(copies, 512, sectors);
    TimesIsProduct(copies, sectors);
    TimesScale(c - 2, 512, per);
    TimesIsProduct(c - 2, per);
    assert (entries * 32 + 511) / 512 == entries / 16;
  }

  lemma ExactRootSector(b: Bpb) returns (s: int)
    ensures RootStart(b) == 512 * s && RootDirectorySector(b) == Wrap32(s)
  {
    var copies: int, sectors: int := b.fatCopies, b.fatSectors;
    s := b.reservedSectors + copies * sectors;
    TimesScale(copies, 512, sectors);
    TimesIsProduct(copies, sectors);
  }

  /** What the reader computes is the exact position, reduced to 32 bits. */
  lemma ReaderPositionWraps(b: Bpb, c: U32, offset: U32)
    requires b.bytesPerSector == 512 && b.rootDirEntries % 16 == 0 && 2 <= c
    ensures ReaderPosition(b, c, offset) == Wrap32(ClusterStart(b, c) + offset)
  {
    var s := ExactSector(b, c);
    WrapScaled(s, offset);
  }

  lemma RootPositionWraps(b: Bpb)
    requires b.bytesPerSector == 512
    ensures RootDirectoryPosition(b) == Wrap32(RootStart(b))
  {
    var s := ExactRootSector(b);
    WrapScaled(s, 0);
  }

  /** On a well-formed volume none of the reader's 32-bit computations wraps. */
  lemma ReaderPositionsExact(b: Bpb, limit: nat, length: nat, c: nat, offset: nat)
    requires GeometryOk(b, limit, length)
    requires 2 <= c < limit && offset < ClusterSize(b)
    ensures ReaderPosition(b, c, offset) == ClusterStart(b, c) + offset < length
    ensures FatEntryPosition(b, c) == FatStart(b) + 2 * c
  {
    Landmarks(b, limit, length);
    ReaderPositionWraps(b, c, offset);
  }

  /** The reader computes the position of every byte of every possible data cluster exactly when the
      end of the last possible cluster is within 32 bits. */
  lemma GeometryExact(b: Bpb)
    requires b.bytesPerSector == 512 && b.rootDirEntries % 16 == 0 && b.sectorsPerCluster >= 1
    ensures (forall c: nat, offset: nat :: 2 <= c < RESERVED_MIN && offset < ClusterSize(b) ==>
               ReaderPosition(b, c, offset) == ClusterStart(b, c) + offset)
       <==> ClusterStart(b, RESERVED_MIN) <= TWO_32
  {
    var last := RESERVED_MIN - 1;
    ClusterOrder(b, last, RESERVED_MIN);
    if ClusterStart(b, RESERVED_MIN) <= TWO_32 {
      forall c: nat, offset: nat | 2 <= c < RESERVED_MIN && offset < ClusterSize(b)
        ensures ReaderPosition(b, c, offset) == ClusterStart(b, c) + offset
      {
        ClusterOrder(b, c, RESERVED_MIN);
        ReaderPositionWraps(b, c, offset);
      }
    } else {
      var offset: nat := ClusterSize(b) - 1;
      assert ReaderPosition(b, last, offset) < TWO_32 <= ClusterStart(b, last) + offset;
    }
  }

  /** That holds of every volume whose data area starts in the first 2304 sectors. */
  lemma GeometrySufficient(b: Bpb)
    requires b.bytesPerSector == 512 && b.rootDirEntries % 16 == 0 && b.sectorsPerCluster <= 128
    requires DataStart(b) <= 2304 * 512
    ensures ClusterStart(b, RESERVED_MIN) <= TWO_32
  {
    var n, per: int := RESERVED_MIN - 2, b.sectorsPerCluster;
    TimesIsProduct(n, ClusterSize(b));
    assert n * ClusterSize(b) == 65518 * (512 * per);
  }

  /** `inject_file.py` and the reader agree on where the data area starts exactly when the root
      directory fills whole sectors. */
  lemma DataStartsAgree(b: Bpb)
    requires b.bytesPerSector == 512
    ensures var entries: int := b.rootDirEntries;
            RootStart(b) + (entries * 32 + 511) / 512 * 512 == DataStart(b) <==> b.rootDirEntries % 16 == 0
  {
  }

  // ----- Allocation chains -----

  /** The first copy of the table, entries 0 to limit - 1. */
  function FatTable(img: seq<Byte>, b: Bpb, limit: nat): (t: seq<U16>)
    requires FatStart(b) + 2 * limit <= |img|
    ensures |t| == limit
    ensures forall c :: 0 <= c < limit ==> t[c] == Le16At(img, FatStart(b) + 2 * c)
  {
    seq(limit, c requires 0 <= c < limit => Le16At(img, FatStart(b) + 2 * c))
  }

  /** `chain` starts somewhere in the table, follows its links and ends at an end mark. */
  predicate IsChain(fat: seq<U16>, chain: seq<nat>)
  {
    && |chain| > 0
    && (forall i :: 0 <= i < |chain| ==> 2 <= chain[i] < |fat|)
    && (forall i :: 0 <= i < |chain| - 1 ==> fat[chain[i]] == chain[i + 1])
    && fat[chain[|chain| - 1]] >= 0xFFF8
  }

  /** The table entry of a cluster of a chain is an end mark exactly at the end of the chain. */
  lemma ChainLink(fat: seq<U16>, chain: seq<nat>, k: nat)
    requires IsChain(fat, chain) && |fat| <= RESERVED_MIN && k < |chain|
    ensures 2 <= chain[k] < |fat|
    ensures if k + 1 < |chain| then fat[chain[k]] == chain[k + 1] && fat[chain[k]] < RESERVED_MIN
      else fat[chain[k]] >= LAST_MIN
  {
  }

  /** A finite chain visits no cluster twice. */
  lemma {:induction false} ChainAcyclic(fat: seq<U16>, chain: seq<nat>, i: nat, j: nat)
    requires IsChain(fat, chain) && |fat| <= RESERVED_MIN
    requires i < j < |chain|
    ensures chain[i] != chain[j]
    decreases |chain| - j
  {
    assert fat[chain[i]] == chain[i + 1];
    if chain[i] == chain[j] && j + 1 < |chain| {
      ChainAcyclic(fat, chain, i + 1, j + 1);
    }
  }

  lemma {:induction false} Pigeonhole(s: seq<nat>, lo: nat, hi: nat)
    requires lo <= hi
    requires forall i :: 0 <= i < |s| ==> lo <= s[i] < hi
    requires forall i, j :: 0 <= i < j < |s| ==> s[i] != s[j]
    ensures |s| <= hi - lo
    decreases hi
  {
    assert |s| > 0 ==> lo <= s[0] < hi;
    if i :| 0 <= i < |s| && s[i] == hi - 1 {
      Pigeonhole(s[..i] + s[i + 1..], lo, hi - 1);
    } else if lo < hi {
      Pigeonhole(s, lo, hi - 1);
    }
  }

  /** So a chain is no longer than the table, and walking it ends. */
  lemma ChainBounded(fat: seq<U16>, chain: seq<nat>)
    requires IsChain(fat, chain) && |fat| <= RESERVED_MIN
    ensures |chain| <= |fat| - 2
  {
    forall i, j | 0 <= i < j < |chain|
      ensures chain[i] != chain[j]
    {
      ChainAcyclic(fat, chain, i, j);
    }
    Pigeonhole(chain, 2, |fat|);
  }

  /** Two chains that share a cluster share everything after it: chains merge or are disjoint. */
  lemma {:induction false} ChainsMerge(fat: seq<U16>, c1: seq<nat>, c2: seq<nat>, i: nat, j: nat)
    requires IsChain(fat, c1) && IsChain(fat, c2) && |fat| <= RESERVED_MIN
    requires i < |c1| && j < |c2| && c1[i] == c2[j]
    ensures c1[i..] == c2[j..]
    decreases |c1| - i
  {
    assert i + 1 < |c1| ==> fat[c1[i]] == c1[i + 1];
    assert j + 1 < |c2| ==> fat[c2[j]] == c2[j + 1];
    if i + 1 < |c1| && j + 1 < |c2| {
      ChainsMerge(fat, c1, c2, i + 1, j + 1);
      assert c1[i..] == [c1[i]] + c1[i + 1..];
      assert c2[j..] == [c2[j]] + c2[j + 1..];
    }
  }

  lemma RootPositionExact(b: Bpb, limit: nat, length: nat)
    requires GeometryOk(b, limit, length)
    ensures RootDirectoryPosition(b) == RootStart(b)
    ensures RootStart(b) + 32 * b.rootDirEntries <= length <= TWO_32
  {
    Landmarks(b, limit, length);
    RootPositionWraps(b);
  }

  // ----- Contents -----

  predicate ChainFits(length: nat, b: Bpb, chain: seq<nat>)
  {
    forall i :: 0 <= i < |chain| ==> 2 <= chain[i] && ClusterStart(b, chain[i]) + ClusterSize(b) <= length
  }

  function ClusterBytes(img: seq<Byte>, b: Bpb, cluster: nat): (r: seq<Byte>)
    requires 2 <= cluster && ClusterStart(b, cluster) + ClusterSize(b) <= |img|
  {
    img[ClusterStart(b, cluster)..ClusterStart(b, cluster) + ClusterSize(b)]
  }

  function ClustersOf(img: seq<Byte>, b: Bpb, chain: seq<nat>): (r: seq<seq<Byte>>)
    requires ChainFits(|img|, b, chain)
    ensures Uniform(r, ClusterSize(b))
    ensures |r| == |chain| && forall i :: 0 <= i < |chain| ==> r[i] == ClusterBytes(img, b, chain[i])
  {
    seq(|chain|, i requires 0 <= i < |chain| => ClusterBytes(img, b, chain[i]))
  }

  /** The clusters of a chain, laid end to end. */
  ghost function ChainBytes(img: seq<Byte>, b: Bpb, chain: seq<nat>): (r: seq<Byte>)
    requires ChainFits(|img|, b, chain)
    ensures |r| == Times(|chain|, ClusterSize(b))
  {
    FlattenLength(ClustersOf(img, b, chain), ClusterSize(b));
    Flatten(ClustersOf(img, b, chain))
  }

  /** Within one cluster of the chain, the flat contents are the image bytes of that cluster:
      `lo` is a flat position in the `i`-th cluster and `at` the image position it stands for. */
  lemma ChainBytesSlice(img: seq<Byte>, b: Bpb, chain: seq<nat>, i: nat, from: nat, lo: nat, at: nat, n: nat)
    requires ChainFits(|img|, b, chain) && i < |chain| && from + n <= ClusterSize(b)
    requires lo == Times(i, ClusterSize(b)) + from
    requires at == ClusterStart(b, chain[i]) + from
    ensures lo + n <= |ChainBytes(img, b, chain)| && at + n <= |img|
    ensures ChainBytes(img, b, chain)[lo..lo + n] == img[at..at + n]
  {
    var size, start := ClusterSize(b), ClusterStart(b, chain[i]);
    var blocks := ClustersOf(img, b, chain);
    FlattenSlice(blocks, size, i, from, lo, n);
    SliceOfSlice(img, start, size, from, at, n);
  }
}
