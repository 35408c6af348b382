/** A FAT16 image read in plain numbers: where its boot sector, its table and its clusters keep what, and which
    bytes make a chain. The positions and chains of the model are these. */
module VolumeFormats {
  import opened Bytes
  import opened Multiples
  import opened FatLayout

  // ----- The boot sector -----

  /** An image of 512-byte sectors whose boot sector the reader accepts (src/fs/fat16.c:338-357). */
  predicate Accepted(img: seq<Byte>)
  {
    && |img| >= 512 && img[510] == 0x55 && img[511] == 0xAA
    && (img[38] == 0x28 || img[38] == 0x29)
    && NumberAt(img, 11, 2) == 512 && img[13] != 0
  }

  /** The boot sector keeps its fields where the reader looks, and is checked for just that. */
  lemma BootFields(img: seq<Byte>)
    requires |img| >= 512
    ensures var b := ParseBpb(img[..512]);
            && b.bytesPerSector == NumberAt(img, 11, 2) && b.sectorsPerCluster == img[13]
            && b.reservedSectors == NumberAt(img, 14, 2) && b.fatCopies == img[16]
            && b.rootDirEntries == NumberAt(img, 17, 2) && b.fatSectors == NumberAt(img, 22, 2)
            && (BootOk(b) <==> Accepted(img))
  {
    var boot := img[..512];
    forall at | at in {11, 14, 17, 22, 510}
      ensures Le16At(boot, at) == NumberAt(img, at, 2)
    {
      WordIs(img, at);
    }
    SignatureIs(img[510], img[511]);
    assert NumberAt(img, 510, 2) == Le16At(img, 510);
  }

  lemma SignatureIs(a: Byte, b: Byte)
    ensures Le16At([a, b], 0) == 0xAA55 <==> a == 0x55 && b == 0xAA
  {
  }

  // ----- Positions -----

  /** Where the table starts: behind the reserved sectors. */
  function TableAt(img: seq<Byte>): nat
  {
    NumberAt(img, 14, 2) * NumberAt(img, 11, 2)
  }

  /** Where the root directory starts: behind all copies of the table. */
  function RootAt(img: seq<Byte>): nat
  {
    TableAt(img) + NumberAt(img, 16, 1) * (NumberAt(img, 22, 2) * NumberAt(img, 11, 2))
  }

  /** Where cluster `c` starts: clusters are counted from 2, behind the root directory. */
  function ClusterAt(img: seq<Byte>, c: nat): int
  {
    RootAt(img) + 32 * NumberAt(img, 17, 2) + (c - 2) * (NumberAt(img, 13, 1) * NumberAt(img, 11, 2))
  }

  /** The positions that the reader's specification goes by. */
  lemma Positions(img: seq<Byte>, b: Bpb, c: nat)
    requires |img| >= 512 && b == ParseBpb(img[..512]) && b.bytesPerSector == 512 && 2 <= c
    ensures FatStart(b) == TableAt(img) && RootStart(b) == RootAt(img) && ClusterStart(b, c) == ClusterAt(img, c)
    ensures ClusterSize(b) == NumberAt(img, 13, 1) * NumberAt(img, 11, 2)
  {
    BootFields(img);
    ByteIs(img, 13);
    ByteIs(img, 16);
    hide NumberAt, ParseBpb, Times;
    TimesIsProduct(b.fatCopies, FatBytes(b));
    TimesIsProduct(c - 2, ClusterSize(b));
  }

  // ----- Chains -----

  /** The table entry of cluster `c`. */
  function EntryOf(img: seq<Byte>, c: nat): nat
  {
    NumberAt(img, TableAt(img) + 2 * c, 2)
  }

  /** Every cluster of `chain` is one of 2 to `limit` - 1, its entry is the next cluster, and the last one's
      entry is one of 0xFFF8 to 0xFFFF. */
  predicate Chained(img: seq<Byte>, limit: nat, chain: seq<nat>)
  {
    && chain != []
    && (forall i :: 0 <= i < |chain| ==> 2 <= chain[i] < limit)
    && (forall i :: 0 <= i < |chain| - 1 ==> EntryOf(img, chain[i]) == chain[i + 1])
    && EntryOf(img, chain[|chain| - 1]) >= 0xFFF8
  }

  lemma TableEntry(img: seq<Byte>, b: Bpb, limit: nat, c: nat)
    requires |img| >= 512 && b == ParseBpb(img[..512]) && b.bytesPerSector == 512
    requires FatStart(b) + 2 * limit <= |img| && c < limit
    ensures FatTable(img, b, limit)[c] == EntryOf(img, c)
  {
    Positions(img, b, 2);
    hide ParseBpb, TableAt, FatStart, RootAt, ClusterAt, ClusterStart, RootStart;
    WordIs(img, FatStart(b) + 2 * c);
  }

  /** The chains of the model are the chains of the image. */
  lemma ChainIs(img: seq<Byte>, b: Bpb, limit: nat, chain: seq<nat>)
    requires |img| >= 512 && b == ParseBpb(img[..512]) && b.bytesPerSector == 512 && FatStart(b) + 2 * limit <= |img|
    ensures IsChain(FatTable(img, b, limit), chain) <==> Chained(img, limit, chain)
  {
    hide ParseBpb, FatStart, EntryOf;
    forall c: nat | c < limit
      ensures FatTable(img, b, limit)[c] == EntryOf(img, c)
    {
      TableEntry(img, b, limit, c);
    }
  }
}
