/** The smallest blank volume: well formed, and with room for a file of one cluster under any 8.3
    name. It shows that the hypotheses of the storage theorems can be met. */
module BlankVolumes {
  import opened Bytes
  import opened Multiples
  import opened CStrings
  import opened FatLayout
  import opened FatNames
  import opened FatDirectory
  import opened ImageWriter
  import opened InjectFacts
  import opened InjectTheorems
  import opened RoundTrips

  const LENGTH := 2048

  /** One sector each of boot sector, table, root directory and data. */
  function BlankByte(i: nat): Byte
  {
    if i == 12 then 2
    else if i in {13, 14, 16, 22} then 1
    else if i == 17 then 16
    else if i == 38 then 0x29
    else if i == 510 then 0x55
    else if i == 511 then 0xAA
    else 0
  }

  function BlankImage(): (r: seq<Byte>)
    ensures |r| == LENGTH && forall i :: 0 <= i < LENGTH ==> r[i] == BlankByte(i)
  {
    seq(LENGTH, i requires 0 <= i => BlankByte(i))
  }

  const BLANK_BPB := Bpb(512, 1, 1, 1, 16, 1, 0x29, 0xAA55)

  function BlankVolume(): Volume
  {
    Volume(BLANK_BPB, 3, map[], {0})
  }

  lemma BlankBoot()
    ensures ParseBpb(BlankImage()[..512]) == BLANK_BPB
  {
    var boot := BlankImage()[..512];
    assert forall i :: 0 <= i < 512 ==> boot[i] == BlankByte(i);
  }

  lemma BlankPlaces()
    ensures FatStart(BLANK_BPB) == 512 && FatBytes(BLANK_BPB) == 512 && RootStart(BLANK_BPB) == 1024
    ensures DataStart(BLANK_BPB) == 1536 && ClusterSize(BLANK_BPB) == 512 && ClusterStart(BLANK_BPB, 3) == LENGTH
    ensures GeometryOk(BLANK_BPB, 3, LENGTH)
  {
  }

  lemma BlankTable()
    ensures FatStart(BLANK_BPB) + 6 <= LENGTH && FatTable(BlankImage(), BLANK_BPB, 3) == [0, 0, 0]
    ensures FreeUpTo([0, 0, 0], 3) == [2]
  {
    BlankPlaces();
    var fat := FatTable(BlankImage(), BLANK_BPB, 3);
    assert forall c :: 0 <= c < 3 ==> fat[c] == 0;
  }

  lemma BlankRoot(i: nat)
    requires i < 16
    ensures DataStart(BLANK_BPB) <= LENGTH && |RootItems(BlankImage(), BLANK_BPB)| == 16
    ensures RootItems(BlankImage(), BLANK_BPB)[i].EndMark()
  {
    BlankPlaces();
  }

  lemma AllMarksOk(v: Volume, items: seq<DirItem>)
    requires forall i :: 0 <= i < |items| ==> items[i].EndMark()
    ensures DirectoryOk(v, items) && NoCrossLinks(map[0 := items])
  {
  }

  lemma BlankCharted()
    ensures Charted(BlankImage(), BlankVolume())
    ensures TreeOf(BlankImage(), BlankVolume()) == map[0 := RootItems(BlankImage(), BLANK_BPB)]
  {
    hide GeometryOk, BlankImage, ParseBpb, ItemsAt;
    BlankBoot();
    BlankPlaces();
  }

  /** The blank volume is well formed. */
  lemma BlankWellFormed()
    ensures WellFormed(BlankImage(), BlankVolume())
  {
    BlankCharted();
    BlankPlaces();
    hide GeometryOk, BlankImage, ParseBpb, Charted, TreeOf, RootItems, DirectoryOk, NoCrossLinks;
    BlankRoot(0);
    forall i | 0 <= i < 16
      ensures RootItems(BlankImage(), BLANK_BPB)[i].EndMark()
    {
      BlankRoot(i);
    }
    AllMarksOk(BlankVolume(), RootItems(BlankImage(), BLANK_BPB));
    OneCopy();
  }

  lemma OneCopy()
    ensures FatStart(BLANK_BPB) + FatBytes(BLANK_BPB) <= |BlankImage()| && CopiesIdentical(BlankImage(), BLANK_BPB)
  {
    BlankPlaces();
  }

  lemma OneNeeded(length: nat)
    requires 0 < length <= 512
    ensures Needed(length, 512) == 1
  {
  }

  /** Any file of one cluster can be injected into it under any ASCII 8.3 name. */
  lemma BlankInjectable(data: seq<Byte>, name: seq<Byte>)
    requires 0 < |data| <= 512 && Ascii(name) && Fits83(name)
    ensures Injectable(BlankImage(), BlankVolume(), data, name)
  {
    BlankWellFormed();
    BlankCharted();
    BlankPlaces();
    BlankTable();
    BlankRoot(0);
    OneNeeded(|data|);
    hide WellFormed, Charted, BlankImage, TreeOf, RootItems, FatTable, FreeUpTo, Needed, GeometryOk;
  }
}
