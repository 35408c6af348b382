/** Directories as bytes, and what a listing of one prints (src/fs/fat16.c:152-205): the 32-byte records of the
    image, the name each shows and the lines of the text, all in plain numbers. */
module Listings {
  import opened Bytes
  import opened Blocks
  import opened FatLayout
  import opened FatNames
  import opened FatDirectory
  import opened VolumeFormats

  // ----- Records -----

  type Record = r: seq<Byte> | |r| == 32 witness seq(32, i => 0)

  /** The first index from `at` on that holds a NUL or a space, or `end` if there is none before. */
  function Stop(s: seq<Byte>, at: nat, end: nat): (n: nat)
    requires at <= end <= |s|
    ensures at <= n <= end && (n < end ==> s[n] in {0x00, 0x20})
    ensures forall k :: at <= k < n ==> s[k] !in {0x00, 0x20}
    decreases end - at
  {
    if at == end || s[at] == 0x00 || s[at] == 0x20 then at else Stop(s, at + 1, end)
  }

  /** The name a record shows: its base and, if there is one, a dot and its extension. */
  function ShownName(r: Record): seq<Byte>
  {
    r[..Stop(r, 0, 8)] + if r[8] == 0x00 || r[8] == 0x20 then [] else ['.' as int] + r[8..Stop(r, 8, 11)]
  }

  /** Bit 4 of the attribute byte marks a directory. */
  predicate MarksDirectory(r: Record)
  {
    r[11] / 16 % 2 == 1
  }

  /** The line for a record: the shown name, with a slash behind that of a directory. */
  function ShownLine(r: Record): seq<Byte>
  {
    ShownName(r) + if MarksDirectory(r) then ['/' as int] else []
  }

  lemma FieldIs(s: seq<Byte>, at: nat, end: nat)
    requires at <= end <= |s|
    ensures Field(s[at..end]) == s[at..Stop(s, at, end)]
  {
    var n := Stop(s, at, end);
    hide Stop;
    FieldEndsAt(s[at..end], n - at);
    assert s[at..end][..n - at] == s[at..n];
  }

  /** What the model takes from a record is what the record's bytes say. */
  lemma RecordMeans(r: Record)
    ensures var item := ParseItem(r);
            && DecodeName(item.raw) == ShownName(r) && (item.IsDirectory() <==> MarksDirectory(r))
            && (item.EndMark() <==> r[0] == 0x00) && (item.Deleted() <==> r[0] == 0xE5)
            && item.cluster == NumberAt(r, 26, 2) && item.filesize == NumberAt(r, 28, 4)
  {
    hide Field, Stop;
    var raw := ParseItem(r).raw;
    FieldIs(r, 0, 8);
    FieldIs(r, 8, 11);
    assert raw[..8] == r[0..8] && raw[8..] == r[8..11] && raw[8] == r[8];
    WordIs(r, 26);
    FourBytes(r[28..32]);
  }

  // ----- The live records of a directory -----

  /** The records of a directory up to the first that starts with 0x00, without those that start with 0xE5. */
  function LiveRecords(bytes: seq<Byte>): seq<Record>
  {
    if |bytes| < 32 || bytes[0] == 0x00 then []
    else (if bytes[0] == 0xE5 then [] else [bytes[..32]]) + LiveRecords(bytes[32..])
  }

  /** `items` are the records of `bytes`, one after the other. */
  ghost predicate Parses(items: seq<DirItem>, bytes: seq<Byte>)
  {
    && |bytes| == ITEM_SIZE * |items|
    && forall i :: 0 <= i < |items| ==> items[i] == ParseItem(bytes[ITEM_SIZE * i..ITEM_SIZE * i + ITEM_SIZE])
  }

  ghost predicate SameItems(items: seq<DirItem>, records: seq<Record>)
  {
    |items| == |records| && forall i :: 0 <= i < |items| ==> items[i] == ParseItem(records[i])
  }

  lemma ParsesRest(items: seq<DirItem>, bytes: seq<Byte>)
    requires Parses(items, bytes) && items != []
    ensures Parses(items[1..], bytes[32..]) && items[0] == ParseItem(bytes[..32])
  {
    hide ParseItem;
    forall i | 0 <= i < |items| - 1
      ensures items[1..][i] == ParseItem(bytes[32..][ITEM_SIZE * i..ITEM_SIZE * i + ITEM_SIZE])
    {
      assert items[i + 1] == ParseItem(bytes[ITEM_SIZE * (i + 1)..ITEM_SIZE * (i + 1) + ITEM_SIZE]);
      assert bytes[32..][ITEM_SIZE * i..ITEM_SIZE * i + ITEM_SIZE]
        == bytes[ITEM_SIZE * (i + 1)..ITEM_SIZE * (i + 1) + ITEM_SIZE];
    }
  }

  /** The live items of the model are the live records, in the same order. */
  lemma {:induction false} LiveMeans(items: seq<DirItem>, bytes: seq<Byte>)
    requires Parses(items, bytes)
    ensures SameItems(LiveItems(items), LiveRecords(bytes))
  {
    if items != [] {
      ParsesRest(items, bytes);
      RecordMeans(bytes[..32]);
      hide ParseItem, DecodeName, ShownName, Parses;
      LiveMeans(items[1..], bytes[32..]);
    }
  }

  // ----- The bytes of a directory -----

  function SliceAt(img: seq<Byte>, at: int, n: nat): seq<Byte>
  {
    if 0 <= at && at + n <= |img| then img[at..at + n] else []
  }

  /** The bytes of the clusters of a chain, one cluster behind the other. */
  function Gathered(img: seq<Byte>, chain: seq<nat>): seq<Byte>
  {
    if chain == [] then []
    else SliceAt(img, ClusterAt(img, chain[0]), NumberAt(img, 13, 1) * NumberAt(img, 11, 2)) + Gathered(img, chain[1..])
  }

  /** The bytes of directory `d`: the root directory's area, or the clusters of its chain. */
  function DirectoryBytes(img: seq<Byte>, v: Volume, d: nat): seq<Byte>
  {
    if d == 0 then SliceAt(img, RootAt(img), 32 * NumberAt(img, 17, 2))
    else if d in v.chains then Gathered(img, v.chains[d])
    else []
  }

  lemma OneCluster(img: seq<Byte>, b: Bpb, c: nat)
    requires |img| >= 512 && b == ParseBpb(img[..512]) && b.bytesPerSector == 512
    requires 2 <= c && ClusterStart(b, c) + ClusterSize(b) <= |img|
    ensures SliceAt(img, ClusterAt(img, c), NumberAt(img, 13, 1) * NumberAt(img, 11, 2)) == ClusterBytes(img, b, c)
  {
    Positions(img, b, c);
  }

  /** The contents of a chain are its clusters as the image has them. */
  lemma {:induction false} GatheredIs(img: seq<Byte>, b: Bpb, chain: seq<nat>)
    requires |img| >= 512 && b == ParseBpb(img[..512]) && b.bytesPerSector == 512 && ChainFits(|img|, b, chain)
    ensures ChainBytes(img, b, chain) == Gathered(img, chain)
  {
    hide ParseBpb, ClusterStart, ClusterSize, ClusterAt, SliceAt, ClusterBytes;
    if chain != [] {
      OneCluster(img, b, chain[0]);
      GatheredIs(img, b, chain[1..]);
      assert ClustersOf(img, b, chain)[1..] == ClustersOf(img, b, chain[1..]);
    }
  }

  lemma ParsesAt(img: seq<Byte>, at: nat, n: nat)
    requires at + ITEM_SIZE * n <= |img|
    ensures Parses(ItemsAt(img, at, n), img[at..at + ITEM_SIZE * n])
  {
    var items, bytes := ItemsAt(img, at, n), img[at..at + ITEM_SIZE * n];
    hide ParseItem, ItemsAt;
    forall i | 0 <= i < n
      ensures items[i] == ParseItem(bytes[ITEM_SIZE * i..ITEM_SIZE * i + ITEM_SIZE])
    {
      SliceOfSlice(img, at, ITEM_SIZE * n, ITEM_SIZE * i, at + ITEM_SIZE * i, ITEM_SIZE);
    }
  }

  lemma ParsesBoth(a: seq<DirItem>, x: seq<Byte>, b: seq<DirItem>, y: seq<Byte>)
    requires Parses(a, x) && Parses(b, y)
    ensures Parses(a + b, x + y)
  {
    hide ParseItem;
    var m := |a|;
    forall i | 0 <= i < |a + b|
      ensures (a + b)[i] == ParseItem((x + y)[ITEM_SIZE * i..ITEM_SIZE * i + ITEM_SIZE])
    {
      if i < m {
        assert (x + y)[ITEM_SIZE * i..ITEM_SIZE * i + ITEM_SIZE] == x[ITEM_SIZE * i..ITEM_SIZE * i + ITEM_SIZE];
      } else {
        var k := i - m;
        assert (x + y)[ITEM_SIZE * i..ITEM_SIZE * i + ITEM_SIZE] == y[ITEM_SIZE * k..ITEM_SIZE * k + ITEM_SIZE];
      }
    }
  }

  lemma {:induction false} ParsesClusters(img: seq<Byte>, b: Bpb, chain: seq<nat>)
    requires ChainFits(|img|, b, chain)
    ensures Parses(Flatten(ChainItems(img, b, chain)), ChainBytes(img, b, chain))
  {
    hide ClusterStart, ItemsAt, ParseItem, Parses;
    if chain == [] {
      assert Parses([], []) by { NothingParses(); }
    } else {
      ParsesAt(img, ClusterStart(b, chain[0]), ItemsPerCluster(b));
      ParsesClusters(img, b, chain[1..]);
      assert ClustersOf(img, b, chain)[1..] == ClustersOf(img, b, chain[1..]);
      assert ChainItems(img, b, chain)[1..] == ChainItems(img, b, chain[1..]);
      ParsesBoth(ClusterItems(img, b, chain[0]), ClusterBytes(img, b, chain[0]),
        Flatten(ChainItems(img, b, chain[1..])), ChainBytes(img, b, chain[1..]));
    }
  }

  lemma NothingParses()
    ensures Parses([], [])
  {
  }

  /** The items of a directory are the records of its bytes. */
  lemma DirectoryParses(img: seq<Byte>, v: Volume, d: nat)
    requires Charted(img, v) && d in v.dirs
    ensures Parses(ItemsOf(img, v, d), DirectoryBytes(img, v, d))
  {
    hide Parses, ParseBpb, ChainsOk, ChainBytes, ChainItems, RootStart, ClusterStart, Flatten, Gathered;
    BootFields(img);
    Positions(img, v.bpb, 2);
    hide RootAt, TableAt, ClusterAt, NumberAt;
    if d == 0 {
      ParsesAt(img, RootStart(v.bpb), v.bpb.rootDirEntries);
    } else {
      ChainInside(img, v, d);
      GatheredIs(img, v.bpb, v.chains[d]);
      ParsesClusters(img, v.bpb, v.chains[d]);
    }
  }

  // ----- The text -----

  /** One line a record, each ended by a newline. */
  function Printed(records: seq<Record>): seq<Byte>
  {
    if records == [] then [] else ShownLine(records[0]) + ['\n' as int] + Printed(records[1..])
  }

  /** The bytes of `text` before its first newline. */
  function FirstLine(text: seq<Byte>): (r: seq<Byte>)
    ensures |r| <= |text| && r == text[..|r|] && '\n' as int !in r && (|r| < |text| ==> text[|r|] == '\n' as int)
  {
    if text == [] || text[0] == '\n' as int then [] else [text[0]] + FirstLine(text[1..])
  }

  /** The lines of a text: what lies in front of each newline. */
  function Lines(text: seq<Byte>): (r: seq<seq<Byte>>)
    ensures forall i :: 0 <= i < |r| ==> '\n' as int !in r[i]
  {
    var n := |FirstLine(text)|;
    if n == |text| then [] else [text[..n]] + Lines(text[n + 1..])
  }

  lemma FirstLineOf(line: seq<Byte>, rest: seq<Byte>)
    requires '\n' as int !in line
    ensures FirstLine(line + ['\n' as int] + rest) == line
  {
    var text := line + ['\n' as int] + rest;
    var r := FirstLine(text);
    assert text[|line|] == '\n' as int;
    assert forall k :: 0 <= k < |line| ==> text[k] == line[k];
    hide FirstLine;
    assert |r| == |line|;
  }

  /** The lines of the printed text are the shown names with their slashes, one a record and in order,
      exactly when no shown name holds a newline. */
  lemma {:induction false} LinesArePrinted(records: seq<Record>)
    ensures (|Lines(Printed(records))| == |records|
             && forall i :: 0 <= i < |records| ==> Lines(Printed(records))[i] == ShownLine(records[i]))
       <==> forall i :: 0 <= i < |records| ==> '\n' as int !in ShownName(records[i])
  {
    assert forall r: Record :: '\n' as int in ShownLine(r) <==> '\n' as int in ShownName(r);
    hide ShownLine, ShownName;
    if forall i :: 0 <= i < |records| ==> '\n' as int !in ShownName(records[i]) {
      PrintedLines(records);
    }
  }

  lemma {:induction false} PrintedLines(records: seq<Record>)
    requires forall i :: 0 <= i < |records| ==> '\n' as int !in ShownLine(records[i])
    ensures |Lines(Printed(records))| == |records|
    ensures forall i :: 0 <= i < |records| ==> Lines(Printed(records))[i] == ShownLine(records[i])
  {
    hide ShownLine;
    if records != [] {
      var line, rest := ShownLine(records[0]), Printed(records[1..]);
      FirstLineOf(line, rest);
      var text := line + ['\n' as int] + rest;
      assert text[..|line|] == line && text[|line| + 1..] == rest;
      PrintedLines(records[1..]);
    }
  }
}
