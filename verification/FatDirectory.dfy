/** Directories as sequences of items, lookup and listing in them, well-formed volumes, and the
    walk along a path. The reference meaning of src/fs/fat16.c:101-205 and 324-345. */
module FatDirectory {
  import opened Bytes
  import opened Multiples
  import opened Blocks
  import opened FatLayout
  import opened FatNames

  // ----- Lookup and listing -----

  /** The first live item before the end mark that shows `name`, up to case. */
  function Find(items: seq<DirItem>, name: seq<Byte>): Option<DirItem>
  {
    if items == [] || items[0].EndMark() then None
    else if items[0].Live() && NameMatches(DecodeName(items[0].raw), name) then Some(items[0])
    else Find(items[1..], name)
  }

  /** The live items before the end mark, in order. */
  function LiveItems(items: seq<DirItem>): seq<DirItem>
  {
    if items == [] || items[0].EndMark() then []
    else (if items[0].Live() then [items[0]] else []) + LiveItems(items[1..])
  }

  /** What the listing of a subdirectory prints: an end mark stops one cluster, not the listing. */
  function ListedItems(clusters: seq<seq<DirItem>>): seq<DirItem>
  {
    if clusters == [] then [] else LiveItems(clusters[0]) + ListedItems(clusters[1..])
  }

  /** Nothing but end marks after the first end mark. */
  ghost predicate EndMarked(items: seq<DirItem>)
  {
    forall i, j :: 0 <= i < j < |items| && items[i].EndMark() ==> items[j].EndMark()
  }

  /** A live item that shows the name, up to case. */
  predicate Shows(item: DirItem, name: seq<Byte>)
  {
    item.Live() && NameMatches(DecodeName(item.raw), name)
  }

  /** Item `k` shows the name, and neither an end mark nor another item that shows it comes earlier. */
  ghost predicate FirstAt(items: seq<DirItem>, name: seq<Byte>, k: nat)
  {
    k < |items| && Shows(items[k], name) && forall j :: 0 <= j < k ==> !items[j].EndMark() && !Shows(items[j], name)
  }

  lemma FirstAtRest(items: seq<DirItem>, name: seq<Byte>, k: nat)
    requires items != []
    ensures FirstAt(items, name, k) <==>
            if k == 0 then Shows(items[0], name)
            else !items[0].EndMark() && !Shows(items[0], name) && FirstAt(items[1..], name, k - 1)
  {
    hide Shows;
    if k > 0 {
      assert forall j :: 1 <= j < |items| ==> items[j] == items[1..][j - 1];
      assert forall j :: 0 <= j < |items| - 1 ==> items[1..][j] == items[j + 1];
    }
  }

  /** Lookup finds exactly the names of the live items, and among equal names the first: the item it
      finds is the first before the end mark that shows the name. */
  lemma {:induction false} FindIsFirstLive(items: seq<DirItem>, name: seq<Byte>)
    ensures Find(items, name).Some? <==> exists e :: e in LiveItems(items) && NameMatches(DecodeName(e.raw), name)
    ensures Find(items, name).Some? ==> Find(items, name).value in LiveItems(items)
    ensures Find(items, name).Some? ==> NameMatches(DecodeName(Find(items, name).value.raw), name)
    ensures forall k: nat :: FirstAt(items, name, k) ==> Find(items, name) == Some(items[k])
    ensures Find(items, name).Some? ==> exists k: nat :: FirstAt(items, name, k) && Find(items, name) == Some(items[k])
  {
    if items == [] || items[0].EndMark() {
      assert LiveItems(items) == [];
    } else {
      FindIsFirstLive(items[1..], name);
      var rest := LiveItems(items[1..]);
      assert forall e :: e in LiveItems(items) <==> e in rest || (items[0].Live() && e == items[0]);
      FirstFound(items, name);
    }
  }

  lemma FirstFound(items: seq<DirItem>, name: seq<Byte>)
    requires items != [] && !items[0].EndMark()
    requires forall k: nat :: FirstAt(items[1..], name, k) ==> Find(items[1..], name) == Some(items[1..][k])
    requires Find(items[1..], name).Some? ==>
      exists k: nat :: FirstAt(items[1..], name, k) && Find(items[1..], name) == Some(items[1..][k])
    ensures forall k: nat :: FirstAt(items, name, k) ==> Find(items, name) == Some(items[k])
    ensures Find(items, name).Some? ==> exists k: nat :: FirstAt(items, name, k) && Find(items, name) == Some(items[k])
  {
    hide NameMatches, DecodeName;
    forall k: nat | FirstAt(items, name, k)
      ensures k < |items| && Find(items, name) == Some(items[k])
    {
      FirstAtRest(items, name, k);
    }
    if Shows(items[0], name) {
      FirstAtRest(items, name, 0);
    } else if Find(items[1..], name).Some? {
      var k: nat :| FirstAt(items[1..], name, k) && Find(items[1..], name) == Some(items[1..][k]);
      FirstAtRest(items, name, k + 1);
    }
  }

  predicate HasEnd(items: seq<DirItem>)
  {
    items != [] && (items[0].EndMark() || HasEnd(items[1..]))
  }

  /** Looking through two runs of items one after the other. */
  lemma {:induction false} FindConcat(a: seq<DirItem>, b: seq<DirItem>, name: seq<Byte>)
    ensures Find(a + b, name) == if Find(a, name).Some? then Find(a, name) else
      if HasEnd(a) then None else Find(b, name)
  {
    if a == [] {
      assert a + b == b;
    } else {
      assert (a + b)[1..] == a[1..] + b;
      FindConcat(a[1..], b, name);
    }
  }

  /** An end mark in `a` hides everything in `b`. */
  lemma {:induction false} LiveItemsConcat(a: seq<DirItem>, b: seq<DirItem>)
    ensures LiveItems(a + b) == LiveItems(a) + if HasEnd(a) then [] else LiveItems(b)
  {
    if a == [] {
      assert a + b == b;
    } else {
      assert (a + b)[1..] == a[1..] + b;
      LiveItemsConcat(a[1..], b);
    }
  }

  /** No cluster lists anything after an earlier one held an end mark. */
  ghost predicate SilentAfterEnd(clusters: seq<seq<DirItem>>)
  {
    forall i, j :: 0 <= i < j < |clusters| && HasEnd(clusters[i]) ==> LiveItems(clusters[j]) == []
  }

  lemma {:induction false} NothingListed(clusters: seq<seq<DirItem>>)
    ensures ListedItems(clusters) == [] <==> forall j :: 0 <= j < |clusters| ==> LiveItems(clusters[j]) == []
  {
    if clusters != [] {
      NothingListed(clusters[1..]);
      assert forall j :: 1 <= j < |clusters| ==> clusters[j] == clusters[1..][j - 1];
    }
  }

  lemma SilentAfterEndStep(clusters: seq<seq<DirItem>>)
    requires clusters != []
    ensures SilentAfterEnd(clusters) <==>
            SilentAfterEnd(clusters[1..])
              && (HasEnd(clusters[0]) ==> forall j :: 0 <= j < |clusters[1..]| ==> LiveItems(clusters[1..][j]) == [])
  {
    var rest := clusters[1..];
    assert forall j :: 0 <= j < |rest| ==> rest[j] == clusters[j + 1];
    assert forall j :: 1 <= j < |clusters| ==> clusters[j] == rest[j - 1];
  }

  /** Listing a subdirectory shows exactly its live items when, and only when, nothing live follows
      a cluster with an end mark. */
  lemma {:induction false} ListingExact(clusters: seq<seq<DirItem>>)
    ensures ListedItems(clusters) == LiveItems(Flatten(clusters)) <==> SilentAfterEnd(clusters)
  {
    if clusters != [] {
      var rest := clusters[1..];
      ListingExact(rest);
      LiveItemsConcat(clusters[0], Flatten(rest));
      SilentAfterEndStep(clusters);
      NothingListed(rest);
      NothingAfterMeansSilent(rest);
      var shown := if HasEnd(clusters[0]) then [] else LiveItems(Flatten(rest));
      ConcatCancels(LiveItems(clusters[0]), ListedItems(rest), shown);
    }
  }

  lemma ConcatCancels(a: seq<DirItem>, b: seq<DirItem>, c: seq<DirItem>)
    ensures a + b == a + c <==> b == c
  {
    assert (a + b)[|a|..] == b && (a + c)[|a|..] == c;
  }

  /** With nothing but end marks after the first one, a listing never runs past it. */
  lemma {:induction false} EndMarkedIsSilent(clusters: seq<seq<DirItem>>)
    requires EndMarked(Flatten(clusters))
    ensures SilentAfterEnd(clusters)
  {
    if clusters != [] {
      var first, rest := clusters[0], clusters[1..];
      assert Flatten(clusters) == first + Flatten(rest);
      EndMarkedSuffix(first, Flatten(rest));
      EndMarkedIsSilent(rest);
      SilentAfterEndStep(clusters);
      if HasEnd(first) {
        AllMarksSilent(rest);
      }
    }
  }

  lemma {:induction false} HasEndAt(items: seq<DirItem>) returns (i: nat)
    requires HasEnd(items)
    ensures i < |items| && items[i].EndMark()
  {
    if items[0].EndMark() {
      i := 0;
    } else {
      i := HasEndAt(items[1..]);
      i := i + 1;
    }
  }

  lemma EndMarkedSuffix(a: seq<DirItem>, b: seq<DirItem>)
    requires EndMarked(a + b)
    ensures EndMarked(b)
    ensures HasEnd(a) ==> forall j :: 0 <= j < |b| ==> b[j].EndMark()
  {
    assert forall j :: 0 <= j < |b| ==> b[j] == (a + b)[|a| + j];
    if HasEnd(a) {
      var i := HasEndAt(a);
      assert (a + b)[i].EndMark();
    }
  }

  lemma {:induction false} AllMarksSilent(clusters: seq<seq<DirItem>>)
    requires forall j :: 0 <= j < |Flatten(clusters)| ==> Flatten(clusters)[j].EndMark()
    ensures forall j :: 0 <= j < |clusters| ==> LiveItems(clusters[j]) == []
  {
    if clusters != [] {
      var first, rest := clusters[0], clusters[1..];
      var all := Flatten(clusters);
      assert all == first + Flatten(rest);
      assert forall j :: 0 <= j < |first| ==> first[j] == all[j];
      assert forall j :: 0 <= j < |Flatten(rest)| ==> Flatten(rest)[j] == all[|first| + j];
      AllMarksSilent(rest);
    }
  }

  lemma NothingAfterMeansSilent(clusters: seq<seq<DirItem>>)
    ensures (forall j :: 0 <= j < |clusters| ==> LiveItems(clusters[j]) == []) ==> SilentAfterEnd(clusters)
  {
  }

  // ----- The directories of an image -----

  function ItemsAt(img: seq<Byte>, at: nat, n: nat): (r: seq<DirItem>)
    requires at + ITEM_SIZE * n <= |img|
    ensures |r| == n
    ensures forall i :: 0 <= i < n ==> r[i] == ParseItem(img[at + ITEM_SIZE * i..at + ITEM_SIZE * i + ITEM_SIZE])
  {
    seq(n, i requires 0 <= i < n => ParseItem(img[at + ITEM_SIZE * i..at + ITEM_SIZE * i + ITEM_SIZE]))
  }

  function ItemsPerCluster(b: Bpb): nat { 16 * (b.sectorsPerCluster as int) }

  function RootItems(img: seq<Byte>, b: Bpb): seq<DirItem>
    requires DataStart(b) <= |img|
  {
    ItemsAt(img, RootStart(b), b.rootDirEntries)
  }

  function ClusterItems(img: seq<Byte>, b: Bpb, cluster: nat): seq<DirItem>
    requires 2 <= cluster && ClusterStart(b, cluster) + ClusterSize(b) <= |img|
  {
    ItemsAt(img, ClusterStart(b, cluster), ItemsPerCluster(b))
  }

  function ChainItems(img: seq<Byte>, b: Bpb, chain: seq<nat>): (r: seq<seq<DirItem>>)
    requires ChainFits(|img|, b, chain)
    ensures |r| == |chain| && forall i :: 0 <= i < |chain| ==> r[i] == ClusterItems(img, b, chain[i])
  {
    seq(|chain|, i requires 0 <= i < |chain| => ClusterItems(img, b, chain[i]))
  }

  // ----- Well-formed volumes -----

  ghost predicate Disjoint(a: seq<nat>, b: seq<nat>)
  {
    forall i, j :: 0 <= i < |a| && 0 <= j < |b| ==> a[i] != b[j]
  }

  /** Every recorded chain is what the table says, and different chains share no cluster. */
  ghost predicate ChainsOk(fat: seq<U16>, chains: map<nat, seq<nat>>)
  {
    && (forall h :: h in chains ==> IsChain(fat, chains[h]) && chains[h][0] == h)
    && (forall h, k :: h in chains && k in chains && h != k ==> Disjoint(chains[h], chains[k]))
  }

  /** Directories by first cluster, 0 for the root directory. */
  type Tree = map<nat, seq<DirItem>>

  ghost predicate ItemOk(v: Volume, e: DirItem)
  {
    if e.IsDirectory() then e.cluster in v.dirs
    else e.filesize > 0 ==>
      e.cluster in v.chains && e.cluster !in v.dirs && e.filesize <= Times(|v.chains[e.cluster]|, ClusterSize(v.bpb))
  }

  ghost predicate DirectoryOk(v: Volume, items: seq<DirItem>)
  {
    EndMarked(items) && forall i :: 0 <= i < |items| && items[i].Live() ==> ItemOk(v, items[i])
  }

  predicate OwnsChain(e: DirItem)
  {
    e.Live() && !e.IsDirectory() && e.filesize > 0
  }

  /** No chain belongs to two files. */
  ghost predicate NoCrossLinks(tree: Tree)
  {
    forall d, k, i, j :: d in tree && k in tree && 0 <= i < |tree[d]| && 0 <= j < |tree[k]| ==>
      (OwnsChain(tree[d][i]) && OwnsChain(tree[k][j]) && tree[d][i].cluster == tree[k][j].cluster ==> d == k && i == j)
  }

  ghost predicate CopiesIdentical(img: seq<Byte>, b: Bpb)
    requires FatStart(b) + FatBytes(b) <= |img|
  {
    forall k: nat :: k < b.fatCopies ==>
      FatCopyStart(b, k) + FatBytes(b) <= |img| &&
      img[FatCopyStart(b, k)..FatCopyStart(b, k) + FatBytes(b)] == img[FatStart(b)..FatStart(b) + FatBytes(b)]
  }

  /** Layout, chains and directory keys are in order, so that the tree can be read off. */
  ghost predicate Charted(img: seq<Byte>, v: Volume)
  {
    && LayoutOk(img, v)
    && FatStart(v.bpb) + 2 * v.limit <= |img|
    && DataStart(v.bpb) <= |img|
    && ChainsOk(FatTable(img, v.bpb, v.limit), v.chains)
    && 0 in v.dirs && 0 !in v.chains
    && (forall d :: d in v.dirs && d != 0 ==> d in v.chains)
  }

  /** The clusters of a recorded chain lie inside the image. */
  lemma ChainInside(img: seq<Byte>, v: Volume, h: nat)
    requires Charted(img, v) && h in v.chains
    ensures ChainFits(|img|, v.bpb, v.chains[h])
    ensures IsChain(FatTable(img, v.bpb, v.limit), v.chains[h])
    ensures forall i :: 0 <= i < |v.chains[h]| ==> 2 <= v.chains[h][i] < v.limit
  {
    Landmarks(v.bpb, v.limit, |img|);
  }

  ghost function ItemsOf(img: seq<Byte>, v: Volume, d: nat): seq<DirItem>
    requires Charted(img, v) && d in v.dirs
  {
    if d == 0 then RootItems(img, v.bpb)
    else
      ChainInside(img, v, d);
      Flatten(ChainItems(img, v.bpb, v.chains[d]))
  }

  ghost function TreeOf(img: seq<Byte>, v: Volume): Tree
    requires Charted(img, v)
  {
    map d | d in v.dirs :: ItemsOf(img, v, d)
  }

  /** A FAT16 image in good order, as described by `v`. */
  ghost predicate WellFormed(img: seq<Byte>, v: Volume)
  {
    && Charted(img, v)
    && FatStart(v.bpb) + FatBytes(v.bpb) <= |img|
    && CopiesIdentical(img, v.bpb)
    && (forall d :: d in v.dirs ==> DirectoryOk(v, TreeOf(img, v)[d]))
    && NoCrossLinks(TreeOf(img, v))
  }

  // ----- Paths -----

  /** The file at the end of a path: each part names a live item, and every part but the last a directory. */
  function Walk(tree: Tree, d: nat, parts: seq<seq<Byte>>): Option<DirItem>
    decreases parts
  {
    if parts == [] || d !in tree then None
    else
      match Find(tree[d], parts[0])
      case None => None
      case Some(e) =>
        if |parts| == 1 then (if e.IsDirectory() then None else Some(e))
        else if e.IsDirectory() then Walk(tree, e.cluster, parts[1..]) else None
  }

  /** The directory a path leads to, from the root directory on. */
  function WalkDirectory(tree: Tree, d: nat, parts: seq<seq<Byte>>): Option<nat>
    decreases parts
  {
    if parts == [] then Some(d)
    else if d !in tree then None
    else
      match Find(tree[d], parts[0])
      case None => None
      case Some(e) => if e.IsDirectory() then WalkDirectory(tree, e.cluster, parts[1..]) else None
  }

  lemma {:induction false} LiveItemsAreItems(items: seq<DirItem>, e: DirItem)
    requires e in LiveItems(items)
    ensures exists i :: 0 <= i < |items| && items[i] == e && items[i].Live()
  {
    if e == items[0] && items[0].Live() {
    } else {
      LiveItemsAreItems(items[1..], e);
      var i :| 0 <= i < |items[1..]| && items[1..][i] == e && items[1..][i].Live();
      assert items[i + 1] == e;
    }
  }

  /** What a lookup finds in a directory of a well-formed image is in good order. */
  lemma FoundItemOk(img: seq<Byte>, v: Volume, d: nat, name: seq<Byte>)
    requires WellFormed(img, v) && d in v.dirs
    ensures var r := Find(TreeOf(img, v)[d], name); r.Some? ==> ItemOk(v, r.value)
  {
    var items := TreeOf(img, v)[d];
    FindIsFirstLive(items, name);
    if Find(items, name).Some? {
      LiveItemsAreItems(items, Find(items, name).value);
    }
  }
}
