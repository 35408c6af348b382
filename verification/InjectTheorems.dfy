/** Injection on well-formed volumes: when it succeeds, what volume it leaves, that every file found
    before is found and reads as before, and that the new file reads back as the data. */
module InjectTheorems {
  import opened Bytes
  import opened Multiples
  import opened Blocks
  import opened CStrings
  import opened FatLayout
  import opened FatNames
  import opened NewEntries
  import opened FatDirectory
  import opened ImageWriter
  import opened InjectFacts
  import opened Vfs

  // ----- Room, and the job that it makes -----

  ghost predicate FreeSlotLeft(items: seq<DirItem>)
  {
    exists i :: 0 <= i < |items| && !items[i].Live()
  }

  /** The volume has a root entry and enough usable clusters for the data. For an empty file the writer
      looks at all 65534 table entries and only needs one that is 0. */
  ghost predicate Room(img: seq<Byte>, v: Volume, data: seq<Byte>)
  {
    && Charted(img, v)
    && |data| < TWO_32
    && FreeSlotLeft(RootItems(img, v.bpb))
    && if data == [] then SomeZero(img, v.bpb)
       else Needed(|data|, ClusterSize(v.bpb)) <= |FreeUpTo(FatTable(img, v.bpb, v.limit), v.limit)|
  }

  ghost predicate SomeZero(img: seq<Byte>, b: Bpb)
  {
    && FatStart(b) + 2 * CLUSTER_NUMBERS <= |img|
    && exists c :: 2 <= c < CLUSTER_NUMBERS && Le16At(img, FatStart(b) + 2 * c) == 0
  }

  /** A job that the state of the volume allows: free clusters, and the first root entry that is not live. */
  ghost predicate Allowed(img: seq<Byte>, v: Volume, job: Job)
  {
    && Charted(img, v)
    && JobOk(job, v.bpb, v.limit, |img|)
    && (forall i :: 0 <= i < |job.taken| ==> FatTable(img, v.bpb, v.limit)[job.taken[i]] == 0)
    && !RootItems(img, v.bpb)[job.index].Live()
    && (forall j :: 0 <= j < job.index ==> RootItems(img, v.bpb)[j].Live())
  }

  /** The geometry the writer computes is that of the volume. */
  lemma GeometryMatches(img: seq<Byte>, v: Volume)
    requires LayoutOk(img, v)
    ensures |img| >= 24 && GeometryOf(img) == GeometryFor(v.bpb)
  {
    var b := v.bpb;
    var reserved: nat, perFat: nat, perCluster: nat := b.reservedSectors, b.fatSectors, b.sectorsPerCluster;
    assert Le16At(img, 11) == 512 && Le16At(img, 14) == reserved && Le16At(img, 22) == perFat && img[13] == perCluster;
    assert img[16] == b.fatCopies && Le16At(img, 17) == b.rootDirEntries;
    TimesIsProduct(reserved, 512);
    TimesIsProduct(perFat, 512);
    TimesIsProduct(perCluster, 512);
  }

  lemma NeededBounds(length: nat, size: nat)
    requires size > 0 && length > 0
    ensures Needed(length, size) > 0
    ensures Times(Needed(length, size) - 1, size) < length <= Times(Needed(length, size), size)
  {
    var n := Needed(length, size);
    Split(length + size - 1, size);
    if n > 0 { TimesOrder(n - 1, n, size); }
  }

  lemma SlotIsFree(img: seq<Byte>, v: Volume)
    requires Charted(img, v) && FreeSlotLeft(RootItems(img, v.bpb))
    ensures var r, items := RootSlot(img, RootStart(v.bpb), v.bpb.rootDirEntries, 0), RootItems(img, v.bpb);
            r.Free? && !items[r.index].Live() && forall j :: 0 <= j < r.index ==> items[j].Live()
  {
    hide RootStart;
    RootSlotIs(img, RootStart(v.bpb), v.bpb.rootDirEntries, 0);
  }

  lemma LimitFacts(img: seq<Byte>, v: Volume)
    requires Charted(img, v)
    ensures FatStart(v.bpb) + 2 * v.limit <= |img| && v.limit <= CLUSTER_NUMBERS && v.bpb.sectorsPerCluster > 0
    ensures ClusterSize(v.bpb) > 0 && GeometryOk(v.bpb, v.limit, |img|) && LayoutOk(img, v)
    ensures DataStart(v.bpb) <= |img|
  {
  }

  lemma FreeStart(fat: seq<U16>)
    requires 2 <= |fat| <= CLUSTER_NUMBERS
    ensures FreeUpTo(fat, 2) == []
  {
  }

  /** The clusters that the scan takes. */
  lemma TakenClusters(img: seq<Byte>, v: Volume, length: nat) returns (taken: seq<nat>)
    requires Charted(img, v) && 0 < length && v.bpb.sectorsPerCluster > 0
    requires Needed(length, ClusterSize(v.bpb)) <= |FreeUpTo(FatTable(img, v.bpb, v.limit), v.limit)|
    ensures Scan(img, FatStart(v.bpb), Needed(length, ClusterSize(v.bpb)), 2, []) == Some(taken)
    ensures |taken| == Needed(length, ClusterSize(v.bpb)) > 0 && Numbers(taken) && Ascending(taken)
    ensures forall i :: 0 <= i < |taken| ==> 2 <= taken[i] < v.limit && FatTable(img, v.bpb, v.limit)[taken[i]] == 0
  {
    LimitFacts(img, v);
    NeededBounds(length, ClusterSize(v.bpb));
    var fat, n := FatTable(img, v.bpb, v.limit), Needed(length, ClusterSize(v.bpb));
    hide Scan, FreeUpTo, Charted, Needed, FatTable, FatStart, ClusterSize;
    FreeStart(fat);
    ScanTakes(img, v.bpb, v.limit, n, 2);
    taken := FreeUpTo(fat, v.limit)[..n];
  }

  /** With no cluster to find, the scan collects every zero entry. */
  lemma {:induction false} ScanAll(img: seq<Byte>, start: nat, i: nat, free: seq<nat>)
    requires 2 <= i <= CLUSTER_NUMBERS && Numbers(free) && start + 2 * CLUSTER_NUMBERS <= |img|
    ensures var r := Scan(img, start, 0, i, free);
            r.Some? && (r.value != []
              <==> free != [] || exists c :: i <= c < CLUSTER_NUMBERS && Le16At(img, start + 2 * c) == 0)
    decreases CLUSTER_NUMBERS - i
  {
    if i < CLUSTER_NUMBERS {
      ScanStep(img, start, 0, i, free);
      hide Scan, Le16At;
      ScanAll(img, start, i + 1, if Le16At(img, start + 2 * i) != 0 then free else free + [i]);
    }
  }

  /** Without the whole range of entries in the image, an empty file makes the program fail. */
  lemma {:induction false} ScanShort(img: seq<Byte>, start: nat, i: nat, free: seq<nat>)
    requires 2 <= i < CLUSTER_NUMBERS && Numbers(free) && start + 2 * CLUSTER_NUMBERS > |img|
    ensures Scan(img, start, 0, i, free) == None
    decreases CLUSTER_NUMBERS - i
  {
    if start + 2 * i + 2 <= |img| {
      ScanStep(img, start, 0, i, free);
      hide Scan, Le16At;
      ScanShort(img, start, i + 1, if Le16At(img, start + 2 * i) != 0 then free else free + [i]);
    }
  }

  /** What the scan finds for the data there is room for: the clusters to take, and the first of them or,
      for an empty file, some cluster number. */
  lemma FindClusters(img: seq<Byte>, v: Volume, data: seq<Byte>) returns (taken: seq<nat>, free: seq<nat>)
    requires Room(img, v, data)
    ensures ClusterSize(v.bpb) > 0
      && Scan(img, FatStart(v.bpb), Needed(|data|, ClusterSize(v.bpb)), 2, []) == Some(free)
    ensures |taken| == Needed(|data|, ClusterSize(v.bpb)) && free != [] && taken <= free && Numbers(taken)
      && Numbers(free) && Ascending(taken)
    ensures taken == [] <==> data == []
    ensures forall i :: 0 <= i < |taken| ==> 2 <= taken[i] < v.limit && FatTable(img, v.bpb, v.limit)[taken[i]] == 0
  {
    hide Charted, RootItems, ClusterSize, FatStart, FatTable, GeometryOk, Scan, FreeUpTo, FreeSlotLeft, LayoutOk;
    hide Needed, SomeZero;
    LimitFacts(img, v);
    if data == [] {
      NoneNeeded(ClusterSize(v.bpb));
      free := ZeroFound(img, v.bpb);
      taken := [];
    } else {
      taken := TakenClusters(img, v, |data|);
      free := taken;
    }
  }

  lemma ZeroFound(img: seq<Byte>, b: Bpb) returns (free: seq<nat>)
    requires SomeZero(img, b)
    ensures Scan(img, FatStart(b), 0, 2, []) == Some(free) && free != [] && Numbers(free)
  {
    hide Scan, Le16At, FatStart;
    ScanAll(img, FatStart(b), 2, []);
    free := Scan(img, FatStart(b), 0, 2, []).value;
  }

  lemma NoneNeeded(size: nat)
    requires size > 0
    ensures Needed(0, size) == 0
  {
  }

  /** The job that the room is for. */
  lemma FindJob(img: seq<Byte>, v: Volume, data: seq<Byte>, name: seq<Byte>) returns (job: Job, free: seq<nat>)
    requires Room(img, v, data)
    ensures ClusterSize(v.bpb) > 0 && Allowed(img, v, job) && Numbers(job.taken) && job.raw == EncodeName(name)
      && job.data == data
    ensures RootSlot(img, RootStart(v.bpb), v.bpb.rootDirEntries, 0) == Slot.Free(job.index)
    ensures Scan(img, FatStart(v.bpb), Needed(|data|, ClusterSize(v.bpb)), 2, []) == Some(free)
    ensures |job.taken| == Needed(|data|, ClusterSize(v.bpb)) && job.taken <= free && free != [] && Numbers(free)
      && free[0] == job.head
  {
    hide EncodeName, Charted, RootSlot, RootItems, ClusterSize, Needed, RootStart, FatStart, FatTable, GeometryOk;
    hide Scan, FreeUpTo, Times;
    LimitFacts(img, v);
    SlotIsFree(img, v);
    var taken;
    taken, free := FindClusters(img, v, data);
    if data != [] {
      NeededBounds(|data|, ClusterSize(v.bpb));
    }
    job := Job(taken, free[0], RootSlot(img, RootStart(v.bpb), v.bpb.rootDirEntries, 0).index, EncodeName(name), data);
  }

  lemma PrefixTaken(taken: seq<nat>, free: seq<nat>)
    requires taken <= free
    ensures free[..|taken|] == taken
  {
  }

  lemma InjectedSteps(img: seq<Byte>, data: seq<Byte>, name: seq<Byte>, g: Geometry, index: nat, taken: seq<nat>,
          free: seq<nat>)
    requires |img| >= 24 && GeometryOf(img) == g && g.clusterSize > 0
    requires RootSlot(img, g.rootStart, g.rootEntries, 0) == Slot.Free(index)
    requires Scan(img, g.fatStart, Needed(|data|, g.clusterSize), 2, []) == Some(free)
    requires |taken| == Needed(|data|, g.clusterSize) <= |free| && taken == free[..|taken|] && Numbers(free)
      && Numbers(taken)
    ensures Injected(img, data, name) ==
      Entered(WriteData(LinkCopies(img, g, taken, g.fats), g, data, taken, |taken|), g.rootStart + ITEM_SIZE * index,
        name, free, |data|)
  {
    hide Placed, GeometryOf, Scan, RootSlot, Needed, Numbers;
    PlacedIs(img, data, name, g, index, taken, free);
  }

  lemma PlacedIs(img: seq<Byte>, data: seq<Byte>, name: seq<Byte>, g: Geometry, index: nat, taken: seq<nat>,
          free: seq<nat>)
    requires |taken| <= |free| && taken == free[..|taken|] && Numbers(free) && Numbers(taken)
    ensures Placed(img, g, data, name, index, free, |taken|) ==
      Entered(WriteData(LinkCopies(img, g, taken, g.fats), g, data, taken, |taken|), g.rootStart + ITEM_SIZE * index,
        name, free, |data|)
  {
    hide WriteData, LinkCopies, Entered, Numbers;
  }

  /** With room the program succeeds, and does exactly this job. */
  lemma InjectedIs(img: seq<Byte>, v: Volume, data: seq<Byte>, name: seq<Byte>) returns (job: Job)
    requires Room(img, v, data)
    ensures Allowed(img, v, job) && Numbers(job.taken) && job.raw == EncodeName(name) && job.data == data
      && |data| < TWO_32
    ensures Injected(img, data, name) == (Done, Final(img, v.bpb, job))
  {
    hide WriteData, LinkCopies, EncodeItem, EncodeName, GeometryOf, Overwrite, Scan, RootSlot, Needed, Allowed;
    hide Injected, LayoutOk, GeometryOk, Charted, FatTable, FreeUpTo, FreeSlotLeft, RootItems, SomeZero;
    LimitFacts(img, v);
    GeometryMatches(img, v);
    var free;
    job, free := FindJob(img, v, data, name);
    PrefixTaken(job.taken, free);
    InjectedSteps(img, data, name, GeometryFor(v.bpb), job.index, job.taken, free);
  }

  lemma EmptySteps(img: seq<Byte>, name: seq<Byte>, g: Geometry, index: nat)
    requires |img| >= 24 && GeometryOf(img) == g && g.clusterSize > 0
    requires RootSlot(img, g.rootStart, g.rootEntries, 0) == Slot.Free(index)
    ensures var r := Scan(img, g.fatStart, 0, 2, []);
            Injected(img, [], name).0 == Done <==> r.Some? && r.value != []
  {
    hide WriteData, LinkCopies, GeometryOf, Scan, RootSlot, Overwrite, EntryHead, EncodeItem, EncodeName;
    NoneNeeded(g.clusterSize);
    hide Needed;
  }

  /** On a volume with a root entry, an empty file goes through exactly when the image holds all 65536
      table entries and one of them from the second on is 0. */
  lemma EmptyFileExact(img: seq<Byte>, v: Volume, name: seq<Byte>)
    requires Charted(img, v) && FreeSlotLeft(RootItems(img, v.bpb))
    ensures Injected(img, [], name).0 == Done <==> SomeZero(img, v.bpb)
  {
    hide Injected, Scan, RootSlot, GeometryOf, Le16At, FreeSlotLeft, RootItems, Charted, FatStart, RootStart;
    hide LayoutOk, GeometryOk, ClusterSize;
    LimitFacts(img, v);
    GeometryMatches(img, v);
    SlotIsFree(img, v);
    var start := FatStart(v.bpb);
    EmptySteps(img, name, GeometryFor(v.bpb), RootSlot(img, RootStart(v.bpb), v.bpb.rootDirEntries, 0).index);
    if start + 2 * CLUSTER_NUMBERS <= |img| {
      ScanAll(img, start, 2, []);
    } else {
      ScanShort(img, start, 2, []);
    }
  }

  // ----- The chains -----

  /** A chain uses no free cluster, so links in free clusters leave it alone. */
  lemma OldChainKept(fat: seq<U16>, fat': seq<U16>, taken: seq<nat>, chain: seq<nat>)
    requires IsChain(fat, chain) && Numbers(taken) && Linked(fat, fat', taken)
    requires forall i :: 0 <= i < |taken| ==> fat[taken[i]] == 0
    ensures IsChain(fat', chain) && Disjoint(chain, taken) && Disjoint(taken, chain)
    ensures forall i :: 0 <= i < |chain| ==> chain[i] !in taken
  {
    hide Link;
    forall i | 0 <= i < |chain|
      ensures chain[i] !in taken
    {
      assert i + 1 < |chain| ==> fat[chain[i]] == chain[i + 1] && chain[i + 1] >= 2;
    }
  }

  lemma NewChainOk(fat: seq<U16>, fat': seq<U16>, taken: seq<nat>)
    requires taken != [] && Numbers(taken) && Linked(fat, fat', taken)
    ensures IsChain(fat', taken)
  {
    assert fat'[taken[|taken| - 1]] == Link(taken, |taken| - 1);
    assert forall i :: 0 <= i < |taken| - 1 ==> Link(taken, i) == taken[i + 1];
  }

  lemma {:induction false} ChainsAfter(fat: seq<U16>, fat': seq<U16>, taken: seq<nat>, chains: map<nat, seq<nat>>)
    requires ChainsOk(fat, chains) && taken != [] && Numbers(taken) && Linked(fat, fat', taken)
    requires forall i :: 0 <= i < |taken| ==> fat[taken[i]] == 0
    ensures taken[0] !in chains && ChainsOk(fat', chains[taken[0] := taken])
    ensures forall h, i :: h in chains && 0 <= i < |chains[h]| ==> chains[h][i] !in taken
  {
    hide IsChain, Linked, Disjoint;
    assert forall h :: h in chains ==> chains[h] != [] by { ChainsNonempty(fat, chains); }
    forall h | h in chains
      ensures IsChain(fat', chains[h]) && Disjoint(chains[h], taken) && Disjoint(taken, chains[h])
      ensures h !in taken && forall i :: 0 <= i < |chains[h]| ==> chains[h][i] !in taken
    {
      OldChainKept(fat, fat', taken, chains[h]);
      assert chains[h][0] == h;
    }
    NewChainOk(fat, fat', taken);
  }

  lemma ChainsNonempty(fat: seq<U16>, chains: map<nat, seq<nat>>)
    requires ChainsOk(fat, chains)
    ensures forall h :: h in chains ==> chains[h] != []
  {
  }

  /** The volume with the new chain, if the file has one. */
  function After(v: Volume, job: Job): Volume
  {
    if job.taken == [] then v else v.(chains := v.chains[job.head := job.taken])
  }

  /** The new chain starts where no recorded chain and no directory does. */
  predicate NewHead(v: Volume, job: Job)
  {
    job.taken != [] ==> job.head !in v.chains && job.head !in v.dirs
  }

  /** What the final image keeps of the layout. */
  lemma LayoutAfter(img: seq<Byte>, v: Volume, job: Job)
    requires Allowed(img, v, job)
    ensures Numbers(job.taken) && |job.data| < TWO_32
    ensures var final := Final(img, v.bpb, job);
            |final| == |img| && LayoutOk(final, v) && LayoutOk(final, After(v, job))
  {
    hide Final, GeometryOk, ParseBpb, RootItems, ChainsOk, FatTable;
    SomeCopy(job, v.bpb, v.limit, |img|);
    BootKept(img, v.bpb, v.limit, job);
  }

  lemma ChartedAfter(img: seq<Byte>, v: Volume, job: Job)
    requires Allowed(img, v, job)
    ensures Numbers(job.taken) && |job.data| < TWO_32
    ensures |Final(img, v.bpb, job)| == |img| && Charted(Final(img, v.bpb, job), After(v, job))
    ensures NewHead(v, job)
    ensures forall h, i :: h in v.chains && 0 <= i < |v.chains[h]| ==> v.chains[h][i] !in job.taken
  {
    hide Final, GeometryOk, ParseBpb, RootItems, ChainsOk, FatTable, LayoutOk, Linked;
    LayoutAfter(img, v, job);
    TableLinked(img, v.bpb, v.limit, job);
    HeadIsFirst(job, v.bpb, v.limit, |img|);
    hide JobOk;
    var fat, fat' := FatTable(img, v.bpb, v.limit), FatTable(Final(img, v.bpb, job), v.bpb, v.limit);
    if job.taken == [] {
      NothingLinked(fat, fat', job.taken);
    } else {
      ChainsAfter(fat, fat', job.taken, v.chains);
    }
  }

  lemma HeadIsFirst(job: Job, b: Bpb, limit: nat, length: nat)
    requires JobOk(job, b, limit, length)
    ensures job.taken != [] ==> job.head == job.taken[0]
    ensures job.taken == [] <==> job.data == []
  {
  }

  lemma NothingLinked(fat: seq<U16>, fat': seq<U16>, taken: seq<nat>)
    requires Numbers(taken) && Linked(fat, fat', taken) && taken == []
    ensures fat' == fat
  {
  }

  // ----- The directories -----

  /** The tree with the new item in its root entry. */
  function TreeWith(tree: Tree, index: nat, item: DirItem): Tree
    requires 0 in tree && index < |tree[0]|
  {
    tree[0 := tree[0][index := item]]
  }

  lemma RootOfTree(img: seq<Byte>, v: Volume)
    requires Charted(img, v)
    ensures 0 in TreeOf(img, v) && TreeOf(img, v).Keys == v.dirs && TreeOf(img, v)[0] == RootItems(img, v.bpb)
    ensures |TreeOf(img, v)[0]| == v.bpb.rootDirEntries
  {
  }

  lemma AllowedFacts(img: seq<Byte>, v: Volume, job: Job)
    requires Allowed(img, v, job)
    ensures Charted(img, v) && JobOk(job, v.bpb, v.limit, |img|) && DataStart(v.bpb) <= |img|
    ensures job.index < v.bpb.rootDirEntries && |RootItems(img, v.bpb)| == v.bpb.rootDirEntries
  {
  }

  lemma SubdirectoryKept(img: seq<Byte>, v: Volume, job: Job, d: nat)
    requires Allowed(img, v, job) && d in v.dirs && d != 0
    ensures Numbers(job.taken) && |job.data| < TWO_32 && |Final(img, v.bpb, job)| == |img|
    ensures Charted(Final(img, v.bpb, job), After(v, job))
    ensures ItemsOf(Final(img, v.bpb, job), After(v, job), d) == ItemsOf(img, v, d)
  {
    hide Final, Allowed, RootItems, ClusterItems, ItemsAt, IsChain, GeometryOk, ChainsOk, LayoutOk, FatTable;
    hide JobOk, ChainFits, Flatten;
    AllowedFacts(img, v, job);
    ChartedAfter(img, v, job);
    ChainInside(img, v, d);
    var final, chain := Final(img, v.bpb, job), v.chains[d];
    ChainInside(final, After(v, job), d);
    forall i | 0 <= i < |chain|
      ensures ChainItems(final, v.bpb, chain)[i] == ChainItems(img, v.bpb, chain)[i]
    {
      OtherCluster(img, v.bpb, v.limit, job, chain[i]);
    }
    assert ChainItems(final, v.bpb, chain) == ChainItems(img, v.bpb, chain);
  }

  lemma TreeEntryIs(img: seq<Byte>, v: Volume, d: nat)
    requires Charted(img, v) && d in v.dirs
    ensures d in TreeOf(img, v) && TreeOf(img, v)[d] == ItemsOf(img, v, d)
  {
    hide ItemsOf;
  }

  /** The directory tree of the final image is the old one with the new item in the root directory. */
  lemma TreeAfter(img: seq<Byte>, v: Volume, job: Job)
    requires Allowed(img, v, job)
    ensures Numbers(job.taken) && |job.data| < TWO_32 && |Final(img, v.bpb, job)| == |img|
    ensures Charted(Final(img, v.bpb, job), After(v, job))
    ensures 0 in TreeOf(img, v) && job.index < |TreeOf(img, v)[0]|
    ensures TreeOf(Final(img, v.bpb, job), After(v, job)) == TreeWith(TreeOf(img, v), job.index, NewItem(job))
  {
    hide Final, Allowed, ItemsOf, Charted, RootItems, JobOk, TreeOf, GeometryFor;
    AllowedFacts(img, v, job);
    ChartedAfter(img, v, job);
    RootOfTree(img, v);
    RootEntered(img, v.bpb, v.limit, job);
    var final, v' := Final(img, v.bpb, job), After(v, job);
    RootOfTree(final, v');
    var tree, tree' := TreeOf(img, v), TreeOf(final, v');
    forall d | d in v.dirs && d != 0
      ensures tree'[d] == tree[d]
    {
      SubdirectoryKept(img, v, job, d);
      TreeEntryIs(img, v, d);
      TreeEntryIs(final, v', d);
    }
  }

  lemma EndMarkedAfter(items: seq<DirItem>, index: nat, item: DirItem)
    requires EndMarked(items) && index < |items| && !item.EndMark()
    requires forall j :: 0 <= j < index ==> items[j].Live()
    ensures EndMarked(items[index := item])
  {
  }

  lemma ItemOkKept(v: Volume, job: Job, e: DirItem)
    requires ItemOk(v, e) && NewHead(v, job)
    ensures ItemOk(After(v, job), e)
  {
  }

  lemma NewItemOk(v: Volume, job: Job, length: nat)
    requires JobOk(job, v.bpb, v.limit, length) && NewHead(v, job)
    ensures Numbers(job.taken)
    ensures ItemOk(After(v, job), NewItem(job))
  {
    JobFacts(job, v.bpb, v.limit, length);
  }

  lemma DirectoryOkAfter(v: Volume, job: Job, items: seq<DirItem>)
    requires DirectoryOk(v, items) && NewHead(v, job)
    ensures DirectoryOk(After(v, job), items)
  {
    hide ItemOk, After;
    forall i | 0 <= i < |items| && items[i].Live()
      ensures ItemOk(After(v, job), items[i])
    {
      ItemOkKept(v, job, items[i]);
    }
  }

  lemma RootOkAfter(v: Volume, job: Job, items: seq<DirItem>, item: DirItem)
    requires DirectoryOk(v, items) && job.index < |items| && NewHead(v, job)
    requires forall j :: 0 <= j < job.index ==> items[j].Live()
    requires ItemOk(After(v, job), item) && !item.EndMark()
    ensures DirectoryOk(After(v, job), items[job.index := item])
  {
    hide ItemOk, After;
    EndMarkedAfter(items, job.index, item);
    DirectoryOkAfter(v, job, items);
  }

  /** An item that owns a chain in good order is on a recorded chain. */
  lemma OwnerRecorded(v: Volume, items: seq<DirItem>, i: nat)
    requires DirectoryOk(v, items) && i < |items|
    ensures OwnsChain(items[i]) ==> items[i].cluster in v.chains
  {
    hide EndMarked;
    assert items[i].Live() ==> ItemOk(v, items[i]);
  }

  lemma NoCrossLinksAfter(v: Volume, tree: Tree, index: nat, item: DirItem)
    requires 0 in tree && index < |tree[0]| && NoCrossLinks(tree) && (OwnsChain(item) ==> item.cluster !in v.chains)
    requires forall d :: d in tree ==> DirectoryOk(v, tree[d])
    ensures NoCrossLinks(TreeWith(tree, index, item))
  {
    hide OwnsChain, DirectoryOk;
    forall d, i | d in tree && 0 <= i < |tree[d]|
      ensures OwnsChain(tree[d][i]) ==> tree[d][i].cluster in v.chains
    {
      OwnerRecorded(v, tree[d], i);
    }
  }

  /** Injection with room keeps the image well formed, with the new chain recorded and the new item in
      the root directory. */
  lemma WellFormedAfter(img: seq<Byte>, v: Volume, job: Job)
    requires WellFormed(img, v) && Allowed(img, v, job) && job.raw[0] != 0
    ensures Numbers(job.taken) && |job.data| < TWO_32 && |Final(img, v.bpb, job)| == |img|
    ensures WellFormed(Final(img, v.bpb, job), After(v, job))
  {
    ChartedAfter(img, v, job);
    RootOfTree(img, v);
    hide Final, TreeOf, Charted, RootItems, DirectoryOk, NoCrossLinks, CopiesIdentical, ItemOk, TreeWith;
    CopiesStayIdentical(img, v.bpb, v.limit, job);
    NewItemOk(v, job, |img|);
    TreeAfter(img, v, job);
    var tree := TreeOf(img, v);
    TreeOkAfter(v, job, tree);
    NoCrossLinksAfter(v, tree, job.index, NewItem(job));
  }

  lemma TreeOkAfter(v: Volume, job: Job, tree: Tree)
    requires |job.data| < TWO_32 && job.raw[0] != 0 && NewHead(v, job)
    requires 0 in tree && job.index < |tree[0]| && (forall j :: 0 <= j < job.index ==> tree[0][j].Live())
    requires ItemOk(After(v, job), NewItem(job))
    requires forall d :: d in tree ==> DirectoryOk(v, tree[d])
    ensures forall d :: d in tree ==> DirectoryOk(After(v, job), TreeWith(tree, job.index, NewItem(job))[d])
  {
    hide DirectoryOk, ItemOk;
    RootOkAfter(v, job, tree[0], NewItem(job));
    forall d | d in tree
      ensures DirectoryOk(After(v, job), tree[d])
    {
      DirectoryOkAfter(v, job, tree[d]);
    }
  }

  // ----- Lookup and paths -----

  /** Equal names find the same item. */
  lemma {:induction false} FindSameName(items: seq<DirItem>, a: seq<Byte>, b: seq<Byte>)
    requires SameIgnoringCase(a, b)
    ensures Find(items, a) == Find(items, b)
  {
    if items != [] {
      FindSameName(items[1..], a, b);
    }
  }

  lemma {:induction false} FindNothingInMarks(items: seq<DirItem>, name: seq<Byte>)
    requires forall i :: 0 <= i < |items| ==> items[i].EndMark()
    ensures Find(items, name) == None
  {
  }

  /** An item in the first slot that was not live is found by its name, unless an item before it has
      the same name; everything else is found as before. */
  lemma {:induction false} FindAfter(items: seq<DirItem>, index: nat, item: DirItem, name: seq<Byte>)
    requires index < |items| && EndMarked(items) && item.Live() && !items[index].Live()
    requires forall j :: 0 <= j < index ==> items[j].Live()
    ensures Find(items[index := item], name) ==
      if Find(items[..index], name).Some? then Find(items[..index], name)
      else if NameMatches(DecodeName(item.raw), name) then Some(item)
      else Find(items, name)
  {
    hide NameMatches, DecodeName;
    var after := items[index := item];
    if index == 0 {
      assert after[1..] == items[1..];
      if items[0].EndMark() {
        FindNothingInMarks(items[1..], name);
      }
    } else {
      assert after[1..] == items[1..][index - 1 := item] && items[..index][1..] == items[1..][..index - 1];
      EndMarkedSuffix([items[0]], items[1..]);
      FindAfter(items[1..], index - 1, item, name);
    }
  }

  /** No live item of the directory shows the name. */
  ghost predicate FreshName(items: seq<DirItem>, name: seq<Byte>)
  {
    Find(items, name) == None
  }

  /** With a fresh name, exactly the spellings of that name find the new item. */
  lemma FindAfterFresh(items: seq<DirItem>, index: nat, item: DirItem, name: seq<Byte>)
    requires index < |items| && EndMarked(items) && item.Live() && !items[index].Live()
    requires forall j :: 0 <= j < index ==> items[j].Live()
    requires FreshName(items, DecodeName(item.raw))
    ensures Find(items[index := item], name) == if NameMatches(DecodeName(item.raw), name) then Some(item)
      else Find(items, name)
    ensures NameMatches(DecodeName(item.raw), name) ==> Find(items, name) == None
  {
    FindAfter(items, index, item, name);
    FindConcat(items[..index], items[index..], name);
    assert items == items[..index] + items[index..];
    hide EndMarked, DecodeName;
    if NameMatches(DecodeName(item.raw), name) {
      FindSameName(items, DecodeName(item.raw), name);
    }
  }

  /** `tree'` finds the spellings of one name in the root directory as `item`, and is otherwise `tree`. */
  ghost predicate OneMore(tree: Tree, tree': Tree, item: DirItem)
  {
    && 0 in tree && tree'.Keys == tree.Keys && !item.IsDirectory()
    && (forall d :: d in tree && d != 0 ==> tree'[d] == tree[d])
    && (forall name ::
          Find(tree'[0], name) == if NameMatches(DecodeName(item.raw), name) then Some(item) else Find(tree[0], name))
    && (forall name :: NameMatches(DecodeName(item.raw), name) ==> Find(tree[0], name) == None)
  }

  lemma OneMoreFind(tree: Tree, tree': Tree, item: DirItem, d: nat, name: seq<Byte>)
    requires OneMore(tree, tree', item) && d in tree
    ensures d in tree'
    ensures if d == 0 && NameMatches(DecodeName(item.raw), name) then Find(tree'[d], name) == Some(item)
      && Find(tree[d], name) == None && !item.IsDirectory()
            else Find(tree'[d], name) == Find(tree[d], name)
  {
  }

  /** The same directories are reached by the same paths. */
  lemma {:induction false} DirectoriesKept(tree: Tree, tree': Tree, item: DirItem, d: nat, parts: seq<seq<Byte>>)
    requires OneMore(tree, tree', item)
    ensures WalkDirectory(tree', d, parts) == WalkDirectory(tree, d, parts)
    decreases parts
  {
    if parts != [] && d in tree {
      OneMoreFind(tree, tree', item, d, parts[0]);
      var found := Find(tree[d], parts[0]);
      if found.Some? && found.value.IsDirectory() {
        DirectoriesKept(tree, tree', item, found.value.cluster, parts[1..]);
      }
    }
  }

  /** `parts` leads to the root directory and then names the new item. */
  predicate LeadsTo(tree: Tree, item: DirItem, d: nat, parts: seq<seq<Byte>>)
  {
    && parts != [] && WalkDirectory(tree, d, parts[..|parts| - 1]) == Some(0)
    && NameMatches(DecodeName(item.raw), parts[|parts| - 1])
  }

  lemma LeadsToStep(tree: Tree, item: DirItem, d: nat, parts: seq<seq<Byte>>)
    requires |parts| > 1 && d in tree
    ensures LeadsTo(tree, item, d, parts) <==>
            var found := Find(tree[d], parts[0]);
            found.Some? && found.value.IsDirectory() && LeadsTo(tree, item, found.value.cluster, parts[1..])
  {
    hide Find, NameMatches, DecodeName;
    var n := |parts| - 1;
    assert parts[..n][0] == parts[0] && parts[..n][1..] == parts[1..][..n - 1];
    assert parts[1..][n - 1] == parts[n];
  }

  /** A path reaches the new file exactly when it leads to the root directory and ends in a spelling of
      its name; every other path reaches what it reached before. */
  lemma {:induction false} WalkAfter(tree: Tree, tree': Tree, item: DirItem, d: nat, parts: seq<seq<Byte>>)
    requires OneMore(tree, tree', item) && d in tree
    requires forall e, name :: e in tree && Find(tree[e], name).Some? && Find(tree[e], name).value.IsDirectory() ==>
      Find(tree[e], name).value.cluster in tree
    ensures Walk(tree', d, parts) == if LeadsTo(tree, item, d, parts) then Some(item) else Walk(tree, d, parts)
    decreases parts
  {
    hide OneMore, NameMatches, DecodeName, Find;
    if |parts| == 1 {
      OneMoreFind(tree, tree', item, d, parts[0]);
      assert parts[..0] == [];
    } else if |parts| > 1 {
      OneMoreFind(tree, tree', item, d, parts[0]);
      LeadsToStep(tree, item, d, parts);
      var found := Find(tree[d], parts[0]);
      if found.Some? && found.value.IsDirectory() {
        WalkAfter(tree, tree', item, found.value.cluster, parts[1..]);
      }
    }
  }

  /** The tree of a volume and the tree after a job with a fresh name. */
  lemma OneMoreAfter(tree: Tree, index: nat, item: DirItem)
    requires 0 in tree && index < |tree[0]| && EndMarked(tree[0]) && item.Live() && !item.IsDirectory()
      && !tree[0][index].Live()
    requires forall j :: 0 <= j < index ==> tree[0][j].Live()
    requires FreshName(tree[0], DecodeName(item.raw))
    ensures OneMore(tree, TreeWith(tree, index, item), item)
  {
    hide EndMarked, FreshName, Find, NameMatches, DecodeName;
    var tree' := TreeWith(tree, index, item);
    forall name
      ensures Find(tree'[0], name) ==
        if NameMatches(DecodeName(item.raw), name) then Some(item) else Find(tree[0], name)
      ensures NameMatches(DecodeName(item.raw), name) ==> Find(tree[0], name) == None
    {
      FindAfterFresh(tree[0], index, item, name);
    }
  }

  /** Directories lead to directories. */
  ghost predicate Closed(tree: Tree)
  {
    forall d, name :: d in tree && Find(tree[d], name).Some? && Find(tree[d], name).value.IsDirectory() ==>
      Find(tree[d], name).value.cluster in tree
  }

  lemma TreeClosed(img: seq<Byte>, v: Volume)
    requires WellFormed(img, v)
    ensures Charted(img, v) && Closed(TreeOf(img, v))
  {
    hide Find, NoCrossLinks, CopiesIdentical;
    var tree := TreeOf(img, v);
    forall d, name | d in tree && Find(tree[d], name).Some? && Find(tree[d], name).value.IsDirectory()
      ensures Find(tree[d], name).value.cluster in tree
    {
      FoundItemOk(img, v, d, name);
    }
  }

  // ----- Contents -----

  /** Every file that was in good order keeps its bytes. */
  lemma OldBytesKept(img: seq<Byte>, v: Volume, job: Job, e: DirItem)
    requires Allowed(img, v, job) && ItemOk(v, e) && !e.IsDirectory()
    ensures Numbers(job.taken) && |job.data| < TWO_32 && |Final(img, v.bpb, job)| == |img|
    ensures Charted(Final(img, v.bpb, job), After(v, job))
    ensures FileBytes(Final(img, v.bpb, job), After(v, job), e) == FileBytes(img, v, e)
  {
    ChartedAfter(img, v, job);
    if e.filesize > 0 {
      ChainKept(img, v, job, e.cluster);
    }
  }

  lemma ChainKept(img: seq<Byte>, v: Volume, job: Job, h: nat)
    requires Allowed(img, v, job) && h in v.chains
    ensures Numbers(job.taken) && |job.data| < TWO_32 && |Final(img, v.bpb, job)| == |img|
    ensures Charted(Final(img, v.bpb, job), After(v, job)) && h in After(v, job).chains
      && After(v, job).chains[h] == v.chains[h]
    ensures ChainFits(|img|, v.bpb, v.chains[h])
    ensures ChainBytes(Final(img, v.bpb, job), v.bpb, v.chains[h]) == ChainBytes(img, v.bpb, v.chains[h])
  {
    hide Final, Allowed, ClusterBytes, IsChain, GeometryOk, ChainsOk, LayoutOk, FatTable, JobOk, ChainFits, Flatten;
    AllowedFacts(img, v, job);
    ChartedAfter(img, v, job);
    ChainInside(img, v, h);
    var final, chain := Final(img, v.bpb, job), v.chains[h];
    forall i | 0 <= i < |chain|
      ensures ClustersOf(final, v.bpb, chain)[i] == ClustersOf(img, v.bpb, chain)[i]
    {
      OtherCluster(img, v.bpb, v.limit, job, chain[i]);
    }
    assert ClustersOf(final, v.bpb, chain) == ClustersOf(img, v.bpb, chain);
  }

  /** The new file holds the data. */
  lemma NewBytes(img: seq<Byte>, v: Volume, job: Job)
    requires Allowed(img, v, job)
    ensures Numbers(job.taken) && |job.data| < TWO_32 && |Final(img, v.bpb, job)| == |img|
    ensures Charted(Final(img, v.bpb, job), After(v, job))
    ensures FileBytes(Final(img, v.bpb, job), After(v, job), NewItem(job)) == job.data
  {
    hide Final, Allowed, GeometryOk, ChainsOk, LayoutOk, FatTable, ChainFits, Charted, ChainBytes;
    AllowedFacts(img, v, job);
    ChartedAfter(img, v, job);
    ChainHoldsData(img, v.bpb, v.limit, job);
  }

  // ----- The theorem -----

  lemma EncodedIsLive(name: seq<Byte>)
    requires Ascii(name) && 0 !in name
    ensures EncodeName(name)[0] != 0 && EncodeName(name)[0] != 0xE5
  {
    var upper := UpperAll(name);
    var base := BeforeDot(upper);
    assert base != [] ==> Fit(base, 8)[0] == base[0] == ToUpper(name[0]) && name[0] in name;
    assert base == [] ==> Fit(base, 8)[0] == SPACE;
  }

  /** `v'` and `item` are what injecting `data` as `name` into a volume leaves: a well-formed volume whose
      paths are the old ones and those that name the new file, with all contents in place. */
  ghost predicate Stored(img: seq<Byte>, v: Volume, img': seq<Byte>, v': Volume, item: DirItem, data: seq<Byte>)
    requires WellFormed(img, v)
  {
    && |img'| == |img| && WellFormed(img', v') && v'.bpb == v.bpb && v'.limit == v.limit && v'.dirs == v.dirs
    && ItemOk(v', item) && !item.IsDirectory() && item.filesize == |data|
    && FileBytes(img', v', item) == data
    && (forall parts :: Walk(TreeOf(img', v'), 0, parts) ==
          if LeadsTo(TreeOf(img, v), item, 0, parts) then Some(item) else Walk(TreeOf(img, v), 0, parts))
    && (forall parts :: WalkDirectory(TreeOf(img', v'), 0, parts) == WalkDirectory(TreeOf(img, v), 0, parts))
    && (forall e :: ItemOk(v, e) && !e.IsDirectory() ==> FileBytes(img', v', e) == FileBytes(img, v, e))
  }

  lemma WalksAfter(tree: Tree, tree': Tree, item: DirItem)
    requires OneMore(tree, tree', item) && Closed(tree)
    ensures forall parts ::
      Walk(tree', 0, parts) == if LeadsTo(tree, item, 0, parts) then Some(item) else Walk(tree, 0, parts)
    ensures forall parts :: WalkDirectory(tree', 0, parts) == WalkDirectory(tree, 0, parts)
  {
    assert 0 in tree;
    hide OneMore, LeadsTo, Find;
    forall parts
      ensures Walk(tree', 0, parts) == if LeadsTo(tree, item, 0, parts) then Some(item) else Walk(tree, 0, parts)
      ensures WalkDirectory(tree', 0, parts) == WalkDirectory(tree, 0, parts)
    {
      WalkAfter(tree, tree', item, 0, parts);
      DirectoriesKept(tree, tree', item, 0, parts);
    }
  }

  lemma RootBefore(img: seq<Byte>, v: Volume, job: Job)
    requires WellFormed(img, v) && Allowed(img, v, job)
    ensures 0 in TreeOf(img, v) && job.index < |TreeOf(img, v)[0]| && EndMarked(TreeOf(img, v)[0])
    ensures !TreeOf(img, v)[0][job.index].Live() && forall j :: 0 <= j < job.index ==> TreeOf(img, v)[0][j].Live()
  {
    hide CopiesIdentical, NoCrossLinks, EndMarked, ItemOk;
    RootOfTree(img, v);
    assert DirectoryOk(v, TreeOf(img, v)[0]);
  }

  lemma PathsAfter(img: seq<Byte>, v: Volume, job: Job)
    requires WellFormed(img, v) && Allowed(img, v, job) && job.raw[0] != 0 && job.raw[0] != 0xE5
    requires 0 in v.dirs && FreshName(TreeOf(img, v)[0], DecodeName(job.raw))
    ensures Numbers(job.taken) && |job.data| < TWO_32 && |Final(img, v.bpb, job)| == |img|
    ensures Charted(Final(img, v.bpb, job), After(v, job))
    ensures var tree, tree', item := TreeOf(img, v), TreeOf(Final(img, v.bpb, job), After(v, job)), NewItem(job);
            && (forall parts ::
                  Walk(tree', 0, parts) == if LeadsTo(tree, item, 0, parts) then Some(item) else Walk(tree, 0, parts))
            && (forall parts :: WalkDirectory(tree', 0, parts) == WalkDirectory(tree, 0, parts))
  {
    hide Final, Charted, WellFormed, Allowed, TreeOf, LeadsTo, Find, DecodeName, TreeWith, EndMarked, OneMore;
    hide Closed, FreshName, Walk, WalkDirectory, After;
    TreeClosed(img, v);
    RootBefore(img, v, job);
    TreeAfter(img, v, job);
    var tree, item := TreeOf(img, v), NewItem(job);
    OneMoreAfter(tree, job.index, item);
    WalksAfter(tree, TreeWith(tree, job.index, item), item);
  }

  /** Injecting data under a fresh name into a well-formed volume with room succeeds, and what it leaves
      is the old volume and the new file. */
  lemma InjectionStores(img: seq<Byte>, v: Volume, data: seq<Byte>, name: seq<Byte>) returns (v': Volume, item: DirItem)
    requires WellFormed(img, v) && Room(img, v, data) && Ascii(name) && 0 !in name
    requires Charted(img, v) && 0 in v.dirs && FreshName(TreeOf(img, v)[0], DecodeName(EncodeName(name)))
    ensures Injected(img, data, name).0 == Done && item.raw == EncodeName(name)
    ensures Stored(img, v, Injected(img, data, name).1, v', item, data)
  {
    hide Injected, Final, Charted, Room, WellFormed, Allowed, TreeOf, LeadsTo, DecodeName, EncodeName, FreshName;
    hide Walk, WalkDirectory, ItemOk;
    EncodedIsLive(name);
    var job := InjectedIs(img, v, data, name);
    WellFormedAfter(img, v, job);
    PathsAfter(img, v, job);
    NewBytes(img, v, job);
    NewIsOk(img, v, job);
    v', item := After(v, job), NewItem(job);
    forall e | ItemOk(v, e) && !e.IsDirectory()
      ensures FileBytes(Final(img, v.bpb, job), v', e) == FileBytes(img, v, e)
    {
      OldBytesKept(img, v, job, e);
    }
  }

  lemma NewIsOk(img: seq<Byte>, v: Volume, job: Job)
    requires Allowed(img, v, job)
    ensures Numbers(job.taken) && |job.data| < TWO_32
    ensures ItemOk(After(v, job), NewItem(job)) && !NewItem(job).IsDirectory() && NewItem(job).filesize == |job.data|
  {
    ChartedAfter(img, v, job);
    NewItemOk(v, job, |img|);
  }

  /** Under an 8.3 name, fresh up to case, the data reads back under every spelling of the name, in small
      letters and in capitals among them. */
  lemma RoundTrip(img: seq<Byte>, v: Volume, data: seq<Byte>, name: seq<Byte>) returns (v': Volume, item: DirItem)
    requires WellFormed(img, v) && Room(img, v, data) && Ascii(name) && Fits83(name)
    requires Charted(img, v) && 0 in v.dirs && FreshName(TreeOf(img, v)[0], name)
    ensures Injected(img, data, name).0 == Done && Stored(img, v, Injected(img, data, name).1, v', item, data)
    ensures forall spelling :: SameIgnoringCase(name, spelling) ==>
      Walk(TreeOf(Injected(img, data, name).1, v'), 0, [spelling]) == Some(item)
    ensures forall spelling :: spelling in {Lowered(name), Raised(name)} ==>
      Walk(TreeOf(Injected(img, data, name).1, v'), 0, [spelling]) == Some(item)
  {
    hide Injected, Charted, Room, WellFormed, TreeOf, DecodeName, EncodeName, Walk, ItemOk, Find, SameIgnoringCase;
    hide Lowered, Raised;
    RootOfTree(img, v);
    NameRoundTrip(name);
    EncodedNameMatches(name, UpperAll(name));
    UpperMeans(name);
    FindSameName(TreeOf(img, v)[0], name, UpperAll(name));
    v', item := InjectionStores(img, v, data, name);
    TreeClosed(Injected(img, data, name).1, v');
    forall spelling | SameIgnoringCase(name, spelling)
      ensures Walk(TreeOf(Injected(img, data, name).1, v'), 0, [spelling]) == Some(item)
    {
      EncodedNameMatches(name, spelling);
      RootPath(TreeOf(img, v), item, spelling);
    }
    Spellings(name);
  }

  lemma RootPath(tree: Tree, item: DirItem, name: seq<Byte>)
    requires NameMatches(DecodeName(item.raw), name)
    ensures LeadsTo(tree, item, 0, [name])
  {
  }
}
