/** What the writer does to a well-formed image: it stays well formed, every file that could be reached
    still reads the same, and the new file reads back as the data. */
module InjectFacts {
  import opened Bytes
  import opened Multiples
  import opened Blocks
  import opened CStrings
  import opened FatLayout
  import opened FatNames
  import opened FatDirectory
  import opened ImageWriter

  // ----- The table copies -----

  /** Entries of the chain lie inside a table of `size` bytes. */
  predicate InTable(taken: seq<nat>, size: nat)
  {
    forall i :: 0 <= i < |taken| ==> 2 * taken[i] + 2 <= size
  }

  lemma PatchSlice(s: seq<Byte>, start: nat, size: nat, at: nat, data: seq<Byte>)
    requires at + |data| <= size && start + size <= |s|
    ensures Patch(s, start + at, data)[start..start + size] == Patch(s[start..start + size], at, data)
  {
    hide Patch;
    var a, b := Patch(s, start + at, data)[start..start + size], Patch(s[start..start + size], at, data);
    assert forall k :: 0 <= k < size ==> a[k] == b[k];
  }

  lemma LinkFatNone(img: seq<Byte>, start: nat, taken: seq<nat>)
    requires Numbers(taken)
    ensures LinkFat(img, start, taken, 0) == img
  {
  }

  lemma LinkFatNext(img: seq<Byte>, start: nat, taken: seq<nat>, n: nat)
    requires n < |taken| && Numbers(taken)
    ensures LinkFat(img, start, taken, n + 1) ==
      Overwrite(LinkFat(img, start, taken, n), start + 2 * taken[n], Le16(Link(taken, n)))
  {
    hide Overwrite;
  }

  /** `r` is `img` with the stretch of `size` bytes at `start` replaced by `part`. */
  ghost predicate Replaced(img: seq<Byte>, r: seq<Byte>, start: nat, size: nat, part: seq<Byte>)
    requires start + size <= |img|
  {
    |r| == |img| && r[start..start + size] == part && forall x :: 0 <= x < |img| && !(start <= x < start + size) ==>
      r[x] == img[x]
  }

  lemma ReplacedMore(img: seq<Byte>, r: seq<Byte>, start: nat, size: nat, part: seq<Byte>, at: nat, data: seq<Byte>)
    requires start + size <= |img| && Replaced(img, r, start, size, part) && at + |data| <= size
    ensures Replaced(img, Overwrite(r, start + at, data), start, size, Overwrite(part, at, data))
  {
    hide Patch;
    PatchSlice(r, start, size, at, data);
  }

  /** Linking in the image is linking in the table cut out of it, and touches nothing else. */
  lemma {:induction false} LinkFatIs(img: seq<Byte>, start: nat, size: nat, taken: seq<nat>, n: nat)
    requires start + size <= |img| && n <= |taken| && Numbers(taken) && InTable(taken, size)
    ensures Replaced(img, LinkFat(img, start, taken, n), start, size, LinkFat(img[start..start + size], 0, taken, n))
  {
    hide LinkFat, Overwrite, Link, Le16;
    var part := img[start..start + size];
    LinkFatNone(img, start, taken);
    LinkFatNone(part, 0, taken);
    if n > 0 {
      LinkFatIs(img, start, size, taken, n - 1);
      hide Replaced;
      LinkFatNext(img, start, taken, n - 1);
      LinkFatNext(part, 0, taken, n - 1);
      ReplacedMore(img, LinkFat(img, start, taken, n - 1), start, size, LinkFat(part, 0, taken, n - 1),
        2 * taken[n - 1], Le16(Link(taken, n - 1)));
    }
  }

  /** Copy `k` of the table. */
  function TableCopy(img: seq<Byte>, g: Geometry, k: nat): seq<Byte>
    requires g.fatStart + Times(k, g.fatBytes) + g.fatBytes <= |img|
  {
    img[g.fatStart + Times(k, g.fatBytes)..g.fatStart + Times(k, g.fatBytes) + g.fatBytes]
  }

  lemma CopyInside(g: Geometry, k: nat)
    requires k < g.fats
    ensures Times(k, g.fatBytes) + g.fatBytes <= Times(g.fats, g.fatBytes)
  {
    TimesOrder(k, g.fats, g.fatBytes);
  }

  lemma CopiesApart(g: Geometry, j: nat, k: nat)
    requires j != k
    ensures Times(j, g.fatBytes) + g.fatBytes <= Times(k, g.fatBytes)
      || Times(k, g.fatBytes) + g.fatBytes <= Times(j, g.fatBytes)
  {
    if j < k { TimesOrder(j, k, g.fatBytes); } else { TimesOrder(k, j, g.fatBytes); }
  }

  lemma SameSlice(a: seq<Byte>, b: seq<Byte>, lo: nat, hi: nat)
    requires lo <= hi <= |a| == |b| && forall x :: lo <= x < hi ==> a[x] == b[x]
    ensures a[lo..hi] == b[lo..hi]
  {
  }

  /** After the first `k` copies were written, each of them is linked and the others are as they were. */
  lemma {:induction false} LinkCopiesAt(img: seq<Byte>, g: Geometry, taken: seq<nat>, k: nat, j: nat)
    requires g.fatStart + Times(g.fats, g.fatBytes) <= |img| && Numbers(taken) && InTable(taken, g.fatBytes)
    requires k <= g.fats && j < g.fats
    ensures |LinkCopies(img, g, taken, k)| == |img|
    ensures g.fatStart + Times(j, g.fatBytes) + g.fatBytes <= |img|
    ensures TableCopy(LinkCopies(img, g, taken, k), g, j)
         == if j < k then LinkFat(TableCopy(img, g, j), 0, taken, |taken|) else TableCopy(img, g, j)
    ensures forall x :: 0 <= x < |img| && !(g.fatStart <= x < g.fatStart + Times(g.fats, g.fatBytes)) ==>
      LinkCopies(img, g, taken, k)[x] == img[x]
  {
    hide InTable, Numbers, LinkFat, Times, TableCopy;
    CopyInside(g, j);
    if k > 0 {
      LinkCopiesAt(img, g, taken, k - 1, j);
      CopyInside(g, k - 1);
      LinkCopiesStep(LinkCopies(img, g, taken, k - 1), g, taken, k - 1, j);
    }
  }

  lemma LinkCopiesStep(img: seq<Byte>, g: Geometry, taken: seq<nat>, k: nat, j: nat)
    requires Numbers(taken) && InTable(taken, g.fatBytes)
    requires g.fatStart + Times(k, g.fatBytes) + g.fatBytes <= |img|
      && g.fatStart + Times(j, g.fatBytes) + g.fatBytes <= |img|
    ensures var r := LinkFat(img, g.fatStart + Times(k, g.fatBytes), taken, |taken|);
            && |r| == |img|
            && TableCopy(r, g, j) ==
              (if j == k then LinkFat(TableCopy(img, g, j), 0, taken, |taken|) else TableCopy(img, g, j))
            && var from := g.fatStart + Times(k, g.fatBytes);
               forall x :: 0 <= x < |img| && !(from <= x < from + g.fatBytes) ==> r[x] == img[x]
  {
    hide LinkFat, Times;
    var start, at := g.fatStart + Times(k, g.fatBytes), g.fatStart + Times(j, g.fatBytes);
    LinkFatIs(img, start, g.fatBytes, taken, |taken|);
    if j != k {
      CopiesApart(g, j, k);
      SameSlice(LinkFat(img, start, taken, |taken|), img, at, at + g.fatBytes);
    }
  }

  lemma PatchWord(t: seq<Byte>, a: nat, w: U16, c: nat)
    requires 2 * a + 2 <= |t| && 2 * c + 2 <= |t|
    ensures Le16At(Patch(t, 2 * a, Le16(w)), 2 * c) == if a == c then w else Le16At(t, 2 * c)
  {
  }

  predicate Ascending(s: seq<nat>)
  {
    forall i, j :: 0 <= i < j < |s| ==> s[i] < s[j]
  }

  /** The first `n` links leave the other entries of a table. */
  lemma {:induction false} LinkedOther(t: seq<Byte>, taken: seq<nat>, n: nat, c: nat)
    requires n <= |taken| && Numbers(taken) && InTable(taken, |t|) && 2 * c + 2 <= |t|
    requires forall i :: 0 <= i < n ==> taken[i] != c
    ensures |LinkFat(t, 0, taken, n)| == |t| && Le16At(LinkFat(t, 0, taken, n), 2 * c) == Le16At(t, 2 * c)
  {
    hide Patch, Le16At, Le16, Link, LinkFat;
    LinkFatNone(t, 0, taken);
    if n > 0 {
      LinkedOther(t, taken, n - 1, c);
      LinkFatStep(t, taken, n - 1);
      PatchWord(LinkFat(t, 0, taken, n - 1), taken[n - 1], Link(taken, n - 1), c);
    }
  }

  /** Each of the first `n` links is in its entry. */
  lemma {:induction false} LinkedEntry(t: seq<Byte>, taken: seq<nat>, n: nat, i: nat)
    requires i < n <= |taken| && Numbers(taken) && InTable(taken, |t|) && Ascending(taken)
    ensures |LinkFat(t, 0, taken, n)| == |t| && Le16At(LinkFat(t, 0, taken, n), 2 * taken[i]) == Link(taken, i)
  {
    hide Patch, Le16At, Le16, Link, LinkFat;
    if i < n - 1 {
      assert taken[i] != taken[n - 1];
      LinkedEntry(t, taken, n - 1, i);
    } else {
      LinkedOther(t, taken, n - 1, taken[i]);
    }
    LinkFatStep(t, taken, n - 1);
    PatchWord(LinkFat(t, 0, taken, n - 1), taken[n - 1], Link(taken, n - 1), taken[i]);
  }

  lemma LinkFatStep(t: seq<Byte>, taken: seq<nat>, n: nat)
    requires n < |taken| && Numbers(taken) && InTable(taken, |t|) && |LinkFat(t, 0, taken, n)| == |t|
    ensures LinkFat(t, 0, taken, n + 1) == Patch(LinkFat(t, 0, taken, n), 2 * taken[n], Le16(Link(taken, n)))
  {
    hide Patch;
  }

  /** `fat'` is `fat` with the links of the chain `taken` entered. */
  ghost predicate Linked(fat: seq<U16>, fat': seq<U16>, taken: seq<nat>)
    requires Numbers(taken)
  {
    && |fat'| == |fat|
    && (forall c :: 0 <= c < |fat| && c !in taken ==> fat'[c] == fat[c])
    && (forall i :: 0 <= i < |taken| ==> taken[i] < |fat| && fat'[taken[i]] == Link(taken, i))
  }

  // ----- The two searches -----

  /** The free clusters below `n`, in ascending order. */
  function FreeUpTo(fat: seq<U16>, n: nat): (r: seq<nat>)
    requires n <= |fat| <= CLUSTER_NUMBERS
    ensures Numbers(r) && Ascending(r)
    ensures forall i :: 0 <= i < |r| ==> r[i] < n && fat[r[i]] == 0
  {
    if n <= 2 then [] else FreeUpTo(fat, n - 1) + if fat[n - 1] == 0 then [n - 1] else []
  }

  lemma {:induction false} FreeExtends(fat: seq<U16>, n: nat, m: nat)
    requires n <= m <= |fat| <= CLUSTER_NUMBERS
    ensures FreeUpTo(fat, n) <= FreeUpTo(fat, m)
  {
    if n < m {
      FreeExtends(fat, n, m - 1);
    }
  }

  lemma FreeStep(fat: seq<U16>, i: nat)
    requires 2 <= i < |fat| <= CLUSTER_NUMBERS
    ensures FreeUpTo(fat, i + 1) == if fat[i] == 0 then FreeUpTo(fat, i) + [i] else FreeUpTo(fat, i)
  {
  }

  lemma ScanStep(img: seq<Byte>, start: nat, needed: nat, i: nat, free: seq<nat>)
    requires 2 <= i < CLUSTER_NUMBERS && Numbers(free) && start + 2 * i + 2 <= |img|
    ensures Scan(img, start, needed, i, free) ==
      if Le16At(img, start + 2 * i) != 0 then Scan(img, start, needed, i + 1, free)
      else if |free| + 1 == needed then Some(free + [i])
      else Scan(img, start, needed, i + 1, free + [i])
  {
  }

  /** With enough free clusters below the limit the scan takes the first of them. */
  lemma {:induction false} ScanTakes(img: seq<Byte>, b: Bpb, limit: nat, needed: nat, i: nat)
    requires FatStart(b) + 2 * limit <= |img| && 2 <= i <= limit <= CLUSTER_NUMBERS
    requires |FreeUpTo(FatTable(img, b, limit), i)| < needed <= |FreeUpTo(FatTable(img, b, limit), limit)|
    ensures Scan(img, FatStart(b), needed, i, FreeUpTo(FatTable(img, b, limit), i))
         == Some(FreeUpTo(FatTable(img, b, limit), limit)[..needed])
    decreases limit - i
  {
    hide Scan, FreeUpTo, FatStart, Le16At;
    var fat := FatTable(img, b, limit);
    var free, all := FreeUpTo(fat, i), FreeUpTo(fat, limit);
    if i < limit {
      FreeStep(fat, i);
      ScanStep(img, FatStart(b), needed, i, free);
      FreeExtends(fat, i + 1, limit);
      var more := FreeUpTo(fat, i + 1);
      assert fat[i] == Le16At(img, FatStart(b) + 2 * i);
      if |more| < needed {
        ScanTakes(img, b, limit, needed, i + 1);
      } else {
        assert more == free + [i];
        assert more == all[..needed];
      }
    }
  }

  /** The scan only adds clusters, and only later ones. */
  lemma {:induction false} ScanExtends(img: seq<Byte>, start: nat, needed: nat, i: nat, free: seq<nat>)
    requires 2 <= i <= CLUSTER_NUMBERS && Numbers(free)
    ensures var r := Scan(img, start, needed, i, free);
            r.Some? ==> |free| <= |r.value| && forall j :: |free| <= j < |r.value| ==> r.value[j] >= i
    decreases CLUSTER_NUMBERS - i
  {
    if i < CLUSTER_NUMBERS && start + 2 * i + 2 <= |img| {
      hide Numbers, Le16At;
      var more := if Le16At(img, start + 2 * i) != 0 then free else free + [i];
      if Le16At(img, start + 2 * i) != 0 || |free| + 1 != needed {
        ScanExtends(img, start, needed, i + 1, more);
        ScanKeepsFree(img, start, needed, i + 1, more);
      }
    }
  }

  lemma {:induction false} ScanKeepsFree(img: seq<Byte>, start: nat, needed: nat, i: nat, free: seq<nat>)
    requires 2 <= i <= CLUSTER_NUMBERS && Numbers(free)
    ensures var r := Scan(img, start, needed, i, free); r.Some? ==> free <= r.value
    decreases CLUSTER_NUMBERS - i
  {
    if i < CLUSTER_NUMBERS && start + 2 * i + 2 <= |img| {
      var more := if Le16At(img, start + 2 * i) != 0 then free else free + [i];
      if Le16At(img, start + 2 * i) != 0 || |free| + 1 != needed {
        ScanKeepsFree(img, start, needed, i + 1, more);
        assert free <= more;
      }
    }
  }

  /** Without enough free clusters below the limit the scan goes on beyond it. */
  lemma {:induction false} ScanPasses(img: seq<Byte>, b: Bpb, limit: nat, needed: nat, i: nat)
    requires FatStart(b) + 2 * limit <= |img| && 2 <= i <= limit <= CLUSTER_NUMBERS
    requires |FreeUpTo(FatTable(img, b, limit), limit)| < needed
    ensures Scan(img, FatStart(b), needed, i, FreeUpTo(FatTable(img, b, limit), i))
         == Scan(img, FatStart(b), needed, limit, FreeUpTo(FatTable(img, b, limit), limit))
    decreases limit - i
  {
    hide Scan, FreeUpTo, FatStart, Le16At;
    var fat := FatTable(img, b, limit);
    if i < limit {
      FreeStep(fat, i);
      ScanStep(img, FatStart(b), needed, i, FreeUpTo(fat, i));
      FreeExtends(fat, i + 1, limit);
      assert fat[i] == Le16At(img, FatStart(b) + 2 * i);
      ScanPasses(img, b, limit, needed, i + 1);
    }
  }

  /** The scan takes enough clusters, all of them usable, exactly when there are enough free ones below
      the limit. Otherwise it fails or takes one beyond. */
  lemma ScanInRange(img: seq<Byte>, b: Bpb, limit: nat, needed: nat)
    requires FatStart(b) + 2 * limit <= |img| && 2 <= limit <= CLUSTER_NUMBERS && needed > 0
    ensures var r := Scan(img, FatStart(b), needed, 2, []);
            (r.Some? && |r.value| >= needed && forall j :: 0 <= j < |r.value| ==> r.value[j] < limit)
              <==> needed <= |FreeUpTo(FatTable(img, b, limit), limit)|
  {
    hide Scan, FatStart, FatTable;
    var fat := FatTable(img, b, limit);
    assert FreeUpTo(fat, 2) == [];
    if needed <= |FreeUpTo(fat, limit)| {
      ScanTakes(img, b, limit, needed, 2);
    } else {
      ScanPasses(img, b, limit, needed, 2);
      ScanExtends(img, FatStart(b), needed, limit, FreeUpTo(fat, limit));
      var r := Scan(img, FatStart(b), needed, 2, []);
      assert r.Some? && |r.value| >= needed ==> r.value[|FreeUpTo(fat, limit)|] >= limit;
    }
  }

  lemma {:induction false} RootSlotIs(img: seq<Byte>, at: nat, n: nat, i: nat)
    requires i <= n && at + ITEM_SIZE * n <= |img|
    ensures var items := ItemsAt(img, at, n);
            match RootSlot(img, at, n, i)
            case Short => false
            case Full => forall j :: i <= j < n ==> items[j].Live()
            case Free(k) => !items[k].Live() && forall j :: i <= j < k ==> items[j].Live()
    decreases n - i
  {
    if i < n {
      RootSlotIs(img, at, n, i + 1);
      FirstByte(img, at, n, i);
      hide ParseItem, ItemsAt;
    }
  }

  lemma FirstByte(img: seq<Byte>, at: nat, n: nat, i: nat)
    requires i < n && at + ITEM_SIZE * n <= |img|
    ensures ItemsAt(img, at, n)[i].Live() <==> img[at + ITEM_SIZE * i] !in {0x00, 0xE5}
  {
  }

  // ----- The three kinds of writes together -----

  /** A file to be written: its clusters, none for an empty file, the cluster number and the place of its
      root entry, its encoded name and its bytes. */
  datatype Job = Job(taken: seq<nat>, head: U16, index: nat, raw: RawName, data: seq<Byte>)

  function GeometryFor(b: Bpb): Geometry
  {
    Geometry(FatStart(b), FatBytes(b), b.fatCopies, RootStart(b), b.rootDirEntries, DataStart(b), ClusterSize(b))
  }

  /** The clusters are usable, and as many as the data takes; the entry is one of the root directory. */
  ghost predicate JobOk(job: Job, b: Bpb, limit: nat, length: nat)
  {
    && GeometryOk(b, limit, length)
    && Ascending(job.taken) && (forall i :: 0 <= i < |job.taken| ==> 2 <= job.taken[i] < limit)
    && (if job.taken == [] then job.data == []
        else
          && job.head == job.taken[0]
          && Times(|job.taken| - 1, ClusterSize(b)) < |job.data| <= Times(|job.taken|, ClusterSize(b)))
    && job.index < b.rootDirEntries
    && |job.data| < TWO_32
  }

  function NewItem(job: Job): DirItem
    requires |job.data| < TWO_32
  {
    DirItem(job.raw, ARCHIVE, job.head, |job.data|)
  }

  lemma JobFacts(job: Job, b: Bpb, limit: nat, length: nat)
    requires JobOk(job, b, limit, length)
    ensures Numbers(job.taken) && InTable(job.taken, FatBytes(b)) && ChainFits(length, b, job.taken)
    ensures 512 <= FatStart(b) && FatStart(b) + FatBytes(b) <= RootStart(b) <= DataStart(b) <= length
    ensures RootStart(b) + ITEM_SIZE * job.index + ITEM_SIZE <= DataStart(b)
    ensures forall i :: 0 <= i < |job.taken| ==> DataStart(b) <= ClusterStart(b, job.taken[i])
    ensures FatStart(b) + 2 * limit <= FatStart(b) + FatBytes(b)
  {
    Landmarks(b, limit, length);
  }

  /** The image after a job. */
  function Final(img: seq<Byte>, b: Bpb, job: Job): seq<Byte>
    requires Numbers(job.taken) && |job.data| < TWO_32
  {
    var g := GeometryFor(b);
    var written := WriteData(LinkCopies(img, g, job.taken, g.fats), g, job.data, job.taken, |job.taken|);
    Overwrite(written, RootStart(b) + ITEM_SIZE * job.index, EncodeItem(job.raw, job.head, |job.data|))
  }

  lemma PatchOutside(s: seq<Byte>, at: nat, data: seq<Byte>, lo: nat, hi: nat)
    requires at + |data| <= |s| && lo <= hi <= |s| && (hi <= at || at + |data| <= lo)
    ensures Patch(s, at, data)[lo..hi] == s[lo..hi]
  {
    hide Patch;
  }

  lemma ChunkSize(data: seq<Byte>, i: nat, size: nat)
    ensures |Chunk(data, i, size)| <= size
  {
  }

  lemma WriteDataUnfold(img: seq<Byte>, g: Geometry, data: seq<Byte>, taken: seq<nat>, n: nat)
    requires Numbers(taken) && n < |taken|
    ensures WriteData(img, g, data, taken, n + 1) ==
      Overwrite(WriteData(img, g, data, taken, n), ClusterAt(g, taken[n]), Chunk(data, n, g.clusterSize))
  {
    hide Overwrite, ClusterAt, Chunk;
  }

  lemma PlacesAgree(b: Bpb, c: nat)
    requires 2 <= c
    ensures ClusterAt(GeometryFor(b), c) == ClusterStart(b, c) && GeometryFor(b).clusterSize == ClusterSize(b)
  {
  }

  lemma WriteDataStep(img: seq<Byte>, b: Bpb, data: seq<Byte>, taken: seq<nat>, n: nat)
    requires ChainFits(|img|, b, taken) && Numbers(taken) && n < |taken|
    requires |WriteData(img, GeometryFor(b), data, taken, n)| == |img|
    ensures 2 <= taken[n]
      && ClusterStart(b, taken[n]) + |Chunk(data, n, ClusterSize(b))| <= ClusterStart(b, taken[n]) + ClusterSize(b) <=
      |img|
    ensures WriteData(img, GeometryFor(b), data, taken, n + 1)
         == Patch(WriteData(img, GeometryFor(b), data, taken, n), ClusterStart(b, taken[n]),
           Chunk(data, n, ClusterSize(b)))
  {
    hide Patch, Chunk, WriteData, Overwrite, ClusterAt, ClusterStart, ClusterSize, GeometryFor;
    ChunkSize(data, n, ClusterSize(b));
    PlacesAgree(b, taken[n]);
    WriteDataUnfold(img, GeometryFor(b), data, taken, n);
  }

  lemma WriteDataStart(img: seq<Byte>, g: Geometry, data: seq<Byte>, taken: seq<nat>)
    requires Numbers(taken)
    ensures WriteData(img, g, data, taken, 0) == img
  {
  }

  /** Writing the data leaves every stretch of bytes outside the chosen clusters. */
  lemma {:induction false} WriteDataOutside(img: seq<Byte>, b: Bpb, data: seq<Byte>, taken: seq<nat>, n: nat, lo: nat,
          hi: nat)
    requires ChainFits(|img|, b, taken) && Numbers(taken) && n <= |taken| && lo <= hi <= |img|
    requires forall i :: 0 <= i < n ==>
      2 <= taken[i] && (hi <= ClusterStart(b, taken[i]) || ClusterStart(b, taken[i]) + ClusterSize(b) <= lo)
    ensures var r := WriteData(img, GeometryFor(b), data, taken, n); |r| == |img| && r[lo..hi] == img[lo..hi]
  {
    hide Patch, Chunk, WriteData, ClusterStart, ClusterSize, ChainFits, GeometryFor;
    if n == 0 {
      WriteDataStart(img, GeometryFor(b), data, taken);
    } else {
      WriteDataOutside(img, b, data, taken, n - 1, lo, hi);
      WriteDataStep(img, b, data, taken, n - 1);
      PatchOutside(WriteData(img, GeometryFor(b), data, taken, n - 1), ClusterStart(b, taken[n - 1]),
        Chunk(data, n - 1, ClusterSize(b)), lo, hi);
    }
  }

  lemma ClustersApart(b: Bpb, c: nat, d: nat)
    requires 2 <= c && 2 <= d && c != d
    ensures ClusterStart(b, c) + ClusterSize(b) <= ClusterStart(b, d)
      || ClusterStart(b, d) + ClusterSize(b) <= ClusterStart(b, c)
  {
    if c < d { ClusterOrder(b, c, d); } else { ClusterOrder(b, d, c); }
  }

  lemma PatchInside(s: seq<Byte>, at: nat, data: seq<Byte>)
    requires at + |data| <= |s|
    ensures Patch(s, at, data)[at..at + |data|] == data
  {
    hide Patch;
  }

  /** Each chosen cluster starts with its piece of the data. */
  lemma {:induction false} WriteDataInside(img: seq<Byte>, b: Bpb, data: seq<Byte>, taken: seq<nat>, n: nat, i: nat)
    requires ChainFits(|img|, b, taken) && Numbers(taken) && Ascending(taken) && i < n <= |taken|
    ensures var r, piece, at :=
      WriteData(img, GeometryFor(b), data, taken, n), Chunk(data, i, ClusterSize(b)), ClusterStart(b, taken[i]);
            |r| == |img| && at + |piece| <= |img| && r[at..at + |piece|] == piece
  {
    hide Patch, Chunk, WriteData, ClusterStart, ClusterSize, ChainFits, GeometryFor;
    var last, at := taken[n - 1], ClusterStart(b, taken[n - 1]);
    var before, piece := WriteData(img, GeometryFor(b), data, taken, n - 1), Chunk(data, n - 1, ClusterSize(b));
    if i < n - 1 {
      WriteDataInside(img, b, data, taken, n - 1, i);
      WriteDataStep(img, b, data, taken, n - 1);
      assert taken[i] != last;
      ClustersApart(b, taken[i], last);
      ChunkSize(data, i, ClusterSize(b));
      PatchOutside(before, at, piece, ClusterStart(b, taken[i]),
        ClusterStart(b, taken[i]) + |Chunk(data, i, ClusterSize(b))|);
    } else {
      WriteDataLength(img, b, data, taken, n - 1);
      WriteDataStep(img, b, data, taken, n - 1);
      PatchInside(before, at, piece);
    }
  }

  lemma {:induction false} WriteDataLength(img: seq<Byte>, b: Bpb, data: seq<Byte>, taken: seq<nat>, n: nat)
    requires ChainFits(|img|, b, taken) && Numbers(taken) && n <= |taken|
    ensures |WriteData(img, GeometryFor(b), data, taken, n)| == |img|
  {
    if n > 0 {
      WriteDataLength(img, b, data, taken, n - 1);
      WriteDataStep(img, b, data, taken, n - 1);
    }
  }

  function EntryAt(b: Bpb, job: Job): nat { RootStart(b) + ITEM_SIZE * job.index }

  /** The stages of a job, with their lengths. */
  lemma Stages(img: seq<Byte>, b: Bpb, limit: nat, job: Job) returns (linked: seq<Byte>, written: seq<Byte>)
    requires JobOk(job, b, limit, |img|)
    ensures Numbers(job.taken)
    ensures linked == LinkCopies(img, GeometryFor(b), job.taken, b.fatCopies) && |linked| == |img|
    ensures written == WriteData(linked, GeometryFor(b), job.data, job.taken, |job.taken|) && |written| == |img|
    ensures EntryAt(b, job) + ITEM_SIZE <= DataStart(b) <= |img|
    ensures Final(img, b, job) == Patch(written, EntryAt(b, job), EncodeItem(job.raw, job.head, |job.data|))
    ensures forall x :: 0 <= x < |img| && !(FatStart(b) <= x < RootStart(b)) ==> linked[x] == img[x]
  {
    hide LinkCopies, LinkFat, TableCopy, WriteData, Patch, EncodeItem, JobOk, ClusterStart, ClusterSize, Times;
    JobFacts(job, b, limit, |img|);
    SomeCopy(job, b, limit, |img|);
    var g := GeometryFor(b);
    LinkCopiesAt(img, g, job.taken, g.fats, 0);
    linked := LinkCopies(img, g, job.taken, g.fats);
    WriteDataLength(linked, b, job.data, job.taken, |job.taken|);
    written := WriteData(linked, g, job.data, job.taken, |job.taken|);
  }

  /** A stretch of bytes that no write of the job hits. */
  ghost predicate Spared(b: Bpb, job: Job, lo: nat, hi: nat)
  {
    && (hi <= FatStart(b) || RootStart(b) <= lo)
    && (hi <= EntryAt(b, job) || EntryAt(b, job) + ITEM_SIZE <= lo)
    && forall i :: 0 <= i < |job.taken| ==>
         2 <= job.taken[i] && (hi <= ClusterStart(b, job.taken[i])
           || ClusterStart(b, job.taken[i]) + ClusterSize(b) <= lo)
  }

  lemma FinalKeeps(img: seq<Byte>, b: Bpb, limit: nat, job: Job, lo: nat, hi: nat)
    requires JobOk(job, b, limit, |img|) && lo <= hi <= |img| && Spared(b, job, lo, hi)
    ensures Numbers(job.taken) && |Final(img, b, job)| == |img| && Final(img, b, job)[lo..hi] == img[lo..hi]
  {
    hide Final, Patch, LinkCopies, WriteData, EncodeItem, FatStart, RootStart, DataStart, ClusterStart;
    hide ClusterSize, GeometryFor;
    JobFacts(job, b, limit, |img|);
    var linked, written := Stages(img, b, limit, job);
    hide JobOk;
    SameSlice(linked, img, lo, hi);
    WriteDataOutside(linked, b, job.data, job.taken, |job.taken|, lo, hi);
    PatchOutside(written, EntryAt(b, job), EncodeItem(job.raw, job.head, |job.data|), lo, hi);
  }

  /** Every copy of the table is the old copy with the chain linked. */
  lemma FinalCopy(img: seq<Byte>, b: Bpb, limit: nat, job: Job, k: nat)
    requires JobOk(job, b, limit, |img|) && k < b.fatCopies
    ensures Numbers(job.taken) && |Final(img, b, job)| == |img| && FatCopyStart(b, k) + FatBytes(b) <= |img|
    ensures TableCopy(Final(img, b, job), GeometryFor(b), k) ==
      LinkFat(TableCopy(img, GeometryFor(b), k), 0, job.taken, |job.taken|)
  {
    hide Final, Patch, LinkCopies, LinkFat, WriteData, EncodeItem, ClusterStart, ClusterSize;
    var g := GeometryFor(b);
    JobFacts(job, b, limit, |img|);
    var linked, written := Stages(img, b, limit, job);
    hide JobOk;
    LinkCopiesAt(img, g, job.taken, g.fats, k);
    CopyInside(g, k);
    var lo, hi := FatCopyStart(b, k), FatCopyStart(b, k) + FatBytes(b);
    WriteDataOutside(linked, b, job.data, job.taken, |job.taken|, lo, hi);
    PatchOutside(written, EntryAt(b, job), EncodeItem(job.raw, job.head, |job.data|), lo, hi);
  }

  /** Each chosen cluster starts with its piece of the data. */
  lemma FinalPiece(img: seq<Byte>, b: Bpb, limit: nat, job: Job, i: nat)
    requires JobOk(job, b, limit, |img|) && i < |job.taken|
    ensures Numbers(job.taken) && |Final(img, b, job)| == |img|
    ensures var piece, at := Chunk(job.data, i, ClusterSize(b)), ClusterStart(b, job.taken[i]);
            at + |piece| <= |img| && Final(img, b, job)[at..at + |piece|] == piece
  {
    hide Final, Patch, LinkCopies, LinkFat, WriteData, EncodeItem, ClusterStart, ClusterSize, Chunk;
    JobFacts(job, b, limit, |img|);
    var linked, written := Stages(img, b, limit, job);
    WriteDataInside(linked, b, job.data, job.taken, |job.taken|, i);
    var at, n := ClusterStart(b, job.taken[i]), |Chunk(job.data, i, ClusterSize(b))|;
    PatchOutside(written, EntryAt(b, job), EncodeItem(job.raw, job.head, |job.data|), at, at + n);
  }

  /** The entry holds the new item. */
  lemma FinalEntry(img: seq<Byte>, b: Bpb, limit: nat, job: Job)
    requires JobOk(job, b, limit, |img|)
    ensures Numbers(job.taken) && |Final(img, b, job)| == |img| && EntryAt(b, job) + ITEM_SIZE <= |img|
    ensures ParseItem(Final(img, b, job)[EntryAt(b, job)..EntryAt(b, job) + ITEM_SIZE]) == NewItem(job)
  {
    hide Final, Patch, LinkCopies, LinkFat, WriteData, EncodeItem, ParseItem;
    var linked, written := Stages(img, b, limit, job);
    PatchInside(written, EntryAt(b, job), EncodeItem(job.raw, job.head, |job.data|));
  }

  // ----- What a job means for the volume -----

  lemma EntryOfCopy(img: seq<Byte>, b: Bpb, limit: nat, c: nat)
    requires FatStart(b) + 2 * limit <= FatStart(b) + FatBytes(b) <= |img| && c < limit && b.fatCopies >= 1
    ensures FatTable(img, b, limit)[c] == Le16At(TableCopy(img, GeometryFor(b), 0), 2 * c)
  {
    var copy := TableCopy(img, GeometryFor(b), 0);
    assert copy[2 * c] == img[FatStart(b) + 2 * c] && copy[2 * c + 1] == img[FatStart(b) + 2 * c + 1];
  }

  /** The table gets exactly the links of the new chain. */
  lemma TableLinked(img: seq<Byte>, b: Bpb, limit: nat, job: Job)
    requires JobOk(job, b, limit, |img|)
    ensures Numbers(job.taken) && |Final(img, b, job)| == |img| && FatStart(b) + 2 * limit <= |img|
    ensures Linked(FatTable(img, b, limit), FatTable(Final(img, b, job), b, limit), job.taken)
  {
    hide Final, Le16At, Link, ClusterStart, FatTable;
    JobFacts(job, b, limit, |img|);
    FinalCopy(img, b, limit, job, 0);
    var final, g := Final(img, b, job), GeometryFor(b);
    var t := TableCopy(img, g, 0);
    hide LinkFat, FatStart, FatBytes, GeometryFor, TableCopy;
    forall c | 0 <= c < limit && c !in job.taken
      ensures FatTable(final, b, limit)[c] == FatTable(img, b, limit)[c]
    {
      EntryOfCopy(img, b, limit, c);
      EntryOfCopy(final, b, limit, c);
      LinkedOther(t, job.taken, |job.taken|, c);
    }
    forall i | 0 <= i < |job.taken|
      ensures FatTable(final, b, limit)[job.taken[i]] == Link(job.taken, i)
    {
      EntryOfCopy(final, b, limit, job.taken[i]);
      LinkedEntry(t, job.taken, |job.taken|, i);
    }
  }

  lemma CopyIs(img: seq<Byte>, b: Bpb, k: nat)
    requires FatCopyStart(b, k) + FatBytes(b) <= |img|
    ensures TableCopy(img, GeometryFor(b), k) == img[FatCopyStart(b, k)..FatCopyStart(b, k) + FatBytes(b)]
    ensures k == 0 ==> FatCopyStart(b, k) == FatStart(b)
  {
  }

  lemma CopyEqual(img: seq<Byte>, b: Bpb, k: nat)
    requires FatStart(b) + FatBytes(b) <= |img| && CopiesIdentical(img, b) && k < b.fatCopies
    ensures FatCopyStart(b, k) + FatBytes(b) <= |img|
    ensures img[FatCopyStart(b, k)..FatCopyStart(b, k) + FatBytes(b)] == img[FatStart(b)..FatStart(b) + FatBytes(b)]
  {
  }

  lemma SomeCopy(job: Job, b: Bpb, limit: nat, length: nat)
    requires JobOk(job, b, limit, length)
    ensures 0 < b.fatCopies && |job.data| < TWO_32
  {
  }

  lemma CopyStaysIdentical(img: seq<Byte>, b: Bpb, limit: nat, job: Job, k: nat)
    requires JobOk(job, b, limit, |img|) && k < b.fatCopies && FatStart(b) + FatBytes(b) <= |img|
      && CopiesIdentical(img, b)
    ensures Numbers(job.taken) && |Final(img, b, job)| == |img| && FatCopyStart(b, k) + FatBytes(b) <= |img|
    ensures var final := Final(img, b, job);
            final[FatCopyStart(b, k)..FatCopyStart(b, k) + FatBytes(b)] == final[FatStart(b)..FatStart(b) + FatBytes(b)]
  {
    hide *;
    CopyEqual(img, b, k);
    SomeCopy(job, b, limit, |img|);
    FinalCopy(img, b, limit, job, 0);
    FinalCopy(img, b, limit, job, k);
    CopyIs(img, b, 0);
    CopyIs(Final(img, b, job), b, 0);
    CopyIs(img, b, k);
    CopyIs(Final(img, b, job), b, k);
  }

  lemma CopiesAre(img: seq<Byte>, b: Bpb)
    requires FatStart(b) + FatBytes(b) <= |img|
    requires forall k: nat :: k < b.fatCopies ==> CopySame(img, b, k)
    ensures CopiesIdentical(img, b)
  {
    hide FatCopyStart, FatStart, FatBytes;
    forall k: nat | k < b.fatCopies
      ensures FatCopyStart(b, k) + FatBytes(b) <= |img|
      ensures img[FatCopyStart(b, k)..FatCopyStart(b, k) + FatBytes(b)] == img[FatStart(b)..FatStart(b) + FatBytes(b)]
    {
      assert CopySame(img, b, k);
    }
  }

  lemma JobNumbers(job: Job, b: Bpb, limit: nat, length: nat)
    requires JobOk(job, b, limit, length)
    ensures |job.data| < TWO_32
  {
  }

  /** Copy `k` of the table is the first one. */
  ghost predicate CopySame(img: seq<Byte>, b: Bpb, k: nat)
    requires FatStart(b) + FatBytes(b) <= |img|
  {
    FatCopyStart(b, k) + FatBytes(b) <= |img| &&
    img[FatCopyStart(b, k)..FatCopyStart(b, k) + FatBytes(b)] == img[FatStart(b)..FatStart(b) + FatBytes(b)]
  }

  lemma CopiesStayIdentical(img: seq<Byte>, b: Bpb, limit: nat, job: Job)
    requires JobOk(job, b, limit, |img|) && FatStart(b) + FatBytes(b) <= |img| && CopiesIdentical(img, b)
    ensures Numbers(job.taken) && |Final(img, b, job)| == |img| && CopiesIdentical(Final(img, b, job), b)
  {
    hide Final, FatCopyStart, JobOk, FatStart, FatBytes, CopiesIdentical, Numbers;
    BootKept(img, b, limit, job);
    JobNumbers(job, b, limit, |img|);
    var final := Final(img, b, job);
    forall k: nat | k < b.fatCopies
      ensures CopySame(final, b, k)
    {
      CopyStaysIdentical(img, b, limit, job, k);
    }
    CopiesAre(final, b);
  }

  lemma RootItemSpared(b: Bpb, limit: nat, length: nat, job: Job, j: nat)
    requires JobOk(job, b, limit, length) && j < b.rootDirEntries && j != job.index
    ensures Spared(b, job, RootStart(b) + ITEM_SIZE * j, RootStart(b) + ITEM_SIZE * j + ITEM_SIZE)
    ensures RootStart(b) + ITEM_SIZE * j + ITEM_SIZE <= length
  {
    JobFacts(job, b, limit, length);
    hide FatStart, RootStart, ClusterStart, ClusterSize;
    assert RootStart(b) + ITEM_SIZE * b.rootDirEntries == DataStart(b);
    assert j < job.index ==> ITEM_SIZE * j + ITEM_SIZE <= ITEM_SIZE * job.index;
    assert job.index < j ==> ITEM_SIZE * job.index + ITEM_SIZE <= ITEM_SIZE * j;
  }

  /** The root directory gets exactly the new item. */
  lemma RootEntered(img: seq<Byte>, b: Bpb, limit: nat, job: Job)
    requires JobOk(job, b, limit, |img|)
    ensures Numbers(job.taken) && |Final(img, b, job)| == |img| && DataStart(b) <= |img|
    ensures RootItems(Final(img, b, job), b) == RootItems(img, b)[job.index := NewItem(job)]
  {
    hide Final, ParseItem, Spared;
    JobFacts(job, b, limit, |img|);
    FinalEntry(img, b, limit, job);
    var final := Final(img, b, job);
    forall j | 0 <= j < b.rootDirEntries && j != job.index
      ensures RootItems(final, b)[j] == RootItems(img, b)[j]
    {
      RootItemSpared(b, limit, |img|, job, j);
      FinalKeeps(img, b, limit, job, RootStart(b) + ITEM_SIZE * j, RootStart(b) + ITEM_SIZE * j + ITEM_SIZE);
    }
  }

  lemma ClusterSpared(b: Bpb, limit: nat, length: nat, job: Job, c: nat)
    requires JobOk(job, b, limit, length) && 2 <= c < limit && c !in job.taken
    ensures Spared(b, job, ClusterStart(b, c), ClusterStart(b, c) + ClusterSize(b))
    ensures ClusterStart(b, c) + ClusterSize(b) <= length
  {
    JobFacts(job, b, limit, length);
    Landmarks(b, limit, length);
    hide FatStart, RootStart, ClusterStart, ClusterSize, DataStart;
    forall i | 0 <= i < |job.taken|
      ensures ClusterStart(b, c) + ClusterSize(b) <= ClusterStart(b, job.taken[i])
        || ClusterStart(b, job.taken[i]) + ClusterSize(b) <= ClusterStart(b, c)
    {
      ClustersApart(b, c, job.taken[i]);
    }
  }

  /** Every other cluster is as it was. */
  lemma OtherCluster(img: seq<Byte>, b: Bpb, limit: nat, job: Job, c: nat)
    requires JobOk(job, b, limit, |img|) && 2 <= c < limit && c !in job.taken
    ensures Numbers(job.taken) && |Final(img, b, job)| == |img| && ClusterStart(b, c) + ClusterSize(b) <= |img|
    ensures ClusterBytes(Final(img, b, job), b, c) == ClusterBytes(img, b, c)
    ensures ClusterItems(Final(img, b, job), b, c) == ClusterItems(img, b, c)
  {
    hide Final, Spared, ClusterStart;
    ClusterSpared(b, limit, |img|, job, c);
    FinalKeeps(img, b, limit, job, ClusterStart(b, c), ClusterStart(b, c) + ClusterSize(b));
    hide JobOk;
    ItemsSame(img, Final(img, b, job), ClusterStart(b, c), ItemsPerCluster(b));
  }

  lemma ItemsSame(img: seq<Byte>, img': seq<Byte>, at: nat, n: nat)
    requires at + ITEM_SIZE * n <= |img| == |img'| && img[at..at + ITEM_SIZE * n] == img'[at..at + ITEM_SIZE * n]
    ensures ItemsAt(img, at, n) == ItemsAt(img', at, n)
  {
    hide ParseItem;
    forall i | 0 <= i < n
      ensures ItemsAt(img, at, n)[i] == ItemsAt(img', at, n)[i]
    {
      SliceOfSlice(img, at, ITEM_SIZE * n, ITEM_SIZE * i, at + ITEM_SIZE * i, ITEM_SIZE);
      SliceOfSlice(img', at, ITEM_SIZE * n, ITEM_SIZE * i, at + ITEM_SIZE * i, ITEM_SIZE);
    }
  }

  /** The boot sector is as it was. */
  lemma BootKept(img: seq<Byte>, b: Bpb, limit: nat, job: Job)
    requires JobOk(job, b, limit, |img|)
    ensures Numbers(job.taken) && |Final(img, b, job)| == |img| >= 512 && Final(img, b, job)[..512] == img[..512]
  {
    hide Final, ClusterStart;
    JobFacts(job, b, limit, |img|);
    assert Spared(b, job, 0, 512);
    FinalKeeps(img, b, limit, job, 0, 512);
  }

  /** `flat` holds the `i`-th piece of the data where it belongs. */
  predicate PieceHeld(data: seq<Byte>, flat: seq<Byte>, size: nat, i: nat)
  {
    && Times(i, size) + |Chunk(data, i, size)| <= |flat|
    && flat[Times(i, size)..Times(i, size) + |Chunk(data, i, size)|] == Chunk(data, i, size)
  }

  /** How far the first `n` pieces reach. */
  function Reach(data: seq<Byte>, size: nat, n: nat): (m: nat)
    ensures m <= |data|
  {
    Min(Times(n, size), |data|)
  }

  lemma PieceFacts(data: seq<Byte>, flat: seq<Byte>, size: nat, n: nat)
    requires PieceHeld(data, flat, size, n)
    ensures Reach(data, size, n) <= Reach(data, size, n + 1)
    ensures Reach(data, size, n) < |data| ==>
      Reach(data, size, n + 1) <= |flat|
        && flat[Reach(data, size, n)..Reach(data, size, n + 1)] == data[Reach(data, size, n)..Reach(data, size, n + 1)]
  {
    TimesOrder(n, n + 1, size);
    hide Times;
  }

  /** The pieces in the clusters, laid end to end, start with the data. */
  lemma {:induction false} PiecesAreData(data: seq<Byte>, flat: seq<Byte>, size: nat, n: nat)
    requires forall i: nat :: i < n ==> PieceHeld(data, flat, size, i)
    ensures Reach(data, size, n) <= |flat| && flat[..Reach(data, size, n)] == data[..Reach(data, size, n)]
  {
    if n > 0 {
      PiecesAreData(data, flat, size, n - 1);
      PieceFacts(data, flat, size, n - 1);
      hide PieceHeld, Reach;
      var from, m := Reach(data, size, n - 1), Reach(data, size, n);
      if from < |data| {
        assert flat[..m] == flat[..from] + flat[from..m];
        assert data[..m] == data[..from] + data[from..m];
      }
    }
  }

  lemma PieceInChain(img: seq<Byte>, b: Bpb, limit: nat, job: Job, i: nat)
    requires JobOk(job, b, limit, |img|) && i < |job.taken|
    ensures Numbers(job.taken) && |Final(img, b, job)| == |img| && ChainFits(|img|, b, job.taken)
    ensures PieceHeld(job.data, ChainBytes(Final(img, b, job), b, job.taken), ClusterSize(b), i)
  {
    hide Final, Chunk, ClusterStart, ClusterSize, ChainBytes;
    JobFacts(job, b, limit, |img|);
    FinalPiece(img, b, limit, job, i);
    var piece := Chunk(job.data, i, ClusterSize(b));
    ChunkSize(job.data, i, ClusterSize(b));
    ChainBytesSlice(Final(img, b, job), b, job.taken, i, 0, Times(i, ClusterSize(b)), ClusterStart(b, job.taken[i]),
      |piece|);
  }

  /** The new chain holds the data. */
  lemma ChainHoldsData(img: seq<Byte>, b: Bpb, limit: nat, job: Job)
    requires JobOk(job, b, limit, |img|)
    ensures Numbers(job.taken) && |Final(img, b, job)| == |img| && ChainFits(|img|, b, job.taken)
    ensures var flat := ChainBytes(Final(img, b, job), b, job.taken);
            |job.data| <= |flat| && flat[..|job.data|] == job.data
  {
    hide Final, Chunk, ClusterStart, ClusterSize, ChainFits;
    JobFacts(job, b, limit, |img|);
    BootKept(img, b, limit, job);
    hide PieceHeld, ChainBytes, Times;
    var flat := ChainBytes(Final(img, b, job), b, job.taken);
    forall i: nat | i < |job.taken|
      ensures PieceHeld(job.data, flat, ClusterSize(b), i)
    {
      PieceInChain(img, b, limit, job, i);
    }
    PiecesAreData(job.data, flat, ClusterSize(b), |job.taken|);
  }
}
