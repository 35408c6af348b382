/** The description of a volume is no more than a reading of its image: two descriptions of one image agree
    on every path and on the bytes of every file. */
module Certificates {
  import opened Bytes
  import opened FatLayout
  import opened FatNames
  import opened FatDirectory
  import opened Vfs

  /** A longer table that starts with the same entries has the same chains, and one per first cluster. */
  lemma ChainsAgree(fat: seq<U16>, more: seq<U16>, a: seq<nat>, b: seq<nat>)
    requires IsChain(fat, a) && IsChain(more, b) && |fat| <= |more| <= RESERVED_MIN
    requires (forall c :: 0 <= c < |fat| ==> fat[c] == more[c]) && a[0] == b[0]
    ensures a == b
  {
    assert IsChain(more, a);
    hide IsChain;
    ChainsMerge(more, a, b, 0, 0);
    assert a[0..] == a && b[0..] == b;
  }

  lemma SameChain(img: seq<Byte>, v: Volume, w: Volume, h: nat)
    requires Charted(img, v) && Charted(img, w) && h in v.chains && h in w.chains
    ensures v.bpb == w.bpb && v.chains[h] == w.chains[h]
  {
    var a, b := FatTable(img, v.bpb, v.limit), FatTable(img, w.bpb, w.limit);
    hide IsChain, FatStart;
    if v.limit <= w.limit {
      ChainsAgree(a, b, v.chains[h], w.chains[h]);
    } else {
      ChainsAgree(b, a, w.chains[h], v.chains[h]);
    }
  }

  lemma SameItems(img: seq<Byte>, v: Volume, w: Volume, d: nat)
    requires Charted(img, v) && Charted(img, w) && d in v.dirs && d in w.dirs
    ensures TreeOf(img, v)[d] == TreeOf(img, w)[d]
  {
    if d == 0 {
      assert v.bpb == w.bpb;
    } else {
      SameChain(img, v, w, d);
    }
  }

  /** A file that both descriptions have in order has the same bytes in both. */
  lemma SameBytes(img: seq<Byte>, v: Volume, w: Volume, e: DirItem)
    requires Charted(img, v) && Charted(img, w) && ItemOk(v, e) && ItemOk(w, e) && !e.IsDirectory()
    ensures FileBytes(img, v, e) == FileBytes(img, w, e)
  {
    if e.filesize > 0 {
      SameChain(img, v, w, e.cluster);
    }
    hide Charted;
  }

  /** One lookup: the same item, in order in both descriptions. */
  lemma SameStep(img: seq<Byte>, v: Volume, w: Volume, d: nat, name: seq<Byte>)
    requires WellFormed(img, v) && WellFormed(img, w) && d in v.dirs && d in w.dirs
    ensures Charted(img, v) && Charted(img, w) && d in TreeOf(img, v) && d in TreeOf(img, w)
    ensures var r := Find(TreeOf(img, v)[d], name);
            && Find(TreeOf(img, w)[d], name) == r
            && (r.Some? ==> ItemOk(v, r.value) && ItemOk(w, r.value))
            && (r.Some? && r.value.IsDirectory() ==> r.value.cluster in v.dirs && r.value.cluster in w.dirs)
  {
    SameItems(img, v, w, d);
    FoundItemOk(img, v, d, name);
    FoundItemOk(img, w, d, name);
    hide WellFormed, Find, Charted, ItemsOf;
  }

  lemma {:induction false} SameWalk(img: seq<Byte>, v: Volume, w: Volume, d: nat, parts: seq<seq<Byte>>)
    requires WellFormed(img, v) && WellFormed(img, w) && d in v.dirs && d in w.dirs
    ensures Charted(img, v) && Charted(img, w)
    ensures Walk(TreeOf(img, v), d, parts) == Walk(TreeOf(img, w), d, parts)
    ensures var r := Walk(TreeOf(img, v), d, parts);
            r.Some? ==> ItemOk(v, r.value) && ItemOk(w, r.value) && !r.value.IsDirectory()
    decreases parts
  {
    SameStep(img, v, w, d, if parts == [] then [] else parts[0]);
    var t, u := TreeOf(img, v), TreeOf(img, w);
    hide WellFormed, Find, Charted, TreeOf, ItemOk, DirItem.IsDirectory;
    if parts != [] {
      var e := Find(t[d], parts[0]);
      if |parts| == 1 {
        WalkLast(t, d, parts);
        WalkLast(u, d, parts);
      } else if e.Some? && e.value.IsDirectory() {
        SameWalk(img, v, w, e.value.cluster, parts[1..]);
      }
    }
  }

  lemma WalkLast(t: Tree, d: nat, parts: seq<seq<Byte>>)
    requires |parts| == 1 && d in t
    ensures var e := Find(t[d], parts[0]);
            Walk(t, d, parts) == if e.Some? && !e.value.IsDirectory() then e else None
  {
    hide Find;
  }

  /** Every path leads to the same file with the same bytes, whichever description it is read through. */
  lemma SameFiles(img: seq<Byte>, v: Volume, w: Volume, parts: seq<seq<Byte>>)
    requires WellFormed(img, v) && WellFormed(img, w)
    ensures Charted(img, v) && Charted(img, w)
    ensures var r := Walk(TreeOf(img, v), 0, parts);
            && Walk(TreeOf(img, w), 0, parts) == r
            && (r.Some? ==> FileBytes(img, v, r.value) == FileBytes(img, w, r.value))
  {
    hide FileBytes, ItemOk, Walk;
    SameWalk(img, v, w, 0, parts);
    var r := Walk(TreeOf(img, v), 0, parts);
    if r.Some? {
      SameBytes(img, v, w, r.value);
    }
  }
}
