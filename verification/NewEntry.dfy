/** The 32 bytes of a directory entry that the writer makes for a name, byte by byte and in plain numbers
    (inject_file.py:53-58 and 78-88). */
module NewEntries {
  import opened Bytes
  import opened CStrings
  import opened FatNames
  import opened VolumeFormats

  // ----- A name in its field -----

  /** `to` is the capital of `from` where `from` is one of a to z, and `from` itself otherwise. */
  predicate IsCapitalOf(to: Byte, from: Byte)
  {
    if 'a' as int <= from <= 'z' as int then to - 'A' as int == from - 'a' as int else to == from
  }

  /** `field` holds `part` in capitals, cut where the field ends and filled up with spaces. */
  predicate Spells(field: seq<Byte>, part: seq<Byte>)
  {
    forall k :: 0 <= k < |field| ==> if k < |part| then IsCapitalOf(field[k], part[k]) else field[k] == 0x20
  }

  /** `base` is the part of `name` before its first dot, and `ext` the part between that and the next. */
  predicate Splits(name: seq<Byte>, base: seq<Byte>, ext: seq<Byte>)
  {
    && '.' as int !in base && '.' as int !in ext
    && if |base| == |name| then name == base && ext == []
       else
         && |base| + 1 + |ext| <= |name| && name[..|base| + 1 + |ext|] == base + ['.' as int] + ext
         && (|base| + 1 + |ext| < |name| ==> name[|base| + 1 + |ext|] == '.' as int)
  }

  /** A directory entry of a file that is marked as to be archived and carries no time or date. */
  predicate EntrySpells(entry: seq<Byte>, base: seq<Byte>, ext: seq<Byte>, cluster: nat, size: nat)
  {
    && |entry| == 32
    && Spells(entry[..8], base) && Spells(entry[8..11], ext)
    && entry[11] == 0x20
    && (forall k :: 12 <= k < 26 ==> entry[k] == 0)
    && cluster == Number(entry[26..28]) && size == Number(entry[28..])
  }

  /** Every name splits at its dots in one way, the one the writer takes. */
  lemma SplitIs(name: seq<Byte>, base: seq<Byte>, ext: seq<Byte>)
    ensures Splits(name, base, ext) <==> base == BeforeDot(name) && ext == Extension(name)
  {
    var first := BeforeDot(name);
    hide BeforeDot;
    if |first| < |name| {
      var tail := name[|first| + 1..];
      var second := BeforeDot(tail);
      assert second == tail[..|second|] && first + [DOT] + second == name[..|first| + 1 + |second|];
      assert Splits(name, first, second);
    }
    if Splits(name, base, ext) {
      SplitOnce(name, base, ext, BeforeDot(name), Extension(name));
    }
  }

  lemma SplitOnce(name: seq<Byte>, a: seq<Byte>, x: seq<Byte>, b: seq<Byte>, y: seq<Byte>)
    requires Splits(name, a, x) && Splits(name, b, y)
    ensures a == b && x == y
  {
    FirstDot(name, a, x);
    FirstDot(name, b, y);
    assert |a| == |b|;
    if |a| < |name| {
      SecondDot(name, a, x);
      SecondDot(name, b, y);
      assert |x| == |y|;
    }
  }

  lemma FirstDot(name: seq<Byte>, base: seq<Byte>, ext: seq<Byte>)
    requires Splits(name, base, ext)
    ensures |base| <= |name| && base == name[..|base|] && forall k :: 0 <= k < |base| ==> name[k] != '.' as int
    ensures |base| < |name| ==> name[|base|] == '.' as int
  {
    if |base| < |name| {
      var front := name[..|base| + 1 + |ext|];
      assert front[..|base|] == base && front[|base|] == '.' as int;
    }
  }

  lemma SecondDot(name: seq<Byte>, base: seq<Byte>, ext: seq<Byte>)
    requires Splits(name, base, ext) && |base| < |name|
    ensures var m, n := |base| + 1, |base| + 1 + |ext|;
            && n <= |name| && ext == name[m..n] && (forall k :: m <= k < n ==> name[k] != '.' as int)
            && (n < |name| ==> name[n] == '.' as int)
  {
    var m, n := |base| + 1, |base| + 1 + |ext|;
    var front := name[..n];
    assert ext == front[m..] == name[m..n];
    assert forall k :: m <= k < n ==> name[k] == ext[k - m];
  }

  lemma FitSpells(part: seq<Byte>, n: nat)
    ensures Spells(Fit(UpperAll(part), n), part)
  {
  }

  /** Upper-casing and splitting at the dots come to the same in either order. */
  lemma UpperParts(name: seq<Byte>)
    ensures BeforeDot(UpperAll(name)) == UpperAll(BeforeDot(name))
    ensures Extension(UpperAll(name)) == UpperAll(Extension(name))
  {
    BeforeDotUpper(name);
    var n := |BeforeDot(name)|;
    hide BeforeDot;
    if n < |name| {
      BeforeDotUpper(name[n + 1..]);
      assert UpperAll(name)[n + 1..] == UpperAll(name[n + 1..]);
    }
  }

  lemma NameSpells(name: seq<Byte>, base: seq<Byte>, ext: seq<Byte>)
    requires Splits(name, base, ext)
    ensures Spells(EncodeName(name)[..8], base) && Spells(EncodeName(name)[8..11], ext)
  {
    SplitIs(name, base, ext);
    UpperParts(name);
    hide Splits, BeforeDot, Extension, UpperAll, Fit, Spells;
    FitSpells(base, 8);
    FitSpells(ext, 3);
    assert EncodeName(name)[..8] == Fit(UpperAll(base), 8) && EncodeName(name)[8..11] == Fit(UpperAll(ext), 3);
  }

  /** The entry the writer makes for `name` is the one just described. */
  lemma EntryIs(name: seq<Byte>, base: seq<Byte>, ext: seq<Byte>, cluster: U16, size: U32)
    requires Splits(name, base, ext)
    ensures EntrySpells(EncodeItem(EncodeName(name), cluster, size), base, ext, cluster, size)
  {
    NameSpells(name, base, ext);
    hide Splits, EncodeName, Spells;
    var raw := EncodeName(name);
    var entry := EncodeItem(raw, cluster, size);
    assert entry[..8] == raw[..8] && entry[8..11] == raw[8..11];
    assert entry[26..28] == Le16(cluster) && entry[28..] == Le32(size);
    NumberOf(cluster, size);
  }

  /** No lower-case letter is left in the name field of such an entry, and each of its bytes is a space, a
      byte of the name or the capital of one. */
  lemma NoLowerCase(entry: seq<Byte>, base: seq<Byte>, ext: seq<Byte>, cluster: nat, size: nat, k: nat)
    requires EntrySpells(entry, base, ext, cluster, size) && k < 11
    ensures !('a' as int <= entry[k] <= 'z' as int)
    ensures entry[k] == ' ' as int || exists c :: (c in base || c in ext) && IsCapitalOf(entry[k], c)
  {
    var part, field, i := if k < 8 then base else ext, if k < 8 then entry[..8] else entry[8..11], k % 8;
    assert entry[k] == field[i];
    if i < |part| {
      assert IsCapitalOf(entry[k], part[i]) && part[i] in part;
    }
  }

  // ----- Where the entry goes -----

  /** Root entry `index` is unused or deleted, and no earlier one is. */
  ghost predicate FirstUnused(img: seq<Byte>, root: nat, index: nat)
  {
    && root + 32 * index < |img| && img[root + 32 * index] in {0x00, 0xE5}
    && forall j: nat :: j < index ==> img[root + 32 * j] !in {0x00, 0xE5}
  }

  /** Cluster `c` is free in the table, and no earlier one is. */
  ghost predicate FirstFree(img: seq<Byte>, table: nat, c: nat)
  {
    && 2 <= c < 0x1_0000 && table + 2 * c + 2 <= |img| && NumberAt(img, table + 2 * c, 2) == 0
    && forall d: nat :: 2 <= d < c ==> NumberAt(img, table + 2 * d, 2) != 0
  }

  /** Root entry `index` of `after`, the first that `before` does not use, names a file that starts in
      cluster `c`, the first free one of `before`. */
  ghost predicate EntryAt(before: seq<Byte>, after: seq<Byte>, name: seq<Byte>, size: nat, index: nat, c: nat)
  {
    var at := RootAt(before) + 32 * index;
    && |before| >= 24 && at + 32 <= |after| && index < NumberAt(before, 17, 2)
    && FirstUnused(before, RootAt(before), index) && FirstFree(before, TableAt(before), c)
    && forall base, ext :: Splits(name, base, ext) ==> EntrySpells(after[at..at + 32], base, ext, c, size)
  }

  // ----- Spellings -----

  /** `s` with every capital made a lower-case letter. */
  function Lowered(s: seq<Byte>): seq<Byte>
  {
    seq(|s|, i requires 0 <= i < |s| => if 0x41 <= s[i] <= 0x5A then s[i] + 0x20 else s[i])
  }

  /** `s` with every lower-case letter made a capital. */
  function Raised(s: seq<Byte>): seq<Byte>
  {
    seq(|s|, i requires 0 <= i < |s| => if 0x61 <= s[i] <= 0x7A then s[i] - 0x20 else s[i])
  }

  /** Both are spellings of `s`; one holds no capital and the other no lower-case letter. */
  lemma Spellings(s: seq<Byte>)
    ensures SameIgnoringCase(s, Lowered(s)) && SameIgnoringCase(s, Raised(s))
    ensures forall c :: c in Lowered(s) ==> !('A' as int <= c <= 'Z' as int)
    ensures forall c :: c in Raised(s) ==> !('a' as int <= c <= 'z' as int)
  {
  }
}
