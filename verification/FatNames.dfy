/** 32-byte directory items and 8.3 names: the decoding of src/fs/fat16.c and the encoding of
    inject_file.py. */
module FatNames {
  import opened Bytes
  import opened CStrings

  const SPACE: Byte := 0x20
  const DOT: Byte := 0x2E
  const ITEM_SIZE := 32
  const SUBDIRECTORY := 0x10
  const ARCHIVE: Byte := 0x20

  /** The 8 name bytes and 3 extension bytes of an item. */
  type RawName = s: seq<Byte> | |s| == 11 witness [0, 0, 0, 0, 0, 0, 0, 0, 0, 0, 0]

  /** The fields of a directory item that the reader looks at. */
  datatype DirItem = DirItem(raw: RawName, attribute: Byte, cluster: U16, filesize: U32) {
    predicate EndMark() { raw[0] == 0x00 }
    predicate Deleted() { raw[0] == 0xE5 }
    predicate Live() { !EndMark() && !Deleted() }
    predicate IsDirectory() { attribute / SUBDIRECTORY % 2 == 1 }
  }

  function ParseItem(bytes: seq<Byte>): DirItem
    requires |bytes| == ITEM_SIZE
  {
    DirItem(bytes[..11], bytes[11], Le16At(bytes, 26), Le32At(bytes, 28))
  }

  // ----- Decoding -----

  /** The bytes of a name field before its first NUL or space. */
  function Field(s: seq<Byte>): (r: seq<Byte>)
    ensures |r| <= |s| && r == s[..|r|]
    ensures 0 !in r && SPACE !in r
  {
    if s == [] || s[0] == 0 || s[0] == SPACE then [] else [s[0]] + Field(s[1..])
  }

  /** The name an item shows: at most 12 characters, so that the 13-byte buffers always end in NUL. */
  function DecodeName(raw: RawName): (r: seq<Byte>)
    ensures |r| <= 12 && 0 !in r && SPACE !in r
  {
    Field(raw[..8]) + if raw[8] == 0 || raw[8] == SPACE then [] else [DOT] + Field(raw[8..])
  }

  function Zeros(n: nat): (r: seq<Byte>)
    ensures |r| == n && forall i :: 0 <= i < n ==> r[i] == 0
  {
    seq(n, i => 0)
  }

  lemma {:induction false} FieldEndsAt(s: seq<Byte>, n: nat)
    requires n <= |s| && forall k :: 0 <= k < n ==> s[k] != 0 && s[k] != SPACE
    requires n < |s| ==> s[n] == 0 || s[n] == SPACE
    ensures Field(s) == s[..n]
  {
    if n > 0 {
      FieldEndsAt(s[1..], n - 1);
      assert s[..n] == [s[0]] + s[1..][..n - 1];
    }
  }

  /** Copies a field to `out`, from `at` on, stopping at the first NUL or space. */
  method ToProperString(out: array<Byte>, at: nat, field: seq<Byte>) returns (next: nat)
    requires at + |field| <= out.Length
    modifies out
    ensures next == at + |Field(field)|
    ensures forall j :: 0 <= j < out.Length ==> out[j] == if at <= j < next then Field(field)[j - at] else old(out[j])
  {
    var i := 0;
    while i < |field| && field[i] != 0 && field[i] != SPACE
      invariant 0 <= i <= |field|
      invariant forall k :: 0 <= k < i ==> field[k] != 0 && field[k] != SPACE
      invariant forall j :: 0 <= j < out.Length ==> out[j] == if at <= j < at + i then field[j - at] else old(out[j])
    {
      out[at + i] := field[i];
      i := i + 1;
    }
    FieldEndsAt(field, i);
    return at + i;
  }

  /** Fills a 13-byte buffer with an item's name, padded with NULs. */
  method GetFullRelativeFilename(item: DirItem, out: array<Byte>)
    requires out.Length == 13
    modifies out
    ensures out[..] == DecodeName(item.raw) + Zeros(13 - |DecodeName(item.raw)|)
  {
    Memset(out, 0, 0, 13);
    var base, ext := item.raw[..8], item.raw[8..];
    var at := ToProperString(out, 0, base);
    assert forall j :: 0 <= j < 13 ==> out[j] == if j < at then Field(base)[j] else 0;
    if item.raw[8] != 0 && item.raw[8] != SPACE {
      out[at] := DOT;
      var dot := at;
      at := ToProperString(out, at + 1, ext);
      assert out[..] == Field(base) + ([DOT] + Field(ext)) + Zeros(13 - at);
    } else {
      assert out[..] == Field(base) + [] + Zeros(13 - at);
    }
  }

  /** `name` selects an item that shows `shown` when the two agree up to case. */
  predicate NameMatches(shown: seq<Byte>, name: seq<Byte>)
  {
    SameIgnoringCase(shown, name)
  }

  /** The 13-character comparison of the lookup never stops at a prefix. */
  lemma ComparisonIsExact(shown: seq<Byte>, name: seq<Byte>)
    requires |shown| <= 12
    ensures SameIgnoringCase(UpTo(shown, 13), UpTo(name, 13)) <==> NameMatches(shown, name)
  {
  }

  lemma CStrOfPadded(s: seq<Byte>, n: nat)
    requires 0 !in s && n > 0
    ensures CStr(s + Zeros(n)) == s
  {
    if s != [] {
      assert (s + Zeros(n))[1..] == s[1..] + Zeros(n);
      CStrOfPadded(s[1..], n);
    }
  }

  // ----- Encoding -----

  /** The part of `s` before its first dot. */
  function BeforeDot(s: seq<Byte>): (r: seq<Byte>)
    ensures |r| <= |s| && r == s[..|r|] && DOT !in r
    ensures |r| < |s| ==> s[|r|] == DOT
  {
    if s == [] || s[0] == DOT then [] else [s[0]] + BeforeDot(s[1..])
  }

  /** The second component of `s` split at dots, or nothing. */
  function Extension(s: seq<Byte>): seq<Byte>
  {
    var base := BeforeDot(s);
    if |base| < |s| then BeforeDot(s[|base| + 1..]) else []
  }

  /** `s` padded with spaces or cut to `n` bytes. */
  function Fit(s: seq<Byte>, n: nat): (r: seq<Byte>)
    ensures |r| == n
  {
    (s + seq(n, i => SPACE))[..n]
  }

  function EncodeName(name: seq<Byte>): RawName
  {
    var upper := UpperAll(name);
    Fit(BeforeDot(upper), 8) + Fit(Extension(upper), 3)
  }

  /** The directory item that the writer appends. */
  function EncodeItem(raw: RawName, cluster: U16, size: U32): (r: seq<Byte>)
    ensures |r| == ITEM_SIZE && ParseItem(r) == DirItem(raw, ARCHIVE, cluster, size)
  {
    var r := raw + ([ARCHIVE] + Zeros(14) + Le16(cluster) + Le32(size));
    assert r[..11] == raw;
    assert Le16At(r, 26) == Le16At(Le16(cluster), 0) && Le32At(r, 28) == Le32At(Le32(size), 0);
    r
  }

  /** A name that fits the 8.3 form: at most 8 characters, or at most 8 and then 1 to 3 after the
      only dot, with no NUL and no space. */
  predicate Fits83(name: seq<Byte>)
  {
    var base := BeforeDot(name);
    && |base| <= 8
    && 0 !in name && SPACE !in name
    && (|base| < |name| ==> 1 <= |name| - |base| - 1 <= 3 && DOT !in name[|base| + 1..])
  }

  // ----- Encoding and decoding -----

  predicate Plain(s: seq<Byte>)
  {
    0 !in s && SPACE !in s
  }

  lemma {:induction false} FieldOfPadded(s: seq<Byte>, rest: seq<Byte>)
    requires Plain(s) && (rest == [] || rest[0] == SPACE)
    ensures Field(s + rest) == s
  {
    if s == [] {
      assert s + rest == rest;
    } else {
      assert (s + rest)[1..] == s[1..] + rest;
      FieldOfPadded(s[1..], rest);
    }
  }

  lemma FieldOfFit(s: seq<Byte>, n: nat)
    requires Plain(s)
    ensures Field(Fit(s, n)) == UpTo(s, n)
  {
    if |s| <= n {
      assert Fit(s, n) == s + seq(n - |s|, i => SPACE);
      FieldOfPadded(s, seq(n - |s|, i => SPACE));
    } else {
      assert Fit(s, n) == s[..n] + [];
      FieldOfPadded(s[..n], []);
    }
  }

  /** What decoding an encoded upper-case name shows: each part cut to its field. */
  lemma DecodeOfEncode(upper: seq<Byte>)
    requires Plain(upper)
    ensures DecodeName(Fit(BeforeDot(upper), 8) + Fit(Extension(upper), 3))
         == UpTo(BeforeDot(upper), 8) + if Extension(upper) == [] then [] else [DOT] + UpTo(Extension(upper), 3)
  {
    var base, ext := BeforeDot(upper), Extension(upper);
    var raw: RawName := Fit(base, 8) + Fit(ext, 3);
    assert raw[..8] == Fit(base, 8) && raw[8..] == Fit(ext, 3);
    FieldOfFit(base, 8);
    FieldOfFit(ext, 3);
    assert raw[8] == Fit(ext, 3)[0];
    assert ext != [] ==> ext[0] in upper;
  }

  lemma {:induction false} BeforeDotUpper(s: seq<Byte>)
    ensures BeforeDot(UpperAll(s)) == UpperAll(BeforeDot(s))
  {
    if s != [] && s[0] != DOT {
      BeforeDotUpper(s[1..]);
      assert UpperAll(s)[1..] == UpperAll(s[1..]);
      assert BeforeDot(s) == [s[0]] + BeforeDot(s[1..]);
    }
  }

  lemma PlainUpper(s: seq<Byte>)
    ensures Plain(UpperAll(s)) <==> Plain(s)
    ensures DOT in UpperAll(s) <==> DOT in s
  {
    var u := UpperAll(s);
    assert forall i :: 0 <= i < |s| ==>
      (u[i] == 0 <==> s[i] == 0) && (u[i] == SPACE <==> s[i] == SPACE) && (u[i] == DOT <==> s[i] == DOT);
  }

  lemma Fits83Upper(name: seq<Byte>)
    ensures Fits83(UpperAll(name)) <==> Fits83(name)
  {
    BeforeDotUpper(name);
    PlainUpper(name);
    var base := BeforeDot(name);
    if |base| < |name| {
      assert UpperAll(name)[|base| + 1..] == UpperAll(name[|base| + 1..]);
      PlainUpper(name[|base| + 1..]);
    }
  }

  lemma CutPartsNoDot(upper: seq<Byte>)
    requires Plain(upper) && |BeforeDot(upper)| == |upper|
    ensures UpTo(upper, 8) == upper <==> Fits83(upper)
    ensures BeforeDot(upper) == upper && Extension(upper) == []
  {
  }

  lemma CutPartsDot(base: seq<Byte>, tail: seq<Byte>, ext: seq<Byte>)
    requires DOT !in base && ext == BeforeDot(tail)
    ensures UpTo(base, 8) + (if ext == [] then [] else [DOT] + UpTo(ext, 3)) == base + [DOT] + tail
       <==> |base| <= 8 && 1 <= |tail| <= 3 && DOT !in tail
  {
    var cutBase, cutExt := UpTo(base, 8), UpTo(ext, 3);
    var cut := cutBase + if ext == [] then [] else [DOT] + cutExt;
    NoDotWhole(tail);
    hide BeforeDot;
    assert |cutBase| <= |base| && |cutExt| <= |ext| <= |tail|;
    if cut == base + [DOT] + tail {
      assert |cut| == |base| + 1 + |tail|;
      assert |cutBase| == |base| && |cutExt| == |tail|;
    }
  }

  lemma NoDotWhole(tail: seq<Byte>)
    ensures |BeforeDot(tail)| <= |tail| && (DOT !in tail <==> BeforeDot(tail) == tail)
  {
  }

  lemma PlainParts(s: seq<Byte>)
    ensures Plain(s) <==> 0 !in s && SPACE !in s
  {
  }

  lemma CutPartsRebuild(upper: seq<Byte>)
    requires Plain(upper)
    ensures
      var cut := UpTo(BeforeDot(upper), 8) + if Extension(upper) == [] then [] else [DOT] + UpTo(Extension(upper), 3);
      cut == upper <==> Fits83(upper)
  {
    hide UpTo, BeforeDot, Plain;
    var base := BeforeDot(upper);
    if |base| < |upper| {
      var tail := upper[|base| + 1..];
      assert upper == base + [DOT] + tail;
      assert Fits83(upper) <==> |base| <= 8 && 1 <= |tail| <= 3 && DOT !in tail by {
        assert |upper| == |base| + 1 + |tail|;
        PlainParts(upper);
      }
      CutPartsDot(base, tail, Extension(upper));
    } else {
      CutPartsNoDot(upper);
    }
  }

  /** Decoding what the writer encodes gives back the upper-case name exactly for 8.3 names. */
  lemma NameRoundTrip(name: seq<Byte>)
    ensures DecodeName(EncodeName(name)) == UpperAll(name) <==> Fits83(name)
  {
    var upper := UpperAll(name);
    Fits83Upper(name);
    if Plain(upper) {
      DecodeOfEncode(upper);
      CutPartsRebuild(upper);
    }
  }

  /** So two 8.3 names select the same new item exactly when they are equal up to case. */
  lemma EncodedNameMatches(name: seq<Byte>, other: seq<Byte>)
    requires Fits83(name)
    ensures NameMatches(DecodeName(EncodeName(name)), other) <==> SameIgnoringCase(name, other)
  {
    NameRoundTrip(name);
    var u := UpperAll(name);
    assert UpperAll(u) == u;
    UpperDecides(u, other);
    UpperDecides(name, other);
  }
}
