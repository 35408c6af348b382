/** Machine integers, little-endian words and byte-string patches shared by every component. */
module Bytes {

  type Byte = b: int | 0 <= b < 256
  type U16 = w: int | 0 <= w < 0x1_0000
  type U32 = w: int | 0 <= w < 0x1_0000_0000

  const TWO_32 := 0x1_0000_0000

  datatype Option<+T> = None | Some(value: T)

  /** The value a 32-bit unsigned variable holds after being assigned `x`. */
  function Wrap32(x: int): (w: U32)
    ensures 0 <= x < TWO_32 ==> w == x
  {
    x % TWO_32
  }

  lemma WrapScaled(x: int, offset: int)
    ensures Wrap32(Wrap32(x) * 512 + offset) == Wrap32(x * 512 + offset)
  {
    WrapShift(Wrap32(x) * 512 + offset, x / TWO_32 * 512);
  }

  lemma WrapShift(x: int, k: int)
    ensures Wrap32(x + k * TWO_32) == Wrap32(x)
  {
  }

  /** The two's-complement reading of a 32-bit word, as `int` sees it. */
  function Signed32(w: U32): int
  {
    if w < 0x8000_0000 then w else w - TWO_32
  }

  function Min(a: int, b: int): int
  {
    if a <= b then a else b
  }

  function Le16At(s: seq<Byte>, at: nat): U16
    requires at + 2 <= |s|
  {
    var b0: int, b1: int := s[at], s[at + 1];
    b0 + 0x100 * b1
  }

  function Le32At(s: seq<Byte>, at: nat): U32
    requires at + 4 <= |s|
  {
    var b0: int, b1: int, b2: int, b3: int := s[at], s[at + 1], s[at + 2], s[at + 3];
    b0 + 0x100 * b1 + 0x1_0000 * b2 + 0x100_0000 * b3
  }

  function Le16(v: U16): (s: seq<Byte>)
    ensures |s| == 2 && Le16At(s, 0) == v
  {
    [v % 0x100, v / 0x100]
  }

  function Le32(v: U32): (s: seq<Byte>)
    ensures |s| == 4 && Le32At(s, 0) == v
  {
    [v % 0x100, v / 0x100 % 0x100, v / 0x1_0000 % 0x100, v / 0x100_0000]
  }

  // ----- Numbers of any size, the least byte first -----

  /** The number whose bytes are `s`, the least first. */
  function Number(s: seq<Byte>): nat
  {
    if s == [] then 0 else s[0] as int + 0x100 * Number(s[1..])
  }

  /** The bytes of `s` from `at` on as a number of `n` bytes, where it has them. */
  function NumberAt(s: seq<Byte>, at: nat, n: nat): nat
  {
    if at + n <= |s| then Number(s[at..at + n]) else 0
  }

  lemma ByteIs(s: seq<Byte>, at: nat)
    requires at < |s|
    ensures NumberAt(s, at, 1) == s[at]
  {
    var one := s[at..at + 1];
    assert Number(one) == one[0] as int + 0x100 * Number(one[1..]);
  }

  lemma WordIs(s: seq<Byte>, at: nat)
    requires at + 2 <= |s|
    ensures NumberAt(s, at, 2) == Le16At(s, at)
  {
    TwoBytes(s[at..at + 2]);
  }

  lemma LongIs(s: seq<Byte>, at: nat)
    requires at + 4 <= |s|
    ensures NumberAt(s, at, 4) == Le32At(s, at)
  {
    FourBytes(s[at..at + 4]);
  }

  lemma NumberOf(word: U16, long: U32)
    ensures Number(Le16(word)) == word && Number(Le32(long)) == long
  {
    TwoBytes(Le16(word));
    FourBytes(Le32(long));
  }

  lemma TwoBytes(s: seq<Byte>)
    requires |s| == 2
    ensures Number(s) == Le16At(s, 0)
  {
    assert Number(s[1..]) == s[1] as int + 0x100 * Number(s[1..][1..]);
  }

  lemma FourBytes(s: seq<Byte>)
    requires |s| == 4
    ensures Number(s) == Le32At(s, 0)
  {
    assert s[1..][1..] == s[2..];
    TwoBytes(s[2..]);
    assert Number(s[1..]) == s[1] as int + 0x100 * Number(s[2..]);
  }

  /** `s` with the bytes of `data` written over it, starting at `at`. */
  function Patch(s: seq<Byte>, at: nat, data: seq<Byte>): (r: seq<Byte>)
    requires at + |data| <= |s|
    ensures |r| == |s|
    ensures forall p :: 0 <= p < |s| ==> r[p] == if at <= p < at + |data| then data[p - at] else s[p]
  {
    s[..at] + data + s[at + |data|..]
  }
}

/** Multiples of a cluster or table size that is itself a variable. `Times` keeps products out of
    sight: positions are sums of multiples, and the lemmas below are all that is needed of them. */
module Multiples {

  function Times(n: nat, d: nat): nat
  {
    if n == 0 then 0 else Times(n - 1, d) + d
  }

  lemma {:induction false} TimesIsProduct(n: nat, d: nat)
    ensures Times(n, d) == n * d
  {
    if n > 0 {
      TimesIsProduct(n - 1, d);
      assert n * d == (n - 1) * d + d;
    }
  }

  lemma {:induction false} TimesOrder(a: nat, b: nat, d: nat)
    requires a < b
    ensures Times(a, d) + d == Times(a + 1, d) <= Times(b, d)
  {
    if a + 1 < b {
      TimesOrder(a, b - 1, d);
    }
  }

  lemma {:induction false} TimesAdd(a: nat, b: nat, d: nat)
    ensures Times(a + b, d) == Times(a, d) + Times(b, d)
  {
    if b > 0 {
      TimesAdd(a, b - 1, d);
    }
  }

  lemma {:induction false} TimesScale(n: nat, k: nat, d: nat)
    ensures Times(n, k * d) == k * Times(n, d)
  {
    if n > 0 {
      TimesScale(n - 1, k, d);
      assert k * (Times(n - 1, d) + d) == k * Times(n - 1, d) + k * d;
    }
  }

  /** Quotient and remainder of a multiple of `d` plus less than `d`. */
  lemma {:induction false} QuotientOf(n: nat, r: nat, d: nat)
    requires r < d
    ensures (Times(n, d) + r) / d == n
    ensures (Times(n, d) + r) % d == r
  {
    TimesIsProduct(n, d);
    Unique(n, r, d);
  }

  lemma Unique(n: nat, r: nat, d: nat)
    requires r < d
    ensures (n * d + r) / d == n
    ensures (n * d + r) % d == r
  {
    var x := n * d + r;
    var n', r' := x / d, x % d;
    assert (n - n') * d == r' - r;
    assert (n' - n) * d == r - r';
    if n > n' {
      AtLeast(n - n', d);
    } else if n < n' {
      AtLeast(n' - n, d);
    }
  }

  lemma AtLeast(k: nat, d: nat)
    requires k >= 1
    ensures k * d >= d
  {
    assert (k - 1) * d >= 0;
  }

  /** Every number is a multiple of `d` plus less than `d`. */
  lemma Split(x: nat, d: nat)
    requires d > 0
    ensures 0 <= x / d && 0 <= x % d < d
    ensures x == Times(x / d, d) + x % d
  {
    TimesIsProduct(x / d, d);
  }

  /** A quotient is below `n` exactly when its dividend is below `n` multiples. */
  lemma QuotientBelow(x: nat, n: nat, d: nat)
    requires d > 0
    ensures 0 <= x / d
    ensures x / d < n <==> x < Times(n, d)
  {
    Split(x, d);
    if x / d < n {
      TimesOrder(x / d, n, d);
    } else if n < x / d {
      TimesOrder(n, x / d, d);
    }
  }
}

/** Blocks laid end to end. */
module Blocks {
  import opened Multiples

  function Flatten<T>(blocks: seq<seq<T>>): seq<T>
  {
    if blocks == [] then [] else blocks[0] + Flatten(blocks[1..])
  }

  ghost predicate Uniform<T>(blocks: seq<seq<T>>, d: nat)
  {
    forall i :: 0 <= i < |blocks| ==> |blocks[i]| == d
  }

  lemma {:induction false} FlattenLength<T>(blocks: seq<seq<T>>, d: nat)
    requires Uniform(blocks, d)
    ensures |Flatten(blocks)| == Times(|blocks|, d)
  {
    if blocks != [] {
      FlattenLength(blocks[1..], d);
    }
  }

  lemma {:induction false} FlattenAppend<T>(a: seq<seq<T>>, b: seq<seq<T>>)
    ensures Flatten(a + b) == Flatten(a) + Flatten(b)
  {
    if a == [] {
      assert a + b == b;
    } else {
      FlattenAppend(a[1..], b);
      var whole, first, rest, last := a + b, a[0], Flatten(a[1..]), Flatten(b);
      assert whole[0] == first && whole[1..] == a[1..] + b;
      assert first + (rest + last) == (first + rest) + last;
    }
  }

  /** A slice within one block, seen in the flat sequence. */
  lemma FlattenSlice<T>(blocks: seq<seq<T>>, d: nat, i: nat, from: nat, lo: nat, n: nat)
    requires Uniform(blocks, d) && i < |blocks| && from + n <= d && lo == Times(i, d) + from
    ensures lo + n <= |Flatten(blocks)|
    ensures Flatten(blocks)[lo..lo + n] == blocks[i][from..from + n]
  {
    var before, rest := blocks[..i], blocks[i + 1..];
    FlattenLength(before, d);
    FlattenAppend(before, blocks[i..]);
    assert blocks == before + blocks[i..];
    var a, b := Flatten(before), Flatten(rest);
    assert Flatten(blocks) == a + (blocks[i] + b);
    SliceOfConcat(a, blocks[i] + b, from, lo, n);
    SliceOfConcat([], blocks[i] + b, from, from, n);
  }

  lemma SliceOfSlice<T>(s: seq<T>, start: nat, size: nat, from: nat, at: nat, n: nat)
    requires from + n <= size && start + size <= |s| && at == start + from
    ensures s[start..start + size][from..from + n] == s[at..at + n]
  {
    var part := s[start..start + size];
    var a, b := part[from..from + n], s[at..at + n];
    assert forall k :: 0 <= k < n ==> a[k] == part[from + k] == b[k];
  }

  lemma SliceOfConcat<T>(a: seq<T>, b: seq<T>, from: nat, at: nat, n: nat)
    requires from + n <= |b| && at == |a| + from
    ensures (a + b)[at..at + n] == b[from..from + n]
  {
  }
}
