/** C strings in memory: byte sequences that may go on after their terminator (src/string/string.c). */
module CStrings {
  import opened Bytes

  function ToUpper(c: Byte): Byte
  {
    if 'a' as int <= c <= 'z' as int then c - 32 else c
  }

  function UpperAll(s: seq<Byte>): (r: seq<Byte>)
    ensures |r| == |s| && forall i :: 0 <= i < |s| ==> r[i] == ToUpper(s[i])
  {
    seq(|s|, i requires 0 <= i < |s| => ToUpper(s[i]))
  }

  predicate IsDigit(c: Byte)
  {
    '0' as int <= c <= '9' as int
  }

  /** The string that starts at the front of `memory`. */
  function CStr(memory: seq<Byte>): (r: seq<Byte>)
    ensures |r| <= |memory| && r == memory[..|r|] && 0 !in r
    ensures |r| < |memory| ==> memory[|r|] == 0
  {
    if memory == [] || memory[0] == 0 then [] else [memory[0]] + CStr(memory[1..])
  }

  lemma {:induction false} CStrEndsAt(memory: seq<Byte>, n: nat)
    requires n <= |memory| && 0 !in memory[..n] && (n < |memory| ==> memory[n] == 0)
    ensures CStr(memory) == memory[..n]
  {
    if n > 0 {
      assert memory[0] == memory[..n][0];
      assert memory[..n][1..] == memory[1..][..n - 1];
      CStrEndsAt(memory[1..], n - 1);
      assert memory[..n] == [memory[0]] + memory[1..][..n - 1];
    }
  }

  function UpTo(s: seq<Byte>, n: nat): seq<Byte>
  {
    if |s| <= n then s else s[..n]
  }

  /** Reading `memory` as a string of at most `n` characters stays inside it. */
  predicate Readable(memory: seq<Byte>, n: nat)
  {
    n <= |memory| || 0 in memory
  }

  /** The same byte, or the same letter in its two cases. */
  predicate SameCharacter(a: Byte, b: Byte)
  {
    || a == b
    || ('A' as int <= a <= 'Z' as int && b - 'a' as int == a - 'A' as int)
    || ('A' as int <= b <= 'Z' as int && a - 'a' as int == b - 'A' as int)
  }

  /** Two strings that differ at most in the case of their letters. */
  predicate SameIgnoringCase(a: seq<Byte>, b: seq<Byte>)
  {
    |a| == |b| && forall i :: 0 <= i < |a| ==> SameCharacter(a[i], b[i])
  }

  /** Upper-casing both sides decides that, which is how the code compares. */
  lemma UpperDecides(a: seq<Byte>, b: seq<Byte>)
    ensures SameIgnoringCase(a, b) <==> UpperAll(a) == UpperAll(b)
  {
    var u, v := UpperAll(a), UpperAll(b);
    assert forall c: Byte, d: Byte :: SameCharacter(c, d) <==> ToUpper(c) == ToUpper(d);
    hide ToUpper, SameCharacter;
    if SameIgnoringCase(a, b) {
      assert u == v;
    }
    if u == v {
      assert |a| == |b|;
      forall i | 0 <= i < |a|
        ensures SameCharacter(a[i], b[i])
      {
        assert u[i] == v[i];
      }
    }
  }

  /** A capital where there was a lower-case letter, and no lower-case letter is left. */
  lemma UpperMeans(s: seq<Byte>)
    ensures SameIgnoringCase(s, UpperAll(s))
    ensures forall i :: 0 <= i < |s| ==> !('a' as int <= UpperAll(s)[i] <= 'z' as int)
  {
  }

  /** The result is 0 exactly when the two strings, cut at `n` characters, agree up to case. */
  method Strncasecmp(s1: seq<Byte>, s2: seq<Byte>, n: nat) returns (r: int)
    requires Readable(s1, n) && Readable(s2, n)
    ensures r == 0 <==> SameIgnoringCase(UpTo(CStr(s1), n), UpTo(CStr(s2), n))
  {
    if n == 0 {
      return 0;
    }
    var i, left := 0, n - 1;
    InString(s1, n, 0);
    InString(s2, n, 0);
    while ToUpper(s1[i]) == ToUpper(s2[i])
      invariant i + left + 1 == n && 0 <= left
      invariant i <= |CStr(s1)| && i <= |CStr(s2)|
      invariant i < |s1| && i < |s2|
      invariant forall k :: 0 <= k < i ==> ToUpper(s1[k]) == ToUpper(s2[k])
      decreases left
    {
      if left == 0 || s1[i] == 0 {
        Agree(s1, s2, n, i);
        return 0;
      }
      i, left := i + 1, left - 1;
      InString(s1, n, i);
      InString(s2, n, i);
    }
    Differ(s1, s2, n, i);
    return ToUpper(s1[i]) - ToUpper(s2[i]);
  }

  lemma InString(memory: seq<Byte>, n: nat, i: nat)
    requires Readable(memory, n) && i < n && i <= |CStr(memory)|
    ensures i < |memory|
    ensures memory[i] != 0 <==> i < |CStr(memory)|
  {
    if i < |CStr(memory)| {
      assert CStr(memory)[i] == memory[i];
    }
  }

  lemma Agree(s1: seq<Byte>, s2: seq<Byte>, n: nat, i: nat)
    requires i < n && i < |s1| && i < |s2| && i <= |CStr(s1)| && i <= |CStr(s2)|
    requires forall k :: 0 <= k <= i ==> ToUpper(s1[k]) == ToUpper(s2[k])
    requires i + 1 == n || s1[i] == 0
    ensures SameIgnoringCase(UpTo(CStr(s1), n), UpTo(CStr(s2), n))
  {
    InString(s1, |s1|, i);
    InString(s2, |s2|, i);
    var a, b := UpTo(CStr(s1), n), UpTo(CStr(s2), n);
    UpperDecides(a, b);
    assert |a| == |b| <= i + 1;
    assert forall k :: 0 <= k < |a| ==> a[k] == s1[k] && b[k] == s2[k];
  }

  lemma Differ(s1: seq<Byte>, s2: seq<Byte>, n: nat, i: nat)
    requires i < n && i < |s1| && i < |s2| && i <= |CStr(s1)| && i <= |CStr(s2)|
    requires ToUpper(s1[i]) != ToUpper(s2[i])
    ensures !SameIgnoringCase(UpTo(CStr(s1), n), UpTo(CStr(s2), n))
  {
    InString(s1, |s1|, i);
    InString(s2, |s2|, i);
    var a, b := UpTo(CStr(s1), n), UpTo(CStr(s2), n);
    UpperDecides(a, b);
    assert |UpperAll(a)| == |a| && |UpperAll(b)| == |b|;
    assert i < |a| && i < |b| ==> UpperAll(a)[i] != UpperAll(b)[i];
  }

  /** Sets `n` bytes from `base` on to `c`. */
  method Memset(out: array<Byte>, base: nat, c: Byte, n: nat)
    requires base + n <= out.Length
    modifies out
    ensures forall j :: 0 <= j < out.Length ==> out[j] == if base <= j < base + n then c else old(out[j])
  {
    for i := 0 to n
      invariant forall j :: 0 <= j < out.Length ==> out[j] == if base <= j < base + i then c else old(out[j])
    {
      out[base + i] := c;
    }
  }
}
