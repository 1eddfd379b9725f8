/** Bytes in memory: little-endian fields, C strings, memcpy and memset. */
module Bytes {
  type byte = x: int | 0 <= x < 256

  const TWO_32 := 0x1_0000_0000

  function Zeros(n: nat): seq<byte> { seq(n, i => 0) }

  /** A buffer after the bytes of src were stored at offset `at`. */
  function Write(b: seq<byte>, at: nat, src: seq<byte>): (b': seq<byte>)
    requires at + |src| <= |b|
    ensures |b'| == |b|
  {
    seq(|b|, i requires 0 <= i < |b| => if at <= i < at + |src| then src[i - at] else b[i])
  }

  lemma WriteHere(b: seq<byte>, at: nat, src: seq<byte>)
    requires at + |src| <= |b|
    ensures Write(b, at, src)[at..at + |src|] == src
  {
  }

  lemma WriteApart(b: seq<byte>, at: nat, src: seq<byte>, lo: nat, hi: nat)
    requires at + |src| <= |b| && lo <= hi <= |b| && (hi <= at || at + |src| <= lo)
    ensures Write(b, at, src)[lo..hi] == b[lo..hi]
  {
  }

  lemma SubSlice(b: seq<byte>, b': seq<byte>, lo: nat, hi: nat, x: nat, y: nat)
    requires lo <= x <= y <= hi <= |b| == |b'| && b[lo..hi] == b'[lo..hi]
    ensures b[x..y] == b'[x..y]
  {
    forall i | x <= i < y ensures b[i] == b'[i] {
      assert b[i] == b[lo..hi][i - lo] && b'[i] == b'[lo..hi][i - lo];
    }
  }

  lemma WriteNothing(b: seq<byte>, at: nat)
    requires at <= |b|
    ensures Write(b, at, []) == b
  {
  }

  lemma WriteTwice(b: seq<byte>, at: nat, x: seq<byte>, y: seq<byte>)
    requires at + |x| <= |b| && |x| == |y|
    ensures Write(Write(b, at, x), at, y) == Write(b, at, y)
  {
  }

  lemma WriteAppend(b: seq<byte>, at: nat, x: seq<byte>, y: seq<byte>)
    requires at + |x| + |y| <= |b|
    ensures Write(Write(b, at, x), at + |x|, y) == Write(b, at, x + y)
  {
  }

  lemma WriteCommute(b: seq<byte>, i: nat, x: seq<byte>, j: nat, y: seq<byte>)
    requires i + |x| <= j && j + |y| <= |b|
    ensures Write(Write(b, i, x), j, y) == Write(Write(b, j, y), i, x)
  {
    var l, r := Write(Write(b, i, x), j, y), Write(Write(b, j, y), i, x);
    assert l[..j] == r[..j];
    assert l[j..] == r[j..];
    assert l == l[..j] + l[j..] && r == r[..j] + r[j..];
  }

  function U16At(b: seq<byte>, o: nat): nat
    requires o + 2 <= |b|
  {
    b[o] as int + 0x100 * b[o + 1] as int
  }

  function U32At(b: seq<byte>, o: nat): (v: nat)
    requires o + 4 <= |b|
    ensures v < TWO_32
  {
    b[o] as int + 0x100 * b[o + 1] as int + 0x1_0000 * b[o + 2] as int + 0x100_0000 * b[o + 3] as int
  }

  function U16Bytes(v: nat): (s: seq<byte>)
    requires v < 0x1_0000
    ensures |s| == 2 && U16At(s, 0) == v
  {
    [v % 0x100, v / 0x100]
  }

  function U32Bytes(v: nat): (s: seq<byte>)
    requires v < TWO_32
    ensures |s| == 4 && U32At(s, 0) == v
  {
    var v1 := v / 0x100;
    var v2 := v1 / 0x100;
    [v % 0x100, v1 % 0x100, v2 % 0x100, v2 / 0x100]
  }

  function U64At(b: seq<byte>, o: nat): nat
    requires o + 8 <= |b|
  {
    U32At(b, o) + TWO_32 * U32At(b, o + 4)
  }

  function U64Bytes(v: nat): (s: seq<byte>)
    requires v < TWO_32 * TWO_32
    ensures |s| == 8
  {
    U32Bytes(v % TWO_32) + U32Bytes(v / TWO_32)
  }

  lemma U64RoundTrip(v: nat)
    requires v < TWO_32 * TWO_32
    ensures U64At(U64Bytes(v), 0) == v
  {
    var s := U64Bytes(v);
    assert s[..4] == U32Bytes(v % TWO_32) && s[4..] == U32Bytes(v / TWO_32);
  }

  /** A field read from a larger buffer is the field of the slice there. */
  lemma U32Slice(b: seq<byte>, o: nat)
    requires o + 4 <= |b|
    ensures U32At(b, o) == U32At(b[o..o + 4], 0)
  {
  }

  lemma U64Slice(b: seq<byte>, o: nat)
    requires o + 8 <= |b|
    ensures U64At(b, o) == U64At(b[o..o + 8], 0)
  {
  }

  /** The string that starts a buffer: the bytes before the first zero. */
  function CStr(b: seq<byte>): (s: seq<byte>)
    ensures |s| <= |b| && s == b[..|s|]
    ensures |s| < |b| ==> b[|s|] == 0
    ensures forall i :: 0 <= i < |s| ==> s[i] != 0
  {
    if b == [] || b[0] == 0 then [] else [b[0]] + CStr(b[1..])
  }

  /** A buffer that starts with a string and its terminator reads back as that string. */
  lemma {:induction false} CStrOf(s: seq<byte>, rest: seq<byte>)
    requires forall i :: 0 <= i < |s| ==> s[i] != 0
    ensures CStr(s + [0] + rest) == s
  {
    var b := s + [0] + rest;
    assert b[|s|] == 0;
    assert forall i :: 0 <= i < |s| ==> b[i] == s[i] != 0;
    assert CStr(b) == b[..|CStr(b)|];
    assert s == b[..|s|];
  }

  method Memcpy(dst: array<byte>, at: nat, src: seq<byte>)
    requires at + |src| <= dst.Length
    modifies dst
    ensures dst[..] == Write(old(dst[..]), at, src)
  {
    var i := 0;
    while i < |src|
      invariant 0 <= i <= |src|
      invariant dst[..] == Write(old(dst[..]), at, src[..i])
    {
      dst[at + i] := src[i];
      i := i + 1;
    }
    assert src[..i] == src;
  }

  method Memset(dst: array<byte>, at: nat, v: byte, n: nat)
    requires at + n <= dst.Length
    modifies dst
    ensures dst[..] == Write(old(dst[..]), at, seq(n, i => v))
  {
    var i := 0;
    while i < n
      invariant 0 <= i <= n
      invariant dst[..] == Write(old(dst[..]), at, seq(i, j => v))
    {
      dst[at + i] := v;
      i := i + 1;
    }
  }
}
