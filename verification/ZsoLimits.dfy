/** When the index flag bit is safe, and when the last block is lost (pc/ziso.py). */
module ZsoLimits {
  import opened Arithmetic
  import opened Bytes
  import opened Options
  import opened Zso
  import opened ZsoReader

  lemma PercentBelow(size: nat, threshold: int, bsize: nat)
    requires threshold <= 100 && 100 * size < threshold * bsize
    ensures size <= bsize
  {
    if threshold >= 0 { MulLe(bsize, threshold, 100); }
  }

  /** A stored block is never longer than block_size. */
  lemma StoredNotLonger(s: Setup, input: seq<byte>, i: nat)
    requires s.bsize > 0 && i < Count(s, input) && s.threshold <= 100
    ensures |Stored(s, input, i)| <= s.bsize
  {
    if !IsPlain(s, input, i) {
      var b := Block(s, input, i);
      assert |b| == s.bsize;
      hide Block;
      PercentBelow(|s.codec.encode(b)|, s.threshold, s.bsize);
    }
  }

  /** The alignment bytes written before the first i blocks. */
  function Padding(s: Setup, input: seq<byte>, i: nat): nat
    requires s.bsize > 0 && i <= Count(s, input)
  {
    if i == 0 then 0 else Padding(s, input, i - 1) + (Start(s, input, i - 1) - Pos(s, input, i - 1))
  }

  lemma {:induction false} PosBound(s: Setup, input: seq<byte>, i: nat)
    requires s.bsize > 0 && i <= Count(s, input) && s.threshold <= 100
    ensures Pos(s, input, i) <= TableEnd(s, input) + Padding(s, input, i) + s.bsize * i
    ensures Padding(s, input, i) <= (Pow2(Align(input)) - 1) * i
  {
    if i > 0 {
      PosBound(s, input, i - 1);
      StoredNotLonger(s, input, i - 1);
      hide Stored;
      hide Pow2;
      assert s.bsize * i == s.bsize * (i - 1) + s.bsize;
      assert (Pow2(Align(input)) - 1) * i == (Pow2(Align(input)) - 1) * (i - 1) + (Pow2(Align(input)) - 1);
    }
  }

  lemma {:induction false} PosGrows(s: Setup, input: seq<byte>, i: nat, j: nat)
    requires s.bsize > 0 && i <= j <= Count(s, input)
    ensures Pos(s, input, i) <= Pos(s, input, j)
    ensures i < j ==> Start(s, input, i) <= Pos(s, input, j)
    decreases j
  {
    if i < j { PosGrows(s, input, i, j - 1); }
  }

  lemma ShrBelow(x: nat, n: nat)
    requires x < FLAG * Pow2(n)
    ensures Shr(x, n) < FLAG
  {
    var unit := Pow2(n);
    hide Pow2;
    var k := x / unit;
    assert x == unit * k + x % unit;
    if k >= FLAG { MulLe(unit, FLAG, k); }
  }

  lemma EndBelowFits(s: Setup, input: seq<byte>)
    requires s.bsize > 0 && Pos(s, input, Count(s, input)) < FLAG * Pow2(Align(input))
    ensures UnitsFit(s, input)
  {
    forall i | 0 <= i <= Count(s, input) ensures Unit(s, input, i) < FLAG {
      PosGrows(s, input, i, Count(s, input));
      ShrBelow(if i < Count(s, input) then Start(s, input, i) else Pos(s, input, i), Align(input));
    }
  }

  /** For any alignment: positions stay below the flag bit as long as header, table,
      padding and input together stay below 2^31 alignment units. */
  lemma FlagSafe(s: Setup, input: seq<byte>)
    requires s.bsize > 0 && s.threshold <= 100
    requires TableEnd(s, input) + Padding(s, input, Count(s, input)) + |input| < FLAG * Pow2(Align(input))
    ensures UnitsFit(s, input)
  {
    PosBound(s, input, Count(s, input));
    WholeBlocks(s.bsize, |input|, 0);
    EndBelowFits(s, input);
  }

  lemma {:induction false} Growth(a: nat)
    requires 2 <= a
    ensures (a + 1) * (FLAG + 3 * 0x10_0000) + 28 <= 15 * 0x800_0000 * Pow2(a)
  {
    if a == 2 {
      assert Pow2(2) == 4 by { assert Pow2(1) == 2; }
    } else {
      Growth(a - 1);
    }
  }

  lemma LargeEnd(n: nat, total: nat, a: nat, p: nat)
    requires total < (a + 1) * FLAG && 2048 * n <= total && a < 128
    requires (a + 1) * (FLAG + 3 * 0x10_0000) + 28 <= 15 * 0x800_0000 * p
    ensures 24 + 4 * (n + 1) + (p - 1) * n + total < FLAG * p
  {
    assert n < (a + 1) * 0x10_0000;
    assert n <= 0x800_0000;
    assert n * p <= 0x800_0000 * p;
    assert (p - 1) * n == n * p - n;
  }

  lemma Sizes(s: Setup, input: seq<byte>)
    requires s.bsize >= 2048
    ensures 2048 * Count(s, input) <= s.bsize * Count(s, input) <= |input| < (Align(input) + 1) * FLAG
    ensures TableEnd(s, input) == 24 + 4 * (Count(s, input) + 1)
  {
    WholeBlocks(s.bsize, |input|, 0);
    MulLe(Count(s, input), 2048, s.bsize);
  }

  /** The flag bit never collides for inputs of 4 GB up to 256 GB: alignments 2 to 127. */
  lemma FlagSafeLarge(s: Setup, input: seq<byte>)
    requires s.bsize >= 2048 && s.threshold <= 100 && 2 <= Align(input) < 128
    ensures UnitsFit(s, input)
  {
    hide *;
    var n, a := Count(s, input), Align(input);
    PosBound(s, input, n);
    Sizes(s, input);
    Growth(a);
    LargeEnd(n, |input|, a, Pow2(a));
    EndBelowFits(s, input);
  }

  /** With positions below the flag bit nothing collides and the table fits, so the
      program finishes. */
  lemma FitsMeansWritten(s: Setup, input: seq<byte>)
    requires s.bsize > 0 && HeaderFits(s, input) && UnitsFit(s, input)
    ensures Compressed(s, input).Written?
  {
    forall i | 0 <= i < Count(s, input) ensures !Collides(s, input, i) { FlagReads(Unit(s, input, i)); }
    forall i | 0 <= i <= Count(s, input) ensures Index(s, input, i) < TWO_32 { FlagReads(Unit(s, input, i)); }
  }

  // ---------------------------------------------------------------------------
  // The last block
  // ---------------------------------------------------------------------------

  /** A law of block codecs the round trip itself does not need: with its end missing, a
      compressed block does not decode to the block. */
  ghost predicate NeedsItsEnd(s: Setup) {
    forall b, k: nat :: |b| == s.bsize && k < |s.codec.encode(b)| ==>
      s.codec.decode(s.codec.encode(b)[..k], s.bsize) != Some(b)
  }

  lemma {:induction false} ShortNeverDecodes(s: Setup, b: seq<byte>, k: nat)
    requires NeedsItsEnd(s) && |b| == s.bsize && k < |s.codec.encode(b)|
    ensures Longest(s.codec, s.codec.encode(b)[..k], s.bsize) != Some(b)
  {
    var c := s.codec.encode(b);
    if k > 0 {
      assert c[..k][..k - 1] == c[..k - 1];
      ShortNeverDecodes(s, b, k - 1);
    }
  }

  lemma ReadShort(f: seq<byte>, lo: nat, size: nat, hi: nat)
    requires lo + size < hi <= |f|
    ensures ReadAt(f, lo, size) == Some(f[lo..hi][..size])
  {
    assert f[lo..][..size] == f[lo..hi][..size];
  }

  /** A last compressed block that does not fit is not read back. */
  lemma LastIsNotRead(s: Setup, input: seq<byte>)
    requires s.bsize > 0 && HeaderFits(s, input) && TableFits(Table(s, input)) && UnitsFit(s, input)
    requires !LastFits(s, input) && NeedsItsEnd(s)
    ensures Count(s, input) > 0
    ensures var i := Count(s, input) - 1;
      ReadBlock(s.codec, FileOf(s, input), HeaderOf(s, input), Table(s, input), i) != Got(Block(s, input, i))
  {
    var i := Count(s, input) - 1;
    var f, start := FileOf(s, input), Start(s, input, i);
    var b := Block(s, input, i);
    assert Table(s, input)[i] == Index(s, input, i);
    assert Stored(s, input, i) == s.codec.encode(b);
    UnitReads(s, input, i);
    StoredInFile(s, input, i);
    if |input| >= start {
      ReadShort(f, start, |input| - start, Pos(s, input, i + 1));
      ShortNeverDecodes(s, b, |input| - start);
    }
    hide Index, Unit, Start, Shl, Longest, FileOf, Pos, Stored, Block;
  }

  /** What a successful decompression returns ends with the block read last. */
  lemma {:induction false} EndsWithLast(codec: Codec, f: seq<byte>, h: Header, index: seq<nat>, i: nat)
    requires i + 1 < |index| && DecodeFrom(codec, f, h, index, i).Plain?
    ensures h.align >= 0 && ReadBlock(codec, f, h, index, |index| - 2).Got?
    ensures var d := ReadBlock(codec, f, h, index, |index| - 2).data;
      var all := DecodeFrom(codec, f, h, index, i).data;
      |d| == h.bsize <= |all| && all[|all| - h.bsize..] == d
    decreases |index| - i
  {
    hide ReadBlock;
    if i + 2 < |index| {
      EndsWithLast(codec, f, h, index, i + 1);
    } else {
      assert DecodeFrom(codec, f, h, index, i + 1) == Plain([]);
    }
  }

  lemma LastOfCut(s: Setup, input: seq<byte>)
    requires s.bsize > 0 && Count(s, input) > 0
    ensures 0 <= s.bsize * Count(s, input) <= |input|
    ensures var cut := input[..s.bsize * Count(s, input)];
      s.bsize <= |cut| && cut[|cut| - s.bsize..] == Block(s, input, Count(s, input) - 1)
  {
    WholeBlocks(s.bsize, |input|, 0);
    BlockIn(s.bsize, |input|, Count(s, input) - 1);
  }

  lemma WrittenIs(s: Setup, input: seq<byte>)
    requires s.bsize > 0 && Compressed(s, input).Written?
    ensures HeaderFits(s, input) && TableFits(Table(s, input)) && Compressed(s, input).file == FileOf(s, input)
    ensures HeaderOf(s, input).bsize == s.bsize && |Table(s, input)| == Count(s, input) + 1
    ensures Count(s, input) > 0 ==> |input| > 0
  {
  }

  lemma LastIsLost(s: Setup, input: seq<byte>)
    requires s.bsize > 0 && HeaderFits(s, input) && TableFits(Table(s, input)) && UnitsFit(s, input)
    requires !LastFits(s, input) && NeedsItsEnd(s) && |input| > 0 && Count(s, input) > 0
    requires HeaderOf(s, input).bsize == s.bsize && |Table(s, input)| == Count(s, input) + 1
    ensures 0 <= s.bsize * Count(s, input) <= |input|
    ensures Decompressed(s.codec, FileOf(s, input)) != Plain(input[..s.bsize * Count(s, input)])
  {
    hide *;
    LastOfCut(s, input);
    LastIsNotRead(s, input);
    Opens(s, input);
    if DecodeFrom(s.codec, FileOf(s, input), HeaderOf(s, input), Table(s, input), 0).Plain? {
      EndsWithLast(s.codec, FileOf(s, input), HeaderOf(s, input), Table(s, input), 0);
    }
  }

  /** The file reads back exactly when its last block is plain, ends within total_bytes,
      or starts one byte behind. */
  lemma RoundTripIff(s: Setup, input: seq<byte>)
    requires s.bsize > 0 && Count(s, input) > 0 && Compressed(s, input).Written?
    requires UnitsFit(s, input) && Lawful(s) && NeedsItsEnd(s)
    ensures 0 <= s.bsize * Count(s, input) <= |input|
    ensures Decompressed(s.codec, Compressed(s, input).file) == Plain(input[..s.bsize * Count(s, input)])
       <==> LastFits(s, input)
  {
    hide *;
    LastOfCut(s, input);
    WrittenIs(s, input);
    if LastFits(s, input) { RoundTrip(s, input); } else { LastIsLost(s, input); }
  }

  /** The last block is compressed and starts more than one byte behind total_bytes. */
  predicate LastIsLate(s: Setup, input: seq<byte>)
    requires s.bsize > 0 && Count(s, input) > 0
  {
    !IsPlain(s, input, Count(s, input) - 1) && Start(s, input, Count(s, input) - 1) > |input| + 1
  }

  lemma RaisesIffNegative(codec: Codec, f: seq<byte>, h: Header, index: seq<nat>, i: nat)
    requires i + 2 == |index| && h.align >= 0 && !HasFlag(index[i])
    ensures ReadBlock(codec, f, h, index, i) == ReadCrash <==> h.total - Shl(index[i] % FLAG, h.align) < -1
  {
  }

  lemma LastRaisesIff(s: Setup, input: seq<byte>)
    requires Built(s, input) && Count(s, input) > 0
    ensures HeaderOf(s, input).align >= 0
    ensures ReadBlock(s.codec, FileOf(s, input), HeaderOf(s, input), Table(s, input), Count(s, input) - 1) == ReadCrash
      <==> LastIsLate(s, input)
  {
    var i, plain := Count(s, input) - 1, IsPlain(s, input, Count(s, input) - 1);
    var h := HeaderOf(s, input);
    assert h.align == Align(input) && h.total == |input|;
    assert Table(s, input)[i] == Index(s, input, i);
    assert LastIsLate(s, input) <==> !plain && Start(s, input, i) > |input| + 1;
    BuiltParts(s, input, i);
    assert UnitsFit(s, input);
    hide *;
    UnitReads(s, input, i);
    if plain {
      ReadPlain(s, input, i);
    } else {
      RaisesIffNegative(s.codec, FileOf(s, input), h, Table(s, input), i);
    }
  }

  lemma CrashLater(codec: Codec, f: seq<byte>, h: Header, index: seq<nat>, i: nat)
    requires i + 1 < |index| && h.align >= 0
    ensures i + 2 == |index| ==>
      (DecodeFrom(codec, f, h, index, i) == Crash <==> ReadBlock(codec, f, h, index, i) == ReadCrash)
    ensures ReadBlock(codec, f, h, index, i).Got? && |ReadBlock(codec, f, h, index, i).data| == h.bsize ==>
      (DecodeFrom(codec, f, h, index, i) == Crash <==> DecodeFrom(codec, f, h, index, i + 1) == Crash)
  {
    hide ReadBlock;
  }

  /** All blocks before the last are read back, so the last one decides. */
  lemma {:induction false} LastDecides(s: Setup, input: seq<byte>, i: nat)
    requires Built(s, input) && i < Count(s, input)
    ensures HeaderOf(s, input).align >= 0
    ensures DecodeFrom(s.codec, FileOf(s, input), HeaderOf(s, input), Table(s, input), i) == Crash
      <==> ReadBlock(s.codec, FileOf(s, input), HeaderOf(s, input), Table(s, input), Count(s, input) - 1) == ReadCrash
    decreases Count(s, input) - i
  {
    hide *;
    BuiltParts(s, input, i);
    CrashLater(s.codec, FileOf(s, input), HeaderOf(s, input), Table(s, input), i);
    if i + 1 < Count(s, input) {
      LastDecides(s, input, i + 1);
      ReadsEarlier(s, input, i);
    }
  }

  lemma ReadsEarlier(s: Setup, input: seq<byte>, i: nat)
    requires Built(s, input) && i + 1 < Count(s, input)
    ensures ReadBlock(s.codec, FileOf(s, input), HeaderOf(s, input), Table(s, input), i) == Got(Block(s, input, i))
  {
    var plain := IsPlain(s, input, i);
    hide *;
    if plain { ReadPlain(s, input, i); } else { ReadMiddle(s, input, i); }
  }

  /** The length of the last compressed block is computed from the size of the input, not
      of the file: decompression ends with an exception exactly when that block starts
      more than one byte behind total_bytes, which the table alone can cause. */
  lemma CrashesIff(s: Setup, input: seq<byte>)
    requires s.bsize > 0 && Count(s, input) > 0 && Compressed(s, input).Written?
    requires UnitsFit(s, input) && Lawful(s)
    ensures Decompressed(s.codec, Compressed(s, input).file) == Crash <==> LastIsLate(s, input)
  {
    WrittenIs(s, input);
    assert Built(s, input);
    hide *;
    LastDecides(s, input, 0);
    LastRaisesIff(s, input);
    Opens(s, input);
  }

  /** A codec that knows one block, [7, 7, 7, 7], and stores the others behind a byte. */
  function OneBlockCodec(): Codec {
    Codec(
      b => if b == [7, 7, 7, 7] then [0, 1, 2] else [1] + b,
      (c, n) => if c == [0, 1, 2] && n == 4 then Some([7, 7, 7, 7])
                else if |c| == n + 1 && c[0] == 1 then Some(c[1..]) else None)
  }

  /** An input of one block: it is stored in 3 bytes at position 32, behind total_bytes, and
      the reader raises an exception. */
  lemma OneBlockCrashes(s: Setup, input: seq<byte>)
    requires s == Setup(OneBlockCodec(), 4, 100, 0) && input == [7, 7, 7, 7]
    ensures Lawful(s) && NeedsItsEnd(s) && HeaderFits(s, input) && UnitsFit(s, input) && Compressed(s, input).Written?
    ensures Count(s, input) == 1 && Start(s, input, 0) == 32 && LastIsLate(s, input) && !LastFits(s, input)
    ensures Decompressed(s.codec, Compressed(s, input).file) == Crash
  {
    OneBlockLawful(s);
    OneBlockStands(s, input);
    FitsMeansWritten(s, input);
    hide Lawful, NeedsItsEnd, UnitsFit, HeaderFits, Compressed, Decompressed, LastIsLate;
    CrashesIff(s, input);
  }

  lemma OneBlockLawful(s: Setup)
    requires s == Setup(OneBlockCodec(), 4, 100, 0)
    ensures Lawful(s) && NeedsItsEnd(s)
  {
    forall b: seq<byte>, k: nat | |b| == 4 && k > 0
      ensures s.codec.decode(s.codec.encode(b) + Pad(0, k), 4) == None
    {
      var c := s.codec.encode(b) + Pad(0, k);
      assert |c| == |s.codec.encode(b)| + k && c[0] == s.codec.encode(b)[0];
    }
    forall b: seq<byte>, k: nat | |b| == 4 && k < |s.codec.encode(b)|
      ensures s.codec.decode(s.codec.encode(b)[..k], 4) != Some(b)
    {
    }
  }

  lemma OneBlockStands(s: Setup, input: seq<byte>)
    requires s == Setup(OneBlockCodec(), 4, 100, 0) && input == [7, 7, 7, 7]
    ensures HeaderFits(s, input) && UnitsFit(s, input) && Align(input) == 0
    ensures Count(s, input) == 1 && Start(s, input, 0) == 32 && LastIsLate(s, input) && !LastFits(s, input)
  {
    assert Pow2(0) == 1 && Align(input) == 0 && Count(s, input) == 1;
    assert Block(s, input, 0) == input;
    assert s.codec.encode(input) == [0, 1, 2] && !IsPlain(s, input, 0);
    assert Pos(s, input, 0) == 32 && Start(s, input, 0) == 32 && Pos(s, input, 1) == 35;
  }

  // ---------------------------------------------------------------------------
  // Everyday inputs
  // ---------------------------------------------------------------------------

  lemma SmallSizes(s: Setup, input: seq<byte>)
    requires 0 < s.bsize < TWO_32 && |input| < 0x1000_0000
    ensures HeaderFits(s, input) && Align(input) == 0
    ensures TableEnd(s, input) == 28 + 4 * Count(s, input)
    ensures Count(s, input) <= s.bsize * Count(s, input) <= |input|
  {
    WholeBlocks(s.bsize, |input|, 0);
    MulLe(Count(s, input), 1, s.bsize);
  }

  lemma SmallFits(s: Setup, input: seq<byte>)
    requires 0 < s.bsize < TWO_32 && s.threshold <= 100 && |input| < 0x1000_0000
    ensures HeaderFits(s, input) && UnitsFit(s, input)
  {
    assert Pow2(0) == 1 && FLAG == 0x8000_0000;
    hide *;
    SmallSizes(s, input);
    PosBound(s, input, Count(s, input));
    EndBelowFits(s, input);
  }

  /** Every input of less than 256 MB whose last compressed block ends in time reads back,
      whatever the codec makes of its blocks. */
  lemma SmallInputsReadBack(s: Setup, input: seq<byte>)
    requires 0 < s.bsize < TWO_32 && s.threshold <= 100 && Lawful(s)
    requires 0 < |input| < 0x1000_0000 && LastFits(s, input)
    ensures 0 <= s.bsize * Count(s, input) <= |input|
    ensures Compressed(s, input).Written?
    ensures Decompressed(s.codec, Compressed(s, input).file) == Plain(input[..s.bsize * Count(s, input)])
  {
    hide *;
    SmallFits(s, input);
    FitsMeansWritten(s, input);
    RoundTrip(s, input);
  }
}
