/** The ZSO file format of pc/ziso.py: a header, a table of block positions whose top
    bit marks plain blocks, and the blocks, each aligned to a power of two.  LZ4 is an
    abstract codec. */
module Zso {
  import opened Options
  import opened Bytes

  const ZISO_MAGIC := 0x4F53495A
  const HEADER := 24
  const FLAG := 0x8000_0000

  datatype Codec = Codec(encode: seq<byte> -> seq<byte>, decode: (seq<byte>, nat) -> Option<seq<byte>>)

  /** The command line: codec and level, block size, threshold in percent, padding. */
  datatype Setup = Setup(codec: Codec, bsize: nat, threshold: int, padding: byte)

  function Pad(padding: byte, n: nat): (s: seq<byte>) ensures |s| == n { seq(n, i => padding) }

  function Pow2(n: nat): (p: nat)
    ensures p > 0
  {
    if n == 0 then 1 else 2 * Pow2(n - 1)
  }

  /** set_align: the next multiple of 1 << align. */
  function AlignUp(p: nat, align: nat): (q: nat)
    ensures p <= q < p + Pow2(align)
  {
    if p % Pow2(align) != 0 then p + (Pow2(align) - p % Pow2(align)) else p
  }

  /** x // d. */
  function Quot(x: nat, d: nat): nat
    requires d > 0
  {
    x / d
  }

  /** x >> n. */
  function Shr(x: nat, n: nat): nat { Quot(x, Pow2(n)) }

  /** x << n. */
  function Shl(x: nat, n: nat): nat { x * Pow2(n) }

  /** x | 0x80000000. */
  function SetFlag(x: nat): nat { if HasFlag(x) then x else x + FLAG }

  /** x & 0x80000000. */
  predicate HasFlag(x: nat) { x / FLAG % 2 == 1 }

  // ---------------------------------------------------------------------------
  // The layout of a compressed file
  // ---------------------------------------------------------------------------

  function Align(input: seq<byte>): nat { |input| / FLAG }

  function Count(s: Setup, input: seq<byte>): nat requires s.bsize > 0 { |input| / s.bsize }

  lemma BlockIn(bsize: nat, size: nat, i: nat)
    requires bsize > 0 && i < size / bsize
    ensures bsize * i + bsize == bsize * (i + 1) <= size
  {
    var n := size / bsize;
    assert bsize * (i + 1) <= bsize * n <= size;
  }

  function Block(s: Setup, input: seq<byte>, i: nat): (b: seq<byte>)
    requires s.bsize > 0 && i < Count(s, input)
    ensures |b| == s.bsize
  {
    BlockIn(s.bsize, |input|, i);
    input[s.bsize * i..s.bsize * i + s.bsize]
  }

  /** Not worth compressing: 100 * len(zso) / len(iso) reaches the threshold. */
  predicate StaysPlain(s: Setup, iso: seq<byte>, zso: seq<byte>) { 100 * |zso| >= s.threshold * |iso| }

  function IsPlain(s: Setup, input: seq<byte>, i: nat): bool
    requires s.bsize > 0 && i < Count(s, input)
  {
    StaysPlain(s, Block(s, input, i), s.codec.encode(Block(s, input, i)))
  }

  function Stored(s: Setup, input: seq<byte>, i: nat): seq<byte>
    requires s.bsize > 0 && i < Count(s, input)
  {
    if IsPlain(s, input, i) then Block(s, input, i) else s.codec.encode(Block(s, input, i))
  }

  function TableEnd(s: Setup, input: seq<byte>): nat
    requires s.bsize > 0
  {
    HEADER + 4 * (Count(s, input) + 1)
  }

  /** Where writing stands after i blocks. */
  function Pos(s: Setup, input: seq<byte>, i: nat): nat
    requires s.bsize > 0 && i <= Count(s, input)
  {
    if i == 0 then TableEnd(s, input)
    else AlignUp(Pos(s, input, i - 1), Align(input)) + |Stored(s, input, i - 1)|
  }

  function Start(s: Setup, input: seq<byte>, i: nat): nat
    requires s.bsize > 0 && i <= Count(s, input)
  {
    AlignUp(Pos(s, input, i), Align(input))
  }

  /** What follows the table after i blocks. */
  function Data(s: Setup, input: seq<byte>, i: nat): seq<byte>
    requires s.bsize > 0 && i <= Count(s, input)
  {
    if i == 0 then []
    else Data(s, input, i - 1) + Pad(s.padding, Start(s, input, i - 1) - Pos(s, input, i - 1)) + Stored(s, input, i - 1)
  }

  /** The position of block i in units of 1 << align; of the end, for i == Count. */
  function Unit(s: Setup, input: seq<byte>, i: nat): nat
    requires s.bsize > 0 && i <= Count(s, input)
  {
    Shr(if i < Count(s, input) then Start(s, input, i) else Pos(s, input, i), Align(input))
  }

  /** The table entry of block i. */
  function Index(s: Setup, input: seq<byte>, i: nat): nat
    requires s.bsize > 0 && i <= Count(s, input)
  {
    if i < Count(s, input) && IsPlain(s, input, i) then SetFlag(Unit(s, input, i)) else Unit(s, input, i)
  }

  /** A compressed block whose position collides with the flag: the program gives up. */
  predicate Collides(s: Setup, input: seq<byte>, i: nat)
    requires s.bsize > 0 && i < Count(s, input)
  {
    !IsPlain(s, input, i) && HasFlag(Unit(s, input, i))
  }

  function HeaderBytes(total: nat, bsize: nat, align: nat): (h: seq<byte>)
    requires total < TWO_32 * TWO_32 && bsize < TWO_32 && align < 128
    ensures |h| == HEADER
  {
    U32Bytes(ZISO_MAGIC) + U32Bytes(HEADER) + U64Bytes(total) + U32Bytes(bsize) + [1] + [align] + [0, 0]
  }

  function Words(xs: seq<nat>): (b: seq<byte>)
    requires forall i :: 0 <= i < |xs| ==> xs[i] < TWO_32
    ensures |b| == 4 * |xs|
  {
    if xs == [] then [] else Words(xs[..|xs| - 1]) + U32Bytes(xs[|xs| - 1])
  }

  function Table(s: Setup, input: seq<byte>): (t: seq<nat>)
    requires s.bsize > 0
    ensures |t| == Count(s, input) + 1
  {
    seq(Count(s, input) + 1, i requires 0 <= i <= Count(s, input) => Index(s, input, i))
  }

  /** Written(file), or how the program ends early: a field or a table entry does not
      fit its width (struct.error), or a position collides with the flag (exit 1). */
  datatype Outcome = Written(file: seq<byte>) | TooWide | AlignError

  predicate HeaderFits(s: Setup, input: seq<byte>) {
    |input| < TWO_32 * TWO_32 && s.bsize < TWO_32 && Align(input) < 128
  }

  predicate TableFits(xs: seq<nat>) { forall i :: 0 <= i < |xs| ==> xs[i] < TWO_32 }

  /** What compress_zso leaves behind. */
  function Compressed(s: Setup, input: seq<byte>): Outcome
    requires s.bsize > 0
  {
    if !HeaderFits(s, input) then TooWide
    else if exists i :: 0 <= i < Count(s, input) && Collides(s, input, i) then AlignError
    else if !TableFits(Table(s, input)) then TooWide
    else Written(HeaderBytes(|input|, s.bsize, Align(input)) + Words(Table(s, input)) + Data(s, input, Count(s, input)))
  }
}
