/** decompress_zso of pc/ziso.py, and the round trip. */
module ZsoReader {
  import opened Arithmetic
  import opened Bytes
  import opened Options
  import opened Zso

  datatype Header = Header(magic: nat, size: nat, total: nat, bsize: nat, ver: int, align: int)

  /** unpack('b', ..). */
  function Signed(b: byte): int { if b < 128 then b as int else b as int - 256 }

  function ParseHeader(file: seq<byte>): Header
    requires |file| >= HEADER
  {
    Header(U32At(file, 0), U32At(file, 4), U64At(file, 8), U32At(file, 16), Signed(file[20]), Signed(file[21]))
  }

  predicate Accepted(h: Header) {
    h.magic == ZISO_MAGIC && h.bsize != 0 && h.total != 0 && h.size == 24 && h.ver <= 1
  }

  /** How decompress_zso ends: with output; with a message; with an uncaught exception
      (a short table, a negative shift or read length); or never. */
  datatype Result = Plain(data: seq<byte>) | FormatError | BadBlock(block: nat) | Crash | Hangs

  /** fin.seek(pos); fin.read(size): -1 reads all, other negative sizes raise. */
  function ReadAt(file: seq<byte>, pos: nat, size: int): Option<seq<byte>> {
    if size < -1 then None
    else
      var from := if pos <= |file| then file[pos..] else [];
      Some(if size == -1 || size >= |from| then from else from[..size])
  }

  /** lz4_decompress: the last byte is cut off until the rest decodes; None if no prefix
      does, when the loop never ends. */
  function Longest(codec: Codec, c: seq<byte>, bsize: nat): Option<seq<byte>> {
    if codec.decode(c, bsize).Some? then codec.decode(c, bsize)
    else if c == [] then None
    else Longest(codec, c[..|c| - 1], bsize)
  }

  datatype Read = Got(data: seq<byte>) | ReadCrash | ReadHangs

  /** What the loop reads for one block (lines 159-179). */
  function ReadBlock(codec: Codec, file: seq<byte>, h: Header, index: seq<nat>, i: nat): Read
    requires i + 1 < |index| && h.align >= 0
  {
    var unit := index[i] % FLAG;
    var pos := Shl(unit, h.align);
    if HasFlag(index[i]) then
      var d := ReadAt(file, pos, h.bsize);
      if d.None? then ReadCrash else Got(d.value)
    else
      var size := if i + 2 == |index| then h.total - pos else (index[i + 1] % FLAG - unit) * Pow2(h.align);
      var d := ReadAt(file, pos, size);
      if d.None? then ReadCrash
      else
        var plain := Longest(codec, d.value, h.bsize);
        if plain.None? then ReadHangs else Got(plain.value)
  }

  function Prepend(data: seq<byte>, r: Result): Result { if r.Plain? then Plain(data + r.data) else r }

  /** The loop from block i on. */
  function DecodeFrom(codec: Codec, file: seq<byte>, h: Header, index: seq<nat>, i: nat): Result
    requires i < |index|
    decreases |index| - i
  {
    if i + 1 == |index| then Plain([])
    else if h.align < 0 then Crash
    else match ReadBlock(codec, file, h, index, i)
      case ReadCrash => Crash
      case ReadHangs => Hangs
      case Got(d) => if |d| != h.bsize then BadBlock(i) else Prepend(d, DecodeFrom(codec, file, h, index, i + 1))
  }

  function TableOf(file: seq<byte>, count: nat): (index: seq<nat>)
    requires HEADER + 4 * count <= |file|
    ensures |index| == count
  {
    seq(count, i requires 0 <= i < count => U32At(file, HEADER + 4 * i))
  }

  /** What decompress_zso produces. */
  function Decompressed(codec: Codec, file: seq<byte>): Result {
    if |file| < HEADER then Crash
    else
      var h := ParseHeader(file);
      if !Accepted(h) then FormatError
      else
        var count := Quot(h.total, h.bsize) + 1;
        if HEADER + 4 * count > |file| then Crash else DecodeFrom(codec, file, h, TableOf(file, count), 0)
  }

  // ---------------------------------------------------------------------------
  // The code
  // ---------------------------------------------------------------------------

  /** lz4_decompress; the loop ends because some prefix decodes. */
  method Lz4Decompress(codec: Codec, compressed: seq<byte>, bsize: nat) returns (decompressed: seq<byte>)
    requires Longest(codec, compressed, bsize).Some?
    ensures Longest(codec, compressed, bsize) == Some(decompressed)
  {
    var c := compressed;
    while codec.decode(c, bsize).None?
      invariant Longest(codec, c, bsize) == Longest(codec, compressed, bsize)
      decreases |c|
    {
      c := c[..|c| - 1];
    }
    decompressed := codec.decode(c, bsize).value;
  }

  /** Lines 140-143: the table of block positions. */
  method ReadTable(file: seq<byte>, count: nat) returns (index: seq<nat>)
    requires HEADER + 4 * count <= |file|
    ensures index == TableOf(file, count)
  {
    index := [];
    while |index| < count
      invariant |index| <= count && index == TableOf(file, count)[..|index|]
    {
      index := index + [U32At(file, HEADER + 4 * |index|)];
    }
  }

  /** Lines 159-179: one block is read and decoded; None stands for an exception. */
  method ReadOne(codec: Codec, file: seq<byte>, h: Header, index: seq<nat>, block: nat) returns (d: Option<seq<byte>>)
    requires block + 1 < |index| && h.align >= 0 && ReadBlock(codec, file, h, index, block) != ReadHangs
    ensures ReadBlock(codec, file, h, index, block) == if d.Some? then Got(d.value) else ReadCrash
  {
    var unit := index[block] % FLAG;
    var readPos := Shl(unit, h.align);
    var readSize: int;
    if HasFlag(index[block]) {
      readSize := h.bsize;
    } else {
      readSize := (index[block + 1] % FLAG - unit) * Pow2(h.align);
      if block == |index| - 2 {
        readSize := h.total - readPos;
      }
    }
    d := ReadAt(file, readPos, readSize);
    if d.Some? && !HasFlag(index[block]) {
      var plain := Lz4Decompress(codec, d.value, h.bsize);
      d := Some(plain);
    }
  }

  lemma DecodeIs(codec: Codec, file: seq<byte>, h: Header, index: seq<nat>, i: nat)
    requires i < |index|
    ensures i + 1 == |index| ==> DecodeFrom(codec, file, h, index, i) == Plain([])
    ensures i + 1 < |index| && h.align < 0 ==> DecodeFrom(codec, file, h, index, i) == Crash
    ensures i + 1 < |index| && h.align >= 0 ==>
      var d := ReadBlock(codec, file, h, index, i);
      DecodeFrom(codec, file, h, index, i) ==
        if d.ReadCrash? then Crash
        else if d.ReadHangs? then Hangs
        else if |d.data| != h.bsize then BadBlock(i)
        else Prepend(d.data, DecodeFrom(codec, file, h, index, i + 1))
  {
    hide ReadBlock;
  }

  lemma PrependIs(data: seq<byte>, r: Result)
    ensures !r.Plain? ==> Prepend(data, r) == r
    ensures Prepend([], r) == r && Prepend(data, Plain([])) == Plain(data)
  {
    if r.Plain? { assert [] + r.data == r.data; }
    assert data + [] == data;
  }

  /** The loop of decompress_zso. */
  method ReadBlocks(codec: Codec, file: seq<byte>, h: Header, index: seq<nat>) returns (r: Result)
    requires index != [] && DecodeFrom(codec, file, h, index, 0) != Hangs
    ensures r == DecodeFrom(codec, file, h, index, 0)
  {
    hide ReadBlock, DecodeFrom, Prepend;
    var totalBlock := |index| - 1;
    var out, block := [], 0;
    PrependIs(out, DecodeFrom(codec, file, h, index, block));
    while block < totalBlock
      invariant 0 <= block <= totalBlock
      invariant DecodeFrom(codec, file, h, index, 0) == Prepend(out, DecodeFrom(codec, file, h, index, block))
    {
      DecodeIs(codec, file, h, index, block);
      PrependIs(out, DecodeFrom(codec, file, h, index, block));
      if h.align < 0 {
        return Crash;
      }
      var decData := ReadOne(codec, file, h, index, block);
      if decData.None? {
        return Crash;
      }
      if |decData.value| != h.bsize {
        return BadBlock(block);
      }
      PrependTwice(out, decData.value, DecodeFrom(codec, file, h, index, block + 1));
      out := out + decData.value;
      block := block + 1;
    }
    DecodeIs(codec, file, h, index, block);
    PrependIs(out, Plain([]));
    r := Plain(out);
  }

  /** decompress_zso, on files all of whose blocks decode after some stripping. */
  method Decompress(codec: Codec, file: seq<byte>) returns (r: Result)
    requires Decompressed(codec, file) != Hangs
    ensures r == Decompressed(codec, file)
  {
    if |file| < HEADER {
      return Crash;
    }
    var h := ParseHeader(file);
    if !Accepted(h) {
      return FormatError;
    }
    var totalBlock := Quot(h.total, h.bsize);
    if HEADER + 4 * (totalBlock + 1) > |file| {
      return Crash;
    }
    var index := ReadTable(file, totalBlock + 1);
    r := ReadBlocks(codec, file, h, index);
  }

  lemma PrependTwice(a: seq<byte>, b: seq<byte>, r: Result)
    ensures Prepend(a, Prepend(b, r)) == Prepend(a + b, r)
  {
    if r.Plain? { assert a + (b + r.data) == a + b + r.data; }
  }

  // ---------------------------------------------------------------------------
  // The round trip
  // ---------------------------------------------------------------------------

  /** What is assumed of LZ4: a block decodes to itself, and with padding behind the
      compressed block nothing decodes until all padding is cut off. */
  ghost predicate Lawful(s: Setup) {
    && (forall b :: |b| == s.bsize ==> s.codec.decode(s.codec.encode(b), s.bsize) == Some(b))
    && (forall b, k: nat :: |b| == s.bsize && k > 0 ==>
          s.codec.decode(s.codec.encode(b) + Pad(s.padding, k), s.bsize) == None)
  }

  lemma {:induction false} LongestOfPadded(s: Setup, b: seq<byte>, k: nat)
    requires Lawful(s) && |b| == s.bsize
    ensures Longest(s.codec, s.codec.encode(b) + Pad(s.padding, k), s.bsize) == Some(b)
  {
    var c := s.codec.encode(b);
    if k == 0 {
      assert c + Pad(s.padding, 0) == c;
    } else {
      LongestOfPadded(s, b, k - 1);
      assert (c + Pad(s.padding, k))[..|c| + k - 1] == c + Pad(s.padding, k - 1);
    }
  }

  lemma {:induction false} DataLength(s: Setup, input: seq<byte>, i: nat)
    requires s.bsize > 0 && i <= Count(s, input)
    ensures |Data(s, input, i)| == Pos(s, input, i) - TableEnd(s, input)
  {
    if i > 0 { DataLength(s, input, i - 1); }
  }

  lemma {:induction false} DataPrefix(s: Setup, input: seq<byte>, i: nat, j: nat)
    requires s.bsize > 0 && i <= j <= Count(s, input)
    ensures |Data(s, input, i)| <= |Data(s, input, j)| && Data(s, input, j)[..|Data(s, input, i)|] == Data(s, input, i)
    decreases j
  {
    if i < j {
      DataExtends(s, input, j);
      hide *;
      DataPrefix(s, input, i, j - 1);
      SliceOfPrefix(Data(s, input, j), Data(s, input, j - 1), 0, |Data(s, input, i)|);
    }
  }

  lemma DataExtends(s: Setup, input: seq<byte>, j: nat)
    requires s.bsize > 0 && 0 < j <= Count(s, input)
    ensures |Data(s, input, j - 1)| <= |Data(s, input, j)|
    ensures Data(s, input, j)[..|Data(s, input, j - 1)|] == Data(s, input, j - 1)
  {
  }

  /** The file as compress_zso writes it. */
  function FileOf(s: Setup, input: seq<byte>): (f: seq<byte>)
    requires s.bsize > 0 && HeaderFits(s, input) && TableFits(Table(s, input))
    ensures |f| == TableEnd(s, input) + |Data(s, input, Count(s, input))|
  {
    HeaderBytes(|input|, s.bsize, Align(input)) + Words(Table(s, input)) + Data(s, input, Count(s, input))
  }

  lemma DataStep(s: Setup, input: seq<byte>, i: nat)
    requires s.bsize > 0 && i < Count(s, input)
    ensures TableEnd(s, input) <= Pos(s, input, i) <= Start(s, input, i)
    ensures Start(s, input, i) + |Stored(s, input, i)| == Pos(s, input, i + 1)
    ensures |Data(s, input, i + 1)| == Pos(s, input, i + 1) - TableEnd(s, input)
    ensures Data(s, input, i + 1)[Start(s, input, i) - TableEnd(s, input)..] == Stored(s, input, i)
    ensures Data(s, input, i + 1)[Pos(s, input, i) - TableEnd(s, input)..Start(s, input, i) - TableEnd(s, input)]
         == Pad(s.padding, Start(s, input, i) - Pos(s, input, i))
  {
    DataLength(s, input, i);
  }

  /** The bytes of the file between two positions behind the table, once block i was
      written. */
  lemma FileSlice(s: Setup, input: seq<byte>, i: nat, lo: nat, hi: nat)
    requires s.bsize > 0 && HeaderFits(s, input) && TableFits(Table(s, input)) && i <= Count(s, input)
    requires TableEnd(s, input) <= lo <= hi <= TableEnd(s, input) + |Data(s, input, i)|
    ensures hi <= |FileOf(s, input)|
    ensures FileOf(s, input)[lo..hi] == Data(s, input, i)[lo - TableEnd(s, input)..hi - TableEnd(s, input)]
  {
    DataPrefix(s, input, i, Count(s, input));
    var te := TableEnd(s, input);
    var d, p := Data(s, input, Count(s, input)), Data(s, input, i);
    hide *;
    SliceBehind(FileOf(s, input), d, te, lo, hi);
    SliceOfPrefix(d, p, lo - te, hi - te);
  }

  lemma SliceBehind(f: seq<byte>, d: seq<byte>, te: nat, lo: nat, hi: nat)
    requires te <= lo <= hi <= |f| == te + |d| && f[te..] == d
    ensures f[lo..hi] == d[lo - te..hi - te]
  {
    forall k | lo <= k < hi ensures f[k] == d[k - te] { assert f[te..][k - te] == f[k]; }
  }

  lemma SliceOfPrefix(d: seq<byte>, p: seq<byte>, lo: nat, hi: nat)
    requires |p| <= |d| && d[..|p|] == p && lo <= hi <= |p|
    ensures d[lo..hi] == p[lo..hi]
  {
    forall k | lo <= k < hi ensures d[k] == p[k] { assert d[..|p|][k] == d[k]; }
  }

  /** Block i stands where the table says, right behind its padding. */
  lemma StoredInFile(s: Setup, input: seq<byte>, i: nat)
    requires s.bsize > 0 && HeaderFits(s, input) && TableFits(Table(s, input)) && i < Count(s, input)
    ensures Pos(s, input, i) <= Start(s, input, i)
    ensures Start(s, input, i) + |Stored(s, input, i)| == Pos(s, input, i + 1) <= |FileOf(s, input)|
    ensures FileOf(s, input)[Start(s, input, i)..Pos(s, input, i + 1)] == Stored(s, input, i)
    ensures FileOf(s, input)[Pos(s, input, i)..Start(s, input, i)]
      == Pad(s.padding, Start(s, input, i) - Pos(s, input, i))
  {
    hide *;
    DataStep(s, input, i);
    FileSlice(s, input, i + 1, Start(s, input, i), Pos(s, input, i + 1));
    FileSlice(s, input, i + 1, Pos(s, input, i), Start(s, input, i));
  }

  lemma FileEnds(s: Setup, input: seq<byte>)
    requires s.bsize > 0 && HeaderFits(s, input) && TableFits(Table(s, input))
    ensures |FileOf(s, input)| == Pos(s, input, Count(s, input))
  {
    DataLength(s, input, Count(s, input));
  }

  // The table and the header read back.

  lemma {:induction false} WordAt(xs: seq<nat>, i: nat)
    requires TableFits(xs) && i < |xs|
    ensures U32At(Words(xs), 4 * i) == xs[i]
  {
    var n := |xs| - 1;
    if i == n {
      U32Slice(Words(xs), 4 * i);
      assert Words(xs)[4 * n..4 * n + 4] == U32Bytes(xs[n]);
    } else {
      WordAt(xs[..n], i);
      U32Slice(Words(xs), 4 * i);
      U32Slice(Words(xs[..n]), 4 * i);
      assert Words(xs)[4 * i..4 * i + 4] == Words(xs[..n])[4 * i..4 * i + 4];
    }
  }

  lemma IndexInFile(s: Setup, input: seq<byte>, i: nat)
    requires s.bsize > 0 && HeaderFits(s, input) && TableFits(Table(s, input)) && i <= Count(s, input)
    ensures U32At(FileOf(s, input), HEADER + 4 * i) == Index(s, input, i)
  {
    var h, w, d := HeaderBytes(|input|, s.bsize, Align(input)), Words(Table(s, input)), Data(s, input, Count(s, input));
    WordAt(Table(s, input), i);
    WordBehind(h, w, d, i);
  }

  lemma WordBehind(h: seq<byte>, w: seq<byte>, d: seq<byte>, i: nat)
    requires |h| == HEADER && 4 * i + 4 <= |w|
    ensures U32At(h + w + d, HEADER + 4 * i) == U32At(w, 4 * i)
  {
    U32Slice(w, 4 * i);
    U32Slice(h + w + d, HEADER + 4 * i);
    assert (h + w + d)[HEADER + 4 * i..HEADER + 4 * i + 4] == w[4 * i..4 * i + 4];
  }

  lemma HeaderReads(total: nat, bsize: nat, align: nat, rest: seq<byte>)
    requires total < TWO_32 * TWO_32 && bsize < TWO_32 && align < 128
    ensures ParseHeader(HeaderBytes(total, bsize, align) + rest) == Header(ZISO_MAGIC, HEADER, total, bsize, 1, align)
  {
    var f := HeaderBytes(total, bsize, align) + rest;
    U64RoundTrip(total);
    U32Slice(f, 0);
    U32Slice(f, 4);
    U64Slice(f, 8);
    U32Slice(f, 16);
    assert f[0..4] == U32Bytes(ZISO_MAGIC);
    assert f[4..8] == U32Bytes(HEADER);
    assert f[8..16] == U64Bytes(total);
    assert f[16..20] == U32Bytes(bsize);
  }

  // Positions survive the shift and the flag.

  lemma MultipleShifts(q: nat, align: nat)
    ensures Shl(Shr(Pow2(align) * q, align), align) == Pow2(align) * q
  {
    hide Pow2;
    DivModOf(q, 0, Pow2(align));
  }

  lemma AlignUpAs(p: nat, align: nat) returns (q: nat)
    ensures AlignUp(p, align) == Pow2(align) * q
  {
    hide Pow2;
    var unit := Pow2(align);
    var r := p % unit;
    q := p / unit;
    assert p == unit * q + r;
    if r != 0 {
      MulNext(unit, q);
      q := q + 1;
    }
  }

  lemma AlignUpIsMultiple(p: nat, align: nat)
    ensures Shl(Shr(AlignUp(p, align), align), align) == AlignUp(p, align)
  {
    hide *;
    var q := AlignUpAs(p, align);
    MultipleShifts(q, align);
  }

  lemma FlagReads(x: nat)
    requires x < FLAG
    ensures !HasFlag(x) && x % FLAG == x
    ensures SetFlag(x) == x + FLAG && HasFlag(SetFlag(x)) && SetFlag(x) % FLAG == x
  {
  }

  /** Every position fits below the flag bit. */
  ghost predicate UnitsFit(s: Setup, input: seq<byte>)
    requires s.bsize > 0
  {
    forall i :: 0 <= i <= Count(s, input) ==> Unit(s, input, i) < FLAG
  }

  lemma UnitReads(s: Setup, input: seq<byte>, i: nat)
    requires s.bsize > 0 && UnitsFit(s, input) && i < Count(s, input)
    ensures HasFlag(Index(s, input, i)) == IsPlain(s, input, i)
    ensures Index(s, input, i) % FLAG == Unit(s, input, i)
    ensures Shl(Unit(s, input, i), Align(input)) == Start(s, input, i)
  {
    FlagReads(Unit(s, input, i));
    AlignUpIsMultiple(Pos(s, input, i), Align(input));
  }

  /** The compressed last block must end within total_bytes; one that starts exactly one
      byte behind is read with length -1, which means all of the rest. */
  predicate LastFits(s: Setup, input: seq<byte>)
    requires s.bsize > 0
  {
    var n := Count(s, input);
    n > 0 && !IsPlain(s, input, n - 1) ==> Pos(s, input, n) <= |input| || Start(s, input, n - 1) == |input| + 1
  }

  /** A file with positions below the flag bit, of a lawful codec. */
  ghost predicate Built(s: Setup, input: seq<byte>) {
    s.bsize > 0 && HeaderFits(s, input) && TableFits(Table(s, input)) && UnitsFit(s, input) && Lawful(s)
  }

  /** Everything the round trip needs about a file. */
  ghost predicate Sound(s: Setup, input: seq<byte>) { Built(s, input) && LastFits(s, input) }

  function HeaderOf(s: Setup, input: seq<byte>): Header
    requires s.bsize > 0
  {
    Header(ZISO_MAGIC, HEADER, |input|, s.bsize, 1, Align(input))
  }

  lemma ReadSlice(f: seq<byte>, lo: nat, hi: nat)
    requires lo <= hi <= |f|
    ensures ReadAt(f, lo, hi - lo) == Some(f[lo..hi])
  {
    if hi == |f| { assert f[lo..hi] == f[lo..]; } else { assert f[lo..][..hi - lo] == f[lo..hi]; }
  }

  lemma ReadRest(f: seq<byte>, lo: nat, size: nat)
    requires lo <= |f| <= lo + size
    ensures ReadAt(f, lo, size) == Some(f[lo..])
  {
  }

  lemma ReadAll(f: seq<byte>, lo: nat)
    requires lo <= |f|
    ensures ReadAt(f, lo, -1) == Some(f[lo..])
  {
  }

  lemma ReadPlain(s: Setup, input: seq<byte>, i: nat)
    requires Built(s, input) && i < Count(s, input) && IsPlain(s, input, i)
    ensures ReadBlock(s.codec, FileOf(s, input), HeaderOf(s, input), Table(s, input), i) == Got(Block(s, input, i))
  {
    UnitReads(s, input, i);
    StoredInFile(s, input, i);
    ReadSlice(FileOf(s, input), Start(s, input, i), Pos(s, input, i + 1));
    hide FileOf;
    hide Start;
    hide Pos;
    hide ReadAt;
  }

  lemma ReadCompressed(codec: Codec, f: seq<byte>, h: Header, index: seq<nat>, i: nat, size: int, c: seq<byte>,
                       b: seq<byte>)
    requires i + 1 < |index| && h.align >= 0 && !HasFlag(index[i])
    requires size == if i + 2 == |index| then h.total - Shl(index[i] % FLAG, h.align)
                     else (index[i + 1] % FLAG - index[i] % FLAG) * Pow2(h.align)
    requires ReadAt(f, Shl(index[i] % FLAG, h.align), size) == Some(c) && Longest(codec, c, h.bsize) == Some(b)
    ensures ReadBlock(codec, f, h, index, i) == Got(b)
  {
  }

  lemma UnitSpan(a: nat, b: nat, align: nat)
    ensures (b - a) * Pow2(align) == Shl(b, align) - Shl(a, align)
  {
  }

  /** Between two starts stand the stored block and the padding of the next. */
  lemma MiddleSlice(s: Setup, input: seq<byte>, i: nat)
    requires s.bsize > 0 && HeaderFits(s, input) && TableFits(Table(s, input)) && i + 1 < Count(s, input)
    ensures Start(s, input, i) <= Start(s, input, i + 1)
    ensures ReadAt(FileOf(s, input), Start(s, input, i), Start(s, input, i + 1) - Start(s, input, i))
         == Some(Stored(s, input, i) + Pad(s.padding, Start(s, input, i + 1) - Pos(s, input, i + 1)))
  {
    hide *;
    StoredInFile(s, input, i);
    StoredInFile(s, input, i + 1);
    var f, lo, mid, hi := FileOf(s, input), Start(s, input, i), Pos(s, input, i + 1), Start(s, input, i + 1);
    ReadSlice(f, lo, hi);
    assert f[lo..hi] == f[lo..mid] + f[mid..hi];
  }

  lemma IndexesOf(s: Setup, input: seq<byte>, i: nat)
    requires Built(s, input) && i + 1 < Count(s, input) && !IsPlain(s, input, i)
    ensures i + 2 < |Table(s, input)| && !HasFlag(Table(s, input)[i])
    ensures Shl(Table(s, input)[i] % FLAG, Align(input)) == Start(s, input, i)
    ensures (Table(s, input)[i + 1] % FLAG - Table(s, input)[i] % FLAG) * Pow2(Align(input))
         == Start(s, input, i + 1) - Start(s, input, i)
  {
    assert Table(s, input)[i] == Index(s, input, i) && Table(s, input)[i + 1] == Index(s, input, i + 1);
    hide Index;
    hide Unit;
    hide Start;
    hide Shl;
    UnitReads(s, input, i);
    UnitReads(s, input, i + 1);
    UnitSpan(Unit(s, input, i), Unit(s, input, i + 1), Align(input));
  }

  lemma ReadMiddle(s: Setup, input: seq<byte>, i: nat)
    requires Built(s, input) && i + 1 < Count(s, input) && !IsPlain(s, input, i)
    ensures ReadBlock(s.codec, FileOf(s, input), HeaderOf(s, input), Table(s, input), i) == Got(Block(s, input, i))
  {
    hide *;
    BuiltParts(s, input, i);
    IndexesOf(s, input, i);
    MiddleSlice(s, input, i);
    var k := Start(s, input, i + 1) - Pos(s, input, i + 1);
    LongestOfPadded(s, Block(s, input, i), k);
    ReadCompressed(s.codec, FileOf(s, input), HeaderOf(s, input), Table(s, input), i,
                   Start(s, input, i + 1) - Start(s, input, i), Stored(s, input, i) + Pad(s.padding, k),
                   Block(s, input, i));
  }

  lemma BuiltParts(s: Setup, input: seq<byte>, i: nat)
    requires Built(s, input) && i < Count(s, input)
    ensures s.bsize > 0 && HeaderFits(s, input) && TableFits(Table(s, input)) && Lawful(s)
    ensures HeaderOf(s, input).align == Align(input) && HeaderOf(s, input).bsize == s.bsize
    ensures !IsPlain(s, input, i) ==> Stored(s, input, i) == s.codec.encode(Block(s, input, i))
    ensures |Block(s, input, i)| == s.bsize && i + 1 <= Count(s, input)
    ensures i + 1 < Count(s, input) ==> Pos(s, input, i + 1) <= Start(s, input, i + 1)
  {
  }

  lemma LastSlice(s: Setup, input: seq<byte>, i: nat)
    requires s.bsize > 0 && HeaderFits(s, input) && TableFits(Table(s, input)) && i + 1 == Count(s, input)
    requires Pos(s, input, i + 1) <= |input| || Start(s, input, i) == |input| + 1
    ensures ReadAt(FileOf(s, input), Start(s, input, i), |input| - Start(s, input, i)) == Some(Stored(s, input, i))
  {
    hide *;
    StoredInFile(s, input, i);
    FileEnds(s, input);
    var f, lo := FileOf(s, input), Start(s, input, i);
    if lo == |input| + 1 { ReadAll(f, lo); } else { ReadRest(f, lo, |input| - lo); }
    assert f[lo..] == f[lo..|f|];
  }

  lemma ReadLast(s: Setup, input: seq<byte>, i: nat)
    requires Sound(s, input) && i + 1 == Count(s, input) && !IsPlain(s, input, i)
    ensures ReadBlock(s.codec, FileOf(s, input), HeaderOf(s, input), Table(s, input), i) == Got(Block(s, input, i))
  {
    assert Stored(s, input, i) == s.codec.encode(Block(s, input, i));
    assert Table(s, input)[i] == Index(s, input, i);
    var h := HeaderOf(s, input);
    assert h.align == Align(input) && h.bsize == s.bsize && h.total == |input|;
    assert Stored(s, input, i) + Pad(s.padding, 0) == Stored(s, input, i);
    hide *;
    UnitReads(s, input, i);
    LastSlice(s, input, i);
    LongestOfPadded(s, Block(s, input, i), 0);
    ReadCompressed(s.codec, FileOf(s, input), h, Table(s, input), i, |input| - Start(s, input, i),
                   Stored(s, input, i), Block(s, input, i));
  }

  lemma ReadsBlock(s: Setup, input: seq<byte>, i: nat)
    requires Sound(s, input) && i < Count(s, input)
    ensures ReadBlock(s.codec, FileOf(s, input), HeaderOf(s, input), Table(s, input), i) == Got(Block(s, input, i))
  {
    var plain := IsPlain(s, input, i);
    hide *;
    if plain { ReadPlain(s, input, i); }
    else if i + 1 < Count(s, input) { ReadMiddle(s, input, i); }
    else { ReadLast(s, input, i); }
  }

  /** Decoding the file from block i on gives this. */
  predicate DecodesTo(s: Setup, input: seq<byte>, i: nat, data: seq<byte>)
    requires Sound(s, input) && i <= Count(s, input)
  {
    DecodeFrom(s.codec, FileOf(s, input), HeaderOf(s, input), Table(s, input), i) == Plain(data)
  }

  /** The input from block i on, cut to whole blocks. */
  function Rest(s: Setup, input: seq<byte>, i: nat): seq<byte>
    requires s.bsize > 0 && i <= Count(s, input)
  {
    WholeBlocks(s.bsize, |input|, i);
    input[s.bsize * i..s.bsize * Count(s, input)]
  }

  lemma {:induction false} WholeBlocks(bsize: nat, size: nat, i: nat)
    requires bsize > 0 && i <= size / bsize
    ensures 0 <= bsize * i <= bsize * (size / bsize) <= size < bsize * (size / bsize) + bsize
  {
  }

  lemma RestStep(s: Setup, input: seq<byte>, i: nat)
    requires s.bsize > 0 && i < Count(s, input)
    ensures Rest(s, input, i) == Block(s, input, i) + Rest(s, input, i + 1)
  {
    BlockIn(s.bsize, |input|, i);
    WholeBlocks(s.bsize, |input|, i + 1);
  }

  lemma DecodeOne(s: Setup, input: seq<byte>, i: nat, data: seq<byte>)
    requires Sound(s, input) && i < Count(s, input) && DecodesTo(s, input, i + 1, data)
    requires ReadBlock(s.codec, FileOf(s, input), HeaderOf(s, input), Table(s, input), i) == Got(Block(s, input, i))
    ensures DecodesTo(s, input, i, Block(s, input, i) + data)
  {
    hide FileOf;
    hide ReadBlock;
    hide Block;
    assert |Block(s, input, i)| == s.bsize;
  }

  lemma {:induction false} DecodesRest(s: Setup, input: seq<byte>, i: nat)
    requires Sound(s, input) && i <= Count(s, input)
    ensures DecodesTo(s, input, i, Rest(s, input, i))
    decreases Count(s, input) - i
  {
    if i == Count(s, input) {
      DecodesNothing(s, input);
    } else {
      hide *;
      DecodesRest(s, input, i + 1);
      ReadsBlock(s, input, i);
      DecodeOne(s, input, i, Rest(s, input, i + 1));
      RestStep(s, input, i);
    }
  }

  lemma DecodesNothing(s: Setup, input: seq<byte>)
    requires Sound(s, input)
    ensures DecodesTo(s, input, Count(s, input), Rest(s, input, Count(s, input)))
  {
    WholeBlocks(s.bsize, |input|, Count(s, input));
  }

  /** Decompressing a compressed file gives back the input, cut to whole blocks: for
      every input, block size, threshold and mix of plain and compressed blocks. */
  lemma RoundTrip(s: Setup, input: seq<byte>)
    requires s.bsize > 0 && |input| > 0 && Compressed(s, input).Written?
    requires UnitsFit(s, input) && LastFits(s, input) && Lawful(s)
    ensures 0 <= s.bsize * Count(s, input) <= |input| < s.bsize * Count(s, input) + s.bsize
    ensures Decompressed(s.codec, Compressed(s, input).file) == Plain(input[..s.bsize * Count(s, input)])
  {
    RestIsAll(s, input);
    assert Compressed(s, input).file == FileOf(s, input) && Sound(s, input);
    hide *;
    DecodesRest(s, input, 0);
    Opens(s, input);
    Decoded(s, input, Rest(s, input, 0));
  }

  lemma RestIsAll(s: Setup, input: seq<byte>)
    requires s.bsize > 0
    ensures 0 <= s.bsize * Count(s, input) <= |input| < s.bsize * Count(s, input) + s.bsize
    ensures Rest(s, input, 0) == input[..s.bsize * Count(s, input)]
  {
    WholeBlocks(s.bsize, |input|, 0);
  }

  lemma Decoded(s: Setup, input: seq<byte>, data: seq<byte>)
    requires Sound(s, input) && DecodesTo(s, input, 0, data)
    ensures DecodeFrom(s.codec, FileOf(s, input), HeaderOf(s, input), Table(s, input), 0) == Plain(data)
  {
  }

  /** The header and the table are read as they were written. */
  lemma Opens(s: Setup, input: seq<byte>)
    requires s.bsize > 0 && HeaderFits(s, input) && TableFits(Table(s, input)) && |input| > 0
    ensures Decompressed(s.codec, FileOf(s, input))
         == DecodeFrom(s.codec, FileOf(s, input), HeaderOf(s, input), Table(s, input), 0)
  {
    HeaderOpens(s, input);
    TableReads(s, input);
    OpensWith(s.codec, FileOf(s, input), HeaderOf(s, input), Table(s, input));
  }

  lemma HeaderOpens(s: Setup, input: seq<byte>)
    requires s.bsize > 0 && HeaderFits(s, input) && TableFits(Table(s, input))
    ensures ParseHeader(FileOf(s, input)) == HeaderOf(s, input)
  {
    var h, w, d := HeaderBytes(|input|, s.bsize, Align(input)), Words(Table(s, input)), Data(s, input, Count(s, input));
    HeaderReads(|input|, s.bsize, Align(input), w + d);
    assert FileOf(s, input) == h + (w + d) by { assert h + w + d == h + (w + d); }
    hide ParseHeader;
    hide HeaderBytes;
  }

  lemma OpensWith(codec: Codec, f: seq<byte>, h: Header, index: seq<nat>)
    requires |f| >= HEADER && ParseHeader(f) == h && Accepted(h) && h.bsize > 0
    requires |index| == Quot(h.total, h.bsize) + 1 && HEADER + 4 * |index| <= |f| && TableOf(f, |index|) == index
    ensures Decompressed(codec, f) == DecodeFrom(codec, f, h, index, 0)
  {
    hide ParseHeader;
    hide TableOf;
    hide DecodeFrom;
  }

  lemma TableReads(s: Setup, input: seq<byte>)
    requires s.bsize > 0 && HeaderFits(s, input) && TableFits(Table(s, input))
    ensures TableOf(FileOf(s, input), Count(s, input) + 1) == Table(s, input)
  {
    forall i | 0 <= i <= Count(s, input) ensures U32At(FileOf(s, input), HEADER + 4 * i) == Table(s, input)[i] {
      IndexInFile(s, input, i);
    }
  }
}
