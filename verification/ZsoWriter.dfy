/** compress_zso of pc/ziso.py, the serial loop and the batched multiprocessing loop;
    both write the same file. */
module ZsoWriter {
  import opened Options
  import opened Bytes
  import opened Zso

  /** set_align. */
  method SetAlign(out: seq<byte>, writePos: nat, align: nat, padding: byte) returns (file: seq<byte>, pos: nat)
    ensures pos == AlignUp(writePos, align)
    ensures file == out + Pad(padding, pos - writePos)
  {
    file, pos := out, writePos;
    if writePos % Pow2(align) != 0 {
      var alignLen := Pow2(align) - writePos % Pow2(align);
      file := out + Pad(padding, alignLen);
      pos := writePos + alignLen;
    } else {
      assert Pad(padding, 0) == [];
    }
  }

  /** What the loops keep: the first k table entries are right, none collided, and the
      file holds the header, room for the table, and the first k blocks. */
  ghost predicate Progress(s: Setup, input: seq<byte>, k: nat, indexBuf: seq<nat>, out: seq<byte>, writePos: nat)
  {
    && s.bsize > 0 && k <= Count(s, input) && HeaderFits(s, input)
    && |indexBuf| == Count(s, input) + 1
    && (forall i :: 0 <= i < k ==> indexBuf[i] == Index(s, input, i) && !Collides(s, input, i))
    && writePos == Pos(s, input, k)
    && out == HeaderBytes(|input|, s.bsize, Align(input)) + Zeros(4 * |indexBuf|) + Data(s, input, k)
  }

  lemma StoreKeeps(s: Setup, input: seq<byte>, k: nat, indexBuf: seq<nat>, out: seq<byte>, writePos: nat)
    requires Progress(s, input, k, indexBuf, out, writePos) && k < Count(s, input)
    ensures var pos := AlignUp(writePos, Align(input));
      var entry := Index(s, input, k);
      !Collides(s, input, k) ==>
        Progress(s, input, k + 1, indexBuf[k := entry], out + Pad(s.padding, pos - writePos) + Stored(s, input, k),
                 pos + |Stored(s, input, k)|)
  {
    var pos := AlignUp(writePos, Align(input));
    var h := HeaderBytes(|input|, s.bsize, Align(input)) + Zeros(4 * |indexBuf|);
    Regroup(h, Data(s, input, k), Pad(s.padding, pos - writePos), Stored(s, input, k));
  }

  lemma Regroup(h: seq<byte>, d: seq<byte>, p: seq<byte>, b: seq<byte>)
    ensures h + d + p + b == h + (d + p + b)
  {
  }

  /** One turn of the serial loop (lines 287-308), after reading and compressing. */
  method StoreSerial(s: Setup, ghost input: seq<byte>, block: nat, iso: seq<byte>, zso: seq<byte>, align: nat,
                     indexBuf: array<nat>, out: seq<byte>, writePos: nat)
    returns (ok: bool, file: seq<byte>, pos: nat)
    requires Progress(s, input, block, indexBuf[..], out, writePos) && block < Count(s, input)
    requires iso == Block(s, input, block) && zso == s.codec.encode(iso) && align == Align(input)
    modifies indexBuf
    ensures ok <==> !Collides(s, input, block)
    ensures ok ==> Progress(s, input, block + 1, indexBuf[..], file, pos)
  {
    StoreKeeps(s, input, block, indexBuf[..], out, writePos);
    file, pos := SetAlign(out, writePos, align, s.padding);
    var entry := Shr(pos, align);
    var data := zso;
    if 100 * |zso| >= s.threshold * |iso| {
      data := iso;
      entry := SetFlag(entry);
    } else if HasFlag(entry) {
      return false, file, pos;
    }
    indexBuf[block] := entry;
    file := file + data;
    pos := pos + |data|;
    ok := true;
  }

  /** One turn of the inner loop of the multiprocessing path (lines 271-285). */
  method StorePooled(s: Setup, ghost input: seq<byte>, block: nat, iso: seq<byte>, zso: seq<byte>, align: nat,
                     indexBuf: array<nat>, out: seq<byte>, writePos: nat)
    returns (ok: bool, file: seq<byte>, pos: nat)
    requires Progress(s, input, block, indexBuf[..], out, writePos) && block < Count(s, input)
    requires iso == Block(s, input, block) && zso == s.codec.encode(iso) && align == Align(input)
    requires s.threshold <= 100
    modifies indexBuf
    ensures ok <==> !Collides(s, input, block)
    ensures ok ==> Progress(s, input, block + 1, indexBuf[..], file, pos)
  {
    StoreKeeps(s, input, block, indexBuf[..], out, writePos);
    file, pos := SetAlign(out, writePos, align, s.padding);
    var entry := Shr(pos, align);
    var data := zso;
    if 100 * |zso| >= (if s.threshold < 100 then s.threshold else 100) * |iso| {
      data := iso;
      entry := SetFlag(entry);
    } else if HasFlag(entry) {
      return false, file, pos;
    }
    indexBuf[block] := entry;
    file := file + data;
    pos := pos + |data|;
    ok := true;
  }

  /** Lines 221-241: the header and room for the table. */
  method Begin(s: Setup, input: seq<byte>) returns (fits: bool, indexBuf: array<nat>, out: seq<byte>, writePos: nat)
    requires s.bsize > 0
    ensures fits <==> HeaderFits(s, input)
    ensures fits ==> fresh(indexBuf) && Progress(s, input, 0, indexBuf[..], out, writePos)
  {
    var align := |input| / FLAG;
    var totalBlock := |input| / s.bsize;
    indexBuf := new nat[totalBlock + 1](_ => 0);
    if !(|input| < TWO_32 * TWO_32 && s.bsize < TWO_32 && align < 128) {
      return false, indexBuf, [], 0;
    }
    out := HeaderBytes(|input|, s.bsize, align) + Zeros(4 * indexBuf.Length);
    writePos := |out|;
    fits := true;
    assert out == out + Data(s, input, 0);
  }

  /** pack('I', i) for every entry; None when one does not fit in 32 bits. */
  method PackTable(indexBuf: array<nat>) returns (words: Option<seq<byte>>)
    ensures words.Some? <==> TableFits(indexBuf[..])
    ensures words.Some? ==> words.value == Words(indexBuf[..])
  {
    var bytes, i := [], 0;
    while i < indexBuf.Length
      invariant 0 <= i <= indexBuf.Length
      invariant TableFits(indexBuf[..i]) && bytes == Words(indexBuf[..i])
    {
      if indexBuf[i] >= TWO_32 {
        assert indexBuf[..][i] >= TWO_32;
        return None;
      }
      assert indexBuf[..i + 1][..i] == indexBuf[..i];
      bytes := bytes + U32Bytes(indexBuf[i]);
      i := i + 1;
    }
    assert indexBuf[..i] == indexBuf[..];
    words := Some(bytes);
  }

  lemma TableIs(s: Setup, input: seq<byte>, indexBuf: seq<nat>)
    requires s.bsize > 0 && |indexBuf| == Count(s, input) + 1
    requires forall i :: 0 <= i < Count(s, input) ==> indexBuf[i] == Index(s, input, i)
    requires indexBuf[Count(s, input)] == Index(s, input, Count(s, input))
    ensures indexBuf == Table(s, input)
  {
  }

  lemma FillTable(h: seq<byte>, words: seq<byte>, data: seq<byte>)
    requires |h| == HEADER
    ensures var out := h + Zeros(|words|) + data; out[..HEADER] + words + out[HEADER + |words|..] == h + words + data
  {
  }

  /** Lines 310-317: the end position and the table are filled in. */
  method Finish(s: Setup, ghost input: seq<byte>, align: nat, indexBuf: array<nat>, out: seq<byte>, writePos: nat)
    returns (r: Outcome)
    requires s.bsize > 0 && Progress(s, input, Count(s, input), indexBuf[..], out, writePos) && align == Align(input)
    modifies indexBuf
    ensures r == Compressed(s, input)
  {
    var block := indexBuf.Length - 1;
    indexBuf[block] := Shr(writePos, align);
    TableIs(s, input, indexBuf[..]);
    var words := PackTable(indexBuf);
    if words.None? {
      return TooWide;
    }
    FillTable(HeaderBytes(|input|, s.bsize, align), words.value, Data(s, input, Count(s, input)));
    r := Written(out[..HEADER] + words.value + out[HEADER + |words.value|..]);
  }

  /** compress_zso without multiprocessing. */
  method CompressSerial(s: Setup, input: seq<byte>) returns (r: Outcome)
    requires s.bsize > 0
    ensures r == Compressed(s, input)
  {
    hide Progress, Table, TableFits, Data, HeaderBytes, Words, Collides, IsPlain, Stored;
    var totalBlock, align := |input| / s.bsize, |input| / FLAG;
    var fits, indexBuf, out, writePos := Begin(s, input);
    if !fits {
      return TooWide;
    }
    var block := 0;
    while block < totalBlock
      invariant 0 <= block <= totalBlock && Progress(s, input, block, indexBuf[..], out, writePos)
    {
      BlockIn(s.bsize, |input|, block);
      var iso := input[s.bsize * block..s.bsize * block + s.bsize];
      var zso := s.codec.encode(iso);
      var ok;
      ok, out, writePos := StoreSerial(s, input, block, iso, zso, align, indexBuf, out, writePos);
      if !ok {
        return AlignError;
      }
      block := block + 1;
    }
    r := Finish(s, input, align, indexBuf, out, writePos);
  }

  /** Lines 266-267: the next blocks of the input. */
  method ReadBatch(s: Setup, input: seq<byte>, block: nat, count: nat) returns (isoData: seq<seq<byte>>)
    requires s.bsize > 0 && block + count <= Count(s, input)
    ensures |isoData| == count
    ensures forall i :: 0 <= i < count ==> isoData[i] == Block(s, input, block + i)
  {
    isoData := [];
    while |isoData| < count
      invariant |isoData| <= count
      invariant forall i :: 0 <= i < |isoData| ==> isoData[i] == Block(s, input, block + i)
    {
      BlockIn(s.bsize, |input|, block + |isoData|);
      var at := s.bsize * (block + |isoData|);
      isoData := isoData + [input[at..at + s.bsize]];
    }
  }

  /** The inner loop of the multiprocessing path: a compressed batch is stored. */
  method StoreBatch(s: Setup, ghost input: seq<byte>, first: nat, isoData: seq<seq<byte>>, zsoData: seq<seq<byte>>,
                    align: nat, indexBuf: array<nat>, out: seq<byte>, writePos: nat)
    returns (ok: bool, file: seq<byte>, pos: nat)
    requires Progress(s, input, first, indexBuf[..], out, writePos) && s.threshold <= 100 && align == Align(input)
    requires |isoData| == |zsoData| && first + |isoData| <= Count(s, input)
    requires forall i :: 0 <= i < |isoData| ==> isoData[i] == Block(s, input, first + i)
    requires forall i :: 0 <= i < |zsoData| ==> zsoData[i] == s.codec.encode(isoData[i])
    modifies indexBuf
    ensures !ok ==> HeaderFits(s, input) && exists i :: 0 <= i < Count(s, input) && Collides(s, input, i)
    ensures ok ==> Progress(s, input, first + |isoData|, indexBuf[..], file, pos)
  {
    hide Block, Collides, Data, Pos, Index;
    ok, file, pos := true, out, writePos;
    var i := 0;
    while i < |isoData|
      invariant 0 <= i <= |isoData| && Progress(s, input, first + i, indexBuf[..], file, pos)
    {
      ok, file, pos := StorePooled(s, input, first + i, isoData[i], zsoData[i], align, indexBuf, file, pos);
      if !ok {
        return;
      }
      i := i + 1;
    }
    ok := true;
  }

  /** compress_zso with a pool of workers: batches of up to `batch` blocks are compressed
      by an order-preserving map and then stored. */
  method CompressPooled(s: Setup, input: seq<byte>, batch: nat) returns (r: Outcome)
    requires s.bsize > 0 && batch > 0 && s.threshold <= 100
    ensures r == Compressed(s, input)
  {
    var totalBlock, align := |input| / s.bsize, |input| / FLAG;
    var fits, indexBuf, out, writePos := Begin(s, input);
    if !fits {
      return TooWide;
    }
    hide Progress, Table, TableFits, Data, Collides;
    var block := 0;
    while block < totalBlock
      invariant 0 <= block <= totalBlock && Progress(s, input, block, indexBuf[..], out, writePos)
    {
      var count := if totalBlock - block < batch then totalBlock - block else batch;
      var isoData := ReadBatch(s, input, block, count);
      var zsoData := seq(count, i requires 0 <= i < count => s.codec.encode(isoData[i]));
      var ok;
      ok, out, writePos := StoreBatch(s, input, block, isoData, zsoData, align, indexBuf, out, writePos);
      if !ok {
        return AlignError;
      }
      block := block + count;
    }
    r := Finish(s, input, align, indexBuf, out, writePos);
  }
}
