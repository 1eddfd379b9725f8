/** The ROMDIR archive format of an IOPRP image: a table of 16-byte entries ended by an
    empty name, and the files, each starting at a multiple of 16. */
module Romdir {
  import opened Bytes

  /** sizeof(struct romdir_entry): fileName[10], extinfo_size (16 bit), fileSize (32 bit). */
  const ENTRY := 16
  const NAME := 10

  function Entry(b: seq<byte>, i: nat): (e: seq<byte>)
    requires ENTRY * (i + 1) <= |b|
    ensures |e| == ENTRY
  {
    b[ENTRY * i..ENTRY * (i + 1)]
  }

  function NameOf(e: seq<byte>): seq<byte> requires |e| == ENTRY { CStr(e[..NAME]) }
  function ExtOf(e: seq<byte>): nat requires |e| == ENTRY { U16At(e, NAME) }
  function SizeOf(e: seq<byte>): nat requires |e| == ENTRY { U32At(e, NAME + 2) }

  function Align16(n: nat): nat { (n + 15) / 16 * 16 }

  datatype File = File(name: seq<byte>, ext: nat, data: seq<byte>)

  /** What a reader of the archive sees from entry i on, whose data starts at `off`. */
  function DecodeFrom(b: seq<byte>, i: nat, off: nat): seq<File>
    decreases |b| - ENTRY * i
  {
    if ENTRY * (i + 1) > |b| || b[ENTRY * i] == 0 then []
    else
      var e := Entry(b, i);
      if off + SizeOf(e) > |b| then []
      else [File(NameOf(e), ExtOf(e), b[off..off + SizeOf(e)])] + DecodeFrom(b, i + 1, off + Align16(SizeOf(e)))
  }

  function Decode(b: seq<byte>): seq<File> { DecodeFrom(b, 0, 0) }

  lemma DecodeEnd(b: seq<byte>, i: nat, off: nat)
    requires ENTRY * i < |b| && b[ENTRY * i] == 0
    ensures DecodeFrom(b, i, off) == []
  {
  }

  lemma DecodeStep(b: seq<byte>, i: nat, off: nat)
    requires ENTRY * (i + 1) <= |b| && b[ENTRY * i] != 0 && off + SizeOf(Entry(b, i)) <= |b|
    ensures var e := Entry(b, i);
      DecodeFrom(b, i, off)
        == [File(NameOf(e), ExtOf(e), b[off..off + SizeOf(e)])] + DecodeFrom(b, i + 1, off + Align16(SizeOf(e)))
  {
  }

  /** Where file i starts, given the contents of the files before it. */
  function Offset(cs: seq<seq<byte>>, i: nat): nat
    requires i <= |cs|
  {
    if i == 0 then 0 else Offset(cs, i - 1) + Align16(|cs[i - 1]|)
  }

  lemma {:induction false} OffsetGrows(cs: seq<seq<byte>>, i: nat, j: nat)
    requires i <= j <= |cs|
    ensures Offset(cs, i) <= Offset(cs, j)
    ensures i < j ==> Offset(cs, i) + Align16(|cs[i]|) <= Offset(cs, j)
    decreases j - i
  {
    if i < j { OffsetGrows(cs, i + 1, j); }
  }

  // ---------------------------------------------------------------------------
  // Entries
  // ---------------------------------------------------------------------------

  predicate IsEntry(e: seq<byte>) { |e| == ENTRY && 0 < |NameOf(e)| < NAME }

  /** Entry e' names the same file as e, with a new size. */
  predicate Resized(e': seq<byte>, e: seq<byte>, size: nat) {
    |e'| == ENTRY && |e| == ENTRY && NameOf(e') == NameOf(e) && ExtOf(e') == ExtOf(e) && SizeOf(e') == size
  }

  /** An entry after its size, name and EXTINFO size were stored. */
  function Filled(prev: seq<byte>, e: seq<byte>, size: nat): (e': seq<byte>)
    requires |prev| == ENTRY && IsEntry(e) && size < TWO_32
    ensures |e'| == ENTRY
  {
    Write(Write(Write(prev, NAME + 2, U32Bytes(size)), 0, NameOf(e) + [0]), NAME, U16Bytes(ExtOf(e)))
  }

  lemma FilledIs(prev: seq<byte>, e: seq<byte>, size: nat)
    requires |prev| == ENTRY && IsEntry(e) && size < TWO_32
    ensures Resized(Filled(prev, e, size), e, size)
  {
    var e', name := Filled(prev, e, size), NameOf(e);
    assert e'[..NAME] == name + [0] + e'[|name| + 1..NAME];
    CStrOf(name, e'[|name| + 1..NAME]);
    assert e'[NAME..NAME + 2] == U16Bytes(ExtOf(e));
    assert e'[NAME + 2..] == U32Bytes(size);
  }

  lemma StoreInEntry(b: seq<byte>, i: nat, k: nat, src: seq<byte>)
    requires ENTRY * (i + 1) <= |b| && k + |src| <= ENTRY
    ensures Write(b, ENTRY * i + k, src) == Write(b, ENTRY * i, Write(Entry(b, i), k, src))
    ensures Entry(Write(b, ENTRY * i + k, src), i) == Write(Entry(b, i), k, src)
  {
    var at, e := ENTRY * i, Write(Entry(b, i), k, src);
    var l, r := Write(b, at + k, src), Write(b, at, e);
    forall j | 0 <= j < |b| ensures l[j] == r[j] {
      if at <= j < at + ENTRY { assert Entry(b, i)[j - at] == b[j]; }
    }
    assert l == r;
    WriteHere(b, at, e);
  }

  /** The three stores, made in the buffer, amount to storing one filled entry. */
  lemma FilledInPlace(b: seq<byte>, i: nat, e: seq<byte>, size: nat)
    requires ENTRY * (i + 1) <= |b| && IsEntry(e) && size < TWO_32
    ensures Write(Write(Write(b, ENTRY * i + NAME + 2, U32Bytes(size)), ENTRY * i, NameOf(e) + [0]),
                  ENTRY * i + NAME, U16Bytes(ExtOf(e)))
         == Write(b, ENTRY * i, Filled(Entry(b, i), e, size))
  {
    var b1 := Write(b, ENTRY * i + NAME + 2, U32Bytes(size));
    var b2 := Write(b1, ENTRY * i, NameOf(e) + [0]);
    StoreInEntry(b, i, NAME + 2, U32Bytes(size));
    StoreInEntry(b1, i, 0, NameOf(e) + [0]);
    StoreInEntry(b2, i, NAME, U16Bytes(ExtOf(e)));
    WriteTwice(b, ENTRY * i, Entry(b1, i), Entry(b2, i));
    WriteTwice(b, ENTRY * i, Entry(b2, i), Filled(Entry(b, i), e, size));
  }
}

/** The patcher of src/ioprp.c: an archive is rewritten into one byte buffer, and the
    table being written is itself one of the copied files. */
module Ioprp {
  import opened Bytes
  import opened Romdir

  /** What is to be written: the entries of the old table, the contents of the new
      files, and which of them is ROMDIR.  The files before ROMDIR are empty; ROMDIR's
      own bytes are the old table and its terminator, and possibly more. */
  predicate Plan(es: seq<seq<byte>>, cs: seq<seq<byte>>, r: nat) {
    && |es| == |cs| && r < |es|
    && (forall i :: 0 <= i < |es| ==> IsEntry(es[i]))
    && (forall i :: 0 <= i < |cs| ==> |cs[i]| < TWO_32)
    && (forall i :: 0 <= i < r ==> cs[i] == [] && SizeOf(es[i]) == 0)
    && ENTRY * (|es| + 1) <= |cs[r]|
    && cs[r][ENTRY * |es|] == 0
    && (forall i :: 0 <= i < |es| ==> Entry(cs[r], i) == es[i])
  }

  /** The buffer after turn i of the loop of patch_IOPRP_image. */
  function Turn(b: seq<byte>, i: nat, at: nat, e: seq<byte>, c: seq<byte>): (b': seq<byte>)
    requires ENTRY * (i + 1) <= |b| && at + Align16(|c|) <= |b| && |c| < TWO_32 && IsEntry(e)
    ensures |b'| == |b|
  {
    var b1 := Write(b, ENTRY * i, Zeros(ENTRY));
    var b2 := Write(b1, at, c);
    var b3 := Write(b2, ENTRY * i, Filled(Entry(b2, i), e, |c|));
    Write(b3, at + |c|, Zeros(Align16(|c|) - |c|))
  }

  predicate EntriesDone(b: seq<byte>, es: seq<seq<byte>>, cs: seq<seq<byte>>, k: nat) {
    k <= |es| == |cs| && ENTRY * k <= |b| && forall i :: 0 <= i < k ==> Resized(Entry(b, i), es[i], |cs[i]|)
  }

  /** File i is in place, followed by zeros up to the next multiple of 16; of ROMDIR
      only the part behind the terminator is a plain copy. */
  predicate FileDone(b: seq<byte>, cs: seq<seq<byte>>, r: nat, i: nat)
    requires i < |cs|
  {
    var c, at := cs[i], Offset(cs, i);
    && at + Align16(|c|) <= |b|
    && (i != r ==> b[at..at + |c|] == c)
    && b[at + |c|..at + Align16(|c|)] == Zeros(Align16(|c|) - |c|)
  }

  /** What holds of the buffer before turn k; b0 is the caller's buffer.  The entries
      written before ROMDIR do not matter: copying ROMDIR overwrites them. */
  predicate Progress(b: seq<byte>, b0: seq<byte>, es: seq<seq<byte>>, cs: seq<seq<byte>>, r: nat, k: nat)
    requires Plan(es, cs, r) && k <= |cs|
  {
    && |b| == |b0| && Offset(cs, |cs|) <= |b|
    && if k <= r then ENTRY * k <= |b| && b[ENTRY * k..] == b0[ENTRY * k..]
       else
         && EntriesDone(b, es, cs, k)
         && (forall i :: 0 <= i < k ==> FileDone(b, cs, r, i))
         && |cs[r]| <= Offset(cs, k) <= |b|
         && b[ENTRY * k..|cs[r]|] == cs[r][ENTRY * k..]
         && b[Offset(cs, k)..] == b0[Offset(cs, k)..]
  }

  lemma {:induction false} EmptyBefore(es: seq<seq<byte>>, cs: seq<seq<byte>>, r: nat, k: nat)
    requires Plan(es, cs, r) && k <= r
    ensures Offset(cs, k) == 0
  {
    if k > 0 { EmptyBefore(es, cs, r, k - 1); }
  }

  /** ROMDIR comes first in the buffer, and later files lie behind the table. */
  lemma BehindTable(es: seq<seq<byte>>, cs: seq<seq<byte>>, r: nat, k: nat)
    requires Plan(es, cs, r) && r < k <= |cs|
    ensures Offset(cs, r) == 0
    ensures Offset(cs, k) >= Align16(|cs[r]|) >= |cs[r]| >= ENTRY * (|cs| + 1)
  {
    EmptyBefore(es, cs, r, r);
    OffsetGrows(cs, r, k);
  }

  function Padded(c: seq<byte>): seq<byte> { c + Zeros(Align16(|c|) - |c|) }

  /** A turn for a file behind the table: its entry and its padded contents are stored. */
  lemma TurnBehind(b: seq<byte>, i: nat, at: nat, e: seq<byte>, c: seq<byte>)
    requires ENTRY * (i + 1) <= at && at + Align16(|c|) <= |b| && |c| < TWO_32 && IsEntry(e)
    ensures Turn(b, i, at, e, c) == Write(Write(b, ENTRY * i, Filled(Zeros(ENTRY), e, |c|)), at, Padded(c))
  {
    var z := Zeros(ENTRY);
    var b1 := Write(b, ENTRY * i, z);
    var b2 := Write(b1, at, c);
    WriteApart(b1, at, c, ENTRY * i, ENTRY * (i + 1));
    WriteHere(b, ENTRY * i, z);
    var f := Filled(z, e, |c|);
    WriteCommute(b1, ENTRY * i, f, at, c);
    WriteTwice(b, ENTRY * i, z, f);
    WriteAppend(Write(b, ENTRY * i, f), at, c, Zeros(Align16(|c|) - |c|));
  }

  /** The turn of ROMDIR: the old table is copied over what was written of the new one,
      then the entry of ROMDIR itself is stored inside the copy. */
  lemma TurnOver(b: seq<byte>, i: nat, e: seq<byte>, c: seq<byte>)
    requires ENTRY * (i + 1) <= |c| && Align16(|c|) <= |b| && |c| < TWO_32 && IsEntry(e)
    ensures Turn(b, i, 0, e, c) == Write(Write(b, 0, Padded(c)), ENTRY * i, Filled(Entry(c, i), e, |c|))
  {
    var z := Zeros(ENTRY);
    var b1 := Write(b, ENTRY * i, z);
    var b2 := Write(b1, 0, c);
    assert b2 == Write(b, 0, c);
    assert Entry(b2, i) == Entry(c, i);
    var f := Filled(Entry(c, i), e, |c|);
    WriteCommute(b2, ENTRY * i, f, |c|, Zeros(Align16(|c|) - |c|));
    WriteAppend(b, 0, c, Zeros(Align16(|c|) - |c|));
  }

  // ---------------------------------------------------------------------------
  // Each turn makes progress
  // ---------------------------------------------------------------------------

  lemma TurnEmpty(b: seq<byte>, k: nat, e: seq<byte>)
    requires ENTRY * (k + 1) <= |b| && IsEntry(e)
    ensures Turn(b, k, 0, e, []) == Write(b, ENTRY * k, Filled(Entry(Write(b, ENTRY * k, Zeros(ENTRY)), k), e, 0))
  {
    var b1 := Write(b, ENTRY * k, Zeros(ENTRY));
    WriteNothing(b1, 0);
    var b3 := Write(b1, ENTRY * k, Filled(Entry(b1, k), e, 0));
    assert Zeros(0) == [];
    WriteNothing(b3, 0);
    WriteTwice(b, ENTRY * k, Zeros(ENTRY), Filled(Entry(b1, k), e, 0));
  }

  lemma StoreBefore(b: seq<byte>, b0: seq<byte>, k: nat, e: seq<byte>)
    requires ENTRY * (k + 1) <= |b| == |b0| && |e| == ENTRY && b[ENTRY * k..] == b0[ENTRY * k..]
    ensures Write(b, ENTRY * k, e)[ENTRY * (k + 1)..] == b0[ENTRY * (k + 1)..]
  {
    WriteApart(b, ENTRY * k, e, ENTRY * (k + 1), |b|);
    assert b[ENTRY * (k + 1)..] == b[ENTRY * k..][ENTRY..];
    assert b0[ENTRY * (k + 1)..] == b0[ENTRY * k..][ENTRY..];
  }

  lemma TurnBefore(b: seq<byte>, b0: seq<byte>, es: seq<seq<byte>>, cs: seq<seq<byte>>, r: nat, k: nat)
    requires Plan(es, cs, r) && k < r && Progress(b, b0, es, cs, r, k)
    ensures Offset(cs, k) == 0 && cs[k] == [] && ENTRY * (k + 1) <= |b|
    ensures Progress(Turn(b, k, 0, es[k], []), b0, es, cs, r, k + 1)
  {
    EmptyBefore(es, cs, r, k);
    BehindTable(es, cs, r, |cs|);
    var e := Filled(Entry(Write(b, ENTRY * k, Zeros(ENTRY)), k), es[k], 0);
    TurnEmpty(b, k, es[k]);
    StoreBefore(b, b0, k, e);
    hide Turn;
    hide Write;
    hide Filled;
  }

  /** A file is left alone by stores elsewhere. */
  lemma FileKept(b: seq<byte>, b': seq<byte>, cs: seq<seq<byte>>, r: nat, i: nat)
    requires i < |cs| && FileDone(b, cs, r, i) && |b'| == |b|
    requires var at := Offset(cs, i); var lo := at + if i == r then |cs[i]| else 0;
      b'[lo..at + Align16(|cs[i]|)] == b[lo..at + Align16(|cs[i]|)]
    ensures FileDone(b', cs, r, i)
  {
    var c, at := cs[i], Offset(cs, i);
    var hi := at + Align16(|c|);
    hide Offset, Align16;
    if i != r { SlicesKept(b, b', at, at + |c|, hi); }
  }

  lemma SlicesKept(b: seq<byte>, b': seq<byte>, lo: nat, mid: nat, hi: nat)
    requires lo <= mid <= hi <= |b| == |b'| && b[lo..hi] == b'[lo..hi]
    ensures b[lo..mid] == b'[lo..mid] && b[mid..hi] == b'[mid..hi]
  {
    SubSlice(b, b', lo, hi, lo, mid);
    SubSlice(b, b', lo, hi, mid, hi);
  }

  lemma TurnAfterEntries(b: seq<byte>, es: seq<seq<byte>>, cs: seq<seq<byte>>, k: nat, f: seq<byte>, at: nat,
                         p: seq<byte>)
    requires EntriesDone(b, es, cs, k) && k < |es| && |f| == ENTRY && Resized(f, es[k], |cs[k]|)
    requires ENTRY * (k + 1) <= at && at + |p| <= |b|
    ensures EntriesDone(Write(Write(b, ENTRY * k, f), at, p), es, cs, k + 1)
  {
    var b1 := Write(b, ENTRY * k, f);
    var b' := Write(b1, at, p);
    forall i | 0 <= i < k + 1 ensures Resized(Entry(b', i), es[i], |cs[i]|) {
      WriteApart(b1, at, p, ENTRY * i, ENTRY * (i + 1));
      if i < k { WriteApart(b, ENTRY * k, f, ENTRY * i, ENTRY * (i + 1)); } else { WriteHere(b, ENTRY * k, f); }
    }
  }

  lemma TurnAfterFiles(b: seq<byte>, cs: seq<seq<byte>>, r: nat, k: nat, f: seq<byte>, i: nat)
    requires r < k < |cs| && i < k && FileDone(b, cs, r, i) && |f| == ENTRY && Offset(cs, k + 1) <= |b|
    requires ENTRY * (k + 1) <= |cs[r]| && Offset(cs, r) == 0 && (i < r ==> cs[i] == [] && Offset(cs, i) == 0)
    ensures ENTRY * (k + 1) <= Offset(cs, k)
    ensures FileDone(Write(Write(b, ENTRY * k, f), Offset(cs, k), Padded(cs[k])), cs, r, i)
  {
    OffsetGrows(cs, i, k);
    OffsetGrows(cs, r, k);
    var b1 := Write(b, ENTRY * k, f);
    var b' := Write(b1, Offset(cs, k), Padded(cs[k]));
    var lo, hi := Offset(cs, i) + (if i == r then |cs[i]| else 0), Offset(cs, i) + Align16(|cs[i]|);
    WriteApart(b1, Offset(cs, k), Padded(cs[k]), lo, hi);
    if i >= r {
      OffsetGrows(cs, r, i);
      WriteApart(b, ENTRY * k, f, lo, hi);
    }
    FileKept(b, b', cs, r, i);
  }

  lemma FileHere(b: seq<byte>, cs: seq<seq<byte>>, r: nat, k: nat)
    requires k < |cs| && Offset(cs, k + 1) <= |b|
    ensures FileDone(Write(b, Offset(cs, k), Padded(cs[k])), cs, r, k)
  {
    var c, at := cs[k], Offset(cs, k);
    var b' := Write(b, at, Padded(c));
    WriteHere(b, at, Padded(c));
    assert b'[at..at + |c|] == b'[at..at + Align16(|c|)][..|c|];
    assert b'[at + |c|..at + Align16(|c|)] == b'[at..at + Align16(|c|)][|c|..];
  }

  lemma StoreAfter(b: seq<byte>, b0: seq<byte>, c0: seq<byte>, k: nat, f: seq<byte>, at: nat, p: seq<byte>)
    requires |f| == ENTRY && ENTRY * (k + 1) <= |c0| <= at && at + |p| <= |b| == |b0|
    requires b[ENTRY * k..|c0|] == c0[ENTRY * k..] && b[at..] == b0[at..]
    ensures var b' := Write(Write(b, ENTRY * k, f), at, p);
      b'[ENTRY * (k + 1)..|c0|] == c0[ENTRY * (k + 1)..] && b'[at + |p|..] == b0[at + |p|..]
  {
    var b1 := Write(b, ENTRY * k, f);
    WriteApart(b, ENTRY * k, f, ENTRY * (k + 1), |c0|);
    WriteApart(b1, at, p, ENTRY * (k + 1), |c0|);
    WriteApart(b, ENTRY * k, f, at + |p|, |b|);
    WriteApart(b1, at, p, at + |p|, |b|);
    assert b[ENTRY * (k + 1)..|c0|] == b[ENTRY * k..|c0|][ENTRY..];
    assert c0[ENTRY * (k + 1)..] == c0[ENTRY * k..][ENTRY..];
    SubSlice(b, b0, at, |b|, at + |p|, |b|);
  }

  lemma TurnAfterRest(b: seq<byte>, b0: seq<byte>, es: seq<seq<byte>>, cs: seq<seq<byte>>, r: nat, k: nat, f: seq<byte>)
    requires Plan(es, cs, r) && r < k < |cs| && Progress(b, b0, es, cs, r, k) && |f| == ENTRY
    ensures ENTRY * (k + 1) <= |cs[r]| <= Offset(cs, k) <= Offset(cs, k + 1) <= |b|
    ensures var b' := Write(Write(b, ENTRY * k, f), Offset(cs, k), Padded(cs[k]));
      b'[ENTRY * (k + 1)..|cs[r]|] == cs[r][ENTRY * (k + 1)..] && b'[Offset(cs, k + 1)..] == b0[Offset(cs, k + 1)..]
  {
    BehindTable(es, cs, r, k);
    OffsetGrows(cs, k, |cs|);
    StoreAfter(b, b0, cs[r], k, f, Offset(cs, k), Padded(cs[k]));
  }

  lemma FilesAfter(b: seq<byte>, b0: seq<byte>, es: seq<seq<byte>>, cs: seq<seq<byte>>, r: nat, k: nat, f: seq<byte>)
    requires Plan(es, cs, r) && r < k < |cs| && Progress(b, b0, es, cs, r, k) && |f| == ENTRY
    requires ENTRY * (k + 1) <= |cs[r]| <= Offset(cs, k) <= Offset(cs, k + 1) <= |b| && Offset(cs, r) == 0
    ensures var b' := Write(Write(b, ENTRY * k, f), Offset(cs, k), Padded(cs[k]));
      forall i :: 0 <= i < k + 1 ==> FileDone(b', cs, r, i)
  {
    hide FileDone, Write, EntriesDone, Filled;
    var b' := Write(Write(b, ENTRY * k, f), Offset(cs, k), Padded(cs[k]));
    forall i | 0 <= i < k + 1 ensures FileDone(b', cs, r, i) {
      if i < k {
        if i < r { EmptyBefore(es, cs, r, i); }
        TurnAfterFiles(b, cs, r, k, f, i);
      } else {
        FileHere(Write(b, ENTRY * k, f), cs, r, k);
      }
    }
  }

  lemma OffsetsAfter(b: seq<byte>, b0: seq<byte>, es: seq<seq<byte>>, cs: seq<seq<byte>>, r: nat, k: nat)
    requires Plan(es, cs, r) && r < k < |cs| && Progress(b, b0, es, cs, r, k)
    ensures Offset(cs, r) == 0 && ENTRY * (k + 1) <= |cs[r]| <= Offset(cs, k)
    ensures Offset(cs, k) + Align16(|cs[k]|) == Offset(cs, k + 1) <= |b| && |cs[r]| <= Offset(cs, k + 1)
    ensures IsEntry(es[k]) && |cs[k]| < TWO_32 && EntriesDone(b, es, cs, k) && |b| == |b0| && Offset(cs, |cs|) <= |b|
  {
    hide EntriesDone, FileDone;
    BehindTable(es, cs, r, k);
    BehindTable(es, cs, r, k + 1);
    OffsetGrows(cs, k + 1, |cs|);
  }

  lemma TurnAfter(b: seq<byte>, b0: seq<byte>, es: seq<seq<byte>>, cs: seq<seq<byte>>, r: nat, k: nat)
    requires Plan(es, cs, r) && r < k < |cs| && Progress(b, b0, es, cs, r, k)
    ensures ENTRY * (k + 1) <= Offset(cs, k) && Offset(cs, k) + Align16(|cs[k]|) <= |b|
    ensures Progress(Turn(b, k, Offset(cs, k), es[k], cs[k]), b0, es, cs, r, k + 1)
  {
    OffsetsAfter(b, b0, es, cs, r, k);
    hide Plan, FileDone, EntriesDone, Turn, Write, Filled, Padded, Offset, Align16, Resized;
    var f := Filled(Zeros(ENTRY), es[k], |cs[k]|);
    FilledIs(Zeros(ENTRY), es[k], |cs[k]|);
    FilesAfter(b, b0, es, cs, r, k, f);
    TurnAfterRest(b, b0, es, cs, r, k, f);
    TurnBehind(b, k, Offset(cs, k), es[k], cs[k]);
    PaddedLength(cs[k]);
    TurnAfterEntries(b, es, cs, k, f, Offset(cs, k), Padded(cs[k]));
  }

  lemma PaddedLength(c: seq<byte>)
    ensures |Padded(c)| == Align16(|c|)
  {
  }

  lemma RomdirEntries(es: seq<seq<byte>>, cs: seq<seq<byte>>, r: nat, b: seq<byte>)
    requires Plan(es, cs, r) && Align16(|cs[r]|) <= |b|
    ensures var f := Filled(es[r], es[r], |cs[r]|);
      EntriesDone(Write(Write(b, 0, Padded(cs[r])), ENTRY * r, f), es, cs, r + 1)
  {
    var c, f := cs[r], Filled(es[r], es[r], |cs[r]|);
    FilledIs(es[r], es[r], |c|);
    var b1 := Write(b, 0, Padded(c));
    var b' := Write(b1, ENTRY * r, f);
    forall i | 0 <= i < r + 1 ensures Resized(Entry(b', i), es[i], |cs[i]|) {
      if i < r {
        WriteApart(b1, ENTRY * r, f, ENTRY * i, ENTRY * (i + 1));
        assert Entry(b1, i) == Entry(c, i) == es[i];
      } else {
        WriteHere(b1, ENTRY * r, f);
      }
    }
  }

  lemma RomdirRest(b: seq<byte>, b0: seq<byte>, c: seq<byte>, r: nat, f: seq<byte>)
    requires |f| == ENTRY && ENTRY * (r + 1) <= |c| && Align16(|c|) <= |b| == |b0|
    requires b[ENTRY * r..] == b0[ENTRY * r..]
    ensures var b' := Write(Write(b, 0, Padded(c)), ENTRY * r, f);
      && b'[ENTRY * (r + 1)..|c|] == c[ENTRY * (r + 1)..]
      && b'[|c|..Align16(|c|)] == Zeros(Align16(|c|) - |c|)
      && b'[Align16(|c|)..] == b0[Align16(|c|)..]
  {
    var b1 := Write(b, 0, Padded(c));
    var b' := Write(b1, ENTRY * r, f);
    WriteHere(b, 0, Padded(c));
    WriteApart(b1, ENTRY * r, f, ENTRY * (r + 1), |b|);
    assert b'[ENTRY * (r + 1)..|c|] == b1[ENTRY * (r + 1)..|c|];
    assert b'[|c|..Align16(|c|)] == b1[|c|..Align16(|c|)];
    assert b[Align16(|c|)..] == b[ENTRY * r..][Align16(|c|) - ENTRY * r..];
    assert b0[Align16(|c|)..] == b0[ENTRY * r..][Align16(|c|) - ENTRY * r..];
  }

  lemma RomdirProgress(b': seq<byte>, b0: seq<byte>, es: seq<seq<byte>>, cs: seq<seq<byte>>, r: nat)
    requires Plan(es, cs, r) && EntriesDone(b', es, cs, r + 1) && |b'| == |b0| && Offset(cs, |cs|) <= |b'|
    requires ENTRY * (r + 1) <= |cs[r]| && Align16(|cs[r]|) <= |b'|
    requires b'[ENTRY * (r + 1)..|cs[r]|] == cs[r][ENTRY * (r + 1)..]
    requires b'[|cs[r]|..Align16(|cs[r]|)] == Zeros(Align16(|cs[r]|) - |cs[r]|)
    requires b'[Align16(|cs[r]|)..] == b0[Align16(|cs[r]|)..]
    ensures Progress(b', b0, es, cs, r, r + 1)
  {
    hide Resized;
    hide IsEntry;
    BehindTable(es, cs, r, r + 1);
    assert Offset(cs, r + 1) == Align16(|cs[r]|);
    forall i | 0 <= i < r + 1 ensures FileDone(b', cs, r, i) {
      EmptyBefore(es, cs, r, i);
      if i < r { assert cs[i] == []; }
    }
  }

  lemma RomdirSlices(b: seq<byte>, b0: seq<byte>, e: seq<byte>, c: seq<byte>, r: nat)
    requires ENTRY * (r + 1) <= |c| < TWO_32 && Align16(|c|) <= |b| == |b0| && IsEntry(e) && Entry(c, r) == e
    requires b[ENTRY * r..] == b0[ENTRY * r..]
    ensures var b' := Turn(b, r, 0, e, c);
      && b' == Write(Write(b, 0, Padded(c)), ENTRY * r, Filled(e, e, |c|))
      && b'[ENTRY * (r + 1)..|c|] == c[ENTRY * (r + 1)..]
      && b'[|c|..Align16(|c|)] == Zeros(Align16(|c|) - |c|)
      && b'[Align16(|c|)..] == b0[Align16(|c|)..]
  {
    TurnOver(b, r, e, c);
    RomdirRest(b, b0, c, r, Filled(e, e, |c|));
  }

  lemma AtRomdir(b: seq<byte>, b0: seq<byte>, es: seq<seq<byte>>, cs: seq<seq<byte>>, r: nat)
    requires Plan(es, cs, r) && Progress(b, b0, es, cs, r, r)
    ensures ENTRY * (r + 1) <= |cs[r]| < TWO_32 && IsEntry(es[r]) && Entry(cs[r], r) == es[r]
    ensures |b| == |b0| && Offset(cs, |cs|) <= |b| && Offset(cs, r) == 0 && Align16(|cs[r]|) <= |b|
    ensures ENTRY * (r + 1) <= |b| && b[ENTRY * r..] == b0[ENTRY * r..]
  {
    BehindTable(es, cs, r, r + 1);
    OffsetGrows(cs, r + 1, |cs|);
  }

  lemma TurnRomdir(b: seq<byte>, b0: seq<byte>, es: seq<seq<byte>>, cs: seq<seq<byte>>, r: nat)
    requires Plan(es, cs, r) && Progress(b, b0, es, cs, r, r)
    ensures Offset(cs, r) == 0 && Align16(|cs[r]|) <= |b| && ENTRY * (r + 1) <= |b|
    ensures Progress(Turn(b, r, 0, es[r], cs[r]), b0, es, cs, r, r + 1)
  {
    AtRomdir(b, b0, es, cs, r);
    hide *;
    RomdirSlices(b, b0, es[r], cs[r], r);
    RomdirEntries(es, cs, r, b);
    RomdirProgress(Turn(b, r, 0, es[r], cs[r]), b0, es, cs, r);
  }

  lemma TurnKeeps(b: seq<byte>, b0: seq<byte>, es: seq<seq<byte>>, cs: seq<seq<byte>>, r: nat, k: nat)
    requires Plan(es, cs, r) && k < |cs| && Progress(b, b0, es, cs, r, k)
    ensures ENTRY * (k + 1) <= |b| && Offset(cs, k) + Align16(|cs[k]|) <= |b|
    ensures Progress(Turn(b, k, Offset(cs, k), es[k], cs[k]), b0, es, cs, r, k + 1)
  {
    if k < r { TurnBefore(b, b0, es, cs, r, k); }
    else if k == r { TurnRomdir(b, b0, es, cs, r); }
    else { TurnAfter(b, b0, es, cs, r, k); }
  }

  // ---------------------------------------------------------------------------
  // The images and the modules
  // ---------------------------------------------------------------------------

  const CDVDMAN: seq<byte> := [67, 68, 86, 68, 77, 65, 78]
  const CDVDFSV: seq<byte> := [67, 68, 86, 68, 70, 83, 86]
  const EESYNC: seq<byte> := [69, 69, 83, 89, 78, 67]

  /** The replacement modules: one passed by the caller, two linked into the loader. */
  datatype Modules = Modules(cdvdman: seq<byte>, cdvdfsv: seq<byte>, eesync: seq<byte>)

  /** The files of an image start at the sums of the aligned sizes before them. */
  function InOffset(img: seq<byte>, i: nat): nat
    requires ENTRY * i <= |img|
  {
    if i == 0 then 0 else InOffset(img, i - 1) + Align16(SizeOf(Entry(img, i - 1)))
  }

  /** File i lies inside the image. */
  predicate InImage(img: seq<byte>, i: nat) {
    ENTRY * (i + 1) <= |img| && InOffset(img, i) + SizeOf(Entry(img, i)) <= |img|
  }

  predicate Tampered(name: seq<byte>) { name == CDVDMAN || name == CDVDFSV || name == EESYNC }

  /** The new contents of file i: the replacement, or the original bytes. */
  function Content(img: seq<byte>, mods: Modules, i: nat): seq<byte>
    requires InImage(img, i)
  {
    var name := NameOf(Entry(img, i));
    if name == CDVDMAN then mods.cdvdman
    else if name == CDVDFSV then mods.cdvdfsv
    else if name == EESYNC then mods.eesync
    else img[InOffset(img, i)..InOffset(img, i) + SizeOf(Entry(img, i))]
  }

  /** A well-formed image: a table of n terminated names; the files before entry r are
      empty; entry r is ROMDIR, which covers the table and its terminator; the modules
      to be replaced come after it; every file lies inside the image. */
  predicate WellFormed(img: seq<byte>, n: nat, r: nat) {
    && ENTRY * (n + 1) <= |img|
    && img[ENTRY * n] == 0
    && (forall i :: 0 <= i < n ==> IsEntry(Entry(img, i)))
    && (forall i :: 0 <= i < n ==> InImage(img, i))
    && r < n
    && (forall i :: 0 <= i < r ==> SizeOf(Entry(img, i)) == 0)
    && (forall i :: 0 <= i <= r ==> !Tampered(NameOf(Entry(img, i))))
    && ENTRY * (n + 1) <= SizeOf(Entry(img, r))
  }

  function Entries(img: seq<byte>, n: nat): (es: seq<seq<byte>>)
    requires ENTRY * n <= |img|
  {
    seq(n, i requires 0 <= i < n => Entry(img, i))
  }

  function Contents(img: seq<byte>, mods: Modules, n: nat): (cs: seq<seq<byte>>)
    requires forall i :: 0 <= i < n ==> InImage(img, i)
  {
    seq(n, i requires 0 <= i < n => Content(img, mods, i))
  }

  /** Addresses and module sizes are 32 bits wide and the caller's buffer holds the
      patched image. */
  predicate Fits(img: seq<byte>, mods: Modules, n: nat, r: nat, length: nat)
    requires WellFormed(img, n, r)
  {
    Offset(Contents(img, mods, n), n) <= length && length + 16 <= TWO_32 && |img| + 16 <= TWO_32
  }

  lemma {:induction false} InOffsetBefore(img: seq<byte>, n: nat, r: nat, i: nat)
    requires ENTRY * (r + 1) <= |img| && i <= r
    requires forall j :: 0 <= j < r ==> SizeOf(Entry(img, j)) == 0
    ensures InOffset(img, i) == 0
  {
    if i > 0 {
      InOffsetBefore(img, n, r, i - 1);
      assert SizeOf(Entry(img, i - 1)) == 0;
    }
  }

  lemma ContentsFit(img: seq<byte>, mods: Modules, n: nat, r: nat, length: nat)
    requires WellFormed(img, n, r) && Fits(img, mods, n, r, length)
    ensures forall i :: 0 <= i < n ==> |Contents(img, mods, n)[i]| < TWO_32
  {
    var cs := Contents(img, mods, n);
    forall i | 0 <= i < n ensures |cs[i]| < TWO_32 {
      OffsetGrows(cs, i, n);
    }
  }

  lemma RomdirIsTable(img: seq<byte>, mods: Modules, n: nat, r: nat)
    requires WellFormed(img, n, r)
    ensures forall i :: 0 <= i < r ==> Contents(img, mods, n)[i] == []
    ensures InImage(img, r) && SizeOf(Entry(img, r)) <= |img|
    ensures Contents(img, mods, n)[r] == img[..SizeOf(Entry(img, r))]
  {
    InOffsetBefore(img, n, r, r);
    assert InImage(img, r);
    forall i | 0 <= i < r ensures InImage(img, i) && Content(img, mods, i) == [] {
      InOffsetBefore(img, n, r, i);
    }
  }

  lemma PlanOf(img: seq<byte>, mods: Modules, n: nat, r: nat, length: nat)
    requires WellFormed(img, n, r) && Fits(img, mods, n, r, length)
    ensures Plan(Entries(img, n), Contents(img, mods, n), r)
  {
    var es, cs := Entries(img, n), Contents(img, mods, n);
    ContentsFit(img, mods, n, r, length);
    RomdirIsTable(img, mods, n, r);
    forall i | 0 <= i < n ensures Entry(cs[r], i) == es[i] {
      assert img[..SizeOf(es[r])][ENTRY * i..ENTRY * (i + 1)] == img[ENTRY * i..ENTRY * (i + 1)];
    }
  }

  // ---------------------------------------------------------------------------
  // Patching preserves the meaning of the archive
  // ---------------------------------------------------------------------------

  /** The files of the patched image; ROMDIR's own bytes are what stands at the start
      of the buffer, the new table. */
  function NewFile(b: seq<byte>, es: seq<seq<byte>>, cs: seq<seq<byte>>, r: nat, i: nat): File
    requires i < |es| == |cs| && |es[i]| == ENTRY && (i == r ==> |cs[r]| <= |b|)
  {
    File(NameOf(es[i]), ExtOf(es[i]), if i == r then b[..|cs[r]|] else cs[i])
  }

  /** The finished buffer. */
  predicate Finished(b: seq<byte>, es: seq<seq<byte>>, cs: seq<seq<byte>>, r: nat) {
    && |es| == |cs| && r < |cs| && ENTRY * (|cs| + 1) <= |cs[r]| <= |b|
    && (forall i :: 0 <= i < |es| ==> IsEntry(es[i]))
    && EntriesDone(b, es, cs, |cs|)
    && b[ENTRY * |cs|] == 0
    && Offset(cs, r) == 0
    && (forall i :: 0 <= i < |cs| ==> FileDone(b, cs, r, i))
  }

  lemma ProgressEnds(b: seq<byte>, b0: seq<byte>, es: seq<seq<byte>>, cs: seq<seq<byte>>, r: nat)
    requires Plan(es, cs, r) && Progress(b, b0, es, cs, r, |cs|)
    ensures Finished(b, es, cs, r) && |b| == |b0| && Offset(cs, |cs|) <= |b|
    ensures b[Offset(cs, |cs|)..] == b0[Offset(cs, |cs|)..]
  {
    BehindTable(es, cs, r, |cs|);
    assert b[ENTRY * |cs|] == b[ENTRY * |cs|..|cs[r]|][0] == cs[r][ENTRY * |cs|..][0] == 0;
  }

  /** A reader that has reached file i finds f. */
  predicate Readable(b: seq<byte>, cs: seq<seq<byte>>, i: nat, f: File)
    requires i < |cs|
  {
    && ENTRY * (i + 1) <= |b| && b[ENTRY * i] != 0 && SizeOf(Entry(b, i)) == |cs[i]|
    && Offset(cs, i) + |cs[i]| <= |b|
    && f == File(NameOf(Entry(b, i)), ExtOf(Entry(b, i)), b[Offset(cs, i)..Offset(cs, i) + |cs[i]|])
  }

  lemma FileRead(b: seq<byte>, es: seq<seq<byte>>, cs: seq<seq<byte>>, r: nat, i: nat)
    requires Finished(b, es, cs, r) && i < |cs|
    ensures Readable(b, cs, i, NewFile(b, es, cs, r, i))
  {
    assert Resized(Entry(b, i), es[i], |cs[i]|);
    assert IsEntry(es[i]);
    assert FileDone(b, cs, r, i);
  }

  lemma ReadStep(b: seq<byte>, cs: seq<seq<byte>>, i: nat, f: File)
    requires i < |cs| && Readable(b, cs, i, f)
    ensures DecodeFrom(b, i, Offset(cs, i)) == [f] + DecodeFrom(b, i + 1, Offset(cs, i + 1))
  {
    DecodeStep(b, i, Offset(cs, i));
  }

  lemma SplitHead(fs: seq<File>, i: nat)
    requires i < |fs|
    ensures fs[i..] == [fs[i]] + fs[i + 1..]
  {
  }

  lemma {:induction false} DecodePatchedFrom(b: seq<byte>, cs: seq<seq<byte>>, fs: seq<File>, i: nat)
    requires i <= |cs| == |fs|
    requires forall j {:trigger Readable(b, cs, j, fs[j])} :: 0 <= j < |cs| ==> Readable(b, cs, j, fs[j])
    requires ENTRY * |cs| < |b| && b[ENTRY * |cs|] == 0
    ensures DecodeFrom(b, i, Offset(cs, i)) == fs[i..]
    decreases |cs| - i
  {
    hide *;
    if i == |cs| {
      DecodeEnd(b, i, Offset(cs, i));
    } else {
      assert Readable(b, cs, i, fs[i]);
      ReadStep(b, cs, i, fs[i]);
      DecodePatchedFrom(b, cs, fs, i + 1);
      SplitHead(fs, i);
    }
  }

  /** What a reader sees in the original image. */
  function OldFile(img: seq<byte>, i: nat): File
    requires InImage(img, i)
  {
    var e := Entry(img, i);
    File(NameOf(e), ExtOf(e), img[InOffset(img, i)..InOffset(img, i) + SizeOf(e)])
  }

  lemma ReadOldStep(img: seq<byte>, i: nat)
    requires InImage(img, i) && IsEntry(Entry(img, i))
    ensures ENTRY * (i + 1) <= |img|
    ensures DecodeFrom(img, i, InOffset(img, i)) == [OldFile(img, i)] + DecodeFrom(img, i + 1, InOffset(img, i + 1))
  {
    DecodeStep(img, i, InOffset(img, i));
    hide DecodeFrom, Align16;
  }

  lemma {:induction false} DecodeOriginalFrom(img: seq<byte>, n: nat, fs: seq<File>, i: nat)
    requires ENTRY * n < |img| && img[ENTRY * n] == 0 && i <= n == |fs|
    requires forall j :: 0 <= j < n ==> IsEntry(Entry(img, j))
    requires forall j :: 0 <= j < n ==> InImage(img, j)
    requires forall j :: 0 <= j < n ==> fs[j] == OldFile(img, j)
    ensures DecodeFrom(img, i, InOffset(img, i)) == fs[i..]
    decreases n - i
  {
    hide *;
    if i == n {
      DecodeEnd(img, i, InOffset(img, i));
    } else {
      ReadOldStep(img, i);
      DecodeOriginalFrom(img, n, fs, i + 1);
      SplitHead(fs, i);
    }
  }

  lemma DecodesOld(img: seq<byte>, n: nat)
    requires ENTRY * (n + 1) <= |img| && img[ENTRY * n] == 0
    requires forall j :: 0 <= j < n ==> IsEntry(Entry(img, j))
    requires forall j :: 0 <= j < n ==> InImage(img, j)
    ensures |Decode(img)| == n && forall i :: 0 <= i < n ==> Decode(img)[i] == OldFile(img, i)
  {
    DecodeOriginalFrom(img, n, seq(n, i requires 0 <= i < n => OldFile(img, i)), 0);
  }

  /** Where file i starts, and (for i == |fs|) how long an archive of these files is. */
  function Start(fs: seq<File>, i: nat): (at: nat)
    requires i <= |fs|
    ensures at % 16 == 0
  {
    if i == 0 then 0 else Start(fs, i - 1) + Align16(|fs[i - 1].data|)
  }

  /** The file that patching makes of an old one; ROMDIR becomes the new table. */
  function PatchedFile(f: File, mods: Modules, isRomdir: bool, table: seq<byte>): File {
    if f.name == CDVDMAN then f.(data := mods.cdvdman)
    else if f.name == CDVDFSV then f.(data := mods.cdvdfsv)
    else if f.name == EESYNC then f.(data := mods.eesync)
    else if isRomdir then f.(data := table)
    else f
  }

  /** The patched buffer means the same archive: the same names and EXTINFO sizes in the
      same order, each file replaced or kept, ROMDIR's bytes the new table itself, zeros
      in the gaps, and nothing stored behind the end. */
  predicate Patched(b: seq<byte>, b0: seq<byte>, img: seq<byte>, mods: Modules, r: nat, total: nat) {
    var was, now := Decode(img), Decode(b);
    && |now| == |was| && r < |was| && |was[r].data| <= |b|
    && (forall i :: 0 <= i < |was| ==> now[i] == PatchedFile(was[i], mods, i == r, b[..|was[r].data|]))
    && total == Start(now, |now|) <= |b|
    && (forall i :: 0 <= i < |now| ==> GapIsZero(b, now, i))
    && |b| == |b0| && b[total..] == b0[total..]
  }

  predicate GapIsZero(b: seq<byte>, fs: seq<File>, i: nat)
    requires i < |fs|
  {
    var end := Start(fs, i) + |fs[i].data|;
    end <= Start(fs, i + 1) <= |b| && b[end..Start(fs, i + 1)] == Zeros(Start(fs, i + 1) - end)
  }

  lemma {:induction false} StartIsOffset(fs: seq<File>, cs: seq<seq<byte>>, i: nat)
    requires |fs| == |cs| && i <= |fs| && forall j :: 0 <= j < |fs| ==> |fs[j].data| == |cs[j]|
    ensures Start(fs, i) == Offset(cs, i)
  {
    if i > 0 { StartIsOffset(fs, cs, i - 1); }
  }

  lemma FinishedIs(b: seq<byte>, es: seq<seq<byte>>, cs: seq<seq<byte>>, r: nat)
    requires Finished(b, es, cs, r)
    ensures |es| == |cs| && r < |cs| && ENTRY * |cs| < |b| && |cs[r]| <= |b| && b[ENTRY * |cs|] == 0
    ensures forall i :: 0 <= i < |es| ==> IsEntry(es[i]) && |es[i]| == ENTRY
  {
  }

  lemma DecodesNew(b: seq<byte>, es: seq<seq<byte>>, cs: seq<seq<byte>>, r: nat)
    requires Finished(b, es, cs, r)
    ensures var now := Decode(b);
      && |now| == |cs|
      && (forall i :: 0 <= i < |cs| ==> now[i] == NewFile(b, es, cs, r, i))
      && (forall i :: 0 <= i <= |cs| ==> Start(now, i) == Offset(cs, i))
  {
    FinishedIs(b, es, cs, r);
    hide Finished, Readable, DecodeFrom, Decode, Start, Offset, IsEntry;
    var now := seq(|cs|, i requires 0 <= i < |cs| => NewFile(b, es, cs, r, i));
    forall i | 0 <= i < |cs| ensures Readable(b, cs, i, now[i]) { FileRead(b, es, cs, r, i); }
    DecodesAll(b, cs, now);
  }

  lemma DecodesAll(b: seq<byte>, cs: seq<seq<byte>>, fs: seq<File>)
    requires |cs| == |fs|
    requires forall j {:trigger Readable(b, cs, j, fs[j])} :: 0 <= j < |cs| ==> Readable(b, cs, j, fs[j])
    requires forall j :: 0 <= j < |cs| ==> |fs[j].data| == |cs[j]|
    requires ENTRY * |cs| < |b| && b[ENTRY * |cs|] == 0
    ensures Decode(b) == fs
    ensures forall i :: 0 <= i <= |cs| ==> Start(fs, i) == Offset(cs, i)
  {
    hide *;
    DecodePatchedFrom(b, cs, fs, 0);
    DecodeStarts(b, cs, fs);
    forall i | 0 <= i <= |cs| ensures Start(fs, i) == Offset(cs, i) {
      StartIsOffset(fs, cs, i);
    }
  }

  lemma DecodeStarts(b: seq<byte>, cs: seq<seq<byte>>, fs: seq<File>)
    requires DecodeFrom(b, 0, Offset(cs, 0)) == fs[0..]
    ensures Decode(b) == fs
  {
  }

  lemma GapsAreZero(b: seq<byte>, fs: seq<File>, cs: seq<seq<byte>>, r: nat, i: nat)
    requires i < |cs| == |fs| && FileDone(b, cs, r, i) && |fs[i].data| == |cs[i]|
    requires Start(fs, i) == Offset(cs, i) && Start(fs, i + 1) == Offset(cs, i + 1)
    ensures GapIsZero(b, fs, i)
  {
  }

  lemma AllGapsAreZero(b: seq<byte>, fs: seq<File>, es: seq<seq<byte>>, cs: seq<seq<byte>>, r: nat)
    requires Finished(b, es, cs, r) && |fs| == |cs|
    requires forall i :: 0 <= i < |cs| ==> fs[i] == NewFile(b, es, cs, r, i)
    requires forall i :: 0 <= i <= |cs| ==> Start(fs, i) == Offset(cs, i)
    ensures forall i :: 0 <= i < |fs| ==> GapIsZero(b, fs, i)
  {
    forall i | 0 <= i < |fs| ensures GapIsZero(b, fs, i) {
      assert FileDone(b, cs, r, i);
      hide Finished, FileDone, GapIsZero, Start, Offset, EntriesDone, IsEntry;
      GapsAreZero(b, fs, cs, r, i);
    }
  }

  lemma PatchedFiles(b: seq<byte>, img: seq<byte>, mods: Modules, n: nat, r: nat)
    requires WellFormed(img, n, r) && |Contents(img, mods, n)[r]| <= |b|
    ensures var c := Contents(img, mods, n)[r];
      && |OldFile(img, r).data| == |c|
      && (forall i :: 0 <= i < n ==>
            NewFile(b, Entries(img, n), Contents(img, mods, n), r, i)
            == PatchedFile(OldFile(img, i), mods, i == r, b[..|c|]))
  {
    RomdirIsTable(img, mods, n, r);
  }

  /** The files of the finished buffer are the patched ones. */
  lemma FilesArePatched(b: seq<byte>, img: seq<byte>, mods: Modules, n: nat, r: nat)
    requires WellFormed(img, n, r) && Finished(b, Entries(img, n), Contents(img, mods, n), r)
    ensures var was, now := Decode(img), Decode(b);
      && |now| == |was| == n && r < n && |was[r].data| <= |b|
      && (forall i :: 0 <= i < n ==> now[i] == PatchedFile(was[i], mods, i == r, b[..|was[r].data|]))
  {
    var es, cs := Entries(img, n), Contents(img, mods, n);
    DecodesOld(img, n);
    FinishedIs(b, es, cs, r);
    hide Finished, WellFormed, IsEntry, Offset, Start, DecodeFrom, Decode, Entries, Contents;
    PatchedFiles(b, img, mods, n, r);
    DecodesNew(b, es, cs, r);
    hide NewFile, PatchedFile, OldFile, InImage;
    forall i | 0 <= i < n
      ensures Decode(b)[i] == PatchedFile(Decode(img)[i], mods, i == r, b[..|Decode(img)[r].data|])
    {
      assert Decode(img)[i] == OldFile(img, i) && Decode(b)[i] == NewFile(b, es, cs, r, i);
    }
  }

  lemma ProgressMeansPatched(b: seq<byte>, b0: seq<byte>, img: seq<byte>, mods: Modules, n: nat, r: nat)
    requires WellFormed(img, n, r) && Plan(Entries(img, n), Contents(img, mods, n), r)
    requires Progress(b, b0, Entries(img, n), Contents(img, mods, n), r, n)
    ensures Patched(b, b0, img, mods, r, Offset(Contents(img, mods, n), n))
  {
    var es, cs := Entries(img, n), Contents(img, mods, n);
    ProgressEnds(b, b0, es, cs, r);
    FinishedIs(b, es, cs, r);
    hide Plan, Progress, Finished, WellFormed, IsEntry, Offset, Start, DecodeFrom, Decode, Entries, Contents;
    hide NewFile, PatchedFile, GapIsZero, OldFile, InImage;
    FilesArePatched(b, img, mods, n, r);
    DecodesNew(b, es, cs, r);
    AllGapsAreZero(b, Decode(b), es, cs, r);
  }

  // ---------------------------------------------------------------------------
  // The code
  // ---------------------------------------------------------------------------

  /** (size + 0xF) & ~0xF in 32-bit arithmetic, or size itself when it is a multiple. */
  function RoundUp(size: nat): nat
    requires size < TWO_32
  {
    if size % 16 == 0 then size else (size + 15) % TWO_32 / 16 * 16
  }

  /** patch_CDVDMAN, patch_CDVDFSV, patch_EESYNC: a module is copied, its size stored. */
  method PatchModule(out: array<byte>, at: nat, entry: nat, irx: seq<byte>)
    requires at + |irx| <= out.Length && ENTRY * (entry + 1) <= out.Length && |irx| < TWO_32
    modifies out
    ensures out[..] == Write(Write(old(out[..]), at, irx), ENTRY * entry + NAME + 2, U32Bytes(|irx|))
  {
    Memcpy(out, at, irx);
    Memcpy(out, ENTRY * entry + NAME + 2, U32Bytes(|irx|));
  }

  /** Align_offsets: both offsets move on, and the gap behind the new file is cleared. */
  method AlignOffsets(out: array<byte>, offsetIn: nat, sizeIn: nat, offsetOut: nat, sizeOut: nat)
    returns (nextIn: nat, nextOut: nat)
    requires sizeIn + 16 <= TWO_32 && sizeOut + 16 <= TWO_32 && offsetOut + Align16(sizeOut) <= out.Length
    modifies out
    ensures nextIn == offsetIn + Align16(sizeIn)
    ensures nextOut == offsetOut + Align16(sizeOut)
    ensures out[..] == Write(old(out[..]), offsetOut + sizeOut, Zeros(Align16(sizeOut) - sizeOut))
  {
    nextIn := offsetIn + RoundUp(sizeIn);
    if sizeOut % 16 == 0 {
      nextOut := offsetOut + sizeOut;
      WriteNothing(out[..], offsetOut + sizeOut);
    } else {
      Memset(out, offsetOut + sizeOut, 0, RoundUp(sizeOut) - sizeOut);
      nextOut := offsetOut + RoundUp(sizeOut);
    }
  }

  lemma TurnStores(b: seq<byte>, i: nat, at: nat, e: seq<byte>, c: seq<byte>)
    requires ENTRY * (i + 1) <= |b| && at + Align16(|c|) <= |b| && |c| < TWO_32 && IsEntry(e)
    ensures var b2 := Write(Write(Write(b, ENTRY * i, Zeros(ENTRY)), at, c), ENTRY * i + NAME + 2, U32Bytes(|c|));
      Write(Write(Write(b2, ENTRY * i, NameOf(e) + [0]), ENTRY * i + NAME, U16Bytes(ExtOf(e))),
            at + |c|, Zeros(Align16(|c|) - |c|)) == Turn(b, i, at, e, c)
  {
    FilledInPlace(Write(Write(b, ENTRY * i, Zeros(ENTRY)), at, c), i, e, |c|);
  }

  /** Lines 46-55: the new contents of file i are copied and their size is stored. */
  method StoreContent(out: array<byte>, img: seq<byte>, mods: Modules, i: nat, offsetIn: nat, offsetOut: nat)
    returns (size: nat)
    requires InImage(img, i) && offsetIn == InOffset(img, i) && |Content(img, mods, i)| < TWO_32
    requires ENTRY * (i + 1) <= out.Length && offsetOut + |Content(img, mods, i)| <= out.Length
    modifies out
    ensures size == |Content(img, mods, i)|
    ensures out[..]
      == Write(Write(old(out[..]), offsetOut, Content(img, mods, i)), ENTRY * i + NAME + 2, U32Bytes(size))
  {
    var e := Entry(img, i);
    var name := NameOf(e);
    if name == CDVDMAN {
      PatchModule(out, offsetOut, i, mods.cdvdman);
      size := |mods.cdvdman|;
    } else if name == CDVDFSV {
      PatchModule(out, offsetOut, i, mods.cdvdfsv);
      size := |mods.cdvdfsv|;
    } else if name == EESYNC {
      PatchModule(out, offsetOut, i, mods.eesync);
      size := |mods.eesync|;
    } else {
      size := SizeOf(e);
      PatchModule(out, offsetOut, i, img[offsetIn..offsetIn + size]);
    }
  }

  /** One turn of the loop of patch_IOPRP_image. */
  method PatchEntry(out: array<byte>, img: seq<byte>, mods: Modules, i: nat, offsetIn: nat, offsetOut: nat)
    returns (nextIn: nat, nextOut: nat)
    requires InImage(img, i) && offsetIn == InOffset(img, i) && IsEntry(Entry(img, i))
    requires |img| + 16 <= TWO_32 && out.Length + 16 <= TWO_32
    requires ENTRY * (i + 1) <= out.Length && offsetOut + Align16(|Content(img, mods, i)|) <= out.Length
    modifies out
    ensures nextIn == InOffset(img, i + 1)
    ensures nextOut == offsetOut + Align16(|Content(img, mods, i)|)
    ensures out[..] == Turn(old(out[..]), i, offsetOut, Entry(img, i), Content(img, mods, i))
  {
    ghost var b0 := out[..];
    var e := Entry(img, i);
    Memset(out, ENTRY * i, 0, ENTRY);
    assert seq(ENTRY, j => 0) == Zeros(ENTRY);
    var size := StoreContent(out, img, mods, i, offsetIn, offsetOut);
    Memcpy(out, ENTRY * i, NameOf(e) + [0]);
    Memcpy(out, ENTRY * i + NAME, U16Bytes(ExtOf(e)));
    nextIn, nextOut := AlignOffsets(out, offsetIn, SizeOf(e), offsetOut, size);
    TurnStores(b0, i, offsetOut, e, Content(img, mods, i));
  }

  /** The loop invariant of patch_IOPRP_image. */
  ghost predicate AtTurn(b: seq<byte>, b0: seq<byte>, img: seq<byte>, mods: Modules, n: nat, r: nat,
                         i: nat, offsetIn: nat, offsetOut: nat)
  {
    && i <= n && WellFormed(img, n, r) && Plan(Entries(img, n), Contents(img, mods, n), r)
    && offsetIn == InOffset(img, i) && offsetOut == Offset(Contents(img, mods, n), i)
    && Progress(b, b0, Entries(img, n), Contents(img, mods, n), r, i)
  }

  lemma TurnAdvances(b: seq<byte>, b0: seq<byte>, img: seq<byte>, mods: Modules, n: nat, r: nat,
                     i: nat, offsetIn: nat, offsetOut: nat)
    requires i < n && AtTurn(b, b0, img, mods, n, r, i, offsetIn, offsetOut)
    ensures InImage(img, i) && IsEntry(Entry(img, i)) && ENTRY * (i + 1) <= |b| && offsetIn == InOffset(img, i)
    ensures var c := Content(img, mods, i);
      offsetOut + Align16(|c|) <= |b| && |c| < TWO_32 &&
      AtTurn(Turn(b, i, offsetOut, Entry(img, i), c), b0, img, mods, n, r, i + 1, InOffset(img, i + 1),
             offsetOut + Align16(|c|))
  {
    var es, cs := Entries(img, n), Contents(img, mods, n);
    assert InImage(img, i) && es[i] == Entry(img, i) && cs[i] == Content(img, mods, i);
    TurnKeeps(b, b0, es, cs, r, i);
  }

  lemma LoopTest(img: seq<byte>, n: nat, r: nat, i: nat)
    requires WellFormed(img, n, r) && i <= n
    ensures 0 <= ENTRY * i < |img| && (img[ENTRY * i] != 0 <==> i < n)
  {
    if i < n { assert IsEntry(Entry(img, i)); }
  }

  lemma AtStart(b0: seq<byte>, img: seq<byte>, mods: Modules, n: nat, r: nat)
    requires WellFormed(img, n, r) && Fits(img, mods, n, r, |b0|)
    ensures AtTurn(b0, b0, img, mods, n, r, 0, 0, 0)
    ensures |img| + 16 <= TWO_32 && |b0| + 16 <= TWO_32
  {
    PlanOf(img, mods, n, r, |b0|);
  }

  /** The loop of patch_IOPRP_image. */
  method RewriteImage(out: array<byte>, img: seq<byte>, mods: Modules, ghost n: nat, ghost r: nat)
    returns (total: nat, ghost end: nat)
    requires WellFormed(img, n, r) && Fits(img, mods, n, r, out.Length)
    modifies out
    ensures AtTurn(out[..], old(out[..]), img, mods, n, r, n, end, total)
  {
    hide *;
    ghost var b0 := out[..];
    AtStart(b0, img, mods, n, r);
    var offsetIn, offsetOut, i := 0, 0, 0;
    LoopTest(img, n, r, i);
    while img[ENTRY * i] != 0
      invariant AtTurn(out[..], b0, img, mods, n, r, i, offsetIn, offsetOut)
      invariant 0 <= i <= n && 0 <= ENTRY * i < |img| && (img[ENTRY * i] != 0 <==> i < n)
      decreases n - i
    {
      TurnAdvances(out[..], b0, img, mods, n, r, i, offsetIn, offsetOut);
      offsetIn, offsetOut := PatchEntry(out, img, mods, i, offsetIn, offsetOut);
      i := i + 1;
      LoopTest(img, n, r, i);
    }
    total, end := offsetOut, offsetIn;
  }

  /** patch_IOPRP_image and what it is for.  `n` and `r` only name what well-formedness
      promises: the number of table entries and the place of ROMDIR. */
  method PatchImage(out: array<byte>, img: seq<byte>, mods: Modules, ghost n: nat, ghost r: nat) returns (total: nat)
    requires WellFormed(img, n, r) && Fits(img, mods, n, r, out.Length)
    modifies out
    ensures Patched(out[..], old(out[..]), img, mods, r, total)
  {
    ghost var b0 := out[..];
    ghost var end;
    total, end := RewriteImage(out, img, mods, n, r);
    ProgressMeansPatched(out[..], b0, img, mods, n, r);
  }
}
