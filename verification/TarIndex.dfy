/** The index of src/tar.c: entries of a fixed size in one growing buffer, filled by the
    parser or loaded from a cache file. */
module TarIndex {
  import opened Bytes
  import opened Options
  import opened Tar

  /** sizeof(TarEntryBase). */
  const BASE := 16

  datatype Kind = Art | Cfg | Cht | Thm

  /** The entry sizes of the four kinds, padding included: names keep 46, 22, 22 and 126
      characters. */
  function EntrySize(kind: Kind): (size: nat)
    ensures 40 <= size <= 144
  {
    match kind
    case Art => 64
    case Cfg => 40
    case Cht => 40
    case Thm => 144
  }

  /** The room for a name in an entry, and the characters it can keep. */
  function NameMax(size: nat): int { size - BASE - 1 }
  function Limit(size: nat): int { NameMax(size) - 1 }

  // ---------------------------------------------------------------------------
  // Entries in memory
  // ---------------------------------------------------------------------------

  /** The bytes the parser writes of an entry; the one after them is never written. */
  function EntryBytes(e: Entry, size: nat): (s: seq<byte>)
    requires size > BASE + 1 && e.offset < TWO_32 * TWO_32 && e.rawSize < TWO_32 && e.paddedSize < TWO_32
    requires |e.name| <= Limit(size)
    ensures |s| == BASE + NameMax(size)
  {
    U64Bytes(e.offset) + U32Bytes(e.rawSize) + U32Bytes(e.paddedSize) + e.name + Zeros(NameMax(size) - |e.name|)
  }

  function Decode(b: seq<byte>): Entry
    requires |b| >= BASE
  {
    Entry(U64At(b, 0), U32At(b, 8), U32At(b, 12), CStr(b[BASE..]))
  }

  lemma DecodeEntry(e: Entry, size: nat, last: byte)
    requires size > BASE + 1 && e.offset < TWO_32 * TWO_32 && e.rawSize < TWO_32 && e.paddedSize < TWO_32
    requires |e.name| <= Limit(size) && forall i :: 0 <= i < |e.name| ==> e.name[i] != 0
    ensures Decode(EntryBytes(e, size) + [last]) == e
  {
    hide U32At, U64At, CStr, U64Bytes, U32Bytes;
    var b := EntryBytes(e, size) + [last];
    U64Slice(b, 0);
    U32Slice(b, 8);
    U32Slice(b, 12);
    assert b[0..8] == U64Bytes(e.offset);
    assert b[8..12] == U32Bytes(e.rawSize);
    assert b[12..16] == U32Bytes(e.paddedSize);
    U64RoundTrip(e.offset);
    var rest := Zeros(NameMax(size) - |e.name| - 1) + [last];
    assert b[BASE..] == e.name + [0] + rest;
    CStrOf(e.name, rest);
  }

  /** The bytes n entries take. */
  function Span(size: nat, n: nat): nat { size * n }

  lemma SpanNext(size: nat, n: nat)
    ensures Span(size, n + 1) == Span(size, n) + size
  {
  }

  lemma {:induction false} SpanLe(size: nat, n: nat, m: nat)
    requires n <= m
    ensures Span(size, n) <= Span(size, m)
    decreases m - n
  {
    if n < m {
      SpanLe(size, n, m - 1);
      SpanNext(size, m - 1);
    }
  }

  lemma SpanAtLeast(size: nat, n: nat)
    requires size >= 1
    ensures Span(size, n) >= n
  {
  }

  function DecodeAll(b: seq<byte>, size: nat, n: nat): (es: seq<Entry>)
    requires size >= BASE && Span(size, n) <= |b|
    ensures |es| == n
    decreases n
  {
    if n == 0 then []
    else
      SpanNext(size, n - 1);
      DecodeAll(b, size, n - 1) + [Decode(b[Span(size, n - 1)..Span(size, n)])]
  }

  lemma {:induction false} DecodeSame(b: seq<byte>, c: seq<byte>, size: nat, n: nat)
    requires size >= BASE && Span(size, n) <= |b| && Span(size, n) <= |c|
    requires b[..Span(size, n)] == c[..Span(size, n)]
    ensures DecodeAll(b, size, n) == DecodeAll(c, size, n)
    decreases n
  {
    hide Span, Decode;
    if n > 0 {
      SpanNext(size, n - 1);
      var lo, hi := Span(size, n - 1), Span(size, n);
      SamePrefix(b, c, lo, hi);
      DecodeSame(b, c, size, n - 1);
    }
  }

  lemma SamePrefix(b: seq<byte>, c: seq<byte>, lo: nat, hi: nat)
    requires lo <= hi <= |b| && hi <= |c| && b[..hi] == c[..hi]
    ensures b[..lo] == c[..lo] && b[lo..hi] == c[lo..hi]
  {
    assert b[..lo] == b[..hi][..lo] && c[..lo] == c[..hi][..lo];
    assert b[lo..hi] == b[..hi][lo..] && c[lo..hi] == c[..hi][lo..];
  }

  lemma {:induction false} DecodeAt(b: seq<byte>, size: nat, n: nat, k: nat)
    requires size >= BASE && Span(size, n) <= |b| && k < n
    ensures Span(size, k) + size <= Span(size, n)
    ensures DecodeAll(b, size, n)[k] == Decode(b[Span(size, k)..Span(size, k) + size])
    decreases n
  {
    hide Span, Decode;
    SpanNext(size, n - 1);
    if k < n - 1 { DecodeAt(b, size, n - 1, k); }
  }

  // ---------------------------------------------------------------------------
  // Names
  // ---------------------------------------------------------------------------

  /** The loops that clear trailing NULs and spaces of the first n bytes. */
  method TrimTail(buf: array<byte>, n: nat)
    requires n <= buf.Length
    modifies buf
    ensures var was := old(buf[..]); var t := TrimLen(was[..n]);
      buf[..] == was[..t] + Zeros(n - t) + was[n..]
  {
    ghost var was := buf[..];
    var i := n;
    while i > 0 && (buf[i - 1] == 0 || buf[i - 1] == SPACE)
      invariant 0 <= i <= n && buf[..i] == was[..i] && buf[n..] == was[n..]
      invariant forall j :: i <= j < n ==> buf[j] == 0
      invariant TrimLen(was[..i]) == TrimLen(was[..n])
    {
      assert was[..i][..i - 1] == was[..i - 1];
      assert buf[i - 1] == was[..i][i - 1];
      buf[i - 1] := 0;
      i := i - 1;
    }
    assert i > 0 ==> was[..i][i - 1] == buf[..i][i - 1];
    assert TrimLen(was[..i]) == i;
    hide TrimLen;
    ThreeParts(was, buf[..], i, n);
  }

  lemma ThreeParts(was: seq<byte>, now: seq<byte>, i: nat, n: nat)
    requires i <= n <= |was| == |now| && now[..i] == was[..i] && now[n..] == was[n..]
    requires forall j :: i <= j < n ==> now[j] == 0
    ensures now == was[..i] + Zeros(n - i) + was[n..]
  {
    assert now[i..n] == Zeros(n - i);
    assert now == now[..i] + now[i..n] + now[n..];
  }

  /** A string is not changed by what follows a NUL after it. */
  lemma {:induction false} CStrStops(b: seq<byte>, rest: seq<byte>)
    requires rest != [] && rest[0] == 0
    ensures CStr(b + rest) == CStr(b)
    decreases |b|
  {
    if b == [] {
      assert b + rest == rest;
    } else {
      assert (b + rest)[1..] == b[1..] + rest;
      CStrStops(b[1..], rest);
    }
  }

  lemma TrimmedString(was: seq<byte>, n: nat, now: seq<byte>)
    requires n < |was| && was[n] == 0
    requires var t := TrimLen(was[..n]); now == was[..t] + Zeros(n - t) + was[n..]
    ensures CStr(now) == Field(was[..n])
  {
    var t := TrimLen(was[..n]);
    var rest := Zeros(n - t) + was[n..];
    assert now == was[..t] + rest;
    assert was[..n][..t] == was[..t];
    CStrStops(was[..t], rest);
  }

  lemma StringIs(b: seq<byte>, s: seq<byte>)
    requires |s| < |b| && b[..|s|] == s && b[|s|] == 0 && forall i :: 0 <= i < |s| ==> s[i] != 0
    ensures CStr(b) == s
  {
    assert b == s + [0] + b[|s| + 1..];
    CStrOf(s, b[|s| + 1..]);
  }

  /** Clearing the end of a string trims it. */
  lemma FieldOfString(s: seq<byte>)
    requires forall i :: 0 <= i < |s| ==> s[i] != 0
    ensures Field(s) == TrimEnd(s)
  {
    var t := TrimEnd(s);
    assert CStr(t) == t by { assert CStr(t) == t[..|CStr(t)|]; }
  }

  /** Copies a header field into a zeroed buffer and trims it there. */
  method ReadField(field: seq<byte>, size: nat) returns (buf: array<byte>)
    requires |field| < size
    ensures fresh(buf) && buf.Length == size && CStr(buf[..]) == Field(field)
  {
    hide TrimLen, Field, CStr;
    buf := new byte[size](i => 0);
    Memcpy(buf, 0, field);
    buf[|field|] := 0;
    ghost var was := buf[..];
    assert was[..|field|] == field;
    TrimTail(buf, |field|);
    TrimmedString(was, |field|, buf[..]);
  }

  /** The name of a header: both fields, joined by a slash in 255 characters when there
      is a prefix, and trimmed once more. */
  method ReadName(h: seq<byte>) returns (name: seq<byte>)
    requires |h| == BLOCK
    ensures name == NameOf(h) && forall i :: 0 <= i < |name| ==> name[i] != 0
  {
    hide TrimLen, Field, TrimEnd, Write, CStr;
    var nameBuf := ReadField(h[..100], 256);
    var prefix := ReadField(h[345..500], 156);
    FirstOfString(prefix[..]);
    FieldFits(h[..100]);
    ghost var s := CStr(nameBuf[..]);
    if prefix[0] != 0 {
      s := Cut(CStr(prefix[..]) + [SLASH] + CStr(nameBuf[..]), 255);
      JoinInto(nameBuf, CStr(prefix[..]), CStr(nameBuf[..]));
    }
    FieldOfString(s);
    ghost var was := nameBuf[..];
    assert was[..|s|] == s && was[|s|] == 0;
    TrimTail(nameBuf, |CStr(nameBuf[..])|);
    TrimmedString(was, |s|, nameBuf[..]);
    name := CStr(nameBuf[..]);
  }

  /** snprintf into a buffer of 256 bytes, copied back with strncpy. */
  method JoinInto(nameBuf: array<byte>, prefix: seq<byte>, name: seq<byte>)
    requires nameBuf.Length == 256
    requires (forall i :: 0 <= i < |prefix| ==> prefix[i] != 0) && forall i :: 0 <= i < |name| ==> name[i] != 0
    modifies nameBuf
    ensures var s := Cut(prefix + [SLASH] + name, 255);
      |s| <= 255 && CStr(nameBuf[..]) == s && nameBuf[..|s|] == s && nameBuf[|s|] == 0
  {
    hide CStr;
    var full := Cut(prefix + [SLASH] + name, 255);
    Memcpy(nameBuf, 0, full + Zeros(255 - |full|));
    nameBuf[255] := 0;
    StringIs(nameBuf[..], full);
  }

  lemma FirstOfString(b: seq<byte>)
    requires b != []
    ensures b[0] != 0 <==> CStr(b) != []
  {
  }

  lemma FieldFits(b: seq<byte>)
    ensures |Field(b)| <= |b|
  {
  }

  /** A stored entry carries a name without NULs that fits. */
  ghost predicate Fits(e: Entry, size: nat): (b: bool)
    ensures b ==> size > BASE + 1 && |e.name| <= Limit(size)
    ensures b ==> e.offset < TWO_32 * TWO_32 && e.rawSize < TWO_32 && e.paddedSize < TWO_32
  {
    && size > BASE + 1 && |e.name| <= Limit(size)
    && (forall i :: 0 <= i < |e.name| ==> e.name[i] != 0)
    && e.offset < TWO_32 * TWO_32 && e.rawSize < TWO_32 && e.paddedSize < TWO_32
  }

  /** Writing the bytes of an entry behind n others appends it, whatever the byte after
      its name holds. */
  lemma EntryAppended(b: seq<byte>, c: seq<byte>, size: nat, n: nat, e: Entry)
    requires Fits(e, size) && |b| == |c| && Span(size, n + 1) <= |b| && Span(size, n) + size == Span(size, n + 1)
    requires c == Write(b, Span(size, n), EntryBytes(e, size))
    ensures DecodeAll(c, size, n + 1) == DecodeAll(b, size, n) + [e]
  {
    hide Span, Decode, EntryBytes;
    var at := Span(size, n);
    assert c[..at] == b[..at];
    DecodeSame(b, c, size, n);
    var last := c[at + size - 1];
    assert c[at..at + size] == EntryBytes(e, size) + [last];
    DecodeEntry(e, size, last);
  }

  function Prepend(es: seq<Entry>, rest: Option<seq<Entry>>): Option<seq<Entry>> {
    if rest.None? then None else Some(es + rest.value)
  }

  // ---------------------------------------------------------------------------
  // The cache file
  // ---------------------------------------------------------------------------

  const MAGIC: seq<byte> := [0x41, 0x52, 0x43, 0]
  const VERSION := 3
  const HEADER := 24

  /** The header, its padding included, and the entries. */
  function CacheFile(tarSize: nat, count: nat, pad: seq<byte>, entries: seq<byte>): seq<byte>
    requires tarSize < TWO_32 * TWO_32 && count < TWO_32
  {
    MAGIC + U32Bytes(VERSION) + U64Bytes(tarSize) + U32Bytes(count) + pad + entries
  }

  function CountIn(file: seq<byte>): nat
    requires |file| >= HEADER
  {
    U32At(file, 16)
  }

  /** A cache is used exactly when it is whole and was written for an archive of this size. */
  predicate CacheMatches(file: seq<byte>, tarSize: nat, size: nat) {
    && |file| >= HEADER
    && file[..4] == MAGIC && U32At(file, 4) == VERSION && U64At(file, 8) == tarSize
    && |file| >= HEADER + Span(size, CountIn(file))
  }

  /** What was written for an archive is taken for that archive and no other size, and
      gives back the same entries. */
  lemma CacheRoundTrip(tarSize: nat, other: nat, count: nat, pad: seq<byte>, b: seq<byte>, size: nat)
    requires tarSize < TWO_32 * TWO_32 && count < TWO_32 && |pad| == 4
    requires size >= BASE && Span(size, count) <= |b|
    ensures var file := CacheFile(tarSize, count, pad, b[..Span(size, count)]);
      && (CacheMatches(file, other, size) <==> other == tarSize)
      && CountIn(file) == count
      && DecodeAll(file[HEADER..], size, count) == DecodeAll(b, size, count)
  {
    hide Span, Decode, DecodeAll;
    var es := b[..Span(size, count)];
    HeaderIs(tarSize, count, pad, es);
    assert es == es[..Span(size, count)];
    DecodeSame(es, b, size, count);
  }

  /** The cache was written for an archive of tarSize bytes with these entries. */
  ghost predicate Carries(cache: Option<seq<byte>>, tarSize: nat, size: nat, es: seq<Entry>)
    requires size >= BASE
  {
    && cache.Some? && CacheMatches(cache.value, tarSize, size)
    && DecodeAll(cache.value[HEADER..], size, CountIn(cache.value)) == es
    && forall other :: other != tarSize ==> !CacheMatches(cache.value, other, size)
  }

  /** What loading gives: the entries of a matching cache, else those of the archive. */
  function Loaded(tar: seq<byte>, cache: Option<seq<byte>>, size: nat): Option<seq<Entry>>
    requires size > BASE + 1
  {
    if cache.Some? && CacheMatches(cache.value, |tar|, size)
    then Some(DecodeAll(cache.value[HEADER..], size, CountIn(cache.value)))
    else Scan(tar, 0, Limit(size))
  }

  function EntriesOf(r: Option<seq<Entry>>): seq<Entry> { if r.Some? then r.value else [] }

  /** The sizes of the cache stay inside an int. */
  predicate CacheIsSmall(cache: Option<seq<byte>>, size: nat) {
    cache.Some? && |cache.value| >= HEADER ==> HEADER + Span(size, CountIn(cache.value)) < 0x8000_0000
  }

  lemma HeaderIs(tarSize: nat, count: nat, pad: seq<byte>, entries: seq<byte>)
    requires tarSize < TWO_32 * TWO_32 && count < TWO_32 && |pad| == 4
    ensures var file := CacheFile(tarSize, count, pad, entries);
      && |file| == HEADER + |entries|
      && file[..4] == MAGIC && U32At(file, 4) == VERSION && U64At(file, 8) == tarSize
      && U32At(file, 16) == count && file[HEADER..] == entries
  {
    hide U32At, U64At, U64Bytes, U32Bytes;
    var file := CacheFile(tarSize, count, pad, entries);
    U32Slice(file, 4);
    U64Slice(file, 8);
    U32Slice(file, 16);
    U64RoundTrip(tarSize);
    FieldsOf(MAGIC, U32Bytes(VERSION), U64Bytes(tarSize), U32Bytes(count), pad, entries);
  }

  lemma FieldsOf(a: seq<byte>, b: seq<byte>, c: seq<byte>, d: seq<byte>, p: seq<byte>, r: seq<byte>)
    requires |a| == |b| == |d| == |p| == 4 && |c| == 8
    ensures var f := a + b + c + d + p + r;
      |f| == 24 + |r| && f[..4] == a && f[4..8] == b && f[8..16] == c && f[16..20] == d && f[24..] == r
  {
  }

  // ---------------------------------------------------------------------------
  // Reading a member back
  // ---------------------------------------------------------------------------

  /** What read returns when the device offers `chunk` bytes: an error, or as many as are
      wanted, offered and left in the file. */
  function Got(chunk: int, want: nat, left: nat): (r: int)
    ensures r <= want && r <= left
    ensures r > 0 <==> chunk > 0 && want > 0 && left > 0
  {
    if chunk < 0 then -1
    else if chunk <= want && chunk <= left then chunk
    else if want <= left then want else left
  }

  lemma WriteParts(b: seq<byte>, at: nat, src: seq<byte>, end: nat)
    requires at + |src| <= end <= |b|
    ensures var w := Write(b, at, src); w[end..] == b[end..] && w[..at + |src|] == b[..at] + src
  {
  }

  /** What was read so far goes on with what is read next. */
  lemma ReadNext(tar: seq<byte>, at: nat, total: nat, r: nat, b: seq<byte>, end: nat)
    requires at + total + r <= |tar| && total + r <= end <= |b| && b[..total] == tar[at..at + total]
    ensures var w := Write(b, total, tar[at + total..at + total + r]);
      w[end..] == b[end..] && w[..total + r] == tar[at..at + total + r]
  {
    var src := tar[at + total..at + total + r];
    WriteParts(b, total, src, end);
    assert tar[at..at + total + r] == tar[at..at + total] + src;
  }

  /** tarRead: all of the member or nothing, however short the reads are; everything
      whenever no read fails. */
  method Read(tar: seq<byte>, e: Entry, dst: array<byte>, chunks: nat -> int) returns (total: nat)
    modifies dst
    ensures total == e.rawSize || total == 0
    ensures dst.Length < e.rawSize ==> total == 0
    ensures total > 0 ==> e.offset + total <= |tar| && dst[..total] == tar[e.offset..e.offset + total]
    ensures (forall k :: chunks(k) > 0) && dst.Length >= e.rawSize && e.offset + e.rawSize <= |tar| ==>
      total == e.rawSize
    ensures dst.Length >= e.rawSize ==> dst[..][e.rawSize..] == old(dst[..][e.rawSize..])
  {
    if dst.Length < e.rawSize { return 0; }
    hide Write;
    total := 0;
    ghost var rest := dst[..][e.rawSize..];
    while total < e.rawSize
      invariant total <= e.rawSize && dst[..][e.rawSize..] == rest
      invariant total > 0 ==> e.offset + total <= |tar|
      invariant total > 0 ==> dst[..][..total] == tar[e.offset..e.offset + total]
      decreases e.rawSize - total
    {
      var r := Got(chunks(total), e.rawSize - total, if e.offset + total <= |tar| then |tar| - e.offset - total else 0);
      if r <= 0 { return 0; }
      ReadNext(tar, e.offset, total, r, dst[..], e.rawSize);
      Memcpy(dst, total, tar[e.offset + total..e.offset + total + r]);
      total := total + r;
    }
  }

  /** The bytes of the first entry of that name, as far as the archive holds them. */
  function Delivered(tar: seq<byte>, es: seq<Entry>, name: seq<byte>): Option<seq<byte>> {
    var k := FindIn(es, name);
    if k.None? then None
    else
      var e := es[k.value];
      if e.rawSize == 0 then Some([])
      else if e.offset + e.rawSize <= |tar| then Some(tar[e.offset..e.offset + e.rawSize])
      else None
  }

  /** The data of the first regular member of that name. */
  ghost function DataOf(ms: seq<Member>, name: seq<byte>, limit: nat): Option<seq<byte>>
    requires forall i :: 0 <= i < |ms| ==> Formed(ms[i])
  {
    var i := Named(ms, name, limit);
    if i.None? then None else Some(ms[i.value].data)
  }

  /** From an archive of well-formed members comes the data of the first of that name. */
  lemma DeliveredIs(ms: seq<Member>, tail: seq<byte>, limit: nat, name: seq<byte>)
    requires forall i :: 0 <= i < |ms| ==> WellFormed(ms[i])
    requires Ends(tail) && limit <= 254
    ensures forall i :: 0 <= i < |ms| ==> Formed(ms[i])
    ensures var tar := Body(ms) + tail;
      Delivered(tar, EntriesOf(Scan(tar, 0, limit)), name) == DataOf(ms, name, limit)
  {
    hide Formed, Scan, Body, Expected, Named, FindIn, Ends;
    ScanMembers([], ms, tail, limit);
    LookupFindsMember([], ms, tail, limit, name);
    assert [] + Body(ms) + tail == Body(ms) + tail;
  }

  // ---------------------------------------------------------------------------
  // The index
  // ---------------------------------------------------------------------------

  class Index {
    const kind: Kind
    const size: nat := EntrySize(kind)
    var index: array?<byte>
    var count: nat
    var cap: nat

    ghost predicate Valid()
      reads this
    {
      && count <= cap
      && (index == null ==> cap == 0)
      && (index != null ==> index.Length == Span(size, cap) && Span(size, count) <= index.Length)
    }

    ghost function Entries(): seq<Entry>
      reads this, index
      requires Valid()
    {
      if index == null then [] else DecodeAll(index[..], size, count)
    }

    constructor (kind: Kind)
      ensures Valid() && index == null && this.kind == kind
    {
      this.kind, index, count, cap := kind, null, 0, 0;
    }

    method Discard()
      modifies this
      ensures Valid() && index == null && count == 0 && cap == 0
    {
      index, count, cap := null, 0, 0;
    }

    /** realloc by 64 entries when the buffer is full. */
    method MakeRoom()
      requires Valid()
      modifies this`index, this`cap
      ensures Valid() && count < cap && Entries() == old(Entries())
      ensures index != null && (index == old(index) || fresh(index))
    {
      hide Span, DecodeAll;
      if count >= cap {
        var newCap := if cap != 0 then cap + 64 else 64;
        var newIndex := new byte[Span(size, newCap)];
        SpanLe(size, cap, newCap);
        SpanLe(size, count, cap);
        if index != null {
          Memcpy(newIndex, 0, index[..]);
          DecodeSame(index[..], newIndex[..], size, count);
        } else {
          NoEntries(newIndex[..], size);
        }
        index, cap := newIndex, newCap;
      }
    }

    method Append(e: Entry)
      requires Valid() && Fits(e, size)
      modifies this, index
      ensures Valid() && Entries() == old(Entries()) + [e]
      ensures index != null && (index == old(index) || fresh(index))
    {
      hide Span, DecodeAll, EntryBytes, Fits;
      MakeRoom();
      ghost var was := index[..];
      SpanNext(size, count);
      SpanLe(size, count + 1, cap);
      FitsLength(e, size);
      Memcpy(index, Span(size, count), EntryBytes(e, size));
      EntryAppended(was, index[..], size, count, e);
      count := count + 1;
    }

    method AddMember(header: seq<byte>, dataOffset: nat, rawSize: nat, paddedSize: nat)
      requires Valid() && |header| == BLOCK && dataOffset < TWO_32 * TWO_32
      requires rawSize == SizeOf(header) && paddedSize == Padded(rawSize)
      modifies this, index
      ensures Valid() && Entries() == old(Entries()) + [EntryOf(header, dataOffset, Limit(size))]
      ensures index != null && (index == old(index) || fresh(index))
    {
      hide Span, DecodeAll, NameOf;
      var fname := ReadName(header);
      var e := Entry(dataOffset, rawSize, paddedSize, Cut(fname, Limit(size)));
      EntryFits(e, size);
      Append(e);
    }

    /** tarParseFile without its cache: an entry for every regular member, or nothing. */
    method Parse(tar: seq<byte>) returns (ok: bool)
      requires Valid() && |tar| < TWO_32 * TWO_32
      modifies this
      ensures Valid() && ok == Scan(tar, 0, Limit(size)).Some?
      ensures if ok then Scan(tar, 0, Limit(size)) == Some(Entries()) else index == null
      ensures index == null || fresh(index)
    {
      hide Scan, Span, DecodeAll, IsZeroBlock, EntryOf, Prepend, OctalFrom;
      Discard();
      var pos := 0;
      ghost var all := Scan(tar, 0, Limit(size));
      PrependNothing(all);
      while true
        invariant Valid() && (index == null || fresh(index))
        invariant all == Prepend(Entries(), Scan(tar, pos, Limit(size)))
        decreases if pos < |tar| then |tar| - pos else 0
      {
        ScanIs(tar, pos, Limit(size));
        PrependEnds(Entries());
        if pos >= |tar| { break; }
        if pos + BLOCK > |tar| {
          Discard();
          return false;
        }
        var header := tar[pos..pos + BLOCK];
        if IsZeroBlock(header) { break; }
        var rawSize := ParseOctal(header[124..136]);
        if rawSize > MAX_FILE_SIZE { rawSize := MAX_FILE_SIZE; }
        var paddedSize := (rawSize + 511) / 512 * 512;
        if header[156] != 0 && header[156] != ZERO_DIGIT {
          pos := pos + BLOCK + paddedSize;
          continue;
        }
        pos := pos + BLOCK;
        ghost var es, rest := Entries(), Scan(tar, pos + paddedSize, Limit(size));
        AddMember(header, pos, rawSize, paddedSize);
        PrependMore(es, EntryOf(header, pos, Limit(size)), rest);
        pos := pos + paddedSize;
      }
      ok := true;
    }

    /** tarReadCache. */
    method ReadCache(file: seq<byte>, tarSize: nat) returns (ok: bool)
      requires Valid() && CacheIsSmall(Some(file), size)
      modifies this
      ensures Valid() && ok == CacheMatches(file, tarSize, size)
      ensures if ok then count == CountIn(file) && Entries() == DecodeAll(file[HEADER..], size, count) && fresh(index)
              else index == old(index) && count == old(count) && cap == old(cap)
    {
      hide Span, DecodeAll, U32At, U64At;
      if |file| < HEADER { return false; }
      if file[..4] != MAGIC || U32At(file, 4) != VERSION { return false; }
      if tarSize != U64At(file, 8) { return false; }
      var n := U32At(file, 16);
      if |file| < HEADER + Span(size, n) { return false; }
      var entries := new byte[Span(size, n)];
      Memcpy(entries, 0, file[HEADER..HEADER + Span(size, n)]);
      assert file[HEADER..][..Span(size, n)] == entries[..] == entries[..][..Span(size, n)];
      DecodeSame(file[HEADER..], entries[..], size, n);
      index, count, cap := entries, n, n;
      ok := true;
    }

    method WriteCache(tarSize: nat, pad: seq<byte>) returns (file: seq<byte>)
      requires Valid() && tarSize < TWO_32 * TWO_32 && count < TWO_32 && |pad| == 4
      ensures CacheMatches(file, tarSize, size) && CountIn(file) == count
      ensures DecodeAll(file[HEADER..], size, count) == Entries()
      ensures forall other :: other != tarSize ==> !CacheMatches(file, other, size)
    {
      hide Span, DecodeAll, CacheMatches, CountIn;
      var entries := [];
      if index != null { entries := index[..Span(size, count)]; }
      file := CacheFile(tarSize, count, pad, entries);
      ghost var b := if index != null then index[..] else [];
      NoEntries(b, size);
      forall other ensures CacheMatches(file, other, size) <==> other == tarSize {
        CacheRoundTrip(tarSize, other, count, pad, b, size);
      }
      CacheRoundTrip(tarSize, tarSize, count, pad, b, size);
    }

    /** tarParseFile: the cache when it matches, else the archive and a new cache. */
    method Load(tar: seq<byte>, cache: Option<seq<byte>>, pad: seq<byte>)
      returns (ok: bool, newCache: Option<seq<byte>>)
      requires Valid() && |tar| < TWO_32 * TWO_32 && |pad| == 4 && CacheIsSmall(cache, size)
      modifies this
      ensures Valid() && ok == Loaded(tar, cache, size).Some?
      ensures Entries() == EntriesOf(Loaded(tar, cache, size))
      ensures !ok || (cache.Some? && CacheMatches(cache.value, |tar|, size)) ==> newCache == cache
      ensures ok && !(cache.Some? && CacheMatches(cache.value, |tar|, size)) && count < TWO_32 ==>
        Carries(newCache, |tar|, size, Entries()) && CountIn(newCache.value) == count
      ensures index == null || fresh(index)
    {
      hide Span, DecodeAll, CacheMatches, CountIn, Scan, EntrySize;
      newCache := cache;
      if cache.Some? {
        ok := ReadCache(cache.value, |tar|);
        if ok { return; }
      }
      ok := Parse(tar);
      if ok && count < TWO_32 {
        var file := WriteCache(|tar|, pad);
        newCache := Some(file);
      }
    }

    /** tarFind: the first entry of that name, whatever its case. */
    method Find(filename: seq<byte>) returns (e: Option<Entry>)
      requires Valid()
      ensures var k := FindIn(Entries(), filename);
        e == if k.None? then None else Some(Entries()[k.value])
    {
      hide EntrySize, Span, DecodeAll, Decode, SameName, FindIn;
      e := None;
      ghost var es := Entries();
      FindStarts(es, filename);
      if index == null { return; }
      var i := 0;
      while i < count
        invariant i <= count && Shifted(FindIn(es[i..], filename), i) == FindIn(es, filename)
      {
        DecodeAt(index[..], size, count, i);
        var entry := Decode(index[..][Span(size, i)..Span(size, i) + size]);
        FindNext(es, filename, i);
        if SameName(entry.name, filename) {
          return Some(entry);
        }
        i := i + 1;
      }
      FindEnds(es, filename);
    }

    /** tarEnsureLoaded: an index without entries is loaded. */
    method EnsureLoaded(tar: seq<byte>, cache: Option<seq<byte>>, pad: seq<byte>)
      returns (newCache: Option<seq<byte>>)
      requires Valid() && |tar| < TWO_32 * TWO_32 && |pad| == 4 && CacheIsSmall(cache, size)
      modifies this
      ensures Valid() && (index == null || index == old(index) || fresh(index))
      ensures if old(index != null && count > 0) then newCache == cache && Entries() == old(Entries())
              else Entries() == EntriesOf(Loaded(tar, cache, size))
    {
      hide Span, DecodeAll, CacheMatches, CountIn, Scan, EntrySize;
      newCache := cache;
      if index == null || count == 0 {
        var ok: bool;
        ok, newCache := Load(tar, cache, pad);
      }
    }

    /** tarGet: the bytes of the first entry of that name. */
    method Get(tar: seq<byte>, cache: Option<seq<byte>>, pad: seq<byte>, filename: seq<byte>, chunks: nat -> int)
      returns (data: Option<seq<byte>>, newCache: Option<seq<byte>>)
      requires Valid() && |tar| < TWO_32 * TWO_32 && |pad| == 4 && CacheIsSmall(cache, size)
      modifies this
      ensures Valid() && (index == null || index == old(index) || fresh(index))
      ensures if old(index != null && count > 0) then newCache == cache && Entries() == old(Entries())
              else Entries() == EntriesOf(Loaded(tar, cache, size))
      ensures data.Some? || (forall k :: chunks(k) > 0) ==> data == Delivered(tar, Entries(), filename)
    {
      hide Span, DecodeAll, CacheMatches, CountIn, Scan, EntrySize, FindIn;
      newCache := EnsureLoaded(tar, cache, pad);
      var e := Find(filename);
      if e.None? { return None, newCache; }
      var buf := new byte[e.value.rawSize];
      var total := Read(tar, e.value, buf, chunks);
      if total != e.value.rawSize { return None, newCache; }
      assert buf[..] == buf[..total];
      data := Some(buf[..]);
    }
  }

  lemma NoEntries(b: seq<byte>, size: nat)
    requires size >= BASE
    ensures Span(size, 0) == 0 && DecodeAll(b, size, 0) == []
  {
  }

  lemma FitsLength(e: Entry, size: nat)
    requires Fits(e, size)
    ensures |EntryBytes(e, size)| == size - 1
  {
  }

  lemma EntryFits(e: Entry, size: nat)
    requires size > BASE + 1 && |e.name| <= Limit(size) && forall i :: 0 <= i < |e.name| ==> e.name[i] != 0
    requires e.offset < TWO_32 * TWO_32 && e.rawSize <= MAX_FILE_SIZE && e.paddedSize == Padded(e.rawSize)
    ensures Fits(e, size)
  {
  }

  lemma PrependNothing(rest: Option<seq<Entry>>)
    ensures Prepend([], rest) == rest
  {
    if rest.Some? { assert [] + rest.value == rest.value; }
  }

  lemma PrependEnds(es: seq<Entry>)
    ensures Prepend(es, Some([])) == Some(es) && Prepend(es, None) == None
  {
    assert es + [] == es;
  }

  lemma PrependMore(es: seq<Entry>, e: Entry, rest: Option<seq<Entry>>)
    ensures Prepend(es + [e], rest) == Prepend(es, Prepend([e], rest))
  {
    if rest.Some? { assert es + [e] + rest.value == es + ([e] + rest.value); }
  }

  lemma ScanIs(tar: seq<byte>, pos: nat, limit: nat)
    ensures pos >= |tar| ==> Scan(tar, pos, limit) == Some([])
    ensures pos < |tar| < pos + BLOCK ==> Scan(tar, pos, limit) == None
    ensures pos + BLOCK <= |tar| ==>
      var h := tar[pos..pos + BLOCK];
      var rest := Scan(tar, pos + BLOCK + Padded(SizeOf(h)), limit);
      Scan(tar, pos, limit) ==
        if IsZeroBlock(h) then Some([])
        else if IsRegular(h) then Prepend([EntryOf(h, pos + BLOCK, limit)], rest)
        else rest
  {
  }

  function Shifted(k: Option<nat>, i: nat): Option<nat> {
    if k.None? then None else Some(k.value + i)
  }

  lemma FindStarts(es: seq<Entry>, name: seq<byte>)
    ensures Shifted(FindIn(es[0..], name), 0) == FindIn(es, name)
    ensures es == [] ==> FindIn(es, name) == None
  {
    assert es[0..] == es;
  }

  lemma FindNext(es: seq<Entry>, name: seq<byte>, i: nat)
    requires i < |es|
    ensures Shifted(FindIn(es[i..], name), i)
        == if SameName(es[i].name, name) then Some(i) else Shifted(FindIn(es[i + 1..], name), i + 1)
  {
    hide SameName;
    assert es[i..][0] == es[i] && es[i..][1..] == es[i + 1..];
  }

  lemma FindEnds(es: seq<Entry>, name: seq<byte>)
    ensures FindIn(es[|es|..], name) == None
  {
  }

  // ---------------------------------------------------------------------------
  // Whole uses
  // ---------------------------------------------------------------------------

  /** Getting a file from a well-formed archive without a cache, when no read fails: the
      bytes of the first regular member of that name, or nothing when there is none. */
  method GetMember(kind: Kind, ghost ms: seq<Member>, ghost tail: seq<byte>, tar: seq<byte>, pad: seq<byte>,
                   filename: seq<byte>, chunks: nat -> int)
    returns (data: Option<seq<byte>>)
    requires forall i :: 0 <= i < |ms| ==> WellFormed(ms[i])
    requires Ends(tail) && tar == Body(ms) + tail && |tar| < TWO_32 * TWO_32
    requires |pad| == 4 && forall k :: chunks(k) > 0
    ensures forall i :: 0 <= i < |ms| ==> Formed(ms[i])
    ensures data == DataOf(ms, filename, Limit(EntrySize(kind)))
  {
    hide Formed, WellFormed, Scan, Body, Ends, EntrySize, Delivered, DataOf;
    var index := new Index(kind);
    DeliveredIs(ms, tail, Limit(index.size), filename);
    var cache: Option<seq<byte>>;
    data, cache := index.Get(tar, None, pad, filename, chunks);
  }

  /** Two starts: the archive `was` is loaded without a cache, and later the archive in its
      place with the cache the first left. The second index is right exactly if the archive
      has another size than before, or the same entries: only the size is compared. */
  method LoadTwice(kind: Kind, was: seq<byte>, tar: seq<byte>, pad: seq<byte>) returns (ok: bool, again: Index)
    requires |was| < TWO_32 * TWO_32 && |tar| < TWO_32 * TWO_32 && |pad| == 4
    requires var size := EntrySize(kind);
      HEADER + Span(size, |EntriesOf(Scan(was, 0, Limit(size)))|) < 0x8000_0000
    ensures again.Valid() && again.kind == kind
    ensures var limit := Limit(EntrySize(kind)); var r := Scan(tar, 0, limit);
      (ok == r.Some? && again.Entries() == EntriesOf(r)) <==>
        (|was| == |tar| && Scan(was, 0, limit).Some? ==> r == Scan(was, 0, limit))
  {
    hide Scan, EntrySize, Span, DecodeAll, CacheMatches, CountIn;
    var first := new Index(kind);
    var ok1, cache := first.Load(was, None, pad);
    assert |first.Entries()| == first.count;
    SpanAtLeast(first.size, first.count);
    again := new Index(kind);
    var cache2: Option<seq<byte>>;
    ok, cache2 := again.Load(tar, cache, pad);
  }

  /** Such an archive: a file replaced by one of another name. */
  lemma StaleCache(kind: Kind)
    ensures var limit := Limit(EntrySize(kind));
      var was, tar := Body([SmallMember(0x61, [])]), Body([SmallMember(0x62, [])]);
      |was| == |tar| && Scan(was, 0, limit) == Some([Entry(BLOCK, 0, 0, [0x61])])
      && Scan(tar, 0, limit) == Some([Entry(BLOCK, 0, 0, [0x62])])
  {
    hide EntrySize;
    var limit := Limit(EntrySize(kind));
    OneEmptyFile(0x61, limit);
    OneEmptyFile(0x62, limit);
  }

  lemma OneEmptyFile(letter: byte, limit: nat)
    requires letter != 0 && letter != SPACE && 1 <= limit <= 254
    ensures var tar := Body([SmallMember(letter, [])]);
      |tar| == BLOCK && Scan(tar, 0, limit) == Some([Entry(BLOCK, 0, 0, [letter])])
  {
    hide Formed, SmallHeader, Scan, IsRegular;
    var m := SmallMember(letter, []);
    var tar := Body([m]);
    assert Pow8(11) > 0;
    SmallIsFormed(letter, []);
    BodyOfOne(m);
    assert tar == [] + Body([m]) + [];
    ScanMembers([], [m], [], limit);
    var e := Entry(BLOCK, 0, 0, [letter]);
    assert Cut(FullName(m), limit) == [letter] && [e] + [] == [e];
    assert Expected([m][1..], BLOCK, limit) == [];
  }
}
