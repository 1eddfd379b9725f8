/** The archive side of src/tar.c: what the index parser makes of a tar file, and that it
    reads ustar archives correctly. */
module Tar {
  import opened Arithmetic
  import opened Bytes
  import opened Options

  const BLOCK := 512
  const MAX_FILE_SIZE := 4 * 1024 * 1024

  const SPACE: byte := 0x20
  const SLASH: byte := 0x2F
  const ZERO_DIGIT: byte := 0x30

  // ---------------------------------------------------------------------------
  // Fields
  // ---------------------------------------------------------------------------

  predicate IsOctal(b: byte) { 0x30 <= b <= 0x37 }

  /** The value of the octal digits s starts with, after digits worth v. */
  function OctalFrom(s: seq<byte>, v: nat): nat
    decreases |s|
  {
    if s == [] || !IsOctal(s[0]) then v else OctalFrom(s[1..], v * 8 + (s[0] as int - 0x30))
  }

  method ParseOctal(s: seq<byte>) returns (val: nat)
    ensures val == OctalFrom(s, 0)
  {
    val := 0;
    var i := 0;
    while i < |s|
      invariant i <= |s| && OctalFrom(s[i..], val) == OctalFrom(s, 0)
    {
      if !IsOctal(s[i]) { break; }
      assert s[i..][1..] == s[i + 1..];
      val := val * 8 + (s[i] as int - 0x30);
      i := i + 1;
    }
  }

  function Pow8(k: nat): nat { if k == 0 then 1 else 8 * Pow8(k - 1) }

  /** n in k octal digits. */
  function Octal(n: nat, k: nat): (s: seq<byte>)
    ensures |s| == k
  {
    if k == 0 then [] else Octal(n / 8, k - 1) + [0x30 + n % 8 as byte]
  }

  /** Octal digits followed by anything else read back as their number. */
  lemma {:induction false} OctalRoundTrip(n: nat, k: nat, rest: seq<byte>)
    requires n < Pow8(k)
    ensures OctalFrom(Octal(n, k) + rest, 0) == OctalFrom(rest, n)
    decreases k
  {
    if k == 0 {
      assert Octal(n, k) + rest == rest;
    } else {
      var d: byte := 0x30 + n % 8 as byte;
      assert Octal(n, k) + rest == Octal(n / 8, k - 1) + ([d] + rest);
      OctalRoundTrip(n / 8, k - 1, [d] + rest);
      assert ([d] + rest)[1..] == rest;
    }
  }

  /** Twelve digits stay below 2^36: the accumulator does not overflow. */
  lemma {:induction false} OctalBound(s: seq<byte>, v: nat, k: nat)
    requires |s| <= k
    ensures OctalFrom(s, v) < (v + 1) * Pow8(k)
    decreases k
  {
    if s == [] || !IsOctal(s[0]) {
      PowPositive(k);
      Below(v, Pow8(k));
    } else {
      var d := s[0] as int - 0x30;
      OctalBound(s[1..], v * 8 + d, k - 1);
      Carry(v, d, Pow8(k - 1));
    }
  }

  lemma {:induction false} PowPositive(k: nat)
    ensures Pow8(k) >= 1
  {
    if k > 0 { PowPositive(k - 1); }
  }

  lemma Below(v: nat, p: nat)
    requires p >= 1
    ensures v < (v + 1) * p
  {
  }

  lemma Carry(v: nat, d: nat, p: nat)
    requires d < 8
    ensures (v * 8 + d + 1) * p <= (v + 1) * (8 * p)
  {
    MulLe(p, v * 8 + d + 1, (v + 1) * 8);
  }

  function Padded(n: nat): nat { (n + 511) / 512 * 512 }

  function Capped(n: nat): nat { if n > MAX_FILE_SIZE then MAX_FILE_SIZE else n }

  /** How much is left of a field once trailing NULs and spaces are cleared. */
  function TrimLen(b: seq<byte>): (n: nat)
    ensures n <= |b| && (n > 0 ==> b[n - 1] != 0 && b[n - 1] != SPACE)
    ensures forall i :: n <= i < |b| ==> b[i] == 0 || b[i] == SPACE
  {
    if b == [] then 0
    else if b[|b| - 1] == 0 || b[|b| - 1] == SPACE then TrimLen(b[..|b| - 1])
    else |b|
  }

  /** A field as a C string, trimmed. */
  function Field(b: seq<byte>): seq<byte> { CStr(b[..TrimLen(b)]) }

  function TrimEnd(s: seq<byte>): seq<byte> { s[..TrimLen(s)] }

  function Cut(s: seq<byte>, n: nat): seq<byte> { if |s| > n then s[..n] else s }

  /** The file name of a header: prefix and name joined, held in 255 characters. */
  function NameOf(h: seq<byte>): seq<byte>
    requires |h| == BLOCK
  {
    var name, prefix := Field(h[..100]), Field(h[345..500]);
    TrimEnd(if prefix != [] then Cut(prefix + [SLASH] + name, 255) else name)
  }

  // ---------------------------------------------------------------------------
  // The parser
  // ---------------------------------------------------------------------------

  datatype Entry = Entry(offset: nat, rawSize: nat, paddedSize: nat, name: seq<byte>)

  predicate IsZeroBlock(h: seq<byte>) { forall i :: 0 <= i < |h| ==> h[i] == 0 }

  predicate IsRegular(h: seq<byte>)
    requires |h| == BLOCK
  {
    h[156] == 0 || h[156] == ZERO_DIGIT
  }

  function SizeOf(h: seq<byte>): nat
    requires |h| == BLOCK
  {
    Capped(OctalFrom(h[124..136], 0))
  }

  function EntryOf(h: seq<byte>, offset: nat, limit: nat): Entry
    requires |h| == BLOCK
  {
    Entry(offset, SizeOf(h), Padded(SizeOf(h)), Cut(NameOf(h), limit))
  }

  /** The entries from position pos on; None when a header is cut short. */
  function Scan(tar: seq<byte>, pos: nat, limit: nat): Option<seq<Entry>>
    decreases if pos < |tar| then |tar| - pos else 0
  {
    if pos >= |tar| then Some([])
    else if pos + BLOCK > |tar| then None
    else
      var h := tar[pos..pos + BLOCK];
      if IsZeroBlock(h) then Some([])
      else
        var rest := Scan(tar, pos + BLOCK + Padded(SizeOf(h)), limit);
        if rest.None? then None
        else if IsRegular(h) then Some([EntryOf(h, pos + BLOCK, limit)] + rest.value)
        else rest
  }

  // ---------------------------------------------------------------------------
  // Archives
  // ---------------------------------------------------------------------------

  /** A member of an archive. Fields of the header that the reader ignores are open. */
  datatype Member = Member(header: seq<byte>, name: seq<byte>, prefix: seq<byte>, digits: nat, data: seq<byte>)

  ghost predicate Text(s: seq<byte>) {
    && (forall i :: 0 <= i < |s| ==> s[i] != 0)
    && (s != [] ==> s[|s| - 1] != SPACE)
  }

  function FullName(m: Member): seq<byte> {
    if m.prefix == [] then m.name else m.prefix + [SLASH] + m.name
  }

  /** A ustar header with a plain octal size. */
  ghost predicate Formed(m: Member): (b: bool)
    ensures b ==> |m.header| == BLOCK
  {
    && |m.header| == BLOCK
    && |m.name| <= 100 && m.header[..100] == m.name + Zeros(100 - |m.name|)
    && |m.prefix| <= 155 && m.header[345..500] == m.prefix + Zeros(155 - |m.prefix|)
    && Text(m.name) && Text(m.prefix)
    && (|FullName(m)| == 256 ==> FullName(m)[254] != SPACE)
    && 1 <= m.digits <= 12 && |m.data| < Pow8(m.digits)
    && m.header[124..124 + m.digits] == Octal(|m.data|, m.digits)
    && (m.digits < 12 ==> m.header[124 + m.digits] == 0 || m.header[124 + m.digits] == SPACE)
  }

  /** A member of at most 4 MiB. */
  ghost predicate WellFormed(m: Member) { Formed(m) && |m.data| <= MAX_FILE_SIZE }

  function Stored(m: Member): seq<byte> {
    m.header + m.data + Zeros(Padded(|m.data|) - |m.data|)
  }

  function Body(ms: seq<Member>): seq<byte> {
    if ms == [] then [] else Stored(ms[0]) + Body(ms[1..])
  }

  /** What may follow the last member: nothing, or a zero block and anything. */
  ghost predicate Ends(tail: seq<byte>) { tail == [] || (|tail| >= BLOCK && IsZeroBlock(tail[..BLOCK])) }

  /** The regular members in order, with where their data is. */
  ghost function Expected(ms: seq<Member>, at: nat, limit: nat): seq<Entry>
    requires forall i :: 0 <= i < |ms| ==> Formed(ms[i])
  {
    if ms == [] then []
    else
      var m := ms[0];
      assert Formed(m);
      var n := Padded(|m.data|);
      (if IsRegular(m.header) then [Entry(at + BLOCK, |m.data|, n, Cut(FullName(m), limit))] else [])
      + Expected(ms[1..], at + BLOCK + n, limit)
  }

  lemma FieldOf(s: seq<byte>, n: nat)
    requires Text(s)
    ensures Field(s + Zeros(n)) == s
  {
    var b := s + Zeros(n);
    assert TrimLen(b) == |s| by {
      assert s != [] ==> b[|s| - 1] == s[|s| - 1];
    }
    assert b[..|s|] == s;
    assert CStr(s) == s by { assert CStr(s) == s[..|CStr(s)|]; }
  }

  lemma SizeOfMember(m: Member)
    requires Formed(m)
    ensures SizeOf(m.header) == Capped(|m.data|)
  {
    var f := m.header[124..136];
    var rest := m.header[124 + m.digits..136];
    assert f == Octal(|m.data|, m.digits) + rest;
    OctalRoundTrip(|m.data|, m.digits, rest);
  }

  lemma TrimEndIs(s: seq<byte>)
    requires s != [] ==> s[|s| - 1] != SPACE && s[|s| - 1] != 0
    ensures TrimEnd(s) == s
  {
  }

  lemma FullNameEnds(m: Member)
    requires Formed(m)
    ensures var c := Cut(FullName(m), 255); c != [] ==> c[|c| - 1] != SPACE && c[|c| - 1] != 0
  {
    hide Octal, Pow8;
    var f := FullName(m);
    if m.prefix != [] {
      assert forall i :: 0 <= i < |f| ==> f[i] != 0;
      assert m.name != [] ==> f[|f| - 1] == m.name[|m.name| - 1];
    }
  }

  lemma FieldsOfMember(m: Member)
    requires Formed(m)
    ensures Field(m.header[..100]) == m.name && Field(m.header[345..500]) == m.prefix
    ensures |m.name| <= 100
  {
    hide Octal, Pow8, Field;
    FieldOf(m.name, 100 - |m.name|);
    FieldOf(m.prefix, 155 - |m.prefix|);
  }

  lemma NameOfMember(m: Member, limit: nat)
    requires Formed(m) && limit <= 254
    ensures Cut(NameOf(m.header), limit) == Cut(FullName(m), limit)
  {
    hide Formed, Field, TrimEnd;
    FieldsOfMember(m);
    FullNameEnds(m);
    TrimEndIs(Cut(FullName(m), 255));
  }

  lemma NotZero(m: Member)
    requires Formed(m)
    ensures !IsZeroBlock(m.header)
  {
    assert m.header[124] == m.header[124..124 + m.digits][0];
    OctalDigits(|m.data|, m.digits, 0);
  }

  lemma {:induction false} OctalDigits(n: nat, k: nat, i: nat)
    requires i < k
    ensures IsOctal(Octal(n, k)[i])
  {
    if i < k - 1 { OctalDigits(n / 8, k - 1, i); }
  }

  /** One member at pos, whose size is capped. */
  lemma ScanStep(tar: seq<byte>, pos: nat, limit: nat, m: Member)
    requires Formed(m) && limit <= 254
    requires pos + BLOCK <= |tar| && tar[pos..pos + BLOCK] == m.header
    ensures var n := Capped(|m.data|); var rest := Scan(tar, pos + BLOCK + Padded(n), limit);
      Scan(tar, pos, limit) ==
        if rest.None? then None
        else Some((if IsRegular(m.header)
          then [Entry(pos + BLOCK, n, Padded(n), Cut(FullName(m), limit))] else []) + rest.value)
  {
    hide Formed, SizeOf, NameOf, FullName, Cut, IsRegular, IsZeroBlock, Padded;
    SizeOfMember(m);
    NameOfMember(m, limit);
    NotZero(m);
    var h := tar[pos..pos + BLOCK];
    var rest := Scan(tar, pos + BLOCK + Padded(SizeOf(h)), limit);
    assert Scan(tar, pos, limit)
        == if rest.None? then None
           else if IsRegular(h) then Some([EntryOf(h, pos + BLOCK, limit)] + rest.value) else rest;
    assert rest.Some? ==> [] + rest.value == rest.value;
  }

  lemma ScanEnds(tar: seq<byte>, before: seq<byte>, tail: seq<byte>, limit: nat)
    requires tar == before + tail && Ends(tail)
    ensures Scan(tar, |before|, limit) == Some([])
  {
    if tail != [] { assert tar[|before|..|before| + BLOCK] == tail[..BLOCK]; }
  }

  lemma Pieces(b: seq<byte>, h: seq<byte>, d: seq<byte>, r: seq<byte>)
    ensures var t := b + h + d + r;
      t[|b|..|b| + |h|] == h && t[|b| + |h|..|b| + |h| + |d|] == d
  {
  }

  lemma Regroup(b: seq<byte>, h: seq<byte>, d: seq<byte>, z: seq<byte>, rest: seq<byte>, tail: seq<byte>)
    ensures b + (h + d + z + rest) + tail == b + (h + d + z) + rest + tail
    ensures b + (h + d + z + rest) + tail == b + h + d + (z + rest + tail)
  {
  }

  lemma StoredSplits(before: seq<byte>, ms: seq<Member>, tail: seq<byte>)
    requires ms != [] && Formed(ms[0])
    ensures var tar := before + Body(ms) + tail; var next := before + Stored(ms[0]);
      && tar == next + Body(ms[1..]) + tail
      && |next| == |before| + BLOCK + Padded(|ms[0].data|)
      && |before| + BLOCK + |ms[0].data| <= |tar|
      && tar[|before|..|before| + BLOCK] == ms[0].header
      && tar[|before| + BLOCK..|before| + BLOCK + |ms[0].data|] == ms[0].data
  {
    hide Formed, Zeros;
    var h, d, z := ms[0].header, ms[0].data, Zeros(Padded(|ms[0].data|) - |ms[0].data|);
    Regroup(before, h, d, z, Body(ms[1..]), tail);
    Pieces(before, h, d, z + Body(ms[1..]) + tail);
    ZerosLength(Padded(|ms[0].data|) - |ms[0].data|);
  }

  lemma ZerosLength(n: nat)
    ensures |Zeros(n)| == n
  {
  }

  /** Parsing an archive of any list of members finds exactly its regular files, in
      order, each with the place and length of its data and its name cut to the limit. */
  lemma {:induction false} ScanMembers(before: seq<byte>, ms: seq<Member>, tail: seq<byte>, limit: nat)
    requires forall i :: 0 <= i < |ms| ==> WellFormed(ms[i])
    requires Ends(tail) && limit <= 254
    ensures forall i :: 0 <= i < |ms| ==> Formed(ms[i])
    ensures Scan(before + Body(ms) + tail, |before|, limit) == Some(Expected(ms, |before|, limit))
    decreases |ms|
  {
    hide Formed, Scan, Stored, Padded, Cut, FullName, IsRegular, Ends;
    var tar := before + Body(ms) + tail;
    if ms == [] {
      assert tar == before + tail;
      ScanEnds(tar, before, tail, limit);
    } else {
      StoredSplits(before, ms, tail);
      ScanMembers(before + Stored(ms[0]), ms[1..], tail, limit);
      ScanStep(tar, |before|, limit, ms[0]);
    }
  }

  // ---------------------------------------------------------------------------
  // The cap
  // ---------------------------------------------------------------------------

  /** The entries before the first member above the cap. */
  ghost function UpToCap(ms: seq<Member>): (k: nat)
    requires forall i :: 0 <= i < |ms| ==> Formed(ms[i])
  {
    if ms == [] || |ms[0].data| > MAX_FILE_SIZE then 0
    else
      assert Formed(ms[0]);
      (if IsRegular(ms[0].header) then 1 else 0) + UpToCap(ms[1..])
  }

  /** The index r, if there is any, is right up to entry k, which is right but for its size:
      the member has more than 4 MiB and the entry says 4 MiB. */
  ghost predicate CutShort(r: Option<seq<Entry>>, es: seq<Entry>, k: nat) {
    && k < |es| && es[k].rawSize > MAX_FILE_SIZE
    && (r.Some? ==>
      && k < |r.value| && r.value[..k] == es[..k]
      && r.value[k] == es[k].(rawSize := MAX_FILE_SIZE, paddedSize := MAX_FILE_SIZE))
  }

  lemma CutShortLater(r: Option<seq<Entry>>, es: seq<Entry>, k: nat, e: seq<Entry>)
    requires CutShort(r, es, k)
    ensures CutShort(if r.None? then None else Some(e + r.value), e + es, |e| + k)
  {
    if r.Some? {
      assert (e + r.value)[..|e| + k] == e + r.value[..k];
      assert (e + es)[..|e| + k] == e + es[..k];
    }
  }

  /** The first member above the cap, if there is one, is a regular file. */
  ghost predicate FirstIsFile(ms: seq<Member>)
    requires forall i :: 0 <= i < |ms| ==> Formed(ms[i])
  {
    ms != [] ==>
      assert Formed(ms[0]);
      if |ms[0].data| > MAX_FILE_SIZE then IsRegular(ms[0].header) else FirstIsFile(ms[1..])
  }

  predicate UnderCap(ms: seq<Member>) { forall i :: 0 <= i < |ms| ==> |ms[i].data| <= MAX_FILE_SIZE }

  lemma NotYet(ms: seq<Member>)
    requires ms != [] && |ms[0].data| <= MAX_FILE_SIZE && !UnderCap(ms)
    ensures !UnderCap(ms[1..])
  {
    var i :| 0 <= i < |ms| && |ms[i].data| > MAX_FILE_SIZE;
    assert ms[1..][i - 1] == ms[i];
  }

  lemma {:induction false} ScanCutShort(before: seq<byte>, ms: seq<Member>, tail: seq<byte>, limit: nat)
    requires (forall i :: 0 <= i < |ms| ==> Formed(ms[i])) && FirstIsFile(ms) && !UnderCap(ms)
    requires Ends(tail) && limit <= 254
    ensures CutShort(Scan(before + Body(ms) + tail, |before|, limit), Expected(ms, |before|, limit), UpToCap(ms))
    decreases |ms|
  {
    hide Formed, Scan, Body, Stored, Padded, Cut, FullName, IsRegular, Ends, CutShort;
    var tar := before + Body(ms) + tail;
    var m := ms[0];
    StoredSplits(before, ms, tail);
    ScanStep(tar, |before|, limit, m);
    if |m.data| > MAX_FILE_SIZE {
      CutShortFirst(tar, |before|, limit, m, Expected(ms[1..], |before| + BLOCK + Padded(|m.data|), limit));
    } else {
      NotYet(ms);
      ScanCutShort(before + Stored(m), ms[1..], tail, limit);
      var e := if IsRegular(m.header)
        then [Entry(|before| + BLOCK, |m.data|, Padded(|m.data|), Cut(FullName(m), limit))] else [];
      CutShortLater(Scan(tar, |before| + BLOCK + Padded(|m.data|), limit),
                    Expected(ms[1..], |before| + BLOCK + Padded(|m.data|), limit), UpToCap(ms[1..]), e);
    }
  }

  lemma CutShortFirst(tar: seq<byte>, pos: nat, limit: nat, m: Member, rest: seq<Entry>)
    requires Formed(m) && limit <= 254 && IsRegular(m.header) && |m.data| > MAX_FILE_SIZE
    requires pos + BLOCK <= |tar| && tar[pos..pos + BLOCK] == m.header
    ensures CutShort(Scan(tar, pos, limit),
      [Entry(pos + BLOCK, |m.data|, Padded(|m.data|), Cut(FullName(m), limit))] + rest, 0)
  {
    hide Formed, Scan, Cut, FullName, IsRegular;
    ScanStep(tar, pos, limit, m);
  }

  /** Where the first member above 4 MiB is a regular file, the archive is read right exactly
      if there is no such member; otherwise the index is wrong from that member on: its entry
      says 4 MiB, and the parser goes on in the middle of its data. */
  lemma CapIsExactIff(before: seq<byte>, ms: seq<Member>, tail: seq<byte>, limit: nat)
    requires (forall i :: 0 <= i < |ms| ==> Formed(ms[i])) && FirstIsFile(ms)
    requires Ends(tail) && limit <= 254
    ensures var r := Scan(before + Body(ms) + tail, |before|, limit); var es := Expected(ms, |before|, limit);
      && (r == Some(es) <==> UnderCap(ms))
      && (r != Some(es) ==> CutShort(r, es, UpToCap(ms)))
  {
    hide Formed, Scan, Body, Expected, UpToCap, IsRegular, Ends, FirstIsFile;
    if UnderCap(ms) {
      forall i | 0 <= i < |ms| ensures WellFormed(ms[i]) {
        assert Formed(ms[i]);
      }
      ScanMembers(before, ms, tail, limit);
    } else {
      ScanCutShort(before, ms, tail, limit);
    }
  }

  /** A header with a name of one letter and eleven size digits, of a regular file. */
  function SmallHeader(letter: byte, n: nat): (h: seq<byte>)
    ensures |h| == BLOCK
  {
    [letter] + Zeros(123) + Octal(n, 11) + Zeros(377)
  }

  function SmallMember(letter: byte, data: seq<byte>): Member {
    Member(SmallHeader(letter, |data|), [letter], [], 11, data)
  }

  lemma SmallIsFormed(letter: byte, data: seq<byte>)
    requires letter != 0 && letter != SPACE && |data| < Pow8(11)
    ensures Formed(SmallMember(letter, data)) && IsRegular(SmallHeader(letter, |data|))
  {
    hide Octal, Pow8;
    var h, m := SmallHeader(letter, |data|), SmallMember(letter, data);
    assert h[..100] == [letter] + Zeros(99);
    assert h[345..500] == [] + Zeros(155);
    assert h[124..135] == Octal(|data|, 11);
    assert h[135] == 0 && h[156] == 0;
  }

  /** A file of 4 MiB and one zero byte is found with its last byte missing. */
  lemma LargeFileIsCut()
    ensures var m := SmallMember(0x61, Zeros(MAX_FILE_SIZE + 1));
      && Formed(m) && IsRegular(m.header)
      && Expected([m], 0, 40) == [Entry(BLOCK, MAX_FILE_SIZE + 1, MAX_FILE_SIZE + BLOCK, [0x61])]
      && Scan(Body([m]), 0, 40) == Some([Entry(BLOCK, MAX_FILE_SIZE, MAX_FILE_SIZE, [0x61])])
  {
    hide Formed, SmallHeader, Scan, Zeros, IsRegular, Octal;
    var m := SmallMember(0x61, Zeros(MAX_FILE_SIZE + 1));
    ZerosLength(MAX_FILE_SIZE + 1);
    ZerosLength(511);
    assert MAX_FILE_SIZE + 1 < Pow8(8) <= Pow8(11);
    SmallIsFormed(0x61, m.data);
    assert Cut(FullName(m), 40) == [0x61];
    var tar := Body([m]);
    BodyOfOne(m);
    assert tar == m.header + (m.data + Zeros(511));
    assert tar[0..BLOCK] == m.header;
    ScanStep(tar, 0, 40, m);
    ZeroBlockStops(m.header, tar);
    var e := Entry(BLOCK, MAX_FILE_SIZE, MAX_FILE_SIZE, [0x61]);
    assert [e] + [] == [e] && 0 + BLOCK + Padded(MAX_FILE_SIZE) == BLOCK + MAX_FILE_SIZE;
    assert Expected([m][1..], BLOCK + MAX_FILE_SIZE + BLOCK, 40) == [];
  }

  lemma BodyOfOne(m: Member)
    ensures Body([m]) == m.header + (m.data + Zeros(Padded(|m.data|) - |m.data|))
  {
    assert Body([m]) == Stored(m) + Body([]);
  }

  lemma ZeroBlockStops(h: seq<byte>, tar: seq<byte>)
    requires |h| == BLOCK && tar == h + (Zeros(MAX_FILE_SIZE + 1) + Zeros(511))
    ensures Scan(tar, BLOCK + MAX_FILE_SIZE, 40) == Some([])
  {
    assert IsZeroBlock(tar[BLOCK + MAX_FILE_SIZE..BLOCK + MAX_FILE_SIZE + BLOCK]);
  }

  /** Every entry the parser is expected to find leads to its member's data. */
  lemma {:induction false} ExpectedData(before: seq<byte>, ms: seq<Member>, tail: seq<byte>, limit: nat, k: nat)
    returns (i: nat)
    requires forall j :: 0 <= j < |ms| ==> Formed(ms[j])
    requires k < |Expected(ms, |before|, limit)|
    ensures var tar := before + Body(ms) + tail; var e := Expected(ms, |before|, limit)[k];
      && i < |ms| && IsRegular(ms[i].header) && e.name == Cut(FullName(ms[i]), limit)
      && e.rawSize == |ms[i].data| && e.offset + e.rawSize <= |tar|
      && tar[e.offset..e.offset + e.rawSize] == ms[i].data
    decreases |ms|
  {
    hide Formed, Stored, Padded, Cut, FullName, IsRegular;
    StoredSplits(before, ms, tail);
    var regular := IsRegular(ms[0].header);
    if regular && k == 0 {
      i := 0;
    } else {
      i := ExpectedData(before + Stored(ms[0]), ms[1..], tail, limit, if regular then k - 1 else k);
      i := i + 1;
    }
  }

  // ---------------------------------------------------------------------------
  // Looking a file up
  // ---------------------------------------------------------------------------

  function Lower(b: byte): byte { if 0x41 <= b <= 0x5A then b + 0x20 else b }

  /** strcasecmp finds no difference. */
  predicate SameName(a: seq<byte>, b: seq<byte>) {
    |a| == |b| && forall i :: 0 <= i < |a| ==> Lower(a[i]) == Lower(b[i])
  }

  function FindIn(es: seq<Entry>, name: seq<byte>): (k: Option<nat>)
    ensures k.Some? ==> k.value < |es|
  {
    if es == [] then None
    else if SameName(es[0].name, name) then Some(0)
    else
      var k := FindIn(es[1..], name);
      if k.None? then None else Some(k.value + 1)
  }

  /** The first regular member whose cut name is the one looked for. */
  ghost function Named(ms: seq<Member>, name: seq<byte>, limit: nat): (i: Option<nat>)
    requires forall i :: 0 <= i < |ms| ==> Formed(ms[i])
    ensures i.Some? ==> i.value < |ms|
  {
    if ms == [] then None
    else
      assert Formed(ms[0]);
      if IsRegular(ms[0].header) && SameName(Cut(FullName(ms[0]), limit), name) then Some(0)
      else
        var i := Named(ms[1..], name, limit);
        if i.None? then None else Some(i.value + 1)
  }

  /** The lookup and the members agree: no such name, or an entry on the data of member i. */
  ghost predicate Leads(tar: seq<byte>, es: seq<Entry>, ms: seq<Member>, name: seq<byte>, i: Option<nat>)
    requires i.Some? ==> i.value < |ms|
  {
    match FindIn(es, name)
    case None => i.None?
    case Some(k) =>
      && i.Some?
      && es[k].offset + es[k].rawSize <= |tar|
      && tar[es[k].offset..es[k].offset + es[k].rawSize] == ms[i.value].data
  }

  /** A lookup in the index of an archive leads to the data of the first member of that
      name, or fails when there is none. */
  lemma {:induction false} LookupFindsMember(
    before: seq<byte>, ms: seq<Member>, tail: seq<byte>, limit: nat, name: seq<byte>)
    requires forall j :: 0 <= j < |ms| ==> Formed(ms[j])
    ensures Leads(before + Body(ms) + tail, Expected(ms, |before|, limit), ms, name, Named(ms, name, limit))
    decreases |ms|
  {
    hide Formed, Body, Stored, Padded, Cut, FullName, IsRegular, SameName, Leads, FindIn;
    var tar := before + Body(ms) + tail;
    var es := Expected(ms, |before|, limit);
    if ms == [] {
      LeadsNowhere(tar, ms, name);
    } else {
      var m, rest := ms[0], Expected(ms[1..], |before| + BLOCK + Padded(|ms[0].data|), limit);
      assert Formed(m);
      var i := Named(ms[1..], name, limit);
      StoredSplits(before, ms, tail);
      LookupFindsMember(before + Stored(m), ms[1..], tail, limit, name);
      if IsRegular(m.header) {
        var e := Entry(|before| + BLOCK, |m.data|, Padded(|m.data|), Cut(FullName(m), limit));
        assert es == [e] + rest;
        LeadsFirst(tar, e, rest, ms, name, i);
      } else {
        assert es == rest;
        LeadsLater(tar, rest, ms, name, i);
      }
    }
  }

  lemma LeadsNowhere(tar: seq<byte>, ms: seq<Member>, name: seq<byte>)
    ensures Leads(tar, [], ms, name, None)
  {
  }

  lemma LeadsLater(tar: seq<byte>, es: seq<Entry>, ms: seq<Member>, name: seq<byte>, i: Option<nat>)
    requires ms != [] && (i.Some? ==> i.value < |ms| - 1) && Leads(tar, es, ms[1..], name, i)
    ensures Leads(tar, es, ms, name, if i.None? then None else Some(i.value + 1))
  {
    hide FindIn;
  }

  lemma LeadsFirst(tar: seq<byte>, e: Entry, es: seq<Entry>, ms: seq<Member>, name: seq<byte>, i: Option<nat>)
    requires ms != [] && (i.Some? ==> i.value < |ms| - 1) && Leads(tar, es, ms[1..], name, i)
    requires e.offset + e.rawSize <= |tar| && tar[e.offset..e.offset + e.rawSize] == ms[0].data
    ensures Leads(tar, [e] + es, ms, name,
                  if SameName(e.name, name) then Some(0) else if i.None? then None else Some(i.value + 1))
  {
    hide SameName;
    assert ([e] + es)[1..] == es;
  }
}
