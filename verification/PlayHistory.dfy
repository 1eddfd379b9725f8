/** The play history of src/OSDHistory.c: 21 records, updated, filled and evicted by
    AddHistoryRecord. */
module PlayHistory {
  import opened Bytes
  import opened Options

  const MAX_ENTRIES := 21
  const NAME_SIZE := 16

  datatype Entry = Entry(name: seq<byte>, launchCount: nat, bitmask: nat, shift: nat, date: nat)

  /** Comparing at most n characters of two strings finds no difference. */
  predicate SameUpTo(a: seq<byte>, b: seq<byte>, n: nat) {
    n == 0 ||
    var x, y := if a == [] then 0 else a[0], if b == [] then 0 else b[0];
    x == y && (x == 0 || SameUpTo(a[1..], b[1..], n - 1))
  }

  predicate Matches(e: Entry, name: seq<byte>) { SameUpTo(e.name, name, NAME_SIZE) }

  predicate Blank(e: Entry) { e.name == [] || e.name[0] == 0 }

  // ---------------------------------------------------------------------------
  // Launch counts and masks
  // ---------------------------------------------------------------------------

  /** 1 << v. */
  function BitValue(v: nat): nat { if v == 0 then 1 else 2 * BitValue(v - 1) }

  /** mask >> v & 1. */
  predicate HasBit(mask: nat, v: nat) { if v == 0 then mask % 2 == 1 else HasBit(mask / 2, v - 1) }

  /** The bits set among the low n. */
  function BitCount(mask: nat, n: nat): nat { if n == 0 then 0 else mask % 2 + BitCount(mask / 2, n - 1) }

  /** How many of 14, 24, 34, 44 and 54 a launch count has reached. */
  function Thresholds(count: nat): nat {
    if count < 14 then 0 else if count < 24 then 1 else if count < 34 then 2
    else if count < 44 then 3 else if count < 54 then 4 else 5
  }

  /** A record in use: one bit from the start and one for every threshold reached. */
  ghost predicate Sound(e: Entry) {
    && |e.name| == NAME_SIZE && e.name[NAME_SIZE - 1] == 0
    && (Blank(e) ==> e.launchCount == 0)
    && (!Blank(e) ==>
          1 <= e.launchCount <= 63 && e.bitmask < 64 && BitCount(e.bitmask, 6) == 1 + Thresholds(e.launchCount))
  }

  /** A mask of n bits is full exactly when they are all set, and else has a free bit. */
  lemma {:induction false} FreeBit(mask: nat, n: nat)
    requires mask < BitValue(n)
    ensures BitCount(mask, n) <= n
    ensures mask == BitValue(n) - 1 <==> BitCount(mask, n) == n
    ensures mask != BitValue(n) - 1 ==> exists v: nat :: v < n && !HasBit(mask, v)
  {
    if n > 0 {
      FreeBit(mask / 2, n - 1);
      if mask % 2 == 0 {
        assert !HasBit(mask, 0);
      } else if mask / 2 != BitValue(n - 1) - 1 {
        var v: nat :| v < n - 1 && !HasBit(mask / 2, v);
        assert !HasBit(mask, v + 1);
      }
    }
  }

  /** Setting a free bit adds one. */
  lemma {:induction false} SetFreeBit(mask: nat, v: nat, n: nat)
    requires mask < BitValue(n) && v < n && !HasBit(mask, v)
    ensures mask + BitValue(v) < BitValue(n) && BitCount(mask + BitValue(v), n) == BitCount(mask, n) + 1
  {
    if v > 0 {
      SetFreeBit(mask / 2, v - 1, n - 1);
      assert (mask + BitValue(v)) / 2 == mask / 2 + BitValue(v - 1);
      assert (mask + BitValue(v)) % 2 == mask % 2;
    } else {
      assert (mask + 1) / 2 == mask / 2;
    }
  }

  // ---------------------------------------------------------------------------
  // One record
  // ---------------------------------------------------------------------------

  /** What a launch makes of a record that matches: the count grows by one up to 63; a
      threshold sets one bit that was free; beyond the last the count stays. */
  ghost predicate Launched(e: Entry, f: Entry, now: nat) {
    && f.name == e.name && f.date == now
    && f.launchCount == (if e.launchCount < 63 then e.launchCount + 1 else 63)
    && (if Thresholds(f.launchCount) > Thresholds(e.launchCount)
        then f.shift < 6 && !HasBit(e.bitmask, f.shift) && f.bitmask == e.bitmask + BitValue(f.shift)
        else f.bitmask == e.bitmask && f.shift == if e.launchCount < 63 then e.shift else 7)
  }

  lemma Values()
    ensures BitValue(6) == 64
  {
    assert BitValue(1) == 2 && BitValue(2) == 4 && BitValue(3) == 8 && BitValue(4) == 16 && BitValue(5) == 32;
  }

  lemma LaunchedStaysSound(e: Entry, f: Entry, now: nat)
    requires Sound(e) && !Blank(e) && Launched(e, f, now)
    ensures Sound(f) && !Blank(f)
  {
    Values();
    if Thresholds(f.launchCount) > Thresholds(e.launchCount) { SetFreeBit(e.bitmask, f.shift, 6); }
  }

  /** The branch of the scan that updates a record. */
  method Launch(e: Entry, now: nat) returns (f: Entry)
    requires Sound(e) && !Blank(e)
    ensures Launched(e, f, now) && Sound(f)
  {
    Values();
    FreeBit(e.bitmask, 6);
    f := e.(date := now);
    if e.bitmask % 64 != 0x3F {
      var newLaunchCount := e.launchCount + 1;
      if newLaunchCount >= 0x80 { newLaunchCount := 0x7F; }
      if newLaunchCount >= 14 {
        if (newLaunchCount - 14) % 10 == 0 {
          var value: nat :| value < 6 && !HasBit(e.bitmask, value);
          f := f.(shift := value, bitmask := e.bitmask + BitValue(value));
        }
      }
      f := f.(launchCount := newLaunchCount);
    } else {
      if e.launchCount < 0x3F {
        f := f.(launchCount := e.launchCount + 1);
      } else {
        f := f.(launchCount := e.bitmask % 64, shift := 7);
      }
    }
    LaunchedStaysSound(e, f, now);
  }

  /** A record launched n times more: the count is n more, held at 63. */
  lemma {:induction false} CountOfLaunches(chain: seq<Entry>, dates: seq<nat>)
    requires |chain| == |dates| + 1 && Sound(chain[0]) && !Blank(chain[0])
    requires forall k, j :: 0 <= k < |dates| && j == k + 1 ==> Launched(chain[k], chain[j], dates[k])
    ensures var n := |dates|; var c := chain[0].launchCount + n;
      && Sound(chain[n]) && !Blank(chain[n])
      && chain[n].launchCount == if c < 63 then c else 63
    decreases |dates|
  {
    if dates != [] {
      var n := |dates| - 1;
      CountOfLaunches(chain[..n + 1], dates[..n]);
      LaunchedStaysSound(chain[n], chain[n + 1], dates[n]);
    }
  }

  // ---------------------------------------------------------------------------
  // Names
  // ---------------------------------------------------------------------------

  ghost predicate Text(s: seq<byte>) { forall i :: 0 <= i < |s| ==> s[i] != 0 }

  /** On a buffer that holds its terminator, comparing is equality of strings. */
  lemma {:induction false} SameIff(b: seq<byte>, s: seq<byte>, n: nat)
    requires |CStr(b)| < n && |CStr(b)| < |b| && Text(s)
    ensures SameUpTo(b, s, n) <==> CStr(b) == s
    decreases n
  {
    if b[0] != 0 {
      assert CStr(b) == [b[0]] + CStr(b[1..]);
      if s != [] && s[0] == b[0] {
        SameIff(b[1..], s[1..], n - 1);
        assert s == [s[0]] + s[1..];
      }
    }
  }

  lemma MatchesIff(e: Entry, name: seq<byte>)
    requires Sound(e) && Text(name)
    ensures Matches(e, name) <==> CStr(e.name) == name
    ensures name != [] && Matches(e, name) ==> !Blank(e)
    ensures Blank(e) <==> CStr(e.name) == []
  {
    SameIff(e.name, name, NAME_SIZE);
  }

  /** strncpy of at most 15 characters; the last byte of the buffer is left alone. */
  function Stored(was: seq<byte>, name: seq<byte>): seq<byte>
    requires |was| == NAME_SIZE
  {
    (if |name| <= 15 then name + Zeros(15 - |name|) else name[..15]) + [was[15]]
  }

  function NewEntry(was: Entry, name: seq<byte>, now: nat): Entry
    requires |was.name| == NAME_SIZE
  {
    was.(name := Stored(was.name, name), launchCount := 1, bitmask := 1, shift := 0, date := now)
  }

  /** A new record is found again under its name exactly when the name has at most 15
      characters. */
  lemma FoundAgainIff(was: Entry, name: seq<byte>, now: nat)
    requires Sound(was) && Text(name) && name != []
    ensures var e := NewEntry(was, name, now);
      && Sound(e) && !Blank(e) && (Matches(e, name) <==> |name| <= 15)
      && CStr(e.name) == if |name| <= 15 then name else name[..15]
  {
    var e := NewEntry(was, name, now);
    var s := if |name| <= 15 then name else name[..15];
    assert e.name == s + [0] + Zeros(15 - |s|);
    CStrOf(s, Zeros(15 - |s|));
    assert BitCount(1, 6) == 1 by { OneBit(6); }
    MatchesIff(e, name);
  }

  lemma {:induction false} OneBit(n: nat)
    requires n >= 1
    ensures BitCount(1, n) == 1
  {
    NoBits(n - 1);
  }

  lemma {:induction false} NoBits(n: nat)
    ensures BitCount(0, n) == 0
  {
    if n > 0 { NoBits(n - 1); }
  }

  // ---------------------------------------------------------------------------
  // The history
  // ---------------------------------------------------------------------------

  ghost predicate AllSound(es: seq<Entry>) { forall i :: 0 <= i < |es| ==> Sound(es[i]) }

  /** No two used records have the same name. */
  ghost predicate Unique(es: seq<Entry>) {
    forall i, j :: 0 <= i < j < |es| && !Blank(es[i]) ==> CStr(es[i].name) != CStr(es[j].name)
  }

  ghost predicate Known(es: seq<Entry>, name: seq<byte>) { exists i :: 0 <= i < |es| && Matches(es[i], name) }

  /** Every record of that name is launched once more, all others stay. */
  ghost predicate Updated(es: seq<Entry>, fs: seq<Entry>, name: seq<byte>, now: nat) {
    |fs| == |es| && forall i :: 0 <= i < |es| ==>
      if Matches(es[i], name) then Launched(es[i], fs[i], now) else fs[i] == es[i]
  }

  ghost predicate Least(es: seq<Entry>, k: nat) {
    k < |es| && forall j :: 0 <= j < |es| ==> es[k].launchCount <= es[j].launchCount
  }

  ghost predicate Full(es: seq<Entry>) { forall i :: 0 <= i < |es| ==> !Blank(es[i]) && es[i].shift == 7 }

  ghost predicate HasBlank(es: seq<Entry>) { exists i :: 0 <= i < |es| && Blank(es[i]) }

  /** One launch of a title: its records are launched; else it takes a blank slot, or the
      place of a least launched record; nothing happens when every record is kept for good. */
  ghost predicate Recorded(es: seq<Entry>, fs: seq<Entry>, name: seq<byte>, now: nat, slot: Option<nat>) {
    if Known(es, name) then slot.None? && Updated(es, fs, name, now)
    else if Full(es) then slot.None? && fs == es
    else
      && slot.Some? && slot.value < |es| && |es[slot.value].name| == NAME_SIZE
      && fs == es[slot.value := NewEntry(es[slot.value], name, now)]
      && if HasBlank(es) then Blank(es[slot.value]) else Least(es, slot.value)
  }

  class History {
    const entries: array<Entry>

    /** The records appended to history.old. */
    var evicted: seq<Entry>

    ghost predicate Valid()
      reads entries
    {
      entries.Length == MAX_ENTRIES && AllSound(entries[..])
    }

    constructor ()
      ensures Valid() && fresh(entries) && evicted == []
      ensures Unique(entries[..]) && forall i :: 0 <= i < entries.Length ==> Blank(entries[i])
    {
      entries := new Entry[MAX_ENTRIES](i => Entry(Zeros(NAME_SIZE), 0, 0, 0, 0));
      evicted := [];
    }

    /** The scan: updates the records of that name and finds a least used one. */
    method Scan(name: seq<byte>, now: nat) returns (isNew: bool, leastUsed: nat)
      requires Valid() && Text(name) && name != []
      modifies entries
      ensures Valid() && Updated(old(entries[..]), entries[..], name, now)
      ensures isNew <==> !Known(old(entries[..]), name)
      ensures isNew ==> Least(entries[..], leastUsed)
    {
      hide Matches, Launched, Sound, Blank, Known, Updated, LeastSoFar, Scanned;
      ghost var was := entries[..];
      leastUsed := 0;
      var leastTimestamp, leastCount := 0x7FFF_FFFF, 0x7FFF_FFFF;
      isNew := true;
      var i := 0;
      NothingScanned(was, name, now);
      assert entries[..0] == [];
      while i < MAX_ENTRIES
        invariant i <= MAX_ENTRIES && AllSound(entries[..]) && entries[i..] == was[i..]
        invariant Scanned(was, entries[..i], name, now, isNew)
        invariant LeastSoFar(was, i, leastUsed, leastCount)
      {
        ghost var before := entries[..i];
        assert entries[i] == entries[i..][0] == was[i..][0] == was[i];
        LeastNext(was, i, leastUsed, leastCount);
        if entries[i].launchCount < leastCount {
          leastUsed := i;
          leastCount := entries[i].launchCount;
        }
        if leastCount == entries[i].launchCount {
          if entries[i].date < leastTimestamp {
            leastTimestamp := entries[i].date;
            leastUsed := i;
          }
        }
        ghost var wasNew := isNew;
        isNew := UpdateRecord(i, name, now, isNew);
        ScanNext(was, before, entries[i], name, now, wasNew);
        assert entries[..i + 1] == before + [entries[i]];
        i := i + 1;
      }
      assert entries[..i] == entries[..];
      ScanEnds(was, entries[..], name, now, isNew, leastUsed, leastCount);
    }

    /** One turn of the scan: a record of that name is launched. */
    method UpdateRecord(i: nat, name: seq<byte>, now: nat, wasNew: bool) returns (isNew: bool)
      requires Valid() && i < MAX_ENTRIES && Text(name) && name != []
      modifies entries
      ensures AllSound(entries[..]) && entries.Length == MAX_ENTRIES
      ensures forall j :: 0 <= j < MAX_ENTRIES && j != i ==> entries[j] == old(entries[j])
      ensures isNew <==> wasNew && !Matches(old(entries[i]), name)
      ensures if Matches(old(entries[i]), name) then Launched(old(entries[i]), entries[i], now)
              else entries[i] == old(entries[i])
    {
      hide Matches, Launched, Sound, Blank;
      isNew := wasNew;
      MatchesIff(entries[i], name);
      if Matches(entries[i], name) {
        isNew := false;
        entries[i] := Launch(entries[i], now);
      }
    }

    /** Counts the records for good, and lists the blank ones. */
    method Survey() returns (blanks: array<nat>, numBlanks: nat, numUsed: nat)
      requires Valid()
      ensures fresh(blanks) && numBlanks <= blanks.Length
      ensures forall j :: 0 <= j < numBlanks ==> blanks[j] < MAX_ENTRIES && Blank(entries[blanks[j]])
      ensures numBlanks > 0 <==> HasBlank(entries[..])
      ensures numUsed == MAX_ENTRIES <==> Full(entries[..])
    {
      hide Sound, Blank;
      blanks := new nat[MAX_ENTRIES](i => 0);
      numBlanks, numUsed := 0, 0;
      var i := 0;
      while i < MAX_ENTRIES
        invariant i <= MAX_ENTRIES && numBlanks <= i && numUsed <= i
        invariant forall j :: 0 <= j < numBlanks ==> blanks[j] < MAX_ENTRIES && Blank(entries[blanks[j]])
        invariant numBlanks > 0 <==> HasBlank(entries[..i])
        invariant numUsed == i <==> Full(entries[..i])
      {
        assert entries[..i + 1] == entries[..i] + [entries[i]];
        FullNext(entries[..i], entries[i]);
        if Blank(entries[i]) {
          blanks[numBlanks] := i;
          numBlanks := numBlanks + 1;
        } else if entries[i].shift == 7 {
          numUsed := numUsed + 1;
        }
        i := i + 1;
      }
      assert entries[..i] == entries[..];
    }

    /** AddHistoryRecord: launches the records of that name; else takes a random blank
        slot, or the place of a least launched record, which goes to history.old; does
        nothing when every record is kept for good. */
    method AddRecord(name: seq<byte>, now: nat, canAppend: bool) returns (slot: Option<nat>)
      requires Valid() && Text(name) && name != []
      modifies this`evicted, entries
      ensures Valid()
      ensures old(Unique(entries[..])) && |name| <= 15 ==> Unique(entries[..])
      ensures Recorded(old(entries[..]), entries[..], name, now, slot)
      ensures evicted == old(evicted) +
        if slot.Some? && !HasBlank(old(entries[..])) && canAppend then [old(entries[..])[slot.value]] else []
    {
      hide Sound, Blank, Matches, Launched, NewEntry, Unique, Full, HasBlank, Least;
      ghost var es := entries[..];
      var isNew, leastUsed := Scan(name, now);
      slot := None;
      if isNew {
        UpdatedUnknown(es, entries[..], name, now);
        var blanks, numBlanks, numUsed := Survey();
        if numUsed != MAX_ENTRIES {
          var k := leastUsed;
          if numBlanks > 0 {
            var r: nat :| r < numBlanks;
            k := blanks[r];
          } else {
            LeastBelow(entries[..], k);
            if canAppend { evicted := evicted + [entries[k]]; }
          }
          SoundName(entries[k]);
          FoundAgainIff(entries[k], name, now);
          entries[k] := NewEntry(entries[k], name, now);
          slot := Some(k);
          InsertKeepsUnique(es, k, name, now);
          assert entries[..] == es[k := entries[k]];
        }
      } else {
        UpdateKeepsUnique(es, entries[..], name, now);
      }
    }
  }

  /** What the scan has done to the first records. */
  ghost predicate Scanned(was: seq<Entry>, fs: seq<Entry>, name: seq<byte>, now: nat, isNew: bool) {
    |fs| <= |was| && Updated(was[..|fs|], fs, name, now) && (isNew <==> !Known(was[..|fs|], name))
  }

  /** The least used of the first i records; the start value of the count is above all. */
  ghost predicate LeastSoFar(was: seq<Entry>, i: nat, k: nat, count: nat) {
    && i <= |was|
    && (i == 0 ==> count == 0x7FFF_FFFF)
    && (i > 0 ==> k < i && count == was[k].launchCount && forall j :: 0 <= j < i ==> count <= was[j].launchCount)
  }

  lemma NothingScanned(was: seq<Entry>, name: seq<byte>, now: nat)
    ensures Scanned(was, [], name, now, true) && LeastSoFar(was, 0, 0, 0x7FFF_FFFF)
  {
  }

  lemma ScanNext(was: seq<Entry>, fs: seq<Entry>, f: Entry, name: seq<byte>, now: nat, wasNew: bool)
    requires |fs| < |was| && Scanned(was, fs, name, now, wasNew)
    requires var e := was[|fs|]; if Matches(e, name) then Launched(e, f, now) else f == e
    ensures Scanned(was, fs + [f], name, now, wasNew && !Matches(was[|fs|], name))
  {
    hide Matches, Launched;
    var es, e := was[..|fs|], was[|fs|];
    assert was[..|fs| + 1] == es + [e];
    if Known(es, name) {
      var i :| 0 <= i < |es| && Matches(es[i], name);
      assert Matches((es + [e])[i], name);
    }
    assert (es + [e])[|es|] == e;
  }

  lemma LeastNext(was: seq<Entry>, i: nat, k: nat, count: nat)
    requires LeastSoFar(was, i, k, count) && i < |was| && Sound(was[i])
    ensures var c := was[i].launchCount;
      && (c <= count ==> LeastSoFar(was, i + 1, i, c))
      && (count <= c ==> LeastSoFar(was, i + 1, k, count))
  {
    CountBelow(was[i]);
  }

  lemma ScanEnds(was: seq<Entry>, fs: seq<Entry>, name: seq<byte>, now: nat, isNew: bool, k: nat, count: nat)
    requires |fs| == |was| > 0 && Scanned(was, fs, name, now, isNew) && LeastSoFar(was, |was|, k, count)
    ensures Updated(was, fs, name, now) && (isNew <==> !Known(was, name)) && (isNew ==> Least(fs, k))
  {
    hide Matches, Launched;
    assert was[..|fs|] == was;
    UpdatedUnknown(was, fs, name, now);
  }

  lemma UpdatedUnknown(es: seq<Entry>, fs: seq<Entry>, name: seq<byte>, now: nat)
    requires Updated(es, fs, name, now)
    ensures !Known(es, name) ==> fs == es
  {
  }

  lemma CountBelow(e: Entry)
    requires Sound(e)
    ensures e.launchCount <= 63
  {
  }

  lemma FullNext(es: seq<Entry>, e: Entry)
    ensures Full(es + [e]) <==> Full(es) && !Blank(e) && e.shift == 7
    ensures HasBlank(es + [e]) <==> HasBlank(es) || Blank(e)
  {
    hide Blank;
    var fs := es + [e];
    assert fs[|es|] == e;
    if Full(fs) {
      forall i | 0 <= i < |es| ensures !Blank(es[i]) && es[i].shift == 7 { assert fs[i] == es[i]; }
    }
    if HasBlank(es) {
      var i :| 0 <= i < |es| && Blank(es[i]);
      assert Blank(fs[i]);
    }
  }

  lemma LeastBelow(es: seq<Entry>, k: nat)
    requires Least(es, k)
    ensures k < |es|
  {
  }

  lemma SoundName(e: Entry)
    requires Sound(e)
    ensures |e.name| == NAME_SIZE
  {
  }

  lemma UpdateKeepsUnique(es: seq<Entry>, fs: seq<Entry>, name: seq<byte>, now: nat)
    requires Updated(es, fs, name, now)
    ensures Unique(es) ==> Unique(fs)
  {
    hide Matches, CStr;
    forall i | 0 <= i < |es| ensures fs[i].name == es[i].name {
      assert if Matches(es[i], name) then Launched(es[i], fs[i], now) else fs[i] == es[i];
    }
  }

  lemma InsertKeepsUnique(es: seq<Entry>, k: nat, name: seq<byte>, now: nat)
    requires AllSound(es) && k < |es| && !Known(es, name) && Text(name) && name != []
    ensures |es[k].name| == NAME_SIZE
    ensures Unique(es) && |name| <= 15 ==> Unique(es[k := NewEntry(es[k], name, now)])
  {
    hide Sound, Blank, Matches, NewEntry, CStr;
    SoundName(es[k]);
    FoundAgainIff(es[k], name, now);
    forall i | 0 <= i < |es| ensures CStr(es[i].name) != name { MatchesIff(es[i], name); }
  }

  lemma RecordedKeeps(es: seq<Entry>, fs: seq<Entry>, name: seq<byte>, now: nat, slot: Option<nat>)
    requires AllSound(es) && Text(name) && name != [] && Recorded(es, fs, name, now, slot)
    ensures AllSound(fs) && |fs| == |es|
    ensures Unique(es) && |name| <= 15 ==> Unique(fs)
  {
    hide Sound, Blank, Matches, Launched, NewEntry, Unique, Full, HasBlank, Least;
    if Known(es, name) {
      UpdateKeepsUnique(es, fs, name, now);
      forall i | 0 <= i < |es| ensures Sound(fs[i]) {
        MatchesIff(es[i], name);
        if Matches(es[i], name) { LaunchedStaysSound(es[i], fs[i], now); }
      }
    } else if slot.Some? {
      InsertKeepsUnique(es, slot.value, name, now);
      FoundAgainIff(es[slot.value], name, now);
    }
  }

  /** Every history grown from an empty one by titles of 1 to 15 characters: names stay
      unique, no count passes 63, and every mask has the bits its count has earned. */
  lemma {:induction false} HistoriesAreSound(
    hs: seq<seq<Entry>>, names: seq<seq<byte>>, dates: seq<nat>, slots: seq<Option<nat>>)
    requires |hs| == |names| + 1 == |dates| + 1 == |slots| + 1
    requires forall i :: 0 <= i < |hs[0]| ==> Blank(hs[0][i]) && Sound(hs[0][i])
    requires forall k :: 0 <= k < |names| ==> Text(names[k]) && 1 <= |names[k]| <= 15
    requires forall k, j :: 0 <= k < |names| && j == k + 1 ==> Recorded(hs[k], hs[j], names[k], dates[k], slots[k])
    ensures AllSound(hs[|names|]) && Unique(hs[|names|]) && |hs[|names|]| == |hs[0]|
    decreases |names|
  {
    hide Sound, Recorded;
    if names != [] {
      var n := |names| - 1;
      HistoriesAreSound(hs[..n + 1], names[..n], dates[..n], slots[..n]);
      RecordedKeeps(hs[n], hs[n + 1], names[n], dates[n], slots[n]);
    }
  }
}
