/** include/utf8.h: the table-driven UTF-8 decoder against RFC 3629. */
module Utf8 {
  import opened Bytes

  const ACCEPT := 0
  const REJECT := 1

  // ---------------------------------------------------------------------------
  // The table
  // ---------------------------------------------------------------------------

  const ZEROS: seq<nat> := [
    0, 0, 0, 0, 0, 0, 0, 0, 0, 0, 0, 0, 0, 0, 0, 0, 0, 0, 0, 0, 0, 0, 0, 0, 0, 0, 0, 0, 0, 0, 0, 0]
  const FROM_80: seq<nat> := [
    1, 1, 1, 1, 1, 1, 1, 1, 1, 1, 1, 1, 1, 1, 1, 1, 9, 9, 9, 9, 9, 9, 9, 9, 9, 9, 9, 9, 9, 9, 9, 9]
  const FROM_A0: seq<nat> := [
    7, 7, 7, 7, 7, 7, 7, 7, 7, 7, 7, 7, 7, 7, 7, 7, 7, 7, 7, 7, 7, 7, 7, 7, 7, 7, 7, 7, 7, 7, 7, 7]
  const FROM_C0: seq<nat> := [
    8, 8, 2, 2, 2, 2, 2, 2, 2, 2, 2, 2, 2, 2, 2, 2, 2, 2, 2, 2, 2, 2, 2, 2, 2, 2, 2, 2, 2, 2, 2, 2]
  const FROM_E0: seq<nat> := [
    0xa, 0x3, 0x3, 0x3, 0x3, 0x3, 0x3, 0x3, 0x3, 0x3, 0x3, 0x3, 0x3, 0x4, 0x3, 0x3,
    0xb, 0x6, 0x6, 0x6, 0x5, 0x8, 0x8, 0x8, 0x8, 0x8, 0x8, 0x8, 0x8, 0x8, 0x8, 0x8]
  const STATE_0: seq<nat> := [0x0, 0x1, 0x2, 0x3, 0x5, 0x8, 0x7, 0x1, 0x1, 0x1, 0x4, 0x6, 0x1, 0x1, 0x1, 0x1]
  const STATES_1_2: seq<nat> := [
    1, 1, 1, 1, 1, 1, 1, 1, 1, 1, 1, 1, 1, 1, 1, 1, 1, 0, 1, 1, 1, 1, 1, 0, 1, 0, 1, 1, 1, 1, 1, 1]
  const STATES_3_4: seq<nat> := [
    1, 2, 1, 1, 1, 1, 1, 2, 1, 2, 1, 1, 1, 1, 1, 1, 1, 1, 1, 1, 1, 1, 1, 2, 1, 1, 1, 1, 1, 1, 1, 1]
  const STATES_5_6: seq<nat> := [
    1, 2, 1, 1, 1, 1, 1, 1, 1, 2, 1, 1, 1, 1, 1, 1, 1, 1, 1, 1, 1, 1, 1, 3, 1, 3, 1, 1, 1, 1, 1, 1]
  const STATES_7_8: seq<nat> := [
    1, 3, 1, 1, 1, 1, 1, 3, 1, 3, 1, 1, 1, 1, 1, 1, 1, 3, 1, 1, 1, 1, 1, 1, 1, 1, 1, 1, 1, 1, 1, 1]

  /** utf8d: 256 byte classes, then 16 successors for each of nine states. */
  const UTF8D: seq<nat> :=
    ZEROS + ZEROS + ZEROS + ZEROS + FROM_80 + FROM_A0 + FROM_C0 + FROM_E0
    + STATE_0 + STATES_1_2 + STATES_3_4 + STATES_5_6 + STATES_7_8

  /** The class the table gives a byte. */
  function Class(b: byte): nat {
    if b < 0x80 then 0 else if b < 0x90 then 1 else if b < 0xA0 then 9 else if b < 0xC0 then 7
    else if b < 0xC2 then 8 else if b < 0xE0 then 2 else if b == 0xE0 then 10 else if b == 0xED then 4
    else if b < 0xF0 then 3 else if b == 0xF0 then 11 else if b < 0xF4 then 6 else if b == 0xF4 then 5 else 8
  }

  /** The state the table gives from a state on a class. */
  function Successor(s: nat, t: nat): nat {
    match s
    case 0 =>
      (match t
       case 0 => 0 case 2 => 2 case 3 => 3 case 4 => 5 case 5 => 8
       case 6 => 7 case 10 => 4 case 11 => 6 case _ => 1)
    case 2 => if t == 1 || t == 7 || t == 9 then 0 else 1
    case 3 => if t == 1 || t == 7 || t == 9 then 2 else 1
    case 4 => if t == 7 then 2 else 1
    case 5 => if t == 1 || t == 9 then 2 else 1
    case 6 => if t == 7 || t == 9 then 3 else 1
    case 7 => if t == 1 || t == 7 || t == 9 then 3 else 1
    case 8 => if t == 1 then 3 else 1
    case _ => 1
  }

  lemma ZerosIs(i: nat)
    requires i < 32
    ensures ZEROS[i] == 0
  {
  }

  lemma From80Is(i: nat)
    requires i < 32
    ensures FROM_80[i] == Class(0x80 + i)
  {
  }

  lemma FromA0Is(i: nat)
    requires i < 32
    ensures FROM_A0[i] == 7
  {
  }

  lemma FromC0Is(i: nat)
    requires i < 32
    ensures FROM_C0[i] == Class(0xC0 + i)
  {
  }

  lemma FromE0Is(i: nat)
    requires i < 32
    ensures FROM_E0[i] == Class(0xE0 + i)
  {
  }

  lemma State0Is(i: nat)
    requires i < 16
    ensures STATE_0[i] == Successor(0, i)
  {
  }

  lemma States12Is(i: nat)
    requires i < 32
    ensures STATES_1_2[i] == if i < 16 then 1 else Successor(2, i - 16)
  {
  }

  lemma States34Is(i: nat)
    requires i < 32
    ensures STATES_3_4[i] == Successor(if i < 16 then 3 else 4, i % 16)
  {
  }

  lemma States56Is(i: nat)
    requires i < 32
    ensures STATES_5_6[i] == Successor(if i < 16 then 5 else 6, i % 16)
  {
  }

  lemma States78Is(i: nat)
    requires i < 32
    ensures STATES_7_8[i] == Successor(if i < 16 then 7 else 8, i % 16)
  {
  }

  lemma RowLengths()
    ensures |ZEROS| == |FROM_80| == |FROM_A0| == |FROM_C0| == |FROM_E0| == 32
    ensures |STATE_0| == 16 && |STATES_1_2| == |STATES_3_4| == |STATES_5_6| == |STATES_7_8| == 32
  {
  }

  lemma ClassIs(b: byte)
    ensures |UTF8D| == 400 && UTF8D[b] == Class(b)
  {
    hide ZEROS, FROM_80, FROM_A0, FROM_C0, FROM_E0, STATE_0, STATES_1_2, STATES_3_4, STATES_5_6, STATES_7_8;
    RowLengths();
    if b < 0x80 {
      ZerosIs(b % 32);
    } else if b < 0xA0 {
      From80Is(b - 0x80);
    } else if b < 0xC0 {
      FromA0Is(b - 0xA0);
    } else if b < 0xE0 {
      FromC0Is(b - 0xC0);
    } else {
      FromE0Is(b - 0xE0);
    }
  }

  lemma SuccessorIs(s: nat, t: nat)
    requires s < 9 && t < 12
    ensures |UTF8D| == 400 && UTF8D[256 + s * 16 + t] == Successor(s, t)
  {
    hide ZEROS, FROM_80, FROM_A0, FROM_C0, FROM_E0, STATE_0, STATES_1_2, STATES_3_4, STATES_5_6, STATES_7_8;
    RowLengths();
    if s == 0 { State0Is(t); }
    else if s <= 2 { States12Is((s - 1) * 16 + t); }
    else if s <= 4 { States34Is((s - 3) * 16 + t); }
    else if s <= 6 { States56Is((s - 5) * 16 + t); }
    else { States78Is((s - 7) * 16 + t); }
  }

  // ---------------------------------------------------------------------------
  // The decoder
  // ---------------------------------------------------------------------------

  datatype Status = Status(state: nat, codep: nat)

  /** 0xff >> t keeps this many values of a byte: 0xff >> t is one less. */
  function Kept(t: nat): (m: nat)
    ensures m >= 1
  {
    match t
    case 0 => 256 case 1 => 128 case 2 => 64 case 3 => 32
    case 4 => 16 case 5 => 8 case 6 => 4 case 7 => 2 case _ => 1
  }

  /** utf8Decode in closed form. */
  function Step(st: Status, b: byte): Status {
    var t := Class(b);
    Status(Successor(st.state, t),
           if st.state != ACCEPT then b % 64 + st.codep * 64 % TWO_32 else b % Kept(t))
  }

  /** The decoder after all of s, and the code points seen at accepting steps. */
  function Run(st: Status, s: seq<byte>): Status
    decreases |s|
  {
    if s == [] then st else Run(Step(st, s[0]), s[1..])
  }

  function Seen(st: Status, s: seq<byte>): seq<nat>
    decreases |s|
  {
    if s == [] then []
    else
      var n := Step(st, s[0]);
      SeenAt(n) + Seen(n, s[1..])
  }

  function SeenAt(st: Status): seq<nat> { if st.state == ACCEPT then [st.codep] else [] }

  const START := Status(ACCEPT, 0)

  class Decoder {
    var state: nat
    var codep: nat

    ghost predicate Valid()
      reads this
    {
      state < 9 && codep < TWO_32
    }

    ghost function Now(): Status
      reads this
    {
      Status(state, codep)
    }

    constructor ()
      ensures Valid() && Now() == START
    {
      state, codep := ACCEPT, 0;
    }

    method Decode(b: byte) returns (s: nat)
      requires Valid()
      modifies this
      ensures Valid() && Now() == Step(old(Now()), b) && s == state
    {
      ClassIs(b);
      ClassBelow(b);
      var t := UTF8D[b];
      codep := if state != ACCEPT then b % 64 + codep * 64 % TWO_32 else b % Kept(t);
      SuccessorIs(state, t);
      CodepFits(old(codep), b);
      state := UTF8D[256 + state * 16 + t];
      return state;
    }
  }

  lemma ClassBelow(b: byte)
    ensures Class(b) < 12
    ensures forall s :: Successor(s, Class(b)) < 9
  {
  }

  /** The six new bits fit into the room the shift left. */
  lemma CodepFits(c: nat, b: byte)
    ensures b % 64 + c * 64 % TWO_32 < TWO_32
  {
    var q := c * 64 % TWO_32;
    assert q % 64 == 0 by { assert c * 64 == c * 64 / TWO_32 * TWO_32 + q; }
  }

  /** The loop of fntRenderString: decode up to the terminator, act at accepting steps. */
  method CodePoints(text: seq<byte>) returns (seen: seq<nat>, state: nat)
    ensures seen == Seen(START, CStr(text)) && state == Run(START, CStr(text)).state
  {
    var d := new Decoder();
    hide Step, CStr;
    ghost var s := CStr(text);
    var i := 0;
    seen := [];
    while i < |text| && text[i] != 0
      invariant i <= |s| && d.Valid()
      invariant Run(d.Now(), s[i..]) == Run(START, s)
      invariant seen + Seen(d.Now(), s[i..]) == Seen(START, s)
    {
      assert s[i] == text[i] && s[i..][1..] == s[i + 1..];
      var rejected := d.Decode(text[i]);
      if rejected == ACCEPT {
        seen := seen + [d.codep];
      }
      i := i + 1;
    }
    assert s[i..] == [];
    state := d.state;
  }

  // ---------------------------------------------------------------------------
  // RFC 3629
  // ---------------------------------------------------------------------------

  predicate Tail(b: byte) { 0x80 <= b <= 0xBF }

  /** One character, by the grammar of section 4 of RFC 3629. */
  predicate IsChar(c: seq<byte>) {
    || (|c| == 1 && c[0] <= 0x7F)
    || (|c| == 2 && 0xC2 <= c[0] <= 0xDF && Tail(c[1]))
    || (|c| == 3 && c[0] == 0xE0 && 0xA0 <= c[1] <= 0xBF && Tail(c[2]))
    || (|c| == 3 && 0xE1 <= c[0] <= 0xEC && Tail(c[1]) && Tail(c[2]))
    || (|c| == 3 && c[0] == 0xED && 0x80 <= c[1] <= 0x9F && Tail(c[2]))
    || (|c| == 3 && 0xEE <= c[0] <= 0xEF && Tail(c[1]) && Tail(c[2]))
    || (|c| == 4 && c[0] == 0xF0 && 0x90 <= c[1] <= 0xBF && Tail(c[2]) && Tail(c[3]))
    || (|c| == 4 && 0xF1 <= c[0] <= 0xF3 && Tail(c[1]) && Tail(c[2]) && Tail(c[3]))
    || (|c| == 4 && c[0] == 0xF4 && 0x80 <= c[1] <= 0x8F && Tail(c[2]) && Tail(c[3]))
  }

  /** Six more bits, from a continuation byte. */
  function Shift(n: nat, b: byte): nat
    requires b >= 0x80
  {
    n * 0x40 + (b as int - 0x80)
  }

  /** The character number of a sequence, by the table of section 3. */
  function Number(c: seq<byte>): nat
    requires IsChar(c)
  {
    if |c| == 1 then c[0]
    else if |c| == 2 then Shift(c[0] as int - 0xC0, c[1])
    else if |c| == 3 then Shift(Shift(c[0] as int - 0xE0, c[1]), c[2])
    else Shift(Shift(Shift(c[0] as int - 0xF0, c[1]), c[2]), c[3])
  }

  predicate Scalar(n: nat) { n <= 0x10FFFF && !(0xD800 <= n <= 0xDFFF) }

  /** The encoding of section 3: six bits to a byte, the last bits last. */
  function Encode(n: nat): seq<byte>
    requires Scalar(n)
  {
    var p, q, r := n / 0x40, n / 0x40 / 0x40, n / 0x40 / 0x40 / 0x40;
    if n < 0x80 then [n]
    else if n < 0x800 then [0xC0 + p, 0x80 + n % 0x40]
    else if n < 0x10000 then [0xE0 + q, 0x80 + p % 0x40, 0x80 + n % 0x40]
    else [0xF0 + r, 0x80 + q % 0x40, 0x80 + p % 0x40, 0x80 + n % 0x40]
  }

  function Concat(cs: seq<seq<byte>>): seq<byte> {
    if cs == [] then [] else cs[0] + Concat(cs[1..])
  }

  ghost predicate AllChars(cs: seq<seq<byte>>) { forall i :: 0 <= i < |cs| ==> IsChar(cs[i]) }

  /** A concatenation of well-formed sequences. */
  ghost predicate WellFormed(s: seq<byte>) { exists cs :: AllChars(cs) && Concat(cs) == s }

  ghost function Numbers(cs: seq<seq<byte>>): seq<nat>
    requires AllChars(cs)
  {
    if cs == [] then [] else [Number(cs[0])] + Numbers(cs[1..])
  }

  // ---------------------------------------------------------------------------
  // Characters
  // ---------------------------------------------------------------------------

  /** Sections 3 and 4 agree: encoding a scalar value gives a well-formed sequence with
      that number, and every well-formed sequence is the encoding of its number. */
  lemma EncodeNumber(n: nat)
    requires Scalar(n)
    ensures IsChar(Encode(n)) && Number(Encode(n)) == n
  {
  }

  lemma NumberEncode(c: seq<byte>)
    requires IsChar(c)
    ensures Scalar(Number(c)) && Encode(Number(c)) == c
  {
    hide Shift;
    if |c| == 2 {
      var p := Unshift(c[0] as int - 0xC0, c[1]);
    } else if |c| == 3 {
      var p := Unshift(c[0] as int - 0xE0, c[1]);
      var q := Unshift(p, c[2]);
    } else if |c| == 4 {
      var p := Unshift(c[0] as int - 0xF0, c[1]);
      var q := Unshift(p, c[2]);
      var r := Unshift(q, c[3]);
    }
  }

  lemma Unshift(n: nat, b: byte) returns (m: nat)
    requires Tail(b)
    ensures m == Shift(n, b) == n * 0x40 + (b as int - 0x80) && m / 0x40 == n && 0x80 + m % 0x40 == b as int
  {
    m := Shift(n, b);
  }

  lemma {:induction false} RunSplits(st: Status, s: seq<byte>, t: seq<byte>)
    ensures Run(st, s + t) == Run(Run(st, s), t)
    ensures Seen(st, s + t) == Seen(st, s) + Seen(Run(st, s), t)
    decreases |s|
  {
    if s == [] {
      assert s + t == t;
    } else {
      assert (s + t)[0] == s[0] && (s + t)[1..] == s[1..] + t;
      RunSplits(Step(st, s[0]), s[1..], t);
    }
  }

  lemma Unroll(st: Status, s: seq<byte>)
    ensures s == [] ==> Run(st, s) == st && Seen(st, s) == []
    ensures s != [] ==> Run(st, s) == Run(Step(st, s[0]), s[1..])
    ensures s != [] ==> Seen(st, s) == SeenAt(Step(st, s[0])) + Seen(Step(st, s[0]), s[1..])
  {
  }

  lemma LeadByte(st: Status, c: seq<byte>)
    requires IsChar(c) && st.state == ACCEPT
    ensures var n := Step(st, c[0]);
      && (|c| == 1 ==> n == Status(ACCEPT, c[0]))
      && (|c| == 2 ==> n == Status(2, c[0] as int - 0xC0))
      && (|c| > 2 ==> n.state != ACCEPT)
  {
  }

  /** After the second byte of a longer character, continuation bytes are free. */
  lemma SecondByte(st: Status, c: seq<byte>)
    requires IsChar(c) && |c| > 2 && st.state == ACCEPT
    ensures |c| == 3 ==> Step(Step(st, c[0]), c[1]) == Status(2, Shift(c[0] as int - 0xE0, c[1]))
    ensures |c| == 4 ==> Step(Step(st, c[0]), c[1]) == Status(3, Shift(c[0] as int - 0xF0, c[1]))
  {
    var n := Step(st, c[0]);
    if |c| == 3 {
      assert n.codep == c[0] as int - 0xE0;
    } else {
      assert n.codep == c[0] as int - 0xF0;
    }
  }

  lemma Continues(st: Status, b: byte)
    requires st.state in {2, 3} && Tail(b) && st.codep < 0x8000
    ensures Step(st, b) == Status(if st.state == 2 then ACCEPT else 2, Shift(st.codep, b))
  {
  }

  /** A character takes the decoder from accepting to accepting, and the only code point
      seen on the way is its number. */
  lemma CharAccepted(st: Status, c: seq<byte>)
    requires IsChar(c) && st.state == ACCEPT
    ensures Run(st, c) == Status(ACCEPT, Number(c)) && Seen(st, c) == [Number(c)]
  {
    hide Run, Seen, Step, Class, Successor;
    LeadByte(st, c);
    var s1 := Step(st, c[0]);
    Unroll(st, c);
    Unroll(s1, c[1..]);
    if |c| > 1 {
      var s2 := Step(s1, c[1]);
      if |c| > 2 {
        SecondByte(st, c);
      } else {
        Continues(s1, c[1]);
      }
      Unroll(s2, c[1..][1..]);
      if |c| > 2 {
        var s3 := Step(s2, c[2]);
        Continues(s2, c[2]);
        Unroll(s3, c[1..][1..][1..]);
        if |c| > 3 {
          Continues(s3, c[3]);
          Unroll(Step(s3, c[3]), c[1..][1..][1..][1..]);
        }
      }
    }
  }

  /** Nothing leads out of REJECT. */
  lemma {:induction false} RejectStays(st: Status, s: seq<byte>)
    requires st.state == REJECT
    ensures Run(st, s).state == REJECT && Seen(st, s) == []
    decreases |s|
  {
    if s != [] { RejectStays(Step(st, s[0]), s[1..]); }
  }

  /** Between characters the decoder waits for one to three continuation bytes. */
  lemma Waits(st: Status, s: seq<byte>)
    requires Run(st, s).state == ACCEPT && st.state in {2, 3, 7}
    ensures |s| >= (match st.state case 2 => 1 case 3 => 2 case _ => 3)
    ensures Tail(s[0]) && (st.state != 2 ==> Tail(s[1])) && (st.state == 7 ==> Tail(s[2]))
    decreases st.state
  {
    var n := Step(st, s[0]);
    if n.state == REJECT { RejectStays(n, s[1..]); }
    if st.state != 2 {
      assert n.state == if st.state == 3 then 2 else 3;
      Waits(n, s[1..]);
    }
  }

  /** A string that starts and ends accepting starts with a character. */
  lemma AcceptedStart(st: Status, s: seq<byte>) returns (n: nat)
    requires s != [] && st.state == ACCEPT && Run(st, s).state == ACCEPT
    ensures 1 <= n <= |s| && IsChar(s[..n])
  {
    var s1 := Step(st, s[0]);
    if s1.state == REJECT { RejectStays(s1, s[1..]); }
    if s1.state == ACCEPT { n := 1; }
    else if s1.state in {2, 3, 7} {
      Waits(s1, s[1..]);
      n := match s1.state case 2 => 2 case 3 => 3 case _ => 4;
    } else {
      assert s[1..] != [];
      var s2 := Step(s1, s[1]);
      assert Run(s1, s[1..]) == Run(s2, s[1..][1..]);
      if s2.state == REJECT { RejectStays(s2, s[1..][1..]); }
      Waits(s2, s[1..][1..]);
      n := if s2.state == 2 then 3 else 4;
    }
  }

  // ---------------------------------------------------------------------------
  // The main results
  // ---------------------------------------------------------------------------

  lemma {:induction false} CharsAccepted(st: Status, cs: seq<seq<byte>>)
    requires AllChars(cs) && st.state == ACCEPT
    ensures Run(st, Concat(cs)).state == ACCEPT && Seen(st, Concat(cs)) == Numbers(cs)
    decreases |cs|
  {
    hide Step, IsChar, Number;
    if cs != [] {
      CharAccepted(st, cs[0]);
      RunSplits(st, cs[0], Concat(cs[1..]));
      CharsAccepted(Run(st, cs[0]), cs[1..]);
    }
  }

  lemma {:induction false} AcceptedSplits(st: Status, s: seq<byte>) returns (cs: seq<seq<byte>>)
    requires st.state == ACCEPT && Run(st, s).state == ACCEPT
    ensures AllChars(cs) && Concat(cs) == s
    decreases |s|
  {
    hide Step, IsChar, Number;
    if s == [] {
      cs := [];
    } else {
      var n := AcceptedStart(st, s);
      CharAccepted(st, s[..n]);
      assert s[..n] + s[n..] == s;
      RunSplits(st, s[..n], s[n..]);
      var rest := AcceptedSplits(Run(st, s[..n]), s[n..]);
      cs := [s[..n]] + rest;
      assert cs[1..] == rest;
    }
  }

  /** The decoder accepts exactly the concatenations of well-formed sequences. */
  lemma AcceptedIff(s: seq<byte>)
    ensures Run(START, s).state == ACCEPT <==> WellFormed(s)
  {
    if Run(START, s).state == ACCEPT {
      var cs := AcceptedSplits(START, s);
    }
    if WellFormed(s) {
      var cs :| AllChars(cs) && Concat(cs) == s;
      CharsAccepted(START, cs);
    }
  }

  /** Bytes that finish the character a state is waiting for. */
  function Completion(state: nat): seq<byte> {
    match state
    case 2 => [0x80] case 3 => [0x80, 0x80] case 4 => [0xA0, 0x80] case 5 => [0x80, 0x80]
    case 6 => [0x90, 0x80, 0x80] case 7 => [0x80, 0x80, 0x80] case 8 => [0x80, 0x80, 0x80] case _ => []
  }

  lemma Completes(st: Status)
    requires st.state < 9 && st.state != REJECT
    ensures Run(st, Completion(st.state)).state == ACCEPT
    decreases |Completion(st.state)|
  {
    var c := Completion(st.state);
    if c != [] {
      var n := Step(st, c[0]);
      Unroll(st, c);
      if |c| == 1 {
        Unroll(n, c[1..]);
      } else {
        assert c[1..] == Completion(n.state);
        Completes(n);
      }
    }
  }

  lemma {:induction false} StatesBelow(st: Status, s: seq<byte>)
    requires st.state < 9
    ensures Run(st, s).state < 9
    decreases |s|
  {
    if s != [] {
      ClassBelow(s[0]);
      StatesBelow(Step(st, s[0]), s[1..]);
    }
  }

  /** It rejects as soon as, and only when, no continuation can be well-formed. */
  lemma RejectedIff(s: seq<byte>)
    ensures Run(START, s).state != REJECT <==> exists t :: WellFormed(s + t)
  {
    var st := Run(START, s);
    if st.state != REJECT {
      StatesBelow(START, s);
      Completes(st);
      var t := Completion(st.state);
      RunSplits(START, s, t);
      AcceptedIff(s + t);
    }
    if exists t :: WellFormed(s + t) {
      var t :| WellFormed(s + t);
      AcceptedIff(s + t);
      RunSplits(START, s, t);
      if st.state == REJECT { RejectStays(st, t); }
    }
  }

  function EncodeAll(ns: seq<nat>): seq<byte>
    requires forall i :: 0 <= i < |ns| ==> Scalar(ns[i])
  {
    if ns == [] then [] else Encode(ns[0]) + EncodeAll(ns[1..])
  }

  /** Decoding inverts encoding, for every sequence of scalar values. */
  lemma {:induction false} DecodeEncode(st: Status, ns: seq<nat>)
    requires st.state == ACCEPT && forall i :: 0 <= i < |ns| ==> Scalar(ns[i])
    ensures Run(st, EncodeAll(ns)).state == ACCEPT && Seen(st, EncodeAll(ns)) == ns
    decreases |ns|
  {
    hide Step, IsChar, Number, Encode, Scalar;
    if ns != [] {
      EncodeNumber(ns[0]);
      CharAccepted(st, Encode(ns[0]));
      RunSplits(st, Encode(ns[0]), EncodeAll(ns[1..]));
      DecodeEncode(Run(st, Encode(ns[0])), ns[1..]);
    }
  }

  /** Encoding inverts decoding, for every well-formed string. */
  lemma EncodeDecode(s: seq<byte>)
    requires WellFormed(s)
    ensures forall i :: 0 <= i < |Seen(START, s)| ==> Scalar(Seen(START, s)[i])
    ensures EncodeAll(Seen(START, s)) == s
  {
    var cs :| AllChars(cs) && Concat(cs) == s;
    CharsAccepted(START, cs);
    EncodeNumbers(cs);
  }

  lemma {:induction false} EncodeNumbers(cs: seq<seq<byte>>)
    requires AllChars(cs)
    ensures forall i :: 0 <= i < |Numbers(cs)| ==> Scalar(Numbers(cs)[i])
    ensures EncodeAll(Numbers(cs)) == Concat(cs)
  {
    hide IsChar, Number, Encode, Scalar;
    if cs != [] {
      NumberEncode(cs[0]);
      EncodeNumbers(cs[1..]);
    }
  }

  /** Of any byte string, the code points seen are those of its longest well-formed
      prefix. */
  lemma {:induction false} SeenOfAnyString(s: seq<byte>) returns (k: nat)
    ensures k <= |s| && WellFormed(s[..k]) && Seen(START, s) == Seen(START, s[..k])
    ensures forall j :: k < j <= |s| ==> !WellFormed(s[..j])
    decreases |s|
  {
    hide Run, Seen, Step, WellFormed, UTF8D;
    AcceptedIff(s);
    Unroll(START, s);
    if Run(START, s).state == ACCEPT {
      k := |s|;
      assert s[..k] == s;
    } else {
      var t := s[..|s| - 1];
      k := SeenOfAnyString(t);
      assert t + [s[|s| - 1]] == s;
      RunSplits(START, t, [s[|s| - 1]]);
      SeenLast(Run(START, t), s[|s| - 1]);
      assert t[..k] == s[..k];
      forall j | k < j <= |s| ensures !WellFormed(s[..j]) {
        if j < |s| { assert s[..j] == t[..j]; } else { assert s[..j] == s; }
      }
    }
  }

  lemma SeenLast(st: Status, b: byte)
    ensures Run(st, [b]) == Step(st, b)
    ensures Seen(st, [b]) == if Run(st, [b]).state == ACCEPT then [Step(st, b).codep] else []
  {
  }
}
