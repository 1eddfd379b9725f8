/** strcasecmp, and the one order in which a stable sort by title puts a list. */
module TitleOrder {

  /** tolower in the C locale. */
  function Lower(c: char): char { if 'A' <= c <= 'Z' then c - 'A' + 'a' else c }

  /** The sign of strcasecmp: characters are compared until they differ or a string ends. */
  function CaseCmp(a: string, b: string): int {
    if a == [] && b == [] then 0
    else if a == [] then -1
    else if b == [] then 1
    else if Lower(a[0]) < Lower(b[0]) then -1
    else if Lower(a[0]) > Lower(b[0]) then 1
    else CaseCmp(a[1..], b[1..])
  }

  lemma {:induction false} CmpAntisymmetric(a: string, b: string)
    ensures CaseCmp(a, b) == -CaseCmp(b, a)
  {
    if a != [] && b != [] && Lower(a[0]) == Lower(b[0]) { CmpAntisymmetric(a[1..], b[1..]); }
  }

  lemma {:induction false} CmpTransitive(a: string, b: string, c: string)
    requires CaseCmp(a, b) <= 0 && CaseCmp(b, c) <= 0
    ensures CaseCmp(a, c) <= 0
    ensures CaseCmp(a, b) < 0 || CaseCmp(b, c) < 0 ==> CaseCmp(a, c) < 0
  {
    if a != [] && b != [] && c != [] && Lower(a[0]) == Lower(b[0]) && Lower(b[0]) == Lower(c[0]) {
      CmpTransitive(a[1..], b[1..], c[1..]);
    }
  }

  /** Titles differ only in case exactly when neither is smaller. */
  lemma {:induction false} CmpZeroIff(a: string, b: string)
    ensures CaseCmp(a, b) == 0 <==> |a| == |b| && forall i :: 0 <= i < |a| ==> Lower(a[i]) == Lower(b[i])
  {
    if a != [] && b != [] {
      CmpZeroIff(a[1..], b[1..]);
      if |a| == |b| && Lower(a[0]) == Lower(b[0]) {
        if forall i :: 0 <= i < |a| - 1 ==> Lower(a[1..][i]) == Lower(b[1..][i]) {
          forall i | 0 <= i < |a| ensures Lower(a[i]) == Lower(b[i]) {
            if i > 0 { assert a[i] == a[1..][i - 1] && b[i] == b[1..][i - 1]; }
          }
        } else {
          var i :| 0 <= i < |a| - 1 && Lower(a[1..][i]) != Lower(b[1..][i]);
          assert Lower(a[i + 1]) != Lower(b[i + 1]);
        }
      }
    }
  }

  // ---------------------------------------------------------------------------
  // Stable sorting, on positions
  // ---------------------------------------------------------------------------

  /** Position i belongs before position j: its title is smaller, or equal and i came
      first. */
  predicate Precedes(ts: seq<string>, i: nat, j: nat)
    requires i < |ts| && j < |ts|
  {
    CaseCmp(ts[i], ts[j]) < 0 || (CaseCmp(ts[i], ts[j]) == 0 && i < j)
  }

  lemma PrecedesStrict(ts: seq<string>, i: nat, j: nat)
    requires i < |ts| && j < |ts| && Precedes(ts, i, j)
    ensures !Precedes(ts, j, i) && i != j
  {
    CmpAntisymmetric(ts[i], ts[j]);
  }

  lemma PrecedesTransitive(ts: seq<string>, i: nat, j: nat, k: nat)
    requires i < |ts| && j < |ts| && k < |ts| && Precedes(ts, i, j) && Precedes(ts, j, k)
    ensures Precedes(ts, i, k)
  {
    CmpTransitive(ts[i], ts[j], ts[k]);
  }

  lemma PrecedesTotal(ts: seq<string>, i: nat, j: nat)
    requires i < |ts| && j < |ts| && i != j
    ensures Precedes(ts, i, j) || Precedes(ts, j, i)
  {
    CmpAntisymmetric(ts[i], ts[j]);
  }

  /** A rearrangement of the positions below n. */
  ghost predicate IsPerm(p: seq<nat>, n: nat) {
    && |p| == n
    && (forall i :: 0 <= i < n ==> p[i] < n)
    && (forall i, j :: 0 <= i < j < n ==> p[i] != p[j])
    && (forall v :: 0 <= v < n ==> v in p)
  }

  /** Sorted by title, ties in the old order. */
  ghost predicate InOrder(ts: seq<string>, p: seq<nat>) {
    forall i, j :: 0 <= i < j < |p| ==> p[i] < |ts| && p[j] < |ts| && Precedes(ts, p[i], p[j])
  }

  function Insert(ts: seq<string>, x: nat, p: seq<nat>): seq<nat>
    requires x < |ts| && forall i :: 0 <= i < |p| ==> p[i] < |ts|
  {
    if p == [] || Precedes(ts, x, p[0]) then [x] + p else [p[0]] + Insert(ts, x, p[1..])
  }

  lemma {:induction false} InsertIs(ts: seq<string>, x: nat, p: seq<nat>)
    requires x < |ts| && (forall i :: 0 <= i < |p| ==> p[i] < |ts|) && InOrder(ts, p) && x !in p
    ensures var q := Insert(ts, x, p);
      && multiset(q) == multiset(p) + multiset{x}
      && (forall i :: 0 <= i < |q| ==> q[i] < |ts|)
      && InOrder(ts, q)
  {
    if p == [] {
    } else if Precedes(ts, x, p[0]) {
      var q := [x] + p;
      forall i, j | 0 <= i < j < |q| ensures Precedes(ts, q[i], q[j]) {
        if i == 0 && j > 1 { PrecedesTransitive(ts, x, p[0], p[j - 1]); }
      }
    } else {
      InsertIs(ts, x, p[1..]);
      InsertBehind(ts, x, p);
    }
  }

  lemma InsertMembers(ts: seq<string>, x: nat, p: seq<nat>)
    requires x < |ts| && forall i :: 0 <= i < |p| ==> p[i] < |ts|
    requires multiset(Insert(ts, x, p)) == multiset(p) + multiset{x}
    ensures |Insert(ts, x, p)| == |p| + 1
    ensures forall v :: v in Insert(ts, x, p) <==> v in p || v == x
  {
    hide *;
    var q := Insert(ts, x, p);
    assert |multiset(q)| == |multiset(p)| + 1;
    forall v ensures v in q <==> v in p || v == x { assert v in q <==> v in multiset(q); }
  }

  lemma InsertBehind(ts: seq<string>, x: nat, p: seq<nat>)
    requires x < |ts| && p != [] && (forall i :: 0 <= i < |p| ==> p[i] < |ts|) && InOrder(ts, p) && x !in p
    requires !Precedes(ts, x, p[0])
    requires var q := Insert(ts, x, p[1..]);
      && multiset(q) == multiset(p[1..]) + multiset{x}
      && (forall i :: 0 <= i < |q| ==> q[i] < |ts|)
      && InOrder(ts, q)
    ensures var q := Insert(ts, x, p);
      && multiset(q) == multiset(p) + multiset{x}
      && (forall i :: 0 <= i < |q| ==> q[i] < |ts|)
      && InOrder(ts, q)
  {
    var r := Insert(ts, x, p[1..]);
    assert p == [p[0]] + p[1..];
    PrecedesTotal(ts, x, p[0]);
    InsertMembers(ts, x, p[1..]);
    forall j | 0 <= j < |r| ensures Precedes(ts, p[0], r[j]) {
      assert r[j] in p[1..] || r[j] == x;
    }
    PrependKeeps(ts, p[0], r);
  }

  lemma PrependKeeps(ts: seq<string>, x: nat, p: seq<nat>)
    requires x < |ts| && InOrder(ts, p)
    requires forall i :: 0 <= i < |p| ==> p[i] < |ts| && Precedes(ts, x, p[i])
    ensures InOrder(ts, [x] + p)
  {
    hide Precedes;
  }

  /** The positions from k on, sorted by insertion. */
  function OrderFrom(ts: seq<string>, k: nat): (p: seq<nat>)
    requires k <= |ts|
    ensures forall i :: 0 <= i < |p| ==> p[i] < |ts|
    decreases |ts| - k
  {
    if k == |ts| then [] else
      var rest := OrderFrom(ts, k + 1);
      InsertIn(ts, k, rest);
      Insert(ts, k, rest)
  }

  lemma {:induction false} InsertIn(ts: seq<string>, x: nat, p: seq<nat>)
    requires x < |ts| && forall i :: 0 <= i < |p| ==> p[i] < |ts|
    ensures forall i :: 0 <= i < |Insert(ts, x, p)| ==> Insert(ts, x, p)[i] < |ts|
  {
    if p != [] && !Precedes(ts, x, p[0]) { InsertIn(ts, x, p[1..]); }
  }

  /** The reference: the stable order of the titles. */
  function Order(ts: seq<string>): seq<nat> { OrderFrom(ts, 0) }

  lemma {:induction false} OrderFromIs(ts: seq<string>, k: nat)
    requires k <= |ts|
    ensures var p := OrderFrom(ts, k);
      && InOrder(ts, p) && |p| == |ts| - k
      && (forall v :: v in p <==> k <= v < |ts|)
    decreases |ts| - k
  {
    if k < |ts| {
      OrderFromIs(ts, k + 1);
      var rest := OrderFrom(ts, k + 1);
      InsertIs(ts, k, rest);
      InsertMembers(ts, k, rest);
    }
  }

  lemma OrderIs(ts: seq<string>)
    ensures IsPerm(Order(ts), |ts|) && InOrder(ts, Order(ts))
  {
    OrderFromIs(ts, 0);
    var p := Order(ts);
    forall i, j | 0 <= i < j < |p| ensures p[i] != p[j] { PrecedesStrict(ts, p[i], p[j]); }
  }

  /** There is only one stable order. */
  lemma {:induction false} OrderUnique(ts: seq<string>, p: seq<nat>, q: seq<nat>, k: nat)
    requires IsPerm(p, |ts|) && IsPerm(q, |ts|) && InOrder(ts, p) && InOrder(ts, q)
    requires k <= |ts|
    ensures p[..k] == q[..k]
  {
    if k > 0 {
      OrderUnique(ts, p, q, k - 1);
      var x, y := p[k - 1], q[k - 1];
      forall m | 0 <= m < k - 1 ensures p[m] == q[m] { assert p[..k - 1][m] == q[..k - 1][m]; }
      if x != y {
        assert x in q && y in p;
        var i :| 0 <= i < |q| && q[i] == x;
        var j :| 0 <= j < |p| && p[j] == y;
        assert i >= k && j >= k;
        PrecedesStrict(ts, x, y);
      }
    }
  }

  lemma StableSortIsOrder(ts: seq<string>, p: seq<nat>)
    requires IsPerm(p, |ts|) && InOrder(ts, p)
    ensures p == Order(ts)
  {
    OrderIs(ts);
    OrderUnique(ts, p, Order(ts), |ts|);
    assert p[..|ts|] == p && Order(ts)[..|ts|] == Order(ts);
  }

  // ---------------------------------------------------------------------------
  // Exchanging neighbours that are out of order
  // ---------------------------------------------------------------------------

  function Exchange<T>(p: seq<T>, i: nat): (q: seq<T>)
    requires i + 1 < |p|
    ensures |q| == |p| && q[i] == p[i + 1] && q[i + 1] == p[i]
    ensures forall k :: 0 <= k < |p| && k != i && k != i + 1 ==> q[k] == p[k]
  {
    p[i := p[i + 1]][i + 1 := p[i]]
  }

  /** How many titles of the list are smaller than t. */
  function Smaller(t: string, ts: seq<string>): nat {
    if ts == [] then 0 else (if CaseCmp(t, ts[0]) > 0 then 1 else 0) + Smaller(t, ts[1..])
  }

  /** The pairs of titles that stand in the wrong order. */
  function Inversions(ts: seq<string>): nat {
    if ts == [] then 0 else Smaller(ts[0], ts[1..]) + Inversions(ts[1..])
  }

  lemma {:induction false} SmallerOfExchange(t: string, ts: seq<string>, i: nat)
    requires i + 1 < |ts|
    ensures Smaller(t, Exchange(ts, i)) == Smaller(t, ts)
  {
    var e := Exchange(ts, i);
    if i == 0 {
      assert ts[1..][1..] == e[1..][1..];
    } else {
      assert e[1..] == Exchange(ts[1..], i - 1);
      SmallerOfExchange(t, ts[1..], i - 1);
    }
  }

  /** Exchanging two neighbours in the wrong order removes exactly one inversion. */
  lemma {:induction false} ExchangeRemovesOne(ts: seq<string>, i: nat)
    requires i + 1 < |ts| && CaseCmp(ts[i], ts[i + 1]) > 0
    ensures Inversions(Exchange(ts, i)) == Inversions(ts) - 1
  {
    var e := Exchange(ts, i);
    if i == 0 {
      CmpAntisymmetric(ts[0], ts[1]);
      assert ts[1..][1..] == e[1..][1..];
    } else {
      assert e[1..] == Exchange(ts[1..], i - 1);
      SmallerOfExchange(ts[0], ts[1..], i - 1);
      ExchangeRemovesOne(ts[1..], i - 1);
    }
  }

  /** Positions that changed places belong the way they stand now. */
  ghost predicate Stable(ts: seq<string>, p: seq<nat>) {
    forall i, j :: 0 <= i < j < |p| ==>
      p[i] < |ts| && p[j] < |ts| && (p[i] > p[j] ==> CaseCmp(ts[p[i]], ts[p[j]]) < 0)
  }

  lemma ExchangeKeeps(ts: seq<string>, p: seq<nat>, i: nat)
    requires IsPerm(p, |ts|) && Stable(ts, p) && i + 1 < |p| && CaseCmp(ts[p[i]], ts[p[i + 1]]) > 0
    ensures IsPerm(Exchange(p, i), |ts|) && Stable(ts, Exchange(p, i))
  {
    var q := Exchange(p, i);
    CmpAntisymmetric(ts[p[i]], ts[p[i + 1]]);
    forall v | 0 <= v < |ts| ensures v in q {
      assert v in p;
      var k :| 0 <= k < |p| && p[k] == v;
      assert q[if k == i then i + 1 else if k == i + 1 then i else k] == v;
    }
  }

  ghost predicate NeighboursOrdered(ts: seq<string>, p: seq<nat>, n: nat) {
    forall i, j :: 0 <= i < n && j == i + 1 && j < |p| && p[i] < |ts| && p[j] < |ts| ==>
      CaseCmp(ts[p[i]], ts[p[j]]) <= 0
  }

  lemma {:induction false} NeighboursChain(ts: seq<string>, p: seq<nat>, i: nat, j: nat)
    requires IsPerm(p, |ts|) && NeighboursOrdered(ts, p, |p|) && i <= j < |p|
    ensures CaseCmp(ts[p[i]], ts[p[j]]) <= 0
    decreases j - i
  {
    if i == j {
      CmpZeroIff(ts[p[i]], ts[p[i]]);
    } else {
      NeighboursChain(ts, p, i, j - 1);
      CmpTransitive(ts[p[i]], ts[p[j - 1]], ts[p[j]]);
    }
  }

  lemma SortedIsOrder(ts: seq<string>, p: seq<nat>)
    requires IsPerm(p, |ts|) && Stable(ts, p) && NeighboursOrdered(ts, p, |p|)
    ensures p == Order(ts)
  {
    forall i, j | 0 <= i < j < |p| ensures Precedes(ts, p[i], p[j]) { NeighboursChain(ts, p, i, j); }
    StableSortIsOrder(ts, p);
  }
}
