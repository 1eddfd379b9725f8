/** What the game-list menu shows and how operations and keys change it, on values.
    The pointer structure that carries it is in GameMenu.dfy. */
module MenuView {
  import opened Arithmetic
  import opened TitleOrder

  datatype Item = Item(text: string, textId: int, id: int)

  /** The on-screen title: a translated text when the item names one. */
  function Title(lang: int -> string, it: Item): string {
    if it.textId >= 0 then lang(it.textId) else it.text
  }

  function Titles(lang: int -> string, items: seq<Item>): (ts: seq<string>)
    ensures |ts| == |items| && forall i :: 0 <= i < |items| ==> ts[i] == Title(lang, items[i])
  {
    seq(|items|, i requires 0 <= i < |items| => Title(lang, items[i]))
  }

  /** The list, the positions of the cursor and of the first item on screen, and
      whether the cursor is to survive sorting. */
  datatype View = View(items: seq<Item>, cur: nat, page: nat, remind: bool)

  /** The cursor is on screen, when d items fit. */
  ghost predicate Shown(v: View, d: nat) {
    && (v.items == [] ==> v.cur == 0 && v.page == 0)
    && (v.items != [] ==> v.cur < |v.items| && v.page <= v.cur < v.page + d)
  }

  // ---------------------------------------------------------------------------
  // Keys
  // ---------------------------------------------------------------------------

  datatype Key = NextItem | PrevItem | NextScreen | PrevScreen

  function First(v: View): View { v.(cur := 0, page := 0) }

  function Last(v: View, d: nat): View {
    if v.items == [] then v
    else v.(cur := |v.items| - 1, page := if |v.items| > d then |v.items| - d else 0)
  }

  function Next(v: View, d: nat): View {
    if v.cur + 1 >= |v.items| then First(v)
    else v.(cur := v.cur + 1, page := if v.cur + 1 < v.page + d then v.page else v.cur + 1)
  }

  function Prev(v: View, d: nat): View {
    if v.cur == 0 then Last(v, d)
    else v.(cur := v.cur - 1, page := if v.page < v.cur then v.page else if v.page > d then v.page - d else 0)
  }

  function NextPage(v: View, d: nat): View {
    if v.page + 1 >= |v.items| then First(v)
    else
      var p := if v.page + d < |v.items| then v.page + d else |v.items| - 1;
      v.(cur := p, page := p)
  }

  function PrevPage(v: View, d: nat): View {
    if v.page == 0 then Last(v, d)
    else
      var p := if v.page > d then v.page - d else 0;
      v.(cur := p, page := p)
  }

  function Press(v: View, k: Key, d: nat): View {
    match k
    case NextItem => Next(v, d)
    case PrevItem => Prev(v, d)
    case NextScreen => NextPage(v, d)
    case PrevScreen => PrevPage(v, d)
  }

  /** Up and down undo each other, across both ends of the list. */
  lemma UpUndoesDown(v: View, d: nat)
    requires Shown(v, d) && d >= 1
    ensures Prev(Next(v, d), d).(page := v.page) == v
    ensures Next(Prev(v, d), d).(page := v.page) == v
  {
    if v.items == [] {
    } else if v.cur == |v.items| - 1 {
      assert Next(v, d).cur == 0;
    } else if v.cur == 0 {
      assert Prev(v, d).cur == |v.items| - 1;
    }
  }

  function Repeat(v: View, k: Key, n: nat, d: nat): View {
    if n == 0 then v else Press(Repeat(v, k, n - 1, d), k, d)
  }

  function Modulo(a: nat, n: nat): nat
    requires n > 0
  {
    a % n
  }

  lemma NextCycles(v: View, a: nat, d: nat)
    requires Shown(v, d) && d >= 1 && v.items != [] && v.cur == Modulo(a, |v.items|)
    ensures var w := Next(v, d); w.items == v.items && Shown(w, d) && w.cur == Modulo(a + 1, |v.items|)
  {
    var n := |v.items|;
    NextModulo(a, n);
    hide Modulo;
    assert Next(v, d).cur == if v.cur + 1 >= n then 0 else v.cur + 1;
  }

  lemma {:induction false} CyclesBy(v: View, n: nat, d: nat)
    requires Shown(v, d) && d >= 1 && v.items != []
    ensures var w := Repeat(v, NextItem, n, d);
      w.items == v.items && Shown(w, d) && w.cur == Modulo(v.cur + n, |v.items|)
  {
    hide Next, Shown;
    if n == 0 {
      SmallModulo(v, d);
    } else {
      CyclesBy(v, n - 1, d);
      hide Modulo;
      NextCycles(Repeat(v, NextItem, n - 1, d), v.cur + n - 1, d);
    }
  }

  lemma SmallModulo(v: View, d: nat)
    requires Shown(v, d) && v.items != []
    ensures Modulo(v.cur, |v.items|) == v.cur
  {
    DivModOf(0, v.cur, |v.items|);
  }

  /** Holding down cycles through the whole list. */
  lemma DownCycles(v: View, n: nat, d: nat)
    requires Shown(v, d) && d >= 1 && v.items != []
    ensures var w := Repeat(v, NextItem, n, d);
      w.items == v.items && Shown(w, d) && w.cur == (v.cur + n) % |v.items|
  {
    hide Repeat, Shown;
    CyclesBy(v, n, d);
  }

  lemma NextModulo(a: nat, n: nat)
    requires n > 0
    ensures Modulo(a + 1, n) == if Modulo(a, n) + 1 >= n then 0 else Modulo(a, n) + 1
  {
    var q := a / n;
    assert a == n * q + a % n;
    if a % n + 1 >= n {
      MulNext(n, q);
      DivModOf(q + 1, 0, n);
    } else {
      DivModOf(q, a % n + 1, n);
    }
  }

  /** Paging through from the first page, every item comes on screen. */
  lemma PagesShowEverything(v: View, i: nat, k: nat, d: nat)
    requires d >= 1 && k * d <= i < k * d + d && i < |v.items|
    ensures var w := Repeat(First(v), NextScreen, k, d);
      w.items == v.items && w.page <= i < w.page + d
  {
    PageStarts(v, k, i, d);
  }

  lemma {:induction false} PageStarts(v: View, k: nat, i: nat, d: nat)
    requires d >= 1 && k * d <= i < |v.items|
    ensures var w := Repeat(First(v), NextScreen, k, d);
      w.items == v.items && w.page == k * d
  {
    if k > 0 {
      assert k * d == (k - 1) * d + d;
      PageStarts(v, k - 1, i, d);
    }
  }

  // ---------------------------------------------------------------------------
  // Operations
  // ---------------------------------------------------------------------------

  datatype Op = Append(item: Item, selected: bool) | Sort | Clear | Other

  function Pick<T>(s: seq<T>, p: seq<nat>): (r: seq<T>)
    requires forall i :: 0 <= i < |p| ==> p[i] < |s|
    ensures |r| == |p| && forall i :: 0 <= i < |p| ==> r[i] == s[p[i]]
  {
    seq(|p|, i requires 0 <= i < |p| => s[p[i]])
  }

  function PositionOf(p: seq<nat>, x: nat): (i: nat)
    ensures x in p ==> i < |p| && p[i] == x
  {
    if p == [] || p[0] == x then 0 else 1 + PositionOf(p[1..], x)
  }

  function Sorted(v: View, lang: int -> string): View {
    var ts := Titles(lang, v.items);
    OrderIs(ts);
    var p := Order(ts);
    var c := if v.remind && v.items != [] then PositionOf(p, v.cur) else 0;
    View(Pick(v.items, p), c, c, v.remind)
  }

  function Appended(v: View, it: Item, selected: bool): View {
    var w := v.(items := v.items + [it]);
    if selected then w.(cur := |v.items|, page := |v.items|, remind := true) else w
  }

  function ApplyOp(v: View, op: Op, lang: int -> string): View {
    match op
    case Append(it, selected) => Appended(v, it, selected)
    case Sort => Sorted(v, lang)
    case Clear => View([], 0, 0, v.remind)
    case Other => v
  }

  /** The cursor stays on screen whatever happens. */
  lemma KeyKeepsShown(v: View, k: Key, d: nat)
    requires Shown(v, d) && d >= 1
    ensures Shown(Press(v, k, d), d)
  {
  }

  lemma OpKeepsShown(v: View, op: Op, lang: int -> string, d: nat)
    requires Shown(v, d) && d >= 1
    ensures Shown(ApplyOp(v, op, lang), d)
  {
    hide Sorted;
    if op.Sort? { SortedIs(v, lang); }
  }

  /** Sorting rearranges the items into ascending titles, keeps equal titles in their
      order, and keeps the remembered item under the cursor. */
  lemma SortedIs(v: View, lang: int -> string)
    requires v.items != [] ==> v.cur < |v.items|
    ensures var w := Sorted(v, lang); var ts := Titles(lang, v.items);
      && (exists p :: IsPerm(p, |v.items|) && InOrder(ts, p) && w.items == Pick(v.items, p))
      && (w.items != [] ==> w.cur < |w.items|) && w.page == w.cur
      && (v.items != [] && v.remind ==> w.items[w.cur] == v.items[v.cur])
      && (v.items == [] || !v.remind ==> w.cur == 0)
  {
    var ts := Titles(lang, v.items);
    OrderIs(ts);
    assert IsPerm(Order(ts), |v.items|) && Sorted(v, lang).items == Pick(v.items, Order(ts));
    if v.items != [] { assert v.cur in Order(ts); }
  }

  /** The titles of a sorted list ascend. */
  lemma SortedAscends(v: View, lang: int -> string, i: nat, j: nat)
    requires v.items != [] ==> v.cur < |v.items|
    requires i < j < |Sorted(v, lang).items|
    ensures var s := Sorted(v, lang).items; CaseCmp(Title(lang, s[i]), Title(lang, s[j])) <= 0
  {
    var ts := Titles(lang, v.items);
    OrderIs(ts);
    var p := Order(ts);
    assert Precedes(ts, p[i], p[j]);
  }

  // ---------------------------------------------------------------------------
  // Deferred operations
  // ---------------------------------------------------------------------------

  function ApplyAll(v: View, ops: seq<Op>, lang: int -> string): View
    decreases |ops|
  {
    if ops == [] then v else ApplyAll(ApplyOp(v, ops[0], lang), ops[1..], lang)
  }

  lemma {:induction false} ApplyAllSplits(v: View, xs: seq<Op>, ys: seq<Op>, lang: int -> string)
    ensures ApplyAll(v, xs + ys, lang) == ApplyAll(ApplyAll(v, xs, lang), ys, lang)
    decreases |xs|
  {
    if xs == [] {
      assert xs + ys == ys;
    } else {
      assert (xs + ys)[0] == xs[0] && (xs + ys)[1..] == xs[1..] + ys;
      ApplyAllSplits(ApplyOp(v, xs[0], lang), xs[1..], ys, lang);
    }
  }

  datatype GuiState = GuiState(view: View, pending: seq<Op>, scheduled: nat, completed: nat)
  datatype Event = Defer(op: Op) | Drain | KeyPress(key: Key)

  function Step(g: GuiState, e: Event, lang: int -> string, d: nat): GuiState {
    match e
    case Defer(op) => g.(pending := g.pending + [op], scheduled := g.scheduled + 1)
    case Drain => g.(view := ApplyAll(g.view, g.pending, lang), pending := [], completed := g.completed + |g.pending|)
    case KeyPress(k) => g.(view := Press(g.view, k, d))
  }

  function Run(g: GuiState, es: seq<Event>, lang: int -> string, d: nat): GuiState
    decreases |es|
  {
    if es == [] then g else Run(Step(g, es[0], lang, d), es[1..], lang, d)
  }

  /** The event with an operation applied the moment it is issued. */
  function AtOnce(v: View, e: Event, lang: int -> string, d: nat): View {
    match e
    case Defer(op) => ApplyOp(v, op, lang)
    case Drain => v
    case KeyPress(k) => Press(v, k, d)
  }

  function Immediate(v: View, es: seq<Event>, lang: int -> string, d: nat): View
    decreases |es|
  {
    if es == [] then v else Immediate(AtOnce(v, es[0], lang, d), es[1..], lang, d)
  }

  /** The same list, and the same mark on its remembered item; the cursor may differ. */
  predicate SameList(v: View, w: View) { v.items == w.items && v.remind == w.remind }

  lemma {:induction false} SameListApplies(v: View, w: View, ops: seq<Op>, lang: int -> string)
    requires SameList(v, w)
    ensures SameList(ApplyAll(v, ops, lang), ApplyAll(w, ops, lang))
    decreases |ops|
  {
    if ops != [] { SameListApplies(ApplyOp(v, ops[0], lang), ApplyOp(w, ops[0], lang), ops[1..], lang); }
  }

  /** Whenever keys are pressed, draining what is left gives the list that applying every
      operation at once would have given; only the cursor can end elsewhere. */
  lemma {:induction false} DeferredListIsSame(g: GuiState, w: View, es: seq<Event>, lang: int -> string, d: nat)
    requires SameList(ApplyAll(g.view, g.pending, lang), w)
    ensures SameList(Step(Run(g, es, lang, d), Drain, lang, d).view, Immediate(w, es, lang, d))
    decreases |es|
  {
    if es != [] {
      var g1 := Step(g, es[0], lang, d);
      match es[0] {
        case Defer(op) =>
          ApplyAllSplits(g.view, g.pending, [op], lang);
          SameListApplies(ApplyAll(g.view, g.pending, lang), w, [op], lang);
          DeferredListIsSame(g1, ApplyOp(w, op, lang), es[1..], lang, d);
        case Drain =>
          DeferredListIsSame(g1, w, es[1..], lang, d);
        case KeyPress(k) =>
          SameListApplies(g.view, g1.view, g.pending, lang);
          DeferredListIsSame(g1, Press(w, k, d), es[1..], lang, d);
      }
    }
  }

  lemma {:induction false} AllShown(v: View, ops: seq<Op>, lang: int -> string, d: nat)
    requires Shown(v, d) && d >= 1
    ensures Shown(ApplyAll(v, ops, lang), d)
    decreases |ops|
  {
    if ops != [] {
      OpKeepsShown(v, ops[0], lang, d);
      AllShown(ApplyOp(v, ops[0], lang), ops[1..], lang, d);
    }
  }

  // ---------------------------------------------------------------------------
  // Keys pressed while operations are pending
  // ---------------------------------------------------------------------------

  /** The key changes nothing. */
  predicate Idle(v: View, k: Key, d: nat) {
    |v.items| <= 1 || (k == PrevScreen && v.page == 0 && v.cur == |v.items| - 1 && |v.items| <= d)
  }

  lemma IdleIff(v: View, k: Key, d: nat)
    requires Shown(v, d) && d >= 1
    ensures Press(v, k, d) == v <==> Idle(v, k, d)
  {
  }

  /** The key moves without touching the end of the list. */
  predicate Inside(v: View, k: Key, d: nat) {
    match k
    case NextItem => v.cur + 1 < |v.items|
    case PrevItem => v.cur > 0
    case NextScreen => v.page + d < |v.items|
    case PrevScreen => v.page > 0
  }

  /** From the c-th of n items, first on screen, the key leads to an item that is shown
      first as well. */
  predicate LandsFirst(c: nat, n: nat, k: Key, d: nat) {
    match k
    case NextItem => d == 1 || c + 1 >= n
    case PrevItem => d == 1 || n == 1 || c == 1
    case NextScreen => true
    case PrevScreen => d == 1 || n == 1 || c > 0
  }

  lemma LandsFirstIff(v: View, k: Key, d: nat)
    requires Shown(v, d) && d >= 1 && v.items != [] && v.page == v.cur
    ensures Press(v, k, d).page == Press(v, k, d).cur <==> LandsFirst(v.cur, |v.items|, k, d)
  {
  }

  /** The operation sets the cursor, wherever it was. */
  predicate Resets(op: Op, remind: bool) { op.Clear? || (op.Append? && op.selected) || (op.Sort? && !remind) }

  predicate KeepsCursor(ops: seq<Op>, remind: bool) { forall i :: 0 <= i < |ops| ==> !Resets(ops[i], remind) }

  /** The items appended. */
  function Added(ops: seq<Op>): seq<Item> {
    if ops == [] then [] else (if ops[0].Append? then [ops[0].item] else []) + Added(ops[1..])
  }

  /** Where the remembered i-th item is once the operations have run. */
  function Where(items: seq<Item>, i: nat, ops: seq<Op>, lang: int -> string): nat {
    ApplyAll(View(items, i, i, true), ops, lang).cur
  }

  /** When a key may be pressed before the pending operations run.  If they set the cursor
      themselves, or there is nothing yet to move over, the key has no effect and must not
      have one later.  If they sort around the remembered item, the item the key reaches
      now must be the one it reaches later, and be shown first.  If they only append, the
      key must stay inside the list. */
  predicate KeySafe(v: View, ops: seq<Op>, k: Key, lang: int -> string, d: nat) {
    var w := ApplyAll(v, ops, lang);
    if v.items == [] || !KeepsCursor(ops, v.remind) then Idle(w, k, d)
    else if Sort in ops then
      LandsFirst(w.cur, |w.items|, k, d)
      && Where(v.items, Press(v, k, d).cur, ops, lang) == Press(w, k, d).cur
    else Added(ops) == [] || Inside(v, k, d)
  }

  /** An operation that sets the cursor forgets where it was. */
  lemma {:induction false} ResetForgets(v: View, w: View, ops: seq<Op>, lang: int -> string)
    requires SameList(v, w) && !KeepsCursor(ops, v.remind)
    ensures ApplyAll(v, ops, lang) == ApplyAll(w, ops, lang)
    decreases |ops|
  {
    if !Resets(ops[0], v.remind) {
      ResetForgets(ApplyOp(v, ops[0], lang), ApplyOp(w, ops[0], lang), ops[1..], lang);
    }
  }

  lemma AppendsOne(v: View, op: Op, lang: int -> string)
    requires !Resets(op, v.remind) && !op.Sort?
    ensures ApplyOp(v, op, lang) == if op.Append? then v.(items := v.items + [op.item]) else v
  {
  }

  lemma {:induction false} OnlyAppends(v: View, ops: seq<Op>, lang: int -> string)
    requires KeepsCursor(ops, v.remind) && Sort !in ops
    ensures ApplyAll(v, ops, lang) == v.(items := v.items + Added(ops))
    decreases |ops|
  {
    hide ApplyOp;
    if ops == [] {
      assert v.items + [] == v.items;
    } else {
      var op, rest := ops[0], Added(ops[1..]);
      AppendsOne(v, op, lang);
      OnlyAppends(ApplyOp(v, op, lang), ops[1..], lang);
      if op.Append? { assert v.items + ([op.item] + rest) == v.items + [op.item] + rest; }
      assert [] + rest == rest;
    }
  }

  lemma InsideIff(v: View, more: seq<Item>, k: Key, d: nat)
    requires Shown(v, d) && d >= 1 && v.items != []
    ensures Press(v.(items := v.items + more), k, d) == Press(v, k, d).(items := v.items + more)
      <==> more == [] || Inside(v, k, d)
  {
    if more == [] { assert v.items + more == v.items; }
  }

  lemma AroundOne(v: View, op: Op, lang: int -> string)
    requires !Resets(op, v.remind) && v.remind && v.cur < |v.items|
    ensures var u := ApplyOp(v, op, lang);
      && u.remind && u.cur < |u.items| && u.items[u.cur] == v.items[v.cur]
      && (op.Sort? || v.page == v.cur ==> u.page == u.cur)
  {
    hide Sorted;
    if op.Sort? {
      SortedIs(v, lang);
      SortedReminds(v, lang);
    }
  }

  lemma SortedReminds(v: View, lang: int -> string)
    ensures Sorted(v, lang).remind == v.remind
  {
  }

  /** The page matters to no operation. */
  lemma PageIsIgnored(v: View, w: View, op: Op, lang: int -> string)
    requires SameList(v, w) && v.cur == w.cur
    ensures SameList(ApplyOp(v, op, lang), ApplyOp(w, op, lang)) && ApplyOp(v, op, lang).cur == ApplyOp(w, op, lang).cur
  {
  }

  /** The remembered item keeps the cursor, and a sort shows it first. */
  lemma {:induction false} SortsAround(v: View, ops: seq<Op>, lang: int -> string)
    requires KeepsCursor(ops, v.remind) && v.remind && v.cur < |v.items|
    ensures var w := ApplyAll(v, ops, lang);
      && w.remind && w.cur < |w.items| && w.cur == Where(v.items, v.cur, ops, lang)
      && w.items[w.cur] == v.items[v.cur]
      && (Sort in ops || v.page == v.cur ==> w.page == w.cur)
    decreases |ops|
  {
    hide ApplyOp;
    if ops != [] {
      var m := View(v.items, v.cur, v.cur, true);
      AroundOne(v, ops[0], lang);
      AroundOne(m, ops[0], lang);
      PageIsIgnored(v, m, ops[0], lang);
      SortsAround(ApplyOp(v, ops[0], lang), ops[1..], lang);
      SortsAround(ApplyOp(m, ops[0], lang), ops[1..], lang);
    }
  }

  /** Items that wait for a sort end in the order of their titles, equal ones in the old
      order, whatever else the operations do. */
  lemma {:induction false} WhereInOrder(items: seq<Item>, i: nat, j: nat, ops: seq<Op>, lang: int -> string)
    requires KeepsCursor(ops, true) && i < |items| && j < |items| && i != j
    ensures Where(items, i, ops, lang) < Where(items, j, ops, lang)
      <==> if Sort in ops then Precedes(Titles(lang, items), i, j) else i < j
    decreases |ops|
  {
    hide ApplyOp, Precedes;
    if ops != [] {
      WhereOne(items, i, ops, lang);
      WhereOne(items, j, ops, lang);
      OneInOrder(items, i, j, ops[0], lang);
      var u, w := ApplyOp(View(items, i, i, true), ops[0], lang), ApplyOp(View(items, j, j, true), ops[0], lang);
      WhereInOrder(u.items, u.cur, w.cur, ops[1..], lang);
      TitlesCompare(items, i, j, u.items, u.cur, w.cur, lang);
    }
  }

  lemma WhereOne(items: seq<Item>, i: nat, ops: seq<Op>, lang: int -> string)
    requires KeepsCursor(ops, true) && i < |items| && ops != []
    ensures var u := ApplyOp(View(items, i, i, true), ops[0], lang);
      u.cur < |u.items| && u.items[u.cur] == items[i]
      && Where(items, i, ops, lang) == Where(u.items, u.cur, ops[1..], lang)
  {
    hide ApplyOp;
    AroundOne(View(items, i, i, true), ops[0], lang);
  }

  lemma OneInOrder(items: seq<Item>, i: nat, j: nat, op: Op, lang: int -> string)
    requires !Resets(op, true) && i < |items| && j < |items| && i != j
    ensures var u, w := ApplyOp(View(items, i, i, true), op, lang), ApplyOp(View(items, j, j, true), op, lang);
      && u.items == w.items && u.cur != w.cur
      && (u.cur < w.cur <==> if op.Sort? then Precedes(Titles(lang, items), i, j) else i < j)
  {
    hide Precedes, Pick, PositionOf, Order;
    if op.Sort? {
      var ts := Titles(lang, items);
      var p := Order(ts);
      OrderIs(ts);
      assert i in p && j in p;
      var a, b := PositionOf(p, i), PositionOf(p, j);
      assert p[a] == i && p[b] == j;
      PrecedesTotal(ts, i, j);
      if Precedes(ts, i, j) { PrecedesStrict(ts, i, j); } else { PrecedesStrict(ts, j, i); }
    }
  }

  lemma TitlesCompare(items: seq<Item>, i: nat, j: nat, others: seq<Item>, a: nat, b: nat, lang: int -> string)
    requires i < |items| && j < |items| && a < |others| && b < |others|
    requires others[a] == items[i] && others[b] == items[j] && i != j && a != b
    requires (a < b <==> i < j) || (a < b <==> Precedes(Titles(lang, items), i, j))
    ensures Precedes(Titles(lang, others), a, b) <==> Precedes(Titles(lang, items), i, j)
  {
  }

  /** Exactly when a key pressed now does what it would do after the pending operations. */
  lemma KeySafeIff(v: View, ops: seq<Op>, k: Key, lang: int -> string, d: nat)
    requires Shown(v, d) && d >= 1
    ensures ApplyAll(Press(v, k, d), ops, lang) == Press(ApplyAll(v, ops, lang), k, d) <==> KeySafe(v, ops, k, lang, d)
  {
    var p, w := Press(v, k, d), ApplyAll(v, ops, lang);
    AllShown(v, ops, lang, d);
    KeyKeepsShown(v, k, d);
    if v.items == [] || !KeepsCursor(ops, v.remind) {
      if v.items == [] { assert p == v; } else { ResetForgets(v, p, ops, lang); }
      IdleIff(w, k, d);
    } else if Sort in ops {
      SortsAround(v, ops, lang);
      SortsAround(p, ops, lang);
      SameListApplies(v, p, ops, lang);
      LandsFirstIff(w, k, d);
    } else {
      OnlyAppends(v, ops, lang);
      OnlyAppends(p, ops, lang);
      InsideIff(v, Added(ops), k, d);
    }
  }

  /** Every key of the run may be pressed where it is. */
  ghost predicate KeysAreSafe(g: GuiState, es: seq<Event>, lang: int -> string, d: nat)
    decreases |es|
  {
    es == [] ||
    ((es[0].KeyPress? ==> KeySafe(g.view, g.pending, es[0].key, lang, d))
      && KeysAreSafe(Step(g, es[0], lang, d), es[1..], lang, d))
  }

  /** At every moment of the run draining would give the view of applying every operation
      the moment it is issued. */
  ghost predicate SameAlong(g: GuiState, w: View, es: seq<Event>, lang: int -> string, d: nat)
    decreases |es|
  {
    && ApplyAll(g.view, g.pending, lang) == w
    && (es != [] ==> SameAlong(Step(g, es[0], lang, d), AtOnce(w, es[0], lang, d), es[1..], lang, d))
  }

  lemma StepShown(g: GuiState, e: Event, lang: int -> string, d: nat)
    requires Shown(g.view, d) && d >= 1
    ensures Shown(Step(g, e, lang, d).view, d)
  {
    match e {
      case Defer(_) =>
      case Drain => AllShown(g.view, g.pending, lang, d);
      case KeyPress(k) => KeyKeepsShown(g.view, k, d);
    }
  }

  /** One event: only a key can make a difference. */
  lemma StepSameIff(g: GuiState, e: Event, lang: int -> string, d: nat)
    requires Shown(g.view, d) && d >= 1
    ensures var h := Step(g, e, lang, d);
      ApplyAll(h.view, h.pending, lang) == AtOnce(ApplyAll(g.view, g.pending, lang), e, lang, d)
      <==> (e.KeyPress? ==> KeySafe(g.view, g.pending, e.key, lang, d))
  {
    hide KeySafe;
    match e {
      case Defer(op) => ApplyAllSplits(g.view, g.pending, [op], lang);
      case Drain =>
      case KeyPress(k) => KeySafeIff(g.view, g.pending, k, lang, d);
    }
  }

  /** Deferring is harmless, at every moment of the run, exactly when every key is pressed
      where it may be. */
  lemma {:induction false} HarmlessIff(g: GuiState, es: seq<Event>, lang: int -> string, d: nat)
    requires Shown(g.view, d) && d >= 1
    ensures SameAlong(g, ApplyAll(g.view, g.pending, lang), es, lang, d) <==> KeysAreSafe(g, es, lang, d)
    decreases |es|
  {
    hide ApplyAll, Step, AtOnce, KeySafe, Shown;
    if es != [] {
      StepShown(g, es[0], lang, d);
      StepSameIff(g, es[0], lang, d);
      HarmlessIff(Step(g, es[0], lang, d), es[1..], lang, d);
      SameStarts(Step(g, es[0], lang, d), AtOnce(ApplyAll(g.view, g.pending, lang), es[0], lang, d), es[1..], lang, d);
    }
  }

  lemma SameStarts(g: GuiState, w: View, es: seq<Event>, lang: int -> string, d: nat)
    ensures SameAlong(g, w, es, lang, d) ==> ApplyAll(g.view, g.pending, lang) == w
  {
  }

  /** Then draining what is left at the end gives the view that applying every operation at
      once would have given. */
  lemma {:induction false} DeferringIsHarmless(g: GuiState, es: seq<Event>, lang: int -> string, d: nat)
    requires Shown(g.view, d) && d >= 1 && KeysAreSafe(g, es, lang, d)
    ensures Step(Run(g, es, lang, d), Drain, lang, d).view
         == Immediate(ApplyAll(g.view, g.pending, lang), es, lang, d)
    decreases |es|
  {
    if es != [] {
      StepShown(g, es[0], lang, d);
      StepSameIff(g, es[0], lang, d);
      hide KeySafe, Shown, ApplyAll;
      DeferringIsHarmless(Step(g, es[0], lang, d), es[1..], lang, d);
    }
  }

  /** While nothing is pending every key may be pressed. */
  lemma NothingPending(v: View, k: Key, lang: int -> string, d: nat)
    ensures KeySafe(v, [], k, lang, d)
  {
  }

  /** A key pressed while an item waits to be appended wraps around the old list. */
  lemma EarlyKey(a: Item, b: Item, lang: int -> string)
    ensures var g := GuiState(View([a], 0, 0, false), [], 0, 0);
      var es := [Defer(Append(b, false)), KeyPress(NextItem)];
      Step(Run(g, es, lang, 10), Drain, lang, 10).view.cur == 0 && Immediate(g.view, es, lang, 10).cur == 1
  {
    var g := GuiState(View([a], 0, 0, false), [], 0, 0);
    var op, key := Append(b, false), KeyPress(NextItem);
    var es := [Defer(op), key];
    assert es[1..] == [key] && [key][1..] == [];
    var g1 := Step(g, Defer(op), lang, 10);
    assert Run(g, es, lang, 10) == Run(g1, [key], lang, 10) == Run(Step(g1, key, lang, 10), [], lang, 10);
    assert g1.pending == [op] && [op][1..] == [];
    var v := ApplyOp(g.view, op, lang);
    assert Immediate(g.view, es, lang, 10) == Immediate(v, [key], lang, 10) == Immediate(Next(v, 10), [], lang, 10);
    assert ApplyAll(g.view, [op], lang) == ApplyAll(v, [], lang);
  }

  /** Over every run: the cursor is on screen, and exactly the operations issued and not
      yet run are pending. */
  lemma {:induction false} RunKeeps(g: GuiState, es: seq<Event>, lang: int -> string, d: nat)
    requires Shown(g.view, d) && d >= 1 && g.completed + |g.pending| == g.scheduled
    ensures var h := Run(g, es, lang, d); Shown(h.view, d) && h.completed + |h.pending| == h.scheduled
    decreases |es|
  {
    if es != [] {
      match es[0] {
        case Defer(op) =>
        case Drain => AllShown(g.view, g.pending, lang, d);
        case KeyPress(k) => KeyKeepsShown(g.view, k, d);
      }
      RunKeeps(Step(g, es[0], lang, d), es[1..], lang, d);
    }
  }
}
