/** The game-list menu of src/menusys.c: a doubly linked list with a cursor, sorted in
    place, and the queue of deferred operations of src/gui.c that drives it. */
module GameMenu {
  import opened TitleOrder
  import opened MenuView

  class Node {
    const item: Item
    var prev: Node?
    var next: Node?

    constructor (item: Item)
      ensures this.item == item && prev == null && next == null
    {
      this.item := item;
      prev, next := null, null;
    }
  }

  /** ns is a doubly linked list from end to end. */
  ghost predicate Linked(ns: seq<Node>)
    reads ns
  {
    && (forall i, j :: 0 <= i < j < |ns| ==> ns[i] != ns[j])
    && (forall i, j :: 0 <= i < j < |ns| && j == i + 1 ==> ns[i].next == ns[j] && ns[j].prev == ns[i])
    && (ns != [] ==> ns[0].prev == null && ns[|ns| - 1].next == null)
  }

  /** The node at k, or NULL outside the list. */
  ghost function At(ns: seq<Node>, k: int): Node? {
    if 0 <= k < |ns| then ns[k] else null
  }

  lemma Links(ns: seq<Node>, k: nat)
    requires Linked(ns) && k < |ns|
    ensures ns[k].next == At(ns, k + 1) && ns[k].prev == At(ns, k - 1)
  {
  }

  lemma Distinct(ns: seq<Node>, i: nat, j: nat)
    requires Linked(ns) && i < |ns| && j < |ns| && ns[i] == ns[j]
    ensures i == j
  {
  }

  function Items(ns: seq<Node>): (items: seq<Item>)
    ensures |items| == |ns| && forall i :: 0 <= i < |ns| ==> items[i] == ns[i].item
  {
    seq(|ns|, i requires 0 <= i < |ns| => ns[i].item)
  }

  /** swap: two neighbours change places. */
  method Swap(a: Node, b: Node, ghost ns: seq<Node>, ghost i: nat)
    requires Linked(ns) && i + 1 < |ns| && a == ns[i] && b == ns[i + 1]
    modifies ns
    ensures Linked(Exchange(ns, i))
  {
    Links(ns, i);
    Links(ns, i + 1);
    var pa, nb := a.prev, b.next;
    a.next := nb;
    b.prev := pa;
    b.next := a;
    a.prev := b;
    if pa != null { pa.next := b; }
    if nb != null { nb.prev := a; }
  }

  /** The loops that move n nodes back or forward, stopping at the end of the list. */
  method StepBack(from: Node, n: nat, ghost ns: seq<Node>, ghost i: nat) returns (c: Node, ghost k: nat)
    requires Linked(ns) && i < |ns| && from == ns[i]
    ensures k == (if i > n then i - n else 0) && c == ns[k]
  {
    hide Linked;
    var itms := n;
    c, k := from, i;
    Links(ns, k);
    while itms != 0 && c.prev != null
      invariant k < |ns| && c == ns[k] && c.prev == At(ns, k - 1)
      invariant 0 <= itms <= n && k == i - (n - itms)
    {
      c, k := c.prev, k - 1;
      Links(ns, k);
      itms := itms - 1;
    }
  }

  method StepForward(from: Node, n: nat, ghost ns: seq<Node>, ghost i: nat) returns (c: Node, ghost k: nat)
    requires Linked(ns) && i < |ns| && from == ns[i]
    ensures k == (if i + n < |ns| then i + n else |ns| - 1) && c == ns[k]
  {
    hide Linked;
    var itms := n;
    c, k := from, i;
    Links(ns, k);
    while itms != 0 && c.next != null
      invariant k < |ns| && c == ns[k] && c.next == At(ns, k + 1)
      invariant 0 <= itms <= n && k == i + (n - itms)
    {
      c, k := c.next, k + 1;
      Links(ns, k);
      itms := itms - 1;
    }
  }

  /** The loops that run to the last node. */
  method ToEnd(from: Node, ghost ns: seq<Node>, ghost i: nat) returns (c: Node)
    requires Linked(ns) && i < |ns| && from == ns[i]
    ensures c == ns[|ns| - 1]
  {
    hide Linked;
    ghost var k: nat := i;
    c := from;
    Links(ns, k);
    while c.next != null
      invariant k < |ns| && c == ns[k] && c.next == At(ns, k + 1)
      decreases |ns| - k
    {
      c, k := c.next, k + 1;
      Links(ns, k);
    }
  }

  // ---------------------------------------------------------------------------
  // Steps of the sort
  // ---------------------------------------------------------------------------

  /** perm says where each node of the list came from. */
  ghost predicate Sorting(ts: seq<string>, ns: seq<Node>, perm: seq<nat>): (b: bool)
    ensures b ==> |ts| == |ns| && |perm| == |ns| && forall i :: 0 <= i < |perm| ==> perm[i] < |ns|
  {
    |ts| == |ns| && IsPerm(perm, |ns|) && Stable(ts, perm)
  }

  lemma IdentityIs(ts: seq<string>, ns: seq<Node>)
    requires |ts| == |ns|
    ensures var p := seq(|ns|, i => i); Sorting(ts, ns, p) && Pick(ns, p) == ns
  {
    var p: seq<nat> := seq(|ns|, i => i);
    forall v | 0 <= v < |ns| ensures v in p { assert p[v] == v; }
  }

  lemma ShortIsSorted(ts: seq<string>, ns: seq<Node>)
    requires |ts| == |ns| <= 1
    ensures IsPerm(Order(ts), |ns|) && Pick(ns, Order(ts)) == ns
  {
    OrderIs(ts);
    assert ns != [] ==> Order(ts)[0] == 0;
  }

  /** The nodes in the stable order of their titles. */
  ghost function InTitleOrder(lang: int -> string, ns: seq<Node>): seq<Node> {
    var ts := Titles(lang, Items(ns));
    OrderIs(ts);
    Pick(ns, Order(ts))
  }

  lemma NoNeighbours(ts: seq<string>, perm: seq<nat>)
    ensures NeighboursOrdered(ts, perm, 0)
  {
  }

  lemma OneMoreOrdered(ts: seq<string>, ns: seq<Node>, perm: seq<nat>, i: nat)
    requires Sorting(ts, ns, perm) && i + 1 < |perm| && CaseCmp(ts[perm[i]], ts[perm[i + 1]]) <= 0
    ensures NeighboursOrdered(ts, perm, i) ==> NeighboursOrdered(ts, perm, i + 1)
  {
    hide CaseCmp, Sorting;
  }

  lemma AllOrdered(ts: seq<string>, perm: seq<nat>, i: nat)
    requires i + 1 == |perm|
    ensures NeighboursOrdered(ts, perm, i) ==> NeighboursOrdered(ts, perm, |perm|)
  {
    hide CaseCmp;
  }

  /** The exchange of two neighbours in the wrong order. */
  lemma SortingStep(ts: seq<string>, ns: seq<Node>, perm: seq<nat>, i: nat)
    requires Sorting(ts, ns, perm) && i + 1 < |perm| && CaseCmp(ts[perm[i]], ts[perm[i + 1]]) > 0
    ensures var q := Exchange(perm, i);
      && Sorting(ts, ns, q)
      && Pick(ns, q) == Exchange(Pick(ns, perm), i)
      && Inversions(Pick(ts, q)) == Inversions(Pick(ts, perm)) - 1
  {
    ExchangeKeeps(ts, perm, i);
    var q := Exchange(perm, i);
    hide *;
    assert Pick(ns, q) == Exchange(Pick(ns, perm), i);
    assert Pick(ts, q) == Exchange(Pick(ts, perm), i);
    ExchangeRemovesOne(Pick(ts, perm), i);
  }

  lemma PicksInside(ns: seq<Node>, perm: seq<nat>)
    requires forall i :: 0 <= i < |perm| ==> perm[i] < |ns|
    ensures forall n :: n in Pick(ns, perm) ==> n in ns
  {
  }

  lemma SortingDone(ts: seq<string>, ns: seq<Node>, perm: seq<nat>)
    requires Sorting(ts, ns, perm) && NeighboursOrdered(ts, perm, |perm|)
    ensures IsPerm(Order(ts), |ns|) && perm == Order(ts)
  {
    OrderIs(ts);
    SortedIsOrder(ts, perm);
  }

  /** One pass of the bubble sort: a pass that exchanges nothing has found the list in
      order, and every exchange removes an inversion. */
  method SortPass(lang: int -> string, first: Node, ghost ts: seq<string>, ghost ns: seq<Node>, ghost before: seq<nat>)
    returns (head: Node, sorted: bool, ghost perm: seq<nat>)
    requires ts == Titles(lang, Items(ns)) && Sorting(ts, ns, before) && |ns| >= 2
    requires Linked(Pick(ns, before)) && first == Pick(ns, before)[0]
    modifies ns
    ensures Sorting(ts, ns, perm) && Linked(Pick(ns, perm)) && head == Pick(ns, perm)[0]
    ensures if sorted then NeighboursOrdered(ts, perm, |perm|)
            else Inversions(Pick(ts, perm)) < Inversions(Pick(ts, before))
  {
    hide Linked, Items, Titles, Title, Sorting, Pick, Order, IsPerm, NeighboursOrdered, Inversions, CaseCmp, Exchange;
    head, sorted, perm := first, true, before;
    ghost var nodes := Pick(ns, perm);
    var tip := head;
    ghost var i: nat := 0;
    NoNeighbours(ts, perm);
    Links(nodes, 0);
    while tip.next != null
      invariant Sorting(ts, ns, perm) && nodes == Pick(ns, perm) && Linked(nodes)
      invariant head == nodes[0] && i < |nodes| && tip == nodes[i] && tip.next == At(nodes, i + 1)
      invariant if sorted then perm == before && NeighboursOrdered(ts, perm, i)
                else Inversions(Pick(ts, perm)) < Inversions(Pick(ts, before))
      decreases |nodes| - i
    {
      var nxt: Node := tip.next;
      assert ts[perm[i]] == Title(lang, tip.item) && ts[perm[i + 1]] == Title(lang, nxt.item);
      var cmp := CaseCmp(Title(lang, tip.item), Title(lang, nxt.item));
      if cmp > 0 {
        SortingStep(ts, ns, perm, i);
        PicksInside(ns, perm);
        if tip == head { Distinct(nodes, i, 0); }
        Swap(tip, nxt, nodes, i);
        if tip == head { head := nxt; }
        sorted := false;
        nodes, perm := Exchange(nodes, i), Exchange(perm, i);
      } else {
        OneMoreOrdered(ts, ns, perm, i);
        tip := nxt;
      }
      i := i + 1;
      Links(nodes, i);
    }
    AllOrdered(ts, perm, i);
  }

  class Menu {
    const lang: int -> string
    const displayed: nat

    var subMenu: Node?
    var submenu: Node?
    var current: Node?
    var pagestart: Node?
    var last: Node?
    var remindLast: bool

    ghost var nodes: seq<Node>
    ghost var cur: nat
    ghost var page: nat

    ghost predicate Valid()
      reads this, nodes
    {
      && displayed >= 1
      && Linked(nodes)
      && subMenu == At(nodes, 0) && submenu == subMenu && last == At(nodes, |nodes| - 1)
      && current == At(nodes, cur) && pagestart == At(nodes, page)
      && Shown(View(), displayed)
    }

    ghost function View(): View
      reads this
    {
      MenuView.View(Items(nodes), cur, page, remindLast)
    }

    constructor (lang: int -> string, displayed: nat)
      requires displayed >= 1
      ensures Valid() && View() == MenuView.View([], 0, 0, false) && nodes == []
      ensures this.lang == lang && this.displayed == displayed
    {
      this.lang, this.displayed := lang, displayed;
      subMenu, submenu, current, pagestart, last := null, null, null, null, null;
      remindLast := false;
      nodes, cur, page := [], 0, 0;
    }

    // -------------------------------------------------------------------------
    // Keys
    // -------------------------------------------------------------------------

    method FirstPage()
      requires Valid()
      modifies this`current, this`pagestart, this`cur, this`page
      ensures Valid() && View() == First(old(View()))
    {
      hide Linked, Items;
      if current != null {
        current := submenu;
        pagestart := current;
        cur, page := 0, 0;
      }
    }

    method LastPage()
      requires Valid()
      modifies this`current, this`pagestart, this`cur, this`page
      ensures Valid() && View() == Last(old(View()), displayed)
    {
      hide Linked, Items;
      var c := current;
      if c != null {
        c := ToEnd(c, nodes, cur);
        current, cur := c, |nodes| - 1;
        pagestart, page := StepBack(c, displayed - 1, nodes, cur);
      }
    }

    method Next()
      requires Valid()
      modifies this`current, this`pagestart, this`cur, this`page
      ensures Valid() && View() == MenuView.Next(old(View()), displayed)
    {
      hide Linked, Items;
      var c := current;
      if c != null { Links(nodes, cur); }
      if c != null && c.next != null {
        current, cur := c.next, cur + 1;
        c := pagestart;
        ghost var k: nat := page;
        var itms := displayed;
        while itms != 0 && c != null
          modifies {}
          invariant 0 <= itms <= displayed && page <= k && c == At(nodes, k) && k == page + displayed - itms
          invariant k <= cur
        {
          if current == c {
            Distinct(nodes, cur, k);
            return;
          }
          Links(nodes, k);
          c, k := c.next, k + 1;
          itms := itms - 1;
        }
        pagestart, page := current, cur;
      } else {
        FirstPage();
      }
    }

    method Prev()
      requires Valid()
      modifies this`current, this`pagestart, this`cur, this`page
      ensures Valid() && View() == MenuView.Prev(old(View()), displayed)
    {
      hide Linked, Items;
      var c := current;
      if c != null { Links(nodes, cur); }
      if c != null && c.prev != null {
        current, cur := c.prev, cur - 1;
        if pagestart == c {
          Distinct(nodes, page, cur + 1);
          pagestart, page := StepBack(pagestart, displayed, nodes, page);
        }
      } else {
        LastPage();
      }
    }

    method NextPage()
      requires Valid()
      modifies this`current, this`pagestart, this`cur, this`page
      ensures Valid() && View() == MenuView.NextPage(old(View()), displayed)
    {
      hide Linked, Items;
      var c := pagestart;
      if c != null { Links(nodes, page); }
      if c != null && c.next != null {
        ghost var k: nat;
        c, k := StepForward(c, displayed, nodes, page);
        current, cur := c, k;
        pagestart, page := current, cur;
      } else {
        FirstPage();
      }
    }

    method PrevPage()
      requires Valid()
      modifies this`current, this`pagestart, this`cur, this`page
      ensures Valid() && View() == MenuView.PrevPage(old(View()), displayed)
    {
      hide Linked, Items;
      var c := pagestart;
      if c != null { Links(nodes, page); }
      if c != null && c.prev != null {
        ghost var k: nat;
        c, k := StepBack(c, displayed, nodes, page);
        current, cur := c, k;
        pagestart, page := current, cur;
      } else {
        LastPage();
      }
    }

    // -------------------------------------------------------------------------
    // The list itself: submenuAppendItem, submenuDestroy, submenuSort
    // -------------------------------------------------------------------------

    method SubmenuAppendItem(item: Item) returns (newItem: Node)
      requires Linked(nodes) && subMenu == At(nodes, 0)
      modifies this`subMenu, this`nodes, nodes
      ensures fresh(newItem) && newItem.item == item && nodes == old(nodes) + [newItem]
      ensures Linked(nodes) && subMenu == At(nodes, 0)
    {
      newItem := new Node(item);
      if subMenu == null {
        subMenu := newItem;
      } else {
        hide Linked;
        var c := ToEnd(subMenu, nodes, 0);
        LinkBehind(c, newItem, nodes);
      }
      nodes := nodes + [newItem];
    }

    static method LinkBehind(tail: Node, newItem: Node, ghost ns: seq<Node>)
      requires Linked(ns) && ns != [] && tail == ns[|ns| - 1] && newItem !in ns
      requires newItem.next == null
      modifies tail`next, newItem`prev
      ensures Linked(ns + [newItem])
    {
      tail.next := newItem;
      newItem.prev := tail;
    }

    /** Every node is read once more and then released, in list order. */
    method SubmenuDestroy() returns (ghost freed: seq<Node>)
      requires Linked(nodes) && subMenu == At(nodes, 0)
      modifies this`subMenu, this`nodes
      ensures freed == old(nodes) && nodes == [] && subMenu == null
    {
      hide Linked;
      var c := subMenu;
      freed := [];
      if c != null { Links(nodes, 0); }
      while c != null
        modifies {}
        invariant freed <= nodes && c == At(nodes, |freed|)
        decreases |nodes| - |freed|
      {
        Links(nodes, |freed|);
        var td := c;
        c := c.next;
        freed := freed + [td];
      }
      subMenu, nodes := null, [];
    }

    /** A bubble sort on the links: the list ends up in the stable order of its titles. */
    method SubmenuSort()
      requires Linked(nodes) && subMenu == At(nodes, 0)
      modifies this`subMenu, this`nodes, nodes
      ensures nodes == InTitleOrder(lang, old(nodes))
      ensures Linked(nodes) && subMenu == At(nodes, 0)
    {
      hide Linked, Items, Titles, Title, Sorting, Pick, Order, IsPerm, NeighboursOrdered, Inversions, CaseCmp, Exchange;
      ghost var ns := nodes;
      ghost var ts := Titles(lang, Items(ns));
      ghost var perm: seq<nat> := seq(|ns|, i => i);
      IdentityIs(ts, ns);
      assert Pick(ns, perm) == nodes;
      if |ns| <= 1 { ShortIsSorted(ts, ns); }
      if subMenu != null { Links(nodes, 0); }
      if subMenu == null || subMenu.next == null {
        return;
      }
      var head: Node := subMenu;
      var sorted := false;
      while !sorted
        invariant Sorting(ts, ns, perm) && Linked(Pick(ns, perm)) && head == Pick(ns, perm)[0]
        invariant sorted ==> NeighboursOrdered(ts, perm, |perm|)
        decreases if sorted then 0 else Inversions(Pick(ts, perm)) + 1
      {
        head, sorted, perm := SortPass(lang, head, ts, ns, perm);
      }
      subMenu, nodes := head, Pick(ns, perm);
      SortingDone(ts, ns, perm);
    }

    // -------------------------------------------------------------------------
    // Operations
    // -------------------------------------------------------------------------

    method HandleOp(op: Op)
      requires Valid()
      modifies this, nodes
      ensures Valid() && View() == ApplyOp(old(View()), op, lang)
      ensures forall n :: n in nodes ==> n in old(nodes) || fresh(n)
    {
      match op
      case Append(item, selected) => AppendOp(item, selected);
      case Sort => SortOp();
      case Clear => ClearOp();
      case Other =>
    }

    method AppendOp(item: Item, selected: bool)
      requires Valid()
      modifies this, nodes
      ensures Valid() && View() == Appended(old(View()), item, selected)
      ensures forall n :: n in nodes ==> n in old(nodes) || fresh(n)
    {
      hide Linked, Items, At, Shown;
      ghost var was, ns := View(), nodes;
      OpKeepsShown(was, Append(item, selected), lang, displayed);
      ShownInside(was, displayed);
      var result := SubmenuAppendItem(item);
      ItemsOfAppend(ns, result);
      AtOfAppend(ns, result, 0);
      AtOfAppend(ns, result, cur);
      AtOfAppend(ns, result, page);
      AtOfAppend(ns, result, |ns|);
      if submenu == null {
        submenu, current, pagestart := result, result, result;
      }
      if selected {
        current, pagestart := result, result;
        cur, page := |nodes| - 1, |nodes| - 1;
        remindLast := true;
      }
      last := result;
    }

    method ClearOp()
      requires Valid()
      modifies this
      ensures Valid() && View() == ApplyOp(old(View()), Clear, lang) && nodes == []
    {
      ghost var freed := SubmenuDestroy();
      submenu, current, pagestart, last := null, null, null, null;
      cur, page := 0, 0;
    }

    method SortOp()
      requires Valid()
      modifies this, nodes
      ensures Valid() && View() == Sorted(old(View()), lang)
      ensures forall n :: n in nodes ==> n in old(nodes)
    {
      hide Linked, Items, InTitleOrder, Sorted, Title, Shown, At;
      ghost var was := View();
      ghost var ns := nodes;
      LengthIs(ns);
      ShownInside(was, displayed);
      SortedAt(was, lang, ns);
      OpKeepsShown(was, Sort, lang, displayed);
      SubmenuSort();
      SortedItems(was, lang, ns);
      var here := if remindLast then current else subMenu;
      submenu, current, pagestart := subMenu, here, here;
      cur, page := Sorted(was, lang).cur, Sorted(was, lang).cur;
      FindLast();
    }

    method FindLast()
      requires Linked(nodes) && submenu == At(nodes, 0)
      modifies this`last
      ensures last == At(nodes, |nodes| - 1)
    {
      var tail := submenu;
      if tail != null { tail := ToEnd(tail, nodes, 0); }
      last := tail;
    }

    /** menuClearGameList: an empty list keeps remindLast, a cleared one loses it. */
    method ClearGameList()
      requires Valid()
      modifies this
      ensures Valid() && nodes == []
      ensures View() == MenuView.View([], 0, 0, old(View()).items == [] && old(View()).remind)
    {
      if subMenu != null {
        ghost var freed := SubmenuDestroy();
        submenu, current, pagestart, last := null, null, null, null;
        cur, page := 0, 0;
        remindLast := false;
      }
    }
  }

  lemma AtOfAppend(ns: seq<Node>, n: Node, i: nat)
    ensures i < |ns| ==> At(ns + [n], i) == At(ns, i) != null
    ensures i == |ns| ==> At(ns + [n], i) == n && At(ns, i) == null
  {
  }

  lemma ShownInside(v: View, d: nat)
    requires Shown(v, d)
    ensures v.items == [] ==> v.cur == 0 && v.page == 0
    ensures v.items != [] ==> v.cur < |v.items| && v.page < |v.items|
  {
  }

  lemma ItemsOfAppend(ns: seq<Node>, n: Node)
    ensures Items(ns + [n]) == Items(ns) + [n.item]
  {
  }

  lemma LengthIs(ns: seq<Node>)
    ensures |Items(ns)| == |ns| && (Items(ns) == [] <==> ns == [])
  {
  }

  lemma SortedAt(v: View, lang: int -> string, ns: seq<Node>)
    requires v.items == Items(ns) && (ns != [] ==> v.cur < |ns|)
    ensures var ms := InTitleOrder(lang, ns);
      At(ms, Sorted(v, lang).cur) == if v.remind && ns != [] then At(ns, v.cur) else At(ms, 0)
    ensures ns == [] ==> At(ns, v.cur) == null == At(InTitleOrder(lang, ns), 0)
  {
    hide Sorted, InTitleOrder, Items;
    SortedItems(v, lang, ns);
  }

  /** Sorting the nodes sorts the view and takes the remembered node to its new place. */
  lemma SortedItems(v: View, lang: int -> string, ns: seq<Node>)
    requires v.items == Items(ns) && (ns != [] ==> v.cur < |ns|)
    ensures var ms := InTitleOrder(lang, ns); var w := Sorted(v, lang);
      && w.items == Items(ms) && w.page == w.cur && w.remind == v.remind
      && |ms| == |ns| && (ns != [] ==> w.cur < |ns|)
      && (ns != [] && v.remind ==> ms[w.cur] == ns[v.cur])
      && (ns == [] || !v.remind ==> w.cur == 0)
      && forall n :: n in ms ==> n in ns
  {
    OrderIs(Titles(lang, v.items));
    var p := Order(Titles(lang, v.items));
    if ns != [] { assert v.cur in p; }
  }

  // ---------------------------------------------------------------------------
  // Deferred operations (src/gui.c)
  // ---------------------------------------------------------------------------

  class Update {
    const op: Op
    ghost const id: nat
    var next: Update?

    constructor (op: Op, ghost id: nat)
      ensures this.op == op && this.id == id && next == null
    {
      this.op, this.id, next := op, id, null;
    }
  }

  ghost predicate Chained(us: seq<Update>)
    reads us
  {
    && (forall i, j :: 0 <= i < j < |us| ==> us[i] != us[j])
    && (forall i, j :: 0 <= i < j < |us| && j == i + 1 ==> us[i].next == us[j])
    && (us != [] ==> us[|us| - 1].next == null)
  }

  ghost function HeadOf(us: seq<Update>): Update? { if us == [] then null else us[0] }

  lemma ChainedTail(us: seq<Update>)
    requires Chained(us) && us != []
    ensures Chained(us[1..]) && us[0].next == HeadOf(us[1..])
  {
  }

  lemma AloneIsChained(u: Update)
    requires u.next == null
    ensures Chained([u])
  {
  }

  method EnqueueBehind(tail: Update, up: Update, ghost us: seq<Update>)
    requires Chained(us) && us != [] && tail == us[|us| - 1] && up !in us && up.next == null
    modifies tail`next
    ensures Chained(us + [up])
  {
    tail.next := up;
  }

  function Ops(us: seq<Update>): (ops: seq<Op>)
    ensures |ops| == |us| && forall i :: 0 <= i < |us| ==> ops[i] == us[i].op
  {
    seq(|us|, i requires 0 <= i < |us| => us[i].op)
  }

  lemma OpsOfEnqueue(us: seq<Update>, u: Update)
    ensures Ops(us + [u]) == Ops(us) + [u.op]
  {
  }

  class Gui {
    const menu: Menu
    var updateList: Update?
    var updateEnd: Update?
    var scheduledOps: nat
    var completedOps: nat

    /** The pending operations and the numbers of those that have run. */
    ghost var queue: seq<Update>
    ghost var ran: set<nat>

    ghost predicate Counted()
      reads this
    {
      && completedOps + |queue| == scheduledOps
      && (forall k :: 0 <= k < |queue| ==> queue[k].id == completedOps + k)
      && (forall i: nat :: i in ran <==> i < completedOps)
    }

    ghost predicate Valid()
      reads this, menu, menu.nodes, queue
    {
      && menu.Valid() && Chained(queue) && Counted()
      && updateList == HeadOf(queue) && (queue != [] ==> updateEnd == queue[|queue| - 1])
    }

    ghost function State(): GuiState
      reads this, menu
    {
      GuiState(menu.View(), Ops(queue), scheduledOps, completedOps)
    }

    constructor (menu: Menu)
      requires menu.Valid()
      ensures Valid() && this.menu == menu && State() == GuiState(menu.View(), [], 0, 0)
    {
      this.menu := menu;
      updateList, updateEnd, scheduledOps, completedOps := null, null, 0, 0;
      queue, ran := [], {};
    }

    lemma DeferIs(g: GuiState, op: Op)
      ensures Step(g, Defer(op), menu.lang, menu.displayed)
           == GuiState(g.view, g.pending + [op], g.scheduled + 1, g.completed)
    {
    }

    /** Links the update behind the last one. */
    method Enqueue(up: Update)
      requires Chained(queue) && updateList == HeadOf(queue) && (queue != [] ==> updateEnd == queue[|queue| - 1])
      requires up !in queue && up.next == null
      modifies `updateList, `updateEnd, `queue, queue`next
      ensures queue == old(queue) + [up] && Chained(queue) && updateList == HeadOf(queue) && updateEnd == up
    {
      hide Chained;
      if updateList == null {
        AloneIsChained(up);
        updateList, updateEnd := up, up;
      } else {
        EnqueueBehind(updateEnd, up, queue);
        updateEnd := up;
      }
      assert [] + [up] == [up];
      queue := queue + [up];
    }

    /** The number returned names the operation to OpCompleted. */
    method DeferUpdate(op: Op) returns (id: nat)
      requires Valid()
      modifies this, queue
      ensures Valid() && State() == Step(old(State()), Defer(op), menu.lang, menu.displayed)
      ensures id == old(scheduledOps) && id !in ran && queue == old(queue) + [queue[|queue| - 1]]
      ensures queue[|queue| - 1].op == op && queue[|queue| - 1].id == id && fresh(queue[|queue| - 1])
    {
      hide Chained, Menu.Valid, Menu.View, Step, Ops;
      var up := new Update(op, scheduledOps);
      Enqueue(up);
      OpsOfEnqueue(old(queue), up);
      DeferIs(old(State()), op);
      id := scheduledOps;
      scheduledOps := scheduledOps + 1;
    }

    /** Valid, but for the stale gUpdateEnd of a queue being drained. */
    ghost predicate Draining()
      reads this, menu, menu.nodes, queue
    {
      menu.Valid() && Chained(queue) && Counted() && updateList == HeadOf(queue)
    }

    method HandleFirst()
      requires Draining() && updateList != null
      modifies this, menu, menu.nodes
      ensures Draining() && |queue| == old(|queue|) - 1 && scheduledOps == old(scheduledOps)
      ensures ApplyAll(menu.View(), Ops(queue), menu.lang) == old(ApplyAll(menu.View(), Ops(queue), menu.lang))
      ensures forall n :: n in menu.nodes ==> n in old(menu.nodes) || fresh(n)
    {
      hide Chained, Menu.Valid, ApplyOp;
      menu.HandleOp(updateList.op);
      ChainedTail(queue);
      assert Ops(queue)[1..] == Ops(queue[1..]);
      updateList := updateList.next;
      ran := ran + {queue[0].id};
      queue := queue[1..];
      completedOps := completedOps + 1;
    }

    lemma DrainStarts()
      requires Valid()
      ensures Draining() && |Ops(queue)| + completedOps == scheduledOps
      ensures State() == GuiState(menu.View(), Ops(queue), scheduledOps, completedOps)
    {
    }

    lemma DrainEnds()
      requires Draining() && updateList == null
      ensures Valid()
      ensures State() == GuiState(ApplyAll(menu.View(), Ops(queue), menu.lang), [], scheduledOps, scheduledOps)
    {
      assert queue == [];
    }

    lemma DrainIs(g: GuiState, v: View)
      requires v == ApplyAll(g.view, g.pending, menu.lang) && |g.pending| + g.completed == g.scheduled
      ensures Step(g, Drain, menu.lang, menu.displayed) == GuiState(v, [], g.scheduled, g.scheduled)
    {
    }

    method HandleDeferredOps()
      requires Valid()
      modifies this, menu, menu.nodes
      ensures Valid() && State() == Step(old(State()), Drain, menu.lang, menu.displayed)
      ensures forall n :: n in menu.nodes ==> n in old(menu.nodes) || fresh(n)
    {
      hide Chained, Menu.Valid, ApplyAll, ApplyOp, Step, State, Ops, Valid;
      DrainStarts();
      ghost var was := State();
      while updateList != null
        invariant Draining()
        invariant scheduledOps == old(scheduledOps)
        invariant ApplyAll(menu.View(), Ops(queue), menu.lang) == old(ApplyAll(menu.View(), Ops(queue), menu.lang))
        invariant forall n :: n in menu.nodes ==> n in old(menu.nodes) || fresh(n)
        decreases |queue|
      {
        forall j | 0 <= j < |menu.nodes| ensures menu.nodes[j] in old(menu.nodes) || fresh(menu.nodes[j]) {
          assert menu.nodes[j] in menu.nodes;
        }
        HandleFirst();
      }
      updateEnd := null;
      DrainEnds();
      DrainIs(was, State().view);
    }

    method KeyPressed(k: Key)
      requires Valid()
      modifies menu
      ensures Valid() && State() == Step(old(State()), KeyPress(k), menu.lang, menu.displayed)
      ensures menu.nodes == old(menu.nodes)
    {
      hide Linked, Chained;
      match k
      case NextItem => menu.Next();
      case PrevItem => menu.Prev();
      case NextScreen => menu.NextPage();
      case PrevScreen => menu.PrevPage();
    }

    /** guiGetOpCompleted: true exactly of the operations that have run. */
    method OpCompleted(id: nat) returns (r: bool)
      requires Valid()
      ensures r <==> id in ran
    {
      r := completedOps > id;
    }
  }
}
