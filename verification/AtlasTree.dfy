/** The guillotine allocator of src/atlas.c as a function on trees of rectangles, and
    what it keeps: the placed rectangles and the free leaves partition the atlas. */
module AtlasTree {
  import opened Options

  datatype Rect = Rect(x: nat, y: nat, w: nat, h: nat)

  /** A free leaf, or a node whose top left corner holds a placed rectangle of size
      pw x ph and whose rest is split between two children. */
  datatype Tree =
    | Leaf(area: Rect)
    | Node(area: Rect, pw: nat, ph: nat, left: Tree, right: Tree)

  datatype Placing = Placing(tree: Tree, spot: Option<Rect>)

  predicate Fits(r: Rect, width: nat, height: nat) { r.w >= width && r.h >= height }

  /** The two leaves that remain of a rectangle after its top left corner was taken
      (lines 58-68): the wider piece is also made longer. */
  function LeftRest(r: Rect, width: nat, height: nat): Rect
    requires Fits(r, width, height)
  {
    var dx, dy := r.w - width, r.h - height;
    if dx < dy then Rect(r.x + width, r.y, dx, height) else Rect(r.x, r.y + height, width, dy)
  }

  function RightRest(r: Rect, width: nat, height: nat): Rect
    requires Fits(r, width, height)
  {
    var dx, dy := r.w - width, r.h - height;
    if dx < dy then Rect(r.x, r.y + height, r.w, dy) else Rect(r.x + width, r.y, dx, r.h)
  }

  /** allocPlace: the first fit in a depth-first search, pruned at nodes too small. */
  function Place(t: Tree, width: nat, height: nat): Placing {
    if !Fits(t.area, width, height) then Placing(t, None)
    else match t
      case Leaf(r) =>
        Placing(Node(r, width, height, Leaf(LeftRest(r, width, height)), Leaf(RightRest(r, width, height))),
                Some(Rect(r.x, r.y, width, height)))
      case Node(r, pw, ph, left, right) =>
        var p := Place(left, width, height);
        if p.spot.Some? then Placing(Node(r, pw, ph, p.tree, right), p.spot)
        else
          var q := Place(right, width, height);
          Placing(Node(r, pw, ph, left, q.tree), q.spot)
  }

  // ---------------------------------------------------------------------------
  // Geometry
  // ---------------------------------------------------------------------------

  predicate Inside(a: Rect, b: Rect) {
    b.x <= a.x && a.x + a.w <= b.x + b.w && b.y <= a.y && a.y + a.h <= b.y + b.h
  }

  predicate Apart(a: Rect, b: Rect) {
    a.x + a.w <= b.x || b.x + b.w <= a.x || a.y + a.h <= b.y || b.y + b.h <= a.y
  }

  function Area(r: Rect): nat { r.w * r.h }

  function Areas(rs: seq<Rect>): nat { if rs == [] then 0 else Area(rs[0]) + Areas(rs[1..]) }

  ghost predicate AllInside(rs: seq<Rect>, b: Rect) { forall i :: 0 <= i < |rs| ==> Inside(rs[i], b) }

  ghost predicate AllApart(rs: seq<Rect>) { forall i, j :: 0 <= i < j < |rs| ==> Apart(rs[i], rs[j]) }

  /** Pairwise disjoint rectangles inside b whose areas sum to that of b. */
  ghost predicate Partition(rs: seq<Rect>, b: Rect) { AllInside(rs, b) && AllApart(rs) && Areas(rs) == Area(b) }

  // ---------------------------------------------------------------------------
  // Trees
  // ---------------------------------------------------------------------------

  /** Every node was split as allocPlace splits. */
  predicate Cut(t: Tree) {
    t.Node? ==>
      && Fits(t.area, t.pw, t.ph)
      && t.left.area == LeftRest(t.area, t.pw, t.ph)
      && t.right.area == RightRest(t.area, t.pw, t.ph)
      && Cut(t.left) && Cut(t.right)
  }

  function Spot(t: Tree): Rect
    requires t.Node?
  {
    Rect(t.area.x, t.area.y, t.pw, t.ph)
  }

  function Leaves(t: Tree): seq<Rect> { if t.Leaf? then [t.area] else Leaves(t.left) + Leaves(t.right) }

  /** All rectangles of the tree: the placed ones and the free leaves. */
  function Rects(t: Tree): seq<Rect> {
    if t.Leaf? then [t.area] else [Spot(t)] + Rects(t.left) + Rects(t.right)
  }

  function Spots(t: Tree): multiset<Rect> {
    if t.Leaf? then multiset{} else multiset{Spot(t)} + Spots(t.left) + Spots(t.right)
  }

  /** The rectangles are the placed ones and the free leaves. */
  lemma {:induction false} RectsAre(t: Tree)
    ensures multiset(Rects(t)) == Spots(t) + multiset(Leaves(t))
  {
    if t.Node? {
      RectsAre(t.left);
      RectsAre(t.right);
    }
  }

  lemma {:induction false} AreasConcat(a: seq<Rect>, b: seq<Rect>)
    ensures Areas(a + b) == Areas(a) + Areas(b)
  {
    if a == [] {
      assert a + b == b;
    } else {
      AreasConcat(a[1..], b);
      assert (a + b)[1..] == a[1..] + b;
    }
  }

  /** A cut wastes nothing: corner and rests partition the rectangle. */
  lemma CutPartitions(r: Rect, width: nat, height: nat)
    requires Fits(r, width, height)
    ensures var c, a, b := Rect(r.x, r.y, width, height), LeftRest(r, width, height), RightRest(r, width, height);
      && Inside(c, r) && Inside(a, r) && Inside(b, r)
      && Apart(c, a) && Apart(c, b) && Apart(a, b)
      && Area(c) + Area(a) + Area(b) == Area(r)
  {
    var dx, dy := r.w - width, r.h - height;
    assert r.w * r.h == (width + dx) * (height + dy) == width * height + width * dy + dx * height + dx * dy;
    assert r.w * dy == width * dy + dx * dy;
    assert dx * r.h == dx * height + dx * dy;
  }

  lemma JoinApart(xs: seq<Rect>, ys: seq<Rect>, a: Rect, b: Rect)
    requires AllApart(xs) && AllApart(ys) && AllInside(xs, a) && AllInside(ys, b) && Apart(a, b)
    ensures AllApart(xs + ys)
  {
    var zs := xs + ys;
    forall i, j | 0 <= i < j < |zs| ensures Apart(zs[i], zs[j]) {
      if j < |xs| {
      } else if i >= |xs| {
        assert zs[i] == ys[i - |xs|] && zs[j] == ys[j - |xs|];
      } else {
        assert Inside(xs[i], a) && Inside(ys[j - |xs|], b);
      }
    }
  }

  lemma JoinInside(xs: seq<Rect>, ys: seq<Rect>, a: Rect, b: Rect, r: Rect)
    requires AllInside(xs, a) && AllInside(ys, b) && Inside(a, r) && Inside(b, r)
    ensures AllInside(xs + ys, r)
  {
    var zs := xs + ys;
    forall i | 0 <= i < |zs| ensures Inside(zs[i], r) {
      if i < |xs| { assert Inside(xs[i], a); } else { assert Inside(ys[i - |xs|], b); }
    }
  }

  /** The allocation tree partitions the atlas. */
  lemma {:induction false} TreePartitions(t: Tree)
    requires Cut(t)
    ensures Partition(Rects(t), t.area)
  {
    if t.Leaf? {
      assert Areas([t.area]) == Area(t.area) + Areas([]);
    } else {
      TreePartitions(t.left);
      TreePartitions(t.right);
      NodePartitions(t);
    }
  }

  lemma CutIs(t: Tree)
    requires t.Node? && Cut(t)
    ensures var c, a, b := Spot(t), t.left.area, t.right.area;
      && Inside(c, t.area) && Inside(a, t.area) && Inside(b, t.area)
      && Apart(c, a) && Apart(c, b) && Apart(a, b)
      && Area(c) + Area(a) + Area(b) == Area(t.area)
  {
    CutPartitions(t.area, t.pw, t.ph);
  }

  lemma NodePartitions(t: Tree)
    requires t.Node? && Cut(t) && Partition(Rects(t.left), t.left.area) && Partition(Rects(t.right), t.right.area)
    ensures Partition(Rects(t), t.area)
  {
    var l, r := Rects(t.left), Rects(t.right);
    CutIs(t);
    assert Rects(t) == [Spot(t)] + (l + r) && (([Spot(t)] + (l + r))[1..] == l + r);
    assert AllApart([Spot(t)]) && AllInside([Spot(t)], t.area);
    hide Cut, Rects, Area, AllApart, AllInside, Inside, Apart;
    JoinInside(l, r, t.left.area, t.right.area, t.area);
    JoinApart(l, r, t.left.area, t.right.area);
    AreasConcat(l, r);
    SpotFirst(t, l, r);
  }

  lemma SpotFirst(t: Tree, l: seq<Rect>, r: seq<Rect>)
    requires t.Node? && Cut(t) && AllInside(l, t.left.area) && AllInside(r, t.right.area)
    requires AllApart(l + r) && AllInside(l + r, t.area)
    ensures AllApart([Spot(t)] + (l + r)) && AllInside([Spot(t)] + (l + r), t.area)
  {
    CutPartitions(t.area, t.pw, t.ph);
    var all := [Spot(t)] + (l + r);
    forall i, j | 0 <= i < j < |all| ensures Apart(all[i], all[j]) {
      if i == 0 {
        if j - 1 < |l| { assert all[j] == l[j - 1]; } else { assert all[j] == r[j - 1 - |l|]; }
      } else {
        assert all[i] == (l + r)[i - 1] && all[j] == (l + r)[j - 1];
      }
    }
    forall i | 0 <= i < |all| ensures Inside(all[i], t.area) {
      if i > 0 { assert all[i] == (l + r)[i - 1]; }
    }
  }

  // ---------------------------------------------------------------------------
  // allocPlace
  // ---------------------------------------------------------------------------

  lemma {:induction false} PlaceKeepsCut(t: Tree, width: nat, height: nat)
    requires Cut(t)
    ensures var p := Place(t, width, height);
      && Cut(p.tree) && p.tree.area == t.area
      && (p.spot.None? ==> p.tree == t)
      && Spots(p.tree) == Spots(t) + (if p.spot.Some? then multiset{p.spot.value} else multiset{})
  {
    hide LeftRest, RightRest, Spots;
    PlaceAddsSpot(t, width, height);
    if t.Node? && Fits(t.area, width, height) {
      PlaceKeepsCut(t.left, width, height);
      PlaceKeepsCut(t.right, width, height);
    }
  }

  lemma {:induction false} PlaceAddsSpot(t: Tree, width: nat, height: nat)
    ensures var p := Place(t, width, height);
      Spots(p.tree) == Spots(t) + (if p.spot.Some? then multiset{p.spot.value} else multiset{})
  {
    hide LeftRest, RightRest;
    var p := Place(t, width, height);
    if t.Node? && Fits(t.area, width, height) {
      PlaceAddsSpot(t.left, width, height);
      PlaceAddsSpot(t.right, width, height);
      assert Spots(p.tree) == multiset{Spot(t)} + Spots(p.tree.left) + Spots(p.tree.right);
    } else if t.Leaf? && Fits(t.area, width, height) {
      assert Spots(p.tree.left) == multiset{} && Spots(p.tree.right) == multiset{};
    }
  }

  lemma {:induction false} FailedPlaceKeeps(t: Tree, width: nat, height: nat)
    ensures Place(t, width, height).spot.None? ==> Place(t, width, height).tree == t
  {
    if t.Node? && Fits(t.area, width, height) {
      FailedPlaceKeeps(t.left, width, height);
      FailedPlaceKeeps(t.right, width, height);
    }
  }

  lemma {:induction false} LeavesInside(t: Tree)
    requires Cut(t)
    ensures AllInside(Leaves(t), t.area)
  {
    if t.Node? {
      LeavesInside(t.left);
      LeavesInside(t.right);
      CutPartitions(t.area, t.pw, t.ph);
      JoinInside(Leaves(t.left), Leaves(t.right), t.left.area, t.right.area, t.area);
    }
  }

  ghost predicate SomeLeafFits(t: Tree, width: nat, height: nat) {
    exists i :: 0 <= i < |Leaves(t)| && Fits(Leaves(t)[i], width, height)
  }

  /** Pruning loses nothing: allocPlace returns NULL exactly when no free leaf anywhere
      in the tree is large enough. */
  lemma {:induction false} PlaceFailsIff(t: Tree, width: nat, height: nat)
    requires Cut(t)
    ensures Place(t, width, height).spot.Some? <==> SomeLeafFits(t, width, height)
  {
    if t.Leaf? {
      assert Leaves(t)[0] == t.area;
    } else {
      PlaceFailsIff(t.left, width, height);
      PlaceFailsIff(t.right, width, height);
      var l, r := Leaves(t.left), Leaves(t.right);
      LeavesInside(t);
      forall i | 0 <= i < |l| && Fits(l[i], width, height) ensures SomeLeafFits(t, width, height) {
        assert Leaves(t)[i] == l[i];
      }
      forall i | 0 <= i < |r| && Fits(r[i], width, height) ensures SomeLeafFits(t, width, height) {
        assert Leaves(t)[|l| + i] == r[i];
      }
      if SomeLeafFits(t, width, height) {
        var i :| 0 <= i < |Leaves(t)| && Fits(Leaves(t)[i], width, height);
        assert Inside(Leaves(t)[i], t.area);
        assert if i < |l| then Leaves(t)[i] == l[i] else Leaves(t)[i] == r[i - |l|];
      }
    }
  }

  /** The new rectangle has the requested size and takes only free space: whatever was
      disjoint from all free leaves is disjoint from it and from the new free leaves. */
  lemma {:induction false} PlaceTakesFree(t: Tree, width: nat, height: nat, s: Rect)
    requires Cut(t) && Place(t, width, height).spot.Some?
    ensures var p := Place(t, width, height);
      && p.spot.value.w == width && p.spot.value.h == height
      && Inside(p.spot.value, t.area)
      && FreeOf(p.spot.value, p.tree)
      && (FreeOf(s, t) ==> Apart(s, p.spot.value) && FreeOf(s, p.tree))
  {
    var p := Place(t, width, height);
    if t.Leaf? {
      TakesLeaf(t, width, height, s);
    } else {
      hide Inside, Apart, FreeOf, Leaves;
      CutPartitions(t.area, t.pw, t.ph);
      var q := if Place(t.left, width, height).spot.Some? then t.left else t.right;
      var o := if Place(t.left, width, height).spot.Some? then t.right else t.left;
      PlaceTakesFree(q, width, height, s);
      FreeOfParts(s, t);
      FreeOfParts(s, p.tree);
      FreeOfParts(p.spot.value, p.tree);
      OtherHalf(p.spot.value, q.area, o, t.area);
    }
  }

  lemma TakesLeaf(t: Tree, width: nat, height: nat, s: Rect)
    requires t.Leaf? && Fits(t.area, width, height)
    ensures var p := Place(t, width, height);
      && Inside(p.spot.value, t.area)
      && FreeOf(p.spot.value, p.tree)
      && (FreeOf(s, t) ==> Apart(s, p.spot.value) && FreeOf(s, p.tree))
  {
    CutPartitions(t.area, width, height);
    var p := Place(t, width, height);
    var l, r := LeftRest(t.area, width, height), RightRest(t.area, width, height);
    assert Leaves(p.tree) == [l, r];
    if FreeOf(s, t) { assert Apart(s, Leaves(t)[0]); }
  }

  /** What is taken from one half is apart from the leaves of the other. */
  lemma OtherHalf(s: Rect, half: Rect, o: Tree, whole: Rect)
    requires Inside(s, half) && Inside(half, whole) && Cut(o) && (Apart(half, o.area) || Apart(o.area, half))
    ensures Inside(s, whole) && FreeOf(s, o)
  {
    hide Leaves;
    LeavesInside(o);
  }

  /** A rectangle disjoint from every free leaf. */
  ghost predicate FreeOf(s: Rect, t: Tree) { forall i :: 0 <= i < |Leaves(t)| ==> Apart(s, Leaves(t)[i]) }

  lemma FreeOfParts(s: Rect, t: Tree)
    requires t.Node?
    ensures FreeOf(s, t) <==> FreeOf(s, t.left) && FreeOf(s, t.right)
  {
    var l, r := Leaves(t.left), Leaves(t.right);
    forall i | 0 <= i < |l| && FreeOf(s, t) ensures Apart(s, l[i]) { assert Leaves(t)[i] == l[i]; }
    forall i | 0 <= i < |r| && FreeOf(s, t) ensures Apart(s, r[i]) { assert Leaves(t)[|l| + i] == r[i]; }
  }

  // ---------------------------------------------------------------------------
  // Runs
  // ---------------------------------------------------------------------------

  /** The tree after any sequence of allocPlace calls on a new atlas. */
  function Run(w: nat, h: nat, sizes: seq<(nat, nat)>): Tree {
    if sizes == [] then Leaf(Rect(0, 0, w, h))
    else
      var size := sizes[|sizes| - 1];
      Place(Run(w, h, sizes[..|sizes| - 1]), size.0, size.1).tree
  }

  lemma {:induction false} RunPartitions(w: nat, h: nat, sizes: seq<(nat, nat)>)
    ensures var t := Run(w, h, sizes); Cut(t) && t.area == Rect(0, 0, w, h) && Partition(Rects(t), Rect(0, 0, w, h))
  {
    if sizes != [] {
      RunPartitions(w, h, sizes[..|sizes| - 1]);
      PlaceKeepsCut(Run(w, h, sizes[..|sizes| - 1]), sizes[|sizes| - 1].0, sizes[|sizes| - 1].1);
    }
    TreePartitions(Run(w, h, sizes));
  }
}
