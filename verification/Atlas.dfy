/** The texture atlas of src/atlas.c: the allocation tree as linked nodes split in
    place, and the row by row copy of pixels into the surface. */
module Atlas {
  import opened Options
  import opened Bytes
  import opened AtlasTree
  import opened AtlasPixels

  /** struct atlas_allocation_t.  `tree` is the value the linked structure stands for. */
  class Alloc {
    const area: Rect
    var leaf1: Alloc?
    var leaf2: Alloc?
    ghost var tree: Tree
    ghost var Repr: set<object>

    ghost predicate Valid()
      reads this, Repr
      ensures Valid() ==> this in Repr
      decreases Repr
    {
      && this in Repr
      && tree.area == area
      && if leaf1 == null && leaf2 == null then tree == Leaf(area)
         else
           && leaf1 != null && leaf2 != null
           && leaf1 in Repr && leaf1.Repr <= Repr && this !in leaf1.Repr
           && leaf2 in Repr && leaf2.Repr <= Repr && this !in leaf2.Repr
           && leaf1.Repr !! leaf2.Repr
           && leaf1.Valid() && leaf2.Valid()
           && tree.Node? && tree.left == leaf1.tree && tree.right == leaf2.tree
    }

    /** allocNew. */
    constructor (r: Rect)
      ensures Valid() && fresh(Repr) && area == r && tree == Leaf(r) && Repr == {this}
    {
      area := r;
      leaf1, leaf2 := null, null;
      tree := Leaf(r);
      Repr := {this};
    }

    /** allocPlace at a free node (lines 57-70). */
    method Split(width: nat, height: nat)
      requires Valid() && leaf1 == null && leaf2 == null && Fits(area, width, height)
      modifies this
      ensures Valid() && fresh(Repr - old(Repr)) && old(Repr) <= Repr
      ensures tree == AtlasTree.Place(old(tree), width, height).tree
    {
      var dx, dy := area.w - width, area.h - height;
      if dx < dy {
        leaf1 := new Alloc(Rect(area.x + width, area.y, dx, height));
        leaf2 := new Alloc(Rect(area.x, area.y + height, area.w, dy));
      } else {
        leaf1 := new Alloc(Rect(area.x, area.y + height, width, dy));
        leaf2 := new Alloc(Rect(area.x + width, area.y, dx, area.h));
      }
      tree := Node(area, width, height, leaf1.tree, leaf2.tree);
      Repr := Repr + leaf1.Repr + leaf2.Repr;
    }

    /** allocPlace. */
    method Place(width: nat, height: nat) returns (p: Alloc?)
      requires Valid()
      modifies Repr
      ensures Valid() && fresh(Repr - old(Repr)) && old(Repr) <= Repr
      ensures tree == AtlasTree.Place(old(tree), width, height).tree
      ensures IsSpot(p, AtlasTree.Place(old(tree), width, height).spot)
      decreases tree, 2
    {
      hide AtlasTree.Place, Fits;
      PlaceCases(tree, width, height);
      if !Fits(area, width, height) {
        return null;
      }
      if leaf1 == null && leaf2 == null {
        Split(width, height);
        return this;
      }
      p := PlaceBelow(width, height);
    }

    /** allocPlace at a divided node (lines 71-80): the first leaf, then the second. */
    method PlaceBelow(width: nat, height: nat) returns (p: Alloc?)
      requires Valid() && leaf1 != null && Fits(area, width, height)
      modifies Repr
      ensures Valid() && fresh(Repr - old(Repr)) && old(Repr) <= Repr
      ensures tree == AtlasTree.Place(old(tree), width, height).tree
      ensures IsSpot(p, AtlasTree.Place(old(tree), width, height).spot)
      decreases tree, 1
    {
      hide AtlasTree.Place, Fits;
      PlaceCases(tree, width, height);
      p := PlaceLeft(width, height);
      if p != null {
        return p;
      }
      FailedPlaceKeeps(old(tree).left, width, height);
      p := PlaceRight(width, height);
    }

    method PlaceLeft(width: nat, height: nat) returns (p: Alloc?)
      requires Valid() && leaf1 != null
      modifies Repr
      ensures Valid() && fresh(Repr - old(Repr)) && old(Repr) <= Repr
      ensures old(tree).Node? && tree == old(tree).(left := AtlasTree.Place(old(tree).left, width, height).tree)
      ensures leaf1 != null && IsSpot(p, AtlasTree.Place(old(tree).left, width, height).spot)
      decreases tree, 0
    {
      hide AtlasTree.Place;
      p := leaf1.Place(width, height);
      tree := tree.(left := leaf1.tree);
      Repr := Repr + leaf1.Repr;
    }

    method PlaceRight(width: nat, height: nat) returns (p: Alloc?)
      requires Valid() && leaf1 != null
      modifies Repr
      ensures Valid() && fresh(Repr - old(Repr)) && old(Repr) <= Repr
      ensures old(tree).Node? && tree == old(tree).(right := AtlasTree.Place(old(tree).right, width, height).tree)
      ensures leaf1 != null && IsSpot(p, AtlasTree.Place(old(tree).right, width, height).spot)
      decreases tree, 0
    {
      hide AtlasTree.Place;
      p := leaf2.Place(width, height);
      tree := tree.(right := leaf2.tree);
      Repr := Repr + leaf2.Repr;
    }

    /** The allocation returned is in the tree, at the spot found. */
    ghost predicate IsSpot(p: Alloc?, spot: Option<Rect>)
      reads this
    {
      if p == null then spot.None?
      else spot.Some? && p in Repr && p.area.x == spot.value.x && p.area.y == spot.value.y
    }
  }

  /** allocPlace, one level down. */
  lemma PlaceCases(t: Tree, width: nat, height: nat)
    ensures !Fits(t.area, width, height) ==> AtlasTree.Place(t, width, height) == Placing(t, None)
    ensures Fits(t.area, width, height) && t.Leaf? ==>
      AtlasTree.Place(t, width, height).spot == Some(Rect(t.area.x, t.area.y, width, height))
    ensures Fits(t.area, width, height) && t.Node? ==>
      var p, q := AtlasTree.Place(t.left, width, height), AtlasTree.Place(t.right, width, height);
      AtlasTree.Place(t, width, height)
        == if p.spot.Some? then Placing(t.(left := p.tree), p.spot) else Placing(t.(right := q.tree), q.spot)
  {
  }

  const GS_PSM_CT32 := 0x00
  const GS_PSM_CT24 := 0x01
  const GS_PSM_CT16 := 0x02
  const GS_PSM_CT16S := 0x0A
  const GS_PSM_T8 := 0x13

  function PixelSize(psm: int): nat {
    if psm == GS_PSM_CT32 then 4
    else if psm == GS_PSM_CT24 then 4
    else if psm == GS_PSM_CT16 then 2
    else if psm == GS_PSM_CT16S then 2
    else if psm == GS_PSM_T8 then 1
    else 0
  }

  /** The rectangles of the images are pairwise apart, inside the atlas, and apart from
      every free leaf. */
  ghost predicate SpritesFit(sprites: seq<Sprite>, t: Tree, ps: nat) {
    && (forall i :: 0 <= i < |sprites| ==>
          Sized(sprites[i], ps) && Inside(Guard(sprites[i]), t.area) && FreeOf(Guard(sprites[i]), t))
    && (forall i, j :: 0 <= i < j < |sprites| ==> Apart(Guard(sprites[i]), Guard(sprites[j])))
  }

  /** Placing keeps that: the new image takes free space only. */
  lemma PlaceKeepsFit(sprites: seq<Sprite>, t: Tree, ps: nat, width: nat, height: nat, pixels: seq<byte>)
    requires SpritesFit(sprites, t, ps) && Cut(t) && ps * width * height <= |pixels|
    requires AtlasTree.Place(t, width + 1, height + 1).spot.Some?
    ensures var p := AtlasTree.Place(t, width + 1, height + 1);
      var n := Sprite(p.spot.value.x, p.spot.value.y, width, height, pixels);
      && SpritesFit(sprites + [n], p.tree, ps) && Guard(n) == p.spot.value && Inside(Guard(n), t.area)
      && p.tree.area == t.area && Cut(p.tree)
      && (forall i :: 0 <= i < |sprites| ==> Apart(Guard(sprites[i]), Guard(n)))
  {
    hide AtlasTree.Place, Cut, FreeOf, Apart, Inside;
    var p := AtlasTree.Place(t, width + 1, height + 1);
    PlaceKeepsCut(t, width + 1, height + 1);
    PlaceTakesFree(t, width + 1, height + 1, p.spot.value);
    forall i | 0 <= i < |sprites|
      ensures Apart(Guard(sprites[i]), p.spot.value) && FreeOf(Guard(sprites[i]), p.tree)
    {
      PlaceTakesFree(t, width + 1, height + 1, Guard(sprites[i]));
    }
  }

  /** atlas_t: the allocation tree, the surface and its format.  `sprites` are the
      images placed so far. */
  class Texture {
    const psm: int
    const width: nat
    const height: nat
    const mem: array<byte>
    const allocation: Alloc
    ghost var sprites: seq<Sprite>
    ghost var Repr: set<object>

    ghost function RowBytes(): nat { PixelSize(psm) * width }

    ghost predicate Valid()
      reads this, Repr
      ensures Valid() ==> this in Repr && allocation in Repr && mem in Repr
    {
      && this in Repr && mem in Repr && allocation in Repr && allocation.Repr <= Repr
      && this !in allocation.Repr && mem !in allocation.Repr
      && allocation.Valid() && Cut(allocation.tree)
      && allocation.tree.area == allocation.area == Rect(0, 0, width, height)
      && SpritesFit(sprites, allocation.tree, PixelSize(psm))
      && Sheet(mem[..], RowBytes(), height, sprites, PixelSize(psm))
    }

    /** atlasNew, with the surface size gsKit_texture_size computed. */
    constructor (width: nat, height: nat, psm: int, size: nat)
      requires PixelSize(psm) * width * height <= size
      ensures Valid() && fresh(Repr) && sprites == []
      ensures this.width == width && this.height == height && this.psm == psm && mem.Length == size
    {
      this.psm, this.width, this.height := psm, width, height;
      var a := new Alloc(Rect(0, 0, width, height));
      allocation := a;
      mem := new byte[size](_ => 0);
      sprites := [];
      new;
      Repr := {this, mem} + allocation.Repr;
      forall y: nat, x: nat | y < height && x < RowBytes() ensures IsBlank(mem[..], RowBytes(), y, x) {
        RowIn(mem[..], RowBytes(), height, y);
      }
    }

    /** atlasCopyData. */
    method CopyData(ghost n: Sprite, x: nat, y: nat, w: nat, h: nat, surface: seq<byte>)
      requires n == Sprite(x, y, w, h, surface) && Sized(n, PixelSize(psm))
      requires RowBytes() * height <= mem.Length
      requires x + w <= width && y + h <= height
      modifies mem
      ensures Copied(old(mem[..]), mem[..], RowBytes(), height, n, PixelSize(psm), h)
    {
      var ps := PixelSize(psm);
      ghost var m := mem[..];
      CopyStarts(m, RowBytes(), height, n, ps);
      if ps == 0 {
        CopyNothing(m, RowBytes(), height, n, h);
        return;
      }
      var data, src := ps * (y * width + x), 0;
      var row := 0;
      RowAtFirst(width, n, ps);
      ColumnsFit(n, ps, width);
      hide *;
      while row < h
        invariant 0 <= row <= h
        invariant Copied(m, mem[..], ps * width, height, n, ps, row)
        invariant data == RowAt(ps * width, n, ps, row) && src == ps * w * row
      {
        CopyRow(m, mem[..], ps * width, height, n, ps, row);
        SpriteRowNext(n, ps, row);
        RowAtNext(ps * width, n, ps, row);
        Memcpy(mem, data, surface[src..src + w * ps]);
        data := data + ps * width;
        src := src + ps * w;
        row := row + 1;
      }
    }

    /** atlasPlace; a missing surface is None. */
    method Place(w: nat, h: nat, surface: Option<seq<byte>>) returns (al: Alloc?)
      requires Valid() && (surface.Some? ==> PixelSize(psm) * w * h <= |surface.value|)
      modifies Repr
      ensures Valid() && fresh(Repr - old(Repr)) && old(Repr) <= Repr
      ensures al == null ==>
        sprites == old(sprites) && mem[..] == old(mem[..]) && allocation.tree == old(allocation.tree)
      ensures al != null ==>
        surface.Some? && sprites == old(sprites) + [Sprite(al.area.x, al.area.y, w, h, surface.value)]
      ensures al == null <==> surface.None? || !SomeLeafFits(old(allocation.tree), w + 1, h + 1)
    {
      if surface.None? {
        return null;
      }
      ghost var t := allocation.tree;
      PlaceFailsIff(t, w + 1, h + 1);
      FailedPlaceKeeps(t, w + 1, h + 1);
      al := allocation.Place(w + 1, h + 1);
      Repr := Repr + allocation.Repr;
      if al == null {
        return null;
      }
      PlaceKeepsFit(sprites, t, PixelSize(psm), w, h, surface.value);
      ghost var n := Sprite(al.area.x, al.area.y, w, h, surface.value);
      ghost var m := mem[..];
      CopyData(n, al.area.x, al.area.y, w, h, surface.value);
      CopyAdds(m, mem[..], RowBytes(), height, sprites, n, PixelSize(psm));
      sprites := sprites + [n];
    }
  }
}
