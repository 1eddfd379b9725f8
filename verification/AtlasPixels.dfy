/** The surface of an atlas as rows of bytes, and what copying an image into it does. */
module AtlasPixels {
  import opened Arithmetic
  import opened Bytes
  import opened AtlasTree

  /** An image at pixel (x, y) of an atlas; its bytes row by row. */
  datatype Sprite = Sprite(x: nat, y: nat, w: nat, h: nat, pixels: seq<byte>)

  /** Row y lies in a surface of `size` bytes. */
  predicate HasRow(size: nat, rb: nat, y: nat) { rb * (y + 1) <= size }

  /** Byte x of row y of a surface with rb bytes a row. */
  function Cell(m: seq<byte>, rb: nat, y: nat, x: nat): byte
    requires x < rb && HasRow(|m|, rb, y)
  {
    m[rb * y + x]
  }

  /** Row y of a surface of h rows lies in the surface. */
  lemma RowIn(m: seq<byte>, rb: nat, h: nat, y: nat)
    requires rb * h <= |m| && y < h
    ensures HasRow(|m|, rb, y)
  {
    MulLe(rb, y + 1, h);
  }

  /** Storing bytes inside row y0 changes those cells only. */
  lemma WriteCell(m: seq<byte>, rb: nat, y0: nat, x0: nat, src: seq<byte>, y: nat, x: nat)
    requires x0 + |src| <= rb && x < rb && HasRow(|m|, rb, y0) && HasRow(|m|, rb, y)
    ensures rb * y0 + x0 + |src| <= |m|
    ensures Cell(Write(m, rb * y0 + x0, src), rb, y, x)
         == if y == y0 && x0 <= x < x0 + |src| then src[x - x0] else Cell(m, rb, y, x)
  {
    if y < y0 { MulLe(rb, y + 1, y0); } else if y > y0 { MulLe(rb, y0 + 1, y); }
  }

  /** The byte columns an image of w pixels at pixel column x occupies. */
  predicate Covers(s: Sprite, ps: nat, y: nat, x: nat) {
    ps * s.x <= x < ps * s.x + ps * s.w && s.y <= y < s.y + s.h
  }

  predicate Sized(s: Sprite, ps: nat) { ps * s.w * s.h <= |s.pixels| }

  lemma SpriteRowIn(s: Sprite, ps: nat, dy: nat)
    requires Sized(s, ps) && dy < s.h
    ensures ps * s.w * (dy + 1) <= |s.pixels|
  {
    MulLe(ps * s.w, dy + 1, s.h);
  }

  /** The byte of the image that belongs at byte x of row y. */
  function SpriteCell(s: Sprite, ps: nat, y: nat, x: nat): byte
    requires Sized(s, ps) && Covers(s, ps, y, x)
  {
    SpriteRowIn(s, ps, y - s.y);
    Cell(s.pixels, ps * s.w, y - s.y, x - ps * s.x)
  }

  /** Cell x of row y after the first k rows of the image were copied in. */
  predicate CellCopied(m: seq<byte>, m': seq<byte>, rb: nat, s: Sprite, ps: nat, k: nat, y: nat, x: nat)
    requires Sized(s, ps) && |m'| == |m|
  {
    && x < rb && HasRow(|m|, rb, y)
    && Cell(m', rb, y, x) == if Covers(s, ps, y, x) && y < s.y + k then SpriteCell(s, ps, y, x) else Cell(m, rb, y, x)
  }

  /** m' is m with the first k rows of the image copied in. */
  ghost predicate Copied(m: seq<byte>, m': seq<byte>, rb: nat, h: nat, s: Sprite, ps: nat, k: nat) {
    && |m'| == |m| && rb * h <= |m| && Sized(s, ps)
    && (forall y: nat, x: nat :: y < h && x < rb ==> CellCopied(m, m', rb, s, ps, k, y, x))
    && m'[rb * h..] == m[rb * h..]
  }

  lemma CopyStarts(m: seq<byte>, rb: nat, h: nat, s: Sprite, ps: nat)
    requires rb * h <= |m| && Sized(s, ps)
    ensures Copied(m, m, rb, h, s, ps, 0)
  {
    forall y: nat, x: nat | y < h && x < rb ensures CellCopied(m, m, rb, s, ps, 0, y, x) { RowIn(m, rb, h, y); }
  }

  lemma CopyNothing(m: seq<byte>, rb: nat, h: nat, s: Sprite, k: nat)
    requires rb * h <= |m|
    ensures Copied(m, m, rb, h, s, 0, k)
  {
    forall y: nat, x: nat | y < h && x < rb ensures CellCopied(m, m, rb, s, 0, k, y, x) { RowIn(m, rb, h, y); }
  }

  /** Row k of an image, as a slice of its bytes. */
  function SpriteRow(s: Sprite, ps: nat, k: nat): (row: seq<byte>)
    requires Sized(s, ps) && k < s.h
    ensures |row| == ps * s.w
  {
    SpriteRowIn(s, ps, k);
    s.pixels[ps * s.w * k..ps * s.w * (k + 1)]
  }

  lemma SpriteRowCell(s: Sprite, ps: nat, k: nat, x: nat)
    requires Sized(s, ps) && k < s.h && ps * s.x <= x < ps * s.x + ps * s.w
    ensures Covers(s, ps, s.y + k, x) && SpriteRow(s, ps, k)[x - ps * s.x] == SpriteCell(s, ps, s.y + k, x)
  {
    SpriteRowIn(s, ps, k);
  }

  /** Where row k of the image goes. */
  function RowAt(rb: nat, s: Sprite, ps: nat, k: nat): nat { rb * (s.y + k) + ps * s.x }

  lemma RowAtFirst(w: nat, s: Sprite, ps: nat)
    ensures RowAt(ps * w, s, ps, 0) == ps * (s.y * w + s.x)
  {
  }

  lemma RowAtNext(rb: nat, s: Sprite, ps: nat, k: nat)
    ensures RowAt(rb, s, ps, k + 1) == RowAt(rb, s, ps, k) + rb
  {
  }

  lemma SpriteRowNext(s: Sprite, ps: nat, k: nat)
    requires Sized(s, ps) && k < s.h
    ensures 0 <= ps * s.w * k <= ps * s.w * k + s.w * ps <= |s.pixels|
    ensures s.pixels[ps * s.w * k..ps * s.w * k + s.w * ps] == SpriteRow(s, ps, k)
    ensures ps * s.w * k + ps * s.w == ps * s.w * (k + 1)
  {
    SpriteRowIn(s, ps, k);
  }

  lemma ColumnsFit(s: Sprite, ps: nat, w: nat)
    requires s.x + s.w <= w
    ensures ps * s.x + ps * s.w <= ps * w
  {
    MulLe(ps, s.x + s.w, w);
  }

  lemma RowFits(m: seq<byte>, rb: nat, h: nat, s: Sprite, ps: nat, k: nat)
    requires rb * h <= |m| && k < s.h && s.y + s.h <= h && ps * s.x + ps * s.w <= rb
    ensures RowAt(rb, s, ps, k) + ps * s.w <= rb * h
    ensures HasRow(|m|, rb, s.y + k)
  {
    MulLe(rb, s.y + k + 1, h);
  }

  lemma CopyCell(m: seq<byte>, m': seq<byte>, rb: nat, s: Sprite, ps: nat, k: nat, y: nat, x: nat)
    requires Sized(s, ps) && k < s.h && |m'| == |m| && ps * s.x + ps * s.w <= rb
    requires HasRow(|m|, rb, s.y + k) && RowAt(rb, s, ps, k) + ps * s.w <= |m|
    requires CellCopied(m, m', rb, s, ps, k, y, x)
    ensures CellCopied(m, Write(m', RowAt(rb, s, ps, k), SpriteRow(s, ps, k)), rb, s, ps, k + 1, y, x)
  {
    var x0, row := ps * s.x, SpriteRow(s, ps, k);
    WriteCell(m', rb, s.y + k, x0, row, y, x);
    if x0 <= x < x0 + |row| { SpriteRowCell(s, ps, k, x); }
  }

  lemma CopyRow(m: seq<byte>, m': seq<byte>, rb: nat, h: nat, s: Sprite, ps: nat, k: nat)
    requires Copied(m, m', rb, h, s, ps, k) && k < s.h && s.y + s.h <= h && ps * s.x + ps * s.w <= rb
    ensures RowAt(rb, s, ps, k) + ps * s.w <= |m|
    ensures Copied(m, Write(m', RowAt(rb, s, ps, k), SpriteRow(s, ps, k)), rb, h, s, ps, k + 1)
  {
    hide Cell;
    hide Write;
    hide SpriteRow;
    hide SpriteCell;
    hide HasRow;
    hide RowAt;
    hide CellCopied;
    hide Covers;
    RowFits(m, rb, h, s, ps, k);
    WriteApart(m', RowAt(rb, s, ps, k), SpriteRow(s, ps, k), rb * h, |m'|);
    var m2, k' := Write(m', RowAt(rb, s, ps, k), SpriteRow(s, ps, k)), k + 1;
    forall y: nat, x: nat | y < h && x < rb ensures CellCopied(m, m2, rb, s, ps, k', y, x) {
      CopyCell(m, m', rb, s, ps, k, y, x);
    }
  }

  // ---------------------------------------------------------------------------
  // A sheet of sprites
  // ---------------------------------------------------------------------------

  /** The rectangle allocated for an image: one pixel wider and higher. */
  function Guard(s: Sprite): Rect { Rect(s.x, s.y, s.w + 1, s.h + 1) }

  ghost predicate Shows(m: seq<byte>, rb: nat, h: nat, s: Sprite, ps: nat) {
    && rb * h <= |m| && Sized(s, ps)
    && forall y: nat, x: nat :: y < h && x < rb && Covers(s, ps, y, x) ==>
         HasRow(|m|, rb, y) && Cell(m, rb, y, x) == SpriteCell(s, ps, y, x)
  }

  ghost predicate Uncovered(sprites: seq<Sprite>, ps: nat, y: nat, x: nat) {
    forall i :: 0 <= i < |sprites| ==> !Covers(sprites[i], ps, y, x)
  }

  predicate IsBlank(m: seq<byte>, rb: nat, y: nat, x: nat) {
    x < rb && HasRow(|m|, rb, y) && Cell(m, rb, y, x) == 0
  }

  /** Every image is intact and everything else is zero. */
  ghost predicate Sheet(m: seq<byte>, rb: nat, h: nat, sprites: seq<Sprite>, ps: nat) {
    && rb * h <= |m|
    && (forall i :: 0 <= i < |sprites| ==> Shows(m, rb, h, sprites[i], ps))
    && (forall y: nat, x: nat :: y < h && x < rb && Uncovered(sprites, ps, y, x) ==> IsBlank(m, rb, y, x))
  }

  /** Images whose allocated rectangles are apart share no byte. */
  lemma ApartCovers(s: Sprite, t: Sprite, ps: nat, y: nat, x: nat)
    requires Apart(Guard(s), Guard(t)) && Covers(s, ps, y, x)
    ensures !Covers(t, ps, y, x)
  {
    if s.x + s.w + 1 <= t.x { MulLe(ps, s.x + s.w, t.x); }
    if t.x + t.w + 1 <= s.x { MulLe(ps, t.x + t.w, s.x); }
  }

  lemma CopyShows(m: seq<byte>, m': seq<byte>, rb: nat, h: nat, s: Sprite, n: Sprite, ps: nat)
    requires Copied(m, m', rb, h, n, ps, n.h) && Shows(m, rb, h, s, ps) && Apart(Guard(s), Guard(n))
    ensures Shows(m', rb, h, s, ps)
  {
    forall y: nat, x: nat | y < h && x < rb && Covers(s, ps, y, x)
      ensures HasRow(|m'|, rb, y) && Cell(m', rb, y, x) == SpriteCell(s, ps, y, x)
    {
      ApartCovers(s, n, ps, y, x);
      assert CellCopied(m, m', rb, n, ps, n.h, y, x);
      assert Cell(m, rb, y, x) == SpriteCell(s, ps, y, x);
    }
  }

  lemma UncoveredParts(sprites: seq<Sprite>, n: Sprite, ps: nat, y: nat, x: nat)
    requires Uncovered(sprites + [n], ps, y, x)
    ensures Uncovered(sprites, ps, y, x) && !Covers(n, ps, y, x)
  {
    var all := sprites + [n];
    assert !Covers(all[|sprites|], ps, y, x);
    forall i | 0 <= i < |sprites| ensures !Covers(sprites[i], ps, y, x) { assert !Covers(all[i], ps, y, x); }
  }

  lemma CopyAdds(m: seq<byte>, m': seq<byte>, rb: nat, h: nat, sprites: seq<Sprite>, n: Sprite, ps: nat)
    requires Copied(m, m', rb, h, n, ps, n.h) && Sheet(m, rb, h, sprites, ps)
    requires forall i :: 0 <= i < |sprites| ==> Apart(Guard(sprites[i]), Guard(n))
    ensures Sheet(m', rb, h, sprites + [n], ps)
  {
    var all := sprites + [n];
    forall i | 0 <= i < |all| ensures Shows(m', rb, h, all[i], ps) {
      if i < |sprites| { CopyShows(m, m', rb, h, sprites[i], n, ps); } else { CopyShowsNew(m, m', rb, h, n, ps); }
    }
    forall y: nat, x: nat | y < h && x < rb && Uncovered(all, ps, y, x) ensures IsBlank(m', rb, y, x) {
      UncoveredParts(sprites, n, ps, y, x);
      CopyBlank(m, m', rb, n, ps, y, x);
    }
  }

  lemma CopyShowsNew(m: seq<byte>, m': seq<byte>, rb: nat, h: nat, n: Sprite, ps: nat)
    requires Copied(m, m', rb, h, n, ps, n.h)
    ensures Shows(m', rb, h, n, ps)
  {
    forall y: nat, x: nat | y < h && x < rb && Covers(n, ps, y, x)
      ensures HasRow(|m'|, rb, y) && Cell(m', rb, y, x) == SpriteCell(n, ps, y, x)
    {
      assert CellCopied(m, m', rb, n, ps, n.h, y, x);
    }
  }

  lemma CopyBlank(m: seq<byte>, m': seq<byte>, rb: nat, n: Sprite, ps: nat, y: nat, x: nat)
    requires Sized(n, ps) && |m'| == |m| && CellCopied(m, m', rb, n, ps, n.h, y, x)
    requires !Covers(n, ps, y, x) && IsBlank(m, rb, y, x)
    ensures IsBlank(m', rb, y, x)
  {
  }

  lemma GutterUncovered(s: Sprite, t: Sprite, ps: nat, y: nat, px: nat, c: nat)
    requires c < ps && s.x <= px <= s.x + s.w && s.y <= y <= s.y + s.h && (px == s.x + s.w || y == s.y + s.h)
    requires t == s || Apart(Guard(t), Guard(s))
    ensures !Covers(t, ps, y, ps * px + c)
  {
    if t.x + t.w <= px {
      MulLe(ps, t.x + t.w, px);
    } else if px + 1 <= t.x {
      MulLe(ps, px + 1, t.x);
    }
  }

  /** The gutter of an image, one pixel to the right and one below, is zero. */
  lemma GutterIsZero(m: seq<byte>, rb: nat, h: nat, sprites: seq<Sprite>, ps: nat, k: nat, y: nat, px: nat, c: nat)
    requires Sheet(m, rb, h, sprites, ps) && k < |sprites| && c < ps
    requires forall i :: 0 <= i < |sprites| && i != k ==> Apart(Guard(sprites[i]), Guard(sprites[k]))
    requires var s := sprites[k];
      s.x <= px <= s.x + s.w && s.y <= y <= s.y + s.h && (px == s.x + s.w || y == s.y + s.h)
    requires y < h && ps * px + c < rb
    ensures HasRow(|m|, rb, y) && Cell(m, rb, y, ps * px + c) == 0
  {
    forall i | 0 <= i < |sprites| ensures !Covers(sprites[i], ps, y, ps * px + c) {
      GutterUncovered(sprites[k], sprites[i], ps, y, px, c);
    }
    assert Uncovered(sprites, ps, y, ps * px + c);
  }
}
