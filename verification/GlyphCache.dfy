/** The glyph cache of src/fntsys.c: pages of 256 entries grown on demand, filled from
    up to four atlases.  FreeType is a function from code points to rendered glyphs. */
module GlyphCache {
  import opened Options
  import opened Bytes
  import opened AtlasTree
  import opened AtlasPixels
  import opened Atlas

  const ATLAS_MAX := 4
  const ATLAS_WIDTH := 256
  const ATLAS_HEIGHT := 256
  const GLYPH_CACHE_PAGE_SIZE := 256

  /** FT_GlyphSlot after FT_Load_Char with FT_LOAD_RENDER. */
  datatype Slot = Slot(width: nat, rows: nat, buffer: seq<byte>, advanceX: int, advanceY: int, left: int, top: int)

  predicate Rendered(slot: Slot) { slot.width * slot.rows <= |slot.buffer| }

  /** fnt_glyph_cache_entry_t. */
  datatype Entry = Entry(isValid: bool, width: nat, height: nat, ox: int, oy: int, shx: int, shy: int,
                         atlas: Texture?, allocation: Alloc?)

  const EMPTY := Entry(false, 0, 0, 0, 0, 0, 0, null, null)

  /** The entry has the metrics of a fresh rendering. */
  predicate Agrees(e: Entry, slot: Slot) {
    && e.width == slot.width && e.height == slot.rows
    && e.shx == slot.advanceX && e.shy == slot.advanceY
    && e.ox == slot.left && e.oy == -slot.top
  }

  /** The bitmap of a fresh rendering, where the entry says it is in the atlas. */
  predicate Drawn(e: Entry, slot: Slot, sprites: seq<Sprite>)
  {
    && e.allocation != null
    && Sprite(e.allocation.area.x, e.allocation.area.y, slot.width, slot.rows, slot.buffer) in sprites
  }

  /** An atlas of a font and the images in it; None for an unused slot. */
  datatype Shot = NoAtlas | Shot(atlas: Texture, sprites: seq<Sprite>)

  /** A valid entry agrees with a fresh rendering, metrics and bitmap. */
  ghost predicate EntryOk(e: Entry, rendering: Option<Slot>, shots: seq<Shot>) {
    e.isValid ==>
      && rendering.Some? && Agrees(e, rendering.value)
      && (rendering.value.width == 0 || rendering.value.rows == 0 || InAtlas(e, rendering.value, shots))
  }

  ghost predicate InAtlas(e: Entry, slot: Slot, shots: seq<Shot>) {
    exists a :: 0 <= a < |shots| && shots[a].Shot? && shots[a].atlas == e.atlas && Drawn(e, slot, shots[a].sprites)
  }

  /** No atlas went away and none lost an image. */
  ghost predicate Grew(before: seq<Shot>, after: seq<Shot>) {
    |before| == |after| && forall a :: 0 <= a < |before| && before[a].Shot? ==>
      after[a].Shot? && after[a].atlas == before[a].atlas && before[a].sprites <= after[a].sprites
  }

  /** Entries stay right while atlases only gain images. */
  lemma EntryKept(e: Entry, rendering: Option<Slot>, before: seq<Shot>, after: seq<Shot>)
    requires EntryOk(e, rendering, before) && Grew(before, after)
    ensures EntryOk(e, rendering, after)
  {
    if e.isValid && rendering.value.width != 0 && rendering.value.rows != 0 {
      var a :| 0 <= a < |before| && before[a].Shot? && before[a].atlas == e.atlas
        && Drawn(e, rendering.value, before[a].sprites);
      assert after[a].Shot? && Drawn(e, rendering.value, after[a].sprites);
    }
  }

  class Font {
    var glyphCache: seq<array?<Entry>>
    var cacheMaxPageID: int
    const atlases: array<Texture?>
    const face: nat -> Option<Slot>
    ghost var Repr: set<object>

    ghost predicate PagesOk()
      reads this
    {
      && |glyphCache| == cacheMaxPageID + 1
      && (forall p :: 0 <= p < |glyphCache| && glyphCache[p] != null ==>
            glyphCache[p] in Repr && glyphCache[p].Length == GLYPH_CACHE_PAGE_SIZE)
      && (forall p, q :: 0 <= p < q < |glyphCache| && glyphCache[p] != null ==> glyphCache[p] != glyphCache[q])
    }

    ghost predicate AtlasOk(a: nat)
      requires a < atlases.Length
      reads this, Repr, atlases
    {
      atlases[a] != null ==>
        var t: Texture := atlases[a];
        && t in Repr && t.Repr <= Repr && this !in t.Repr && atlases !in t.Repr
        && t.Valid() && t.width == ATLAS_WIDTH && t.height == ATLAS_HEIGHT && t.psm == GS_PSM_T8
    }

    /** Atlas slot a holds an atlas. */
    ghost predicate Used(a: nat)
      requires a < atlases.Length
      reads this, atlases
    {
      atlases[a] != null && atlases[a] in Repr
    }

    ghost predicate Separate()
      reads this, Repr, atlases
    {
      && (forall a, b :: 0 <= a < b < atlases.Length && Used(a) && Used(b) ==> atlases[a].Repr !! atlases[b].Repr)
      && (forall a, p :: 0 <= a < atlases.Length && Used(a) && 0 <= p < |glyphCache| && glyphCache[p] != null ==>
            glyphCache[p] !in atlases[a].Repr)
    }

    ghost function ShotOf(a: nat): Shot
      requires a < atlases.Length
      reads this, Repr, atlases
    {
      if Used(a) then Shot(atlases[a], atlases[a].sprites) else NoAtlas
    }

    ghost function Shots(): (shots: seq<Shot>)
      requires atlases.Length == ATLAS_MAX
      reads this, Repr, atlases
    {
      [ShotOf(0), ShotOf(1), ShotOf(2), ShotOf(3)]
    }

    ghost predicate EntriesOk()
      requires PagesOk() && atlases.Length == ATLAS_MAX
      reads this, Repr, atlases
    {
      forall p, i :: 0 <= p < |glyphCache| && glyphCache[p] != null && 0 <= i < GLYPH_CACHE_PAGE_SIZE ==>
        EntryOk(glyphCache[p][i], face(GLYPH_CACHE_PAGE_SIZE * p + i), Shots())
    }

    ghost predicate Valid()
      reads this, Repr, atlases
      ensures Valid() ==> this in Repr
    {
      && this in Repr && atlases in Repr && atlases.Length == ATLAS_MAX
      && PagesOk()
      && (forall a :: 0 <= a < ATLAS_MAX ==> AtlasOk(a))
      && Separate()
      && EntriesOk()
      && forall g :: face(g).Some? ==> Rendered(face(g).value)
    }

    /** Atlas a exists and no free leaf of it, anywhere, takes the glyph and its gutter. */
    ghost predicate NoRoom(a: nat, slot: Slot)
      requires a < atlases.Length
      reads this, Repr, atlases
    {
      Used(a) && AtlasOk(a) && !SomeLeafFits(atlases[a].allocation.tree, slot.width + 1, slot.rows + 1)
    }

    /** The cached entry of a code point. */
    ghost function Lookup(g: nat): Option<Entry>
      requires PagesOk()
      reads this, Repr, atlases
    {
      var p, i := g / GLYPH_CACHE_PAGE_SIZE, g % GLYPH_CACHE_PAGE_SIZE;
      if p < |glyphCache| && glyphCache[p] != null && glyphCache[p][i].isValid then Some(glyphCache[p][i]) else None
    }

    /** fntInitSlot. */
    constructor (face: nat -> Option<Slot>)
      requires forall g :: face(g).Some? ==> Rendered(face(g).value)
      ensures Valid() && fresh(Repr) && this.face == face
      ensures forall g :: Lookup(g) == None
    {
      this.face := face;
      glyphCache, cacheMaxPageID := [], -1;
      var slots := new Texture?[ATLAS_MAX](_ => null);
      atlases := slots;
      Repr := {this, slots};
    }

    /** fntPrepareGlyphCachePage, lines 142-155: the page table is grown. */
    method GrowTable(pageid: nat)
      requires Valid()
      modifies this
      ensures Valid() && Repr == old(Repr) && pageid < |glyphCache|
      ensures forall g :: Lookup(g) == old(Lookup(g))
    {
      if pageid as int > cacheMaxPageID {
        glyphCache := glyphCache + seq(pageid - cacheMaxPageID, _ => null);
        cacheMaxPageID := pageid;
        forall a | 0 <= a < ATLAS_MAX ensures AtlasOk(a) {
          if atlases[a] != null { assert old(AtlasOk(a)) && old(atlases[a].Valid()); }
        }
      }
    }

    /** fntPrepareGlyphCachePage; memory is never exhausted. */
    method PreparePage(pageid: nat)
      requires Valid()
      modifies this
      ensures Valid() && fresh(Repr - old(Repr)) && old(Repr) <= Repr
      ensures pageid < |glyphCache| && glyphCache[pageid] != null
      ensures forall g :: Lookup(g) == old(Lookup(g))
    {
      hide Texture.Valid, InAtlas, Rendered;
      GrowTable(pageid);
      if glyphCache[pageid] != null {
        return;
      }
      var page := new Entry[GLYPH_CACHE_PAGE_SIZE](_ => EMPTY);
      SetPage(pageid, page);
    }

    method SetPage(pageid: nat, page: array<Entry>)
      requires Valid() && pageid < |glyphCache| && glyphCache[pageid] == null
      requires page !in Repr && page.Length == GLYPH_CACHE_PAGE_SIZE
      requires forall i :: 0 <= i < page.Length ==> page[i] == EMPTY
      modifies this
      ensures Valid() && Repr == old(Repr) + {page} && glyphCache == old(glyphCache)[pageid := page]
      ensures forall g :: Lookup(g) == old(Lookup(g))
    {
      hide Texture.Valid, InAtlas, Rendered;
      forall a | 0 <= a < ATLAS_MAX && atlases[a] != null ensures atlases[a].Repr <= Repr {
        assert AtlasOk(a);
      }
      glyphCache := glyphCache[pageid := page];
      Repr := Repr + {page};
      forall a | 0 <= a < ATLAS_MAX ensures AtlasOk(a) {
        if atlases[a] != null { assert old(AtlasOk(a)) && old(atlases[a].Valid()); }
      }
    }

    /** The entries stay right when atlases only grow. */
    lemma EntriesKept(before: seq<Shot>)
      requires PagesOk() && atlases.Length == ATLAS_MAX && Grew(before, Shots())
      requires forall p, i :: 0 <= p < |glyphCache| && glyphCache[p] != null && 0 <= i < GLYPH_CACHE_PAGE_SIZE ==>
        EntryOk(glyphCache[p][i], face(GLYPH_CACHE_PAGE_SIZE * p + i), before)
      ensures EntriesOk()
    {
      hide EntryOk;
      forall p, i | 0 <= p < |glyphCache| && glyphCache[p] != null && 0 <= i < GLYPH_CACHE_PAGE_SIZE
        ensures EntryOk(glyphCache[p][i], face(GLYPH_CACHE_PAGE_SIZE * p + i), Shots())
      {
        EntryKept(glyphCache[p][i], face(GLYPH_CACHE_PAGE_SIZE * p + i), before, Shots());
      }
    }

    /** fntNewAtlas for an unused slot. */
    method NewAtlas(aid: nat)
      requires Valid() && aid < ATLAS_MAX && atlases[aid] == null
      modifies this, atlases
      ensures Valid() && fresh(Repr - old(Repr)) && old(Repr) <= Repr && glyphCache == old(glyphCache)
      ensures Grew(old(Shots()), Shots()) && Used(aid)
      ensures forall a, slot :: 0 <= a < ATLAS_MAX && a != aid && old(NoRoom(a, slot)) ==> NoRoom(a, slot)
    {
      hide Texture.Valid, EntryOk, Rendered, SomeLeafFits, NoRoom, Grew;
      var t := new Texture(ATLAS_WIDTH, ATLAS_HEIGHT, GS_PSM_T8, ATLAS_WIDTH * ATLAS_HEIGHT);
      label built:
      forall a | 0 <= a < ATLAS_MAX ensures AtlasOk(a) {
        if atlases[a] != null { assert old(AtlasOk(a)) && old(atlases[a].Valid()); }
      }
      assert Shots() == old(Shots());
      SetAtlas(aid, t);
      forall a, slot | 0 <= a < ATLAS_MAX && a != aid && old(NoRoom(a, slot)) ensures NoRoom(a, slot) {
        assert old@built(NoRoom(a, slot));
      }
    }

    method SetAtlas(aid: nat, t: Texture)
      requires Valid() && aid < ATLAS_MAX && atlases[aid] == null
      requires t.Valid() && t.width == ATLAS_WIDTH && t.height == ATLAS_HEIGHT && t.psm == GS_PSM_T8
      requires t !in Repr && t.Repr !! Repr
      modifies this, atlases
      ensures Valid() && Repr == old(Repr) + t.Repr && glyphCache == old(glyphCache)
      ensures Grew(old(Shots()), Shots()) && Used(aid)
      ensures forall a, slot :: 0 <= a < ATLAS_MAX && a != aid && old(NoRoom(a, slot)) ==> NoRoom(a, slot)
    {
      hide Texture.Valid, EntryOk, Rendered, SomeLeafFits;
      ghost var before := Shots();
      forall a | 0 <= a < ATLAS_MAX && atlases[a] != null
        ensures Used(a) && atlases[a].Repr <= Repr && atlases[a].Repr !! t.Repr
      {
        assert AtlasOk(a);
      }
      atlases[aid] := t;
      Repr := Repr + t.Repr;
      forall a | 0 <= a < ATLAS_MAX ensures AtlasOk(a) {
        if atlases[a] != null && a != aid { assert old(AtlasOk(a)) && old(atlases[a].Valid()); }
      }
      assert Grew(before, Shots());
      EntriesKept(before);
    }

    /** fntGlyphAtlasPlace, lines 401-407: one atlas is tried, after it was created if
        this slot is new. */
    method TryAtlas(aid: nat, slot: Slot) returns (al: Alloc?)
      requires Valid() && aid < ATLAS_MAX && Rendered(slot)
      modifies Repr
      ensures Valid() && fresh(Repr - old(Repr)) && old(Repr) <= Repr && glyphCache == old(glyphCache)
      ensures forall p :: 0 <= p < |glyphCache| && glyphCache[p] != null ==> glyphCache[p][..] == old(glyphCache[p][..])
      ensures Grew(old(Shots()), Shots()) && Used(aid)
      ensures al == null ==> NoRoom(aid, slot)
      ensures forall a :: 0 <= a < ATLAS_MAX && a != aid && old(NoRoom(a, slot)) ==> NoRoom(a, slot)
      ensures al != null ==> Sprite(al.area.x, al.area.y, slot.width, slot.rows, slot.buffer) in atlases[aid].sprites
    {
      assert AtlasOk(aid);
      if atlases[aid] == null {
        NewAtlas(aid);
      }
      assert AtlasOk(aid);
      assert forall p :: 0 <= p < |glyphCache| && glyphCache[p] != null ==> glyphCache[p] !in atlases[aid].Repr;
      label ready:
      al := PlaceIn(aid, slot);
      forall a | 0 <= a < ATLAS_MAX && a != aid && old(NoRoom(a, slot)) ensures NoRoom(a, slot) {
        assert old@ready(NoRoom(a, slot)) && AtlasOk(a) && Used(a);
      }
    }

    method PlaceIn(aid: nat, slot: Slot) returns (al: Alloc?)
      requires Valid() && aid < ATLAS_MAX && Used(aid) && Rendered(slot)
      modifies this`Repr, atlases[aid].Repr
      ensures Valid() && fresh(Repr - old(Repr)) && old(Repr) <= Repr
      ensures Grew(old(Shots()), Shots()) && Used(aid)
      ensures al == null ==> NoRoom(aid, slot)
      ensures al != null ==> Sprite(al.area.x, al.area.y, slot.width, slot.rows, slot.buffer) in atlases[aid].sprites
    {
      hide Texture.Valid, EntryOk, SomeLeafFits, Grew;
      ghost var before := Shots();
      assert AtlasOk(aid);
      assert forall p :: 0 <= p < |glyphCache| && glyphCache[p] != null ==> glyphCache[p] !in atlases[aid].Repr;
      al := PlaceInAtlas(aid, slot);
      assert Separate();
      hide AtlasOk, Separate, NoRoom, Rendered, Shots, Used;
      EntriesKept(before);
    }

    /** The same but for the entries, which point into the atlases. */
    method PlaceInAtlas(aid: nat, slot: Slot) returns (al: Alloc?)
      requires Valid() && aid < ATLAS_MAX && Used(aid) && Rendered(slot)
      modifies this`Repr, atlases[aid].Repr
      ensures this in Repr && atlases in Repr && atlases.Length == ATLAS_MAX && atlases[..] == old(atlases[..])
      ensures PagesOk() && forall a :: 0 <= a < ATLAS_MAX ==> AtlasOk(a)
      ensures fresh(atlases[aid].Repr - old(atlases[aid].Repr))
      ensures forall a :: 0 <= a < ATLAS_MAX && a != aid && atlases[a] != null ==>
        old(Used(a)) && atlases[a].Repr == old(atlases[a].Repr)
      ensures fresh(Repr - old(Repr)) && old(Repr) <= Repr
      ensures Grew(old(Shots()), Shots()) && Used(aid)
      ensures al == null ==> !SomeLeafFits(atlases[aid].allocation.tree, slot.width + 1, slot.rows + 1)
      ensures al != null ==> Sprite(al.area.x, al.area.y, slot.width, slot.rows, slot.buffer) in atlases[aid].sprites
    {
      hide Texture.Valid, EntriesOk, SomeLeafFits, EntryOk;
      ghost var before := Shots();
      var t: Texture := atlases[aid];
      assert AtlasOk(aid);
      forall a | 0 <= a < ATLAS_MAX && a != aid && atlases[a] != null
        ensures Used(a) && atlases[a] !in t.Repr && atlases[a].Repr !! t.Repr && atlases[a].allocation !in t.Repr
      {
        assert AtlasOk(a) && Used(a);
      }
      al := t.Place(slot.width, slot.rows, Some(slot.buffer));
      Repr := Repr + t.Repr;
      forall a | 0 <= a < ATLAS_MAX ensures AtlasOk(a) {
        if atlases[a] != null && a != aid { assert old(AtlasOk(a) && Used(a)) && old(atlases[a].Valid()); }
      }
      assert Grew(before, Shots());
    }

    /** A store through the glyph pointer &page[idx]. */
    method StoreEntry(p: nat, i: nat, e: Entry)
      requires Valid() && p < |glyphCache| && glyphCache[p] != null && i < GLYPH_CACHE_PAGE_SIZE
      requires EntryOk(e, face(GLYPH_CACHE_PAGE_SIZE * p + i), Shots())
      modifies glyphCache[p]
      ensures Valid() && glyphCache[p][i] == e && Shots() == old(Shots())
      ensures forall j :: 0 <= j < GLYPH_CACHE_PAGE_SIZE && j != i ==> glyphCache[p][j] == old(glyphCache[p][j])
      ensures forall a, slot :: 0 <= a < ATLAS_MAX && old(NoRoom(a, slot)) ==> NoRoom(a, slot)
    {
      ghost var shots := Shots();
      forall a | 0 <= a < ATLAS_MAX && atlases[a] != null ensures Used(a) && glyphCache[p] !in atlases[a].Repr {
        assert AtlasOk(a) && Used(a);
      }
      glyphCache[p][i] := e;
      forall a | 0 <= a < ATLAS_MAX ensures AtlasOk(a) {
        if atlases[a] != null { assert old(AtlasOk(a)) && old(atlases[a].Valid()); }
      }
      assert Shots() == shots;
    }

    /** fntGlyphAtlasPlace.  Glyph (p, i) gets an allocation in the first atlas with room
        for it; nothing else in the cache changes. */
    method GlyphAtlasPlace(p: nat, i: nat, slot: Slot) returns (ok: bool)
      requires Valid() && p < |glyphCache| && glyphCache[p] != null && i < GLYPH_CACHE_PAGE_SIZE
      requires !glyphCache[p][i].isValid && Rendered(slot)
      modifies Repr
      ensures Valid() && fresh(Repr - old(Repr)) && old(Repr) <= Repr && glyphCache == old(glyphCache)
      ensures !glyphCache[p][i].isValid
      ensures forall q, j ::
        0 <= q < |glyphCache| && glyphCache[q] != null && 0 <= j < GLYPH_CACHE_PAGE_SIZE && (q != p || j != i) ==>
        glyphCache[q][j] == old(glyphCache[q][j])
      ensures !ok ==> forall a :: 0 <= a < ATLAS_MAX ==> NoRoom(a, slot)
      ensures ok ==> slot.width == 0 || slot.rows == 0 || InAtlas(glyphCache[p][i], slot, Shots())
    {
      if slot.width == 0 || slot.rows == 0 {
        return true;
      }
      var aid := 0;
      while aid < ATLAS_MAX
        invariant 0 <= aid <= ATLAS_MAX
        invariant Valid() && fresh(Repr - old(Repr)) && old(Repr) <= Repr && glyphCache == old(glyphCache)
        invariant !glyphCache[p][i].isValid
        invariant forall a :: 0 <= a < aid ==> NoRoom(a, slot)
        invariant forall q, j ::
          0 <= q < |glyphCache| && glyphCache[q] != null && 0 <= j < GLYPH_CACHE_PAGE_SIZE && (q != p || j != i) ==>
          glyphCache[q][j] == old(glyphCache[q][j])
      {
        var found := TryStore(p, i, aid, slot);
        if found {
          return true;
        }
        aid := aid + 1;
      }
      ok := false;
    }

    /** One turn of the loop of fntGlyphAtlasPlace. */
    method TryStore(p: nat, i: nat, aid: nat, slot: Slot) returns (found: bool)
      requires Valid() && p < |glyphCache| && glyphCache[p] != null && i < GLYPH_CACHE_PAGE_SIZE
      requires !glyphCache[p][i].isValid && aid < ATLAS_MAX && Rendered(slot)
      modifies Repr
      ensures Valid() && fresh(Repr - old(Repr)) && old(Repr) <= Repr && glyphCache == old(glyphCache)
      ensures !glyphCache[p][i].isValid
      ensures forall q, j ::
        0 <= q < |glyphCache| && glyphCache[q] != null && 0 <= j < GLYPH_CACHE_PAGE_SIZE && (q != p || j != i) ==>
        glyphCache[q][j] == old(glyphCache[q][j])
      ensures !found ==> NoRoom(aid, slot)
      ensures forall a :: 0 <= a < ATLAS_MAX && a != aid && old(NoRoom(a, slot)) ==> NoRoom(a, slot)
      ensures found ==> InAtlas(glyphCache[p][i], slot, Shots())
    {
      var al := TryAtlas(aid, slot);
      var e := glyphCache[p][..][i];
      assert !e.isValid;
      if al == null {
        StoreEntry(p, i, e.(allocation := null));
        return false;
      }
      StoreEntry(p, i, e.(allocation := al, atlas := atlases[aid]));
      assert ShotOf(aid) == Shots()[aid];
      return true;
    }

    /** fntCacheGlyph.  A glyph is rendered once: if it was cached its entry is returned
        as it is; otherwise it is rendered into the cache, or the call fails and caches
        nothing.  No other glyph is affected. */
    method CacheGlyph(gid: nat) returns (found: bool)
      requires Valid()
      modifies Repr
      ensures Valid() && fresh(Repr - old(Repr)) && old(Repr) <= Repr
      ensures forall g :: g != gid ==> Lookup(g) == old(Lookup(g))
      ensures old(Lookup(gid)).Some? ==> found && Lookup(gid) == old(Lookup(gid))
      ensures found <==> Lookup(gid).Some?
      ensures found ==> face(gid).Some?
      ensures !found ==> face(gid).None? || forall a :: 0 <= a < ATLAS_MAX ==> NoRoom(a, face(gid).value)
    {
      var pageid, idx := gid / GLYPH_CACHE_PAGE_SIZE, gid % GLYPH_CACHE_PAGE_SIZE;
      if !(pageid <= cacheMaxPageID && glyphCache[pageid] != null) {
        PreparePage(pageid);
      }
      assert Lookup(gid) == old(Lookup(gid));
      if glyphCache[pageid][idx].isValid {
        assert EntryOk(glyphCache[pageid][idx], face(GLYPH_CACHE_PAGE_SIZE * pageid + idx), Shots());
        return true;
      }
      found := RenderGlyph(gid);
    }

    /** fntCacheGlyph, lines 442-467. */
    method RenderGlyph(gid: nat) returns (found: bool)
      requires Valid() && gid / GLYPH_CACHE_PAGE_SIZE < |glyphCache| && glyphCache[gid / GLYPH_CACHE_PAGE_SIZE] != null
      requires Lookup(gid) == None
      modifies Repr
      ensures Valid() && fresh(Repr - old(Repr)) && old(Repr) <= Repr
      ensures forall g :: g != gid ==> Lookup(g) == old(Lookup(g))
      ensures found <==> Lookup(gid).Some?
      ensures found ==> face(gid).Some?
      ensures !found ==> face(gid).None? || forall a :: 0 <= a < ATLAS_MAX ==> NoRoom(a, face(gid).value)
    {
      var p, i := gid / GLYPH_CACHE_PAGE_SIZE, gid % GLYPH_CACHE_PAGE_SIZE;
      if face(gid).None? {
        return false;
      }
      var slot := face(gid).value;
      found := GlyphAtlasPlace(p, i, slot);
      if !found {
        return;
      }
      var e := glyphCache[p][i];
      StoreEntry(p, i, e.(isValid := true, width := slot.width, height := slot.rows,
                          shx := slot.advanceX, shy := slot.advanceY, ox := slot.left, oy := -slot.top));
    }

    /** fntCacheFlush. */
    method Flush()
      requires Valid()
      modifies Repr
      ensures Valid() && Repr == old(Repr)
      ensures forall g :: Lookup(g) == None
    {
      glyphCache, cacheMaxPageID := [], -1;
      forall a | 0 <= a < ATLAS_MAX {
        atlases[a] := null;
      }
    }
  }

  /** What a cached glyph shows is what FreeType renders for it, pixel by pixel, however
      many glyphs were added since. */
  lemma CachedGlyphIsFresh(f: Font, g: nat, y: nat, x: nat)
    requires f.Valid() && f.Lookup(g).Some?
    requires f.face(g).Some? ==> x < f.face(g).value.width && y < f.face(g).value.rows
    ensures f.face(g).Some? && Agrees(f.Lookup(g).value, f.face(g).value)
    ensures var e, slot := f.Lookup(g).value, f.face(g).value;
      && e.atlas != null && e.allocation != null
      && e.allocation.area.x + x < ATLAS_WIDTH && slot.width * y + x < |slot.buffer|
      && HasRow(e.atlas.mem.Length, ATLAS_WIDTH, e.allocation.area.y + y)
      && Cell(e.atlas.mem[..], ATLAS_WIDTH, e.allocation.area.y + y, e.allocation.area.x + x)
        == slot.buffer[slot.width * y + x]
  {
    FoundIsOk(f, g);
    var e, slot := f.Lookup(g).value, f.face(g).value;
    hide Font.Valid, Font.Lookup, Font.Shots, Agrees, Cell, HasRow;
    var a :| 0 <= a < |f.Shots()| && f.Shots()[a].Shot? && f.Shots()[a].atlas == e.atlas
      && Drawn(e, slot, f.Shots()[a].sprites);
    ShotIs(f, a);
    SpriteShows(e.atlas, Sprite(e.allocation.area.x, e.allocation.area.y, slot.width, slot.rows, slot.buffer), y, x);
  }

  lemma FoundIsOk(f: Font, g: nat)
    requires f.Valid() && f.Lookup(g).Some?
    ensures EntryOk(f.Lookup(g).value, f.face(g), f.Shots()) && f.Lookup(g).value.isValid
  {
    hide EntryOk, Font.Shots, Font.AtlasOk, Font.Separate;
    var p, i := g / GLYPH_CACHE_PAGE_SIZE, g % GLYPH_CACHE_PAGE_SIZE;
    assert g == GLYPH_CACHE_PAGE_SIZE * p + i;
    assert EntryOk(f.glyphCache[p][i], f.face(GLYPH_CACHE_PAGE_SIZE * p + i), f.Shots());
  }

  lemma ShotIs(f: Font, a: nat)
    requires f.Valid() && a < |f.Shots()| && f.Shots()[a].Shot?
    ensures var t := f.Shots()[a].atlas;
      t.Valid() && t.width == ATLAS_WIDTH && t.psm == GS_PSM_T8 && t.sprites == f.Shots()[a].sprites
  {
    hide Texture.Valid, Font.EntriesOk, Font.PagesOk, Font.Separate;
    assert f.AtlasOk(a);
  }

  lemma SpriteShows(t: Texture, s: Sprite, y: nat, x: nat)
    requires t.Valid() && t.width == ATLAS_WIDTH && t.psm == GS_PSM_T8 && s in t.sprites && x < s.w && y < s.h
    ensures s.x + x < ATLAS_WIDTH && s.w * y + x < |s.pixels|
    ensures HasRow(t.mem.Length, ATLAS_WIDTH, s.y + y)
    ensures Cell(t.mem[..], ATLAS_WIDTH, s.y + y, s.x + x) == s.pixels[s.w * y + x]
  {
    TextureHolds(t, s);
    hide Texture.Valid, Cell, HasRow;
    ShownAt(t.mem[..], t.RowBytes(), t.height, s, y, x);
  }

  lemma TextureHolds(t: Texture, s: Sprite)
    requires t.Valid() && t.psm == GS_PSM_T8 && s in t.sprites
    ensures Inside(Guard(s), Rect(0, 0, t.width, t.height)) && t.RowBytes() == t.width
    ensures Shows(t.mem[..], t.RowBytes(), t.height, s, 1)
  {
    hide Shows, Alloc.Valid, Cut;
    var k :| 0 <= k < |t.sprites| && t.sprites[k] == s;
    assert Inside(Guard(t.sprites[k]), t.allocation.tree.area);
    assert Shows(t.mem[..], t.RowBytes(), t.height, t.sprites[k], 1);
  }

  /** A shown image of one byte a pixel, pixel by pixel. */
  lemma ShownAt(m: seq<byte>, rb: nat, h: nat, s: Sprite, y: nat, x: nat)
    requires Shows(m, rb, h, s, 1) && y < s.h && x < s.w && s.y + y < h && s.x + x < rb
    ensures HasRow(|m|, rb, s.y + y) && s.w * y + x < |s.pixels|
    ensures Cell(m, rb, s.y + y, s.x + x) == s.pixels[s.w * y + x]
  {
    hide HasRow;
    SpriteRowIn(s, 1, y);
    assert Covers(s, 1, s.y + y, s.x + x);
    assert Cell(m, rb, s.y + y, s.x + x) == SpriteCell(s, 1, s.y + y, s.x + x);
  }
}
