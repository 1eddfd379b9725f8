/** cfgBatchMigratePerGame of src/config_migration.c: every file of a directory converted
    to new outputs, on a disk where any operation may fail. */
module Migration {
  import opened Bytes
  import opened Options
  import opened SafeReplace

  /** What the legacy reader makes of a file: settings, game information, or neither. */
  datatype Legacy = Legacy(pg: Option<Content>, info: Option<Content>)

  /** A file to convert: where it is and is backed up, what it holds, and its outputs. */
  datatype Goal = Goal(input: string, bak: string, was: Content,
                       cfg: string, pg: Option<Content>, info: string, gi: Option<Content>)

  ghost predicate Survives(f: Files, g: Goal) { Has(f, g.input, g.was) || Has(f, g.bak, g.was) }

  /** The legacy reader finds something to convert; other files are left alone. */
  ghost predicate HasOutputs(g: Goal) { g.pg.Some? || g.gi.Some? }

  ghost predicate Done(f: Files, g: Goal) {
    && HasOutputs(g)
    && (g.pg.Some? ==> Has(f, g.cfg, g.pg.value))
    && (g.gi.Some? ==> Has(f, g.info, g.gi.value))
  }

  /** All outputs have been in place at some moment from n up to before k. */
  ghost predicate DoneBy(trace: seq<Files>, n: nat, k: nat, g: Goal) {
    exists m :: n <= m < k && m < |trace| && Done(trace[m], g)
  }

  /** At every moment from n on the input survives, unless its outputs have been in place. */
  ghost predicate Good(s: Past, n: nat, g: Goal) {
    && n < |s.trace| && s.trace[|s.trace| - 1] == s.files
    && forall k :: n <= k < |s.trace| ==> Survives(s.trace[k], g) || DoneBy(s.trace, n, k + 1, g)
  }

  // ---------------------------------------------------------------------------
  // Single operations
  // ---------------------------------------------------------------------------

  lemma OneStep(s: Past, t: Past, n: nat, g: Goal)
    requires Good(s, n, g) && t.trace == s.trace + [t.files]
    requires Survives(s.files, g) ==> Survives(t.files, g) || DoneBy(s.trace, n, |s.trace|, g)
    ensures Good(t, n, g)
  {
    hide Survives, Done;
    forall k | n <= k < |t.trace| ensures Survives(t.trace[k], g) || DoneBy(t.trace, n, k + 1, g) {
      var k' := if k < |s.trace| then k else k - 1;
      assert Survives(s.trace[k'], g) || DoneBy(s.trace, n, k' + 1, g);
      if DoneBy(s.trace, n, k' + 1, g) {
        var m :| n <= m < k' + 1 && m < |s.trace| && Done(s.trace[m], g);
        assert t.trace[m] == s.trace[m];
      }
    }
  }

  /** No file to convert is called p, or backed up there, but perhaps the i-th. */
  ghost predicate Foreign(p: string, gs: seq<Goal>, i: nat) {
    forall j :: 0 <= j < |gs| && j != i ==> p != gs[j].input && p != gs[j].bak
  }

  /** All files are good, and those after the i-th still wait unchanged. */
  ghost predicate Batch(s: Past, n: nat, gs: seq<Goal>, i: nat) {
    && (forall j :: 0 <= j < |gs| ==> Good(s, n, gs[j]))
    && (forall j :: i < j < |gs| ==> Has(s.files, gs[j].input, gs[j].was))
  }

  /** The i-th file is safe in state t. */
  ghost predicate Settled(s: Past, t: Files, n: nat, g: Goal) {
    Survives(t, g) || DoneBy(s.trace, n, |s.trace|, g)
  }

  lemma UnlinkOwn(s: Past, l: Luck, p: string, n: nat, gs: seq<Goal>, i: nat)
    requires Batch(s, n, gs, i) && Foreign(p, gs, i) && i < |gs|
    requires Settled(s, AfterUnlink(s, l, p).files, n, gs[i])
    ensures Batch(AfterUnlink(s, l, p), n, gs, i)
  {
    var t := AfterUnlink(s, l, p);
    forall j | 0 <= j < |gs| ensures Good(t, n, gs[j]) { OneStep(s, t, n, gs[j]); }
  }

  lemma RenameOwn(s: Past, l: Luck, a: string, b: string, n: nat, gs: seq<Goal>, i: nat)
    requires Batch(s, n, gs, i) && Foreign(a, gs, i) && Foreign(b, gs, i) && i < |gs|
    requires Settled(s, AfterRename(s, l, a, b).files, n, gs[i])
    ensures Batch(AfterRename(s, l, a, b), n, gs, i)
  {
    var t := AfterRename(s, l, a, b);
    forall j | 0 <= j < |gs| ensures Good(t, n, gs[j]) { OneStep(s, t, n, gs[j]); }
  }

  lemma UnlinkForeign(s: Past, l: Luck, p: string, n: nat, gs: seq<Goal>, i: nat)
    requires Batch(s, n, gs, i) && Foreign(p, gs, |gs|)
    ensures Batch(AfterUnlink(s, l, p), n, gs, i)
  {
    var t := AfterUnlink(s, l, p);
    forall j | 0 <= j < |gs| ensures Good(t, n, gs[j]) { OneStep(s, t, n, gs[j]); }
  }

  lemma RenameForeign(s: Past, l: Luck, a: string, b: string, n: nat, gs: seq<Goal>, i: nat)
    requires Batch(s, n, gs, i) && Foreign(a, gs, |gs|) && Foreign(b, gs, |gs|)
    ensures Batch(AfterRename(s, l, a, b), n, gs, i)
  {
    var t := AfterRename(s, l, a, b);
    forall j | 0 <= j < |gs| ensures Good(t, n, gs[j]) { OneStep(s, t, n, gs[j]); }
  }

  lemma WriteForeign(s: Past, l: Luck, p: string, c: Content, n: nat, gs: seq<Goal>, i: nat)
    requires Batch(s, n, gs, i) && Foreign(p, gs, |gs|)
    ensures var t := AfterWrite(s, l, p, c);
      Batch(t, n, gs, i) && (l.works(s.clock) ==> Has(t.files, p, c))
  {
    var t := AfterWrite(s, l, p, c);
    var cut := if l.partial(s.clock).Some? then s.files[p := l.partial(s.clock).value] else s.files;
    var mid := Past(cut, s.clock + 1, s.trace + [cut]);
    forall j | 0 <= j < |gs| ensures Good(t, n, gs[j]) {
      OneStep(s, mid, n, gs[j]);
      if l.works(s.clock) {
        assert s.trace + [cut, cut[p := c]] == mid.trace + [cut[p := c]];
        OneStep(mid, t, n, gs[j]);
      }
    }
  }

  lemma ReadForeign(s: Past, n: nat, gs: seq<Goal>, i: nat)
    requires Batch(s, n, gs, i)
    ensures Batch(AfterExists(s), n, gs, i)
  {
    forall j | 0 <= j < |gs| ensures Good(AfterExists(s), n, gs[j]) {
      assert Good(s, n, gs[j]);
    }
  }

  /** Outputs in place now have been in place. */
  lemma DoneNow(s: Past, n: nat, gs: seq<Goal>, i: nat)
    requires Batch(s, n, gs, i) && i < |gs| && Done(s.files, gs[i])
    ensures DoneBy(s.trace, n, |s.trace|, gs[i])
  {
    assert Good(s, n, gs[i]);
    assert Done(s.trace[|s.trace| - 1], gs[i]);
  }

  lemma DoneStays(s: Past, t: Past, n: nat, g: Goal)
    requires DoneBy(s.trace, n, |s.trace|, g) && t.trace == s.trace + [t.files]
    ensures DoneBy(t.trace, n, |t.trace|, g)
  {
    var m :| n <= m < |s.trace| && Done(s.trace[m], g);
    assert t.trace[m] == s.trace[m];
  }

  // ---------------------------------------------------------------------------
  // The code as a function of the disk and of what fails
  // ---------------------------------------------------------------------------

  /** Where a part of the code leaves the disk, and whether it goes on from there. */
  datatype Turn = Turn(s: Past, ok: bool)

  function Cleared(s: Past, l: Luck, p: string, q: string): Past { AfterUnlink(AfterUnlink(s, l, p), l, q) }

  /** Writes one output, if there is one, to its temporary file. */
  function SaveOne(s: Past, l: Luck, tmp: string, c: Option<Content>): Turn {
    if c.None? then Turn(s, true) else Turn(AfterWrite(s, l, tmp, c.value), l.works(s.clock))
  }

  /** Writes both outputs to temporary files. */
  function Save(s: Past, l: Luck, cfg: string, info: string, y: Legacy): Turn {
    var t := SaveOne(Cleared(s, l, Tmp(cfg), Tmp(info)), l, Tmp(cfg), y.pg);
    var u := if t.ok then SaveOne(t.s, l, Tmp(info), y.info) else t;
    if u.ok then u else Turn(Cleared(u.s, l, Tmp(cfg), Tmp(info)), false)
  }

  /** Puts the information in its place. */
  function PlaceInfo(s: Past, l: Luck, cfg: string, info: string): Turn {
    var s1 := AfterUnlink(s, l, info);
    var s2 := AfterRename(s1, l, Tmp(info), info);
    if Renames(s1, l, Tmp(info)) then Turn(s2, true) else Turn(Cleared(s2, l, Tmp(cfg), Tmp(info)), false)
  }

  /** Moves the old file out of the way when the new settings take its place. */
  function SetAside(s: Past, l: Luck, input: string, cfg: string, hasPg: bool): Turn {
    if input == cfg then
      var s1 := AfterUnlink(s, l, Bak(input));
      var s2 := AfterRename(s1, l, input, Bak(input));
      if Renames(s1, l, input) then Turn(s2, true) else Turn(AfterUnlink(s2, l, Tmp(cfg)), false)
    else Turn(if hasPg then AfterUnlink(s, l, cfg) else s, true)
  }

  /** The rename that puts the new settings in place, undone as far as possible when it
      fails. */
  function PutInPlace(s: Past, l: Luck, input: string, cfg: string): Turn {
    var s1 := AfterRename(s, l, Tmp(cfg), cfg);
    if Renames(s, l, Tmp(cfg)) then Turn(s1, true)
    else
      var s2 := if input == cfg then AfterRename(s1, l, Bak(input), input) else s1;
      Turn(AfterUnlink(s2, l, Tmp(cfg)), false)
  }

  /** The new settings take their place and the old file goes. */
  function Install(s: Past, l: Luck, input: string, cfg: string, hasPg: bool, keep: bool): Turn {
    var v := SetAside(s, l, input, cfg, hasPg);
    var w := if v.ok && hasPg then PutInPlace(v.s, l, input, cfg) else v;
    if !w.ok || keep then w else Turn(AfterUnlink(w.s, l, if input == cfg then Bak(input) else input), true)
  }

  function ConvertTo(s: Past, l: Luck, input: string, cfg: string, info: string, y: Legacy, keep: bool): Turn {
    var t := Save(s, l, cfg, info, y);
    var u := if t.ok && y.info.Some? then PlaceInfo(t.s, l, cfg, info) else t;
    if u.ok then Install(u.s, l, input, cfg, y.pg.Some?, keep) else u
  }

  /** One file: left alone when the reader takes nothing from it. */
  function Convert(s: Past, l: Luck, input: string, cfg: string, info: string, parse: Content -> Legacy,
                   keep: bool): Turn
  {
    if !Renames(s, l, input) then Turn(AfterExists(s), false)
    else
      var y := parse(s.files[input]);
      if y.pg.None? && y.info.None? then Turn(AfterExists(s), false)
      else ConvertTo(AfterExists(s), l, input, cfg, info, y, keep)
  }

  // ---------------------------------------------------------------------------
  // The code
  // ---------------------------------------------------------------------------

  /** Lines 747-766: both outputs in temporary files. */
  method SaveOutputs(d: Disk, tmpCfg: string, tmpInfo: string, y: Legacy, ghost cfg: string, ghost info: string)
    returns (ok: bool)
    requires tmpCfg == Tmp(cfg) && tmpInfo == Tmp(info)
    modifies d
    ensures var t := Save(old(d.Now()), d.luck, cfg, info, y); d.Now() == t.s && ok == t.ok
  {
    hide AfterUnlink, AfterWrite, Tmp;
    ok := true;
    d.Unlink(tmpCfg);
    d.Unlink(tmpInfo);
    if y.pg.Some? {
      ok := d.WriteFile(tmpCfg, y.pg.value);
      if !ok {
        d.Unlink(tmpCfg);
        d.Unlink(tmpInfo);
        return;
      }
    }
    if y.info.Some? {
      ok := d.WriteFile(tmpInfo, y.info.value);
      if !ok {
        d.Unlink(tmpCfg);
        d.Unlink(tmpInfo);
      }
    }
  }

  /** Lines 780-813: the new settings take their place, and the old file goes. */
  method InstallSettings(d: Disk, input: string, cfg: string, tmpCfg: string, bak: string, hasPg: bool, keep: bool)
    returns (ok: bool)
    requires tmpCfg == Tmp(cfg) && bak == Bak(input)
    modifies d
    ensures var t := Install(old(d.Now()), d.luck, input, cfg, hasPg, keep); d.Now() == t.s && ok == t.ok
  {
    hide AfterUnlink, AfterRename, Renames, Tmp, Bak;
    ok := true;
    if input == cfg {
      d.Unlink(bak);
      ok := d.Rename(input, bak);
      if !ok {
        d.Unlink(tmpCfg);
        return;
      }
    } else if hasPg {
      d.Unlink(cfg);
    }
    if hasPg {
      ok := d.Rename(tmpCfg, cfg);
      if !ok {
        if input == cfg {
          var back := d.Rename(bak, input);
        }
        d.Unlink(tmpCfg);
        return;
      }
    }
    if !keep {
      d.Unlink(if input == cfg then bak else input);
    }
  }

  /** The body of the loop: true when the file was converted. */
  method MigrateOne(d: Disk, input: string, cfg: string, info: string, parse: Content -> Legacy, keep: bool)
    returns (converted: bool)
    modifies d
    ensures var t := Convert(old(d.Now()), d.luck, input, cfg, info, parse, keep); d.Now() == t.s && converted == t.ok
  {
    hide Save, Install, AfterExists, AfterUnlink, AfterRename, Renames, Tmp, Bak;
    var content := d.Read(input);
    if content.None? { return false; }
    var y := parse(content.value);
    if y.pg.None? && y.info.None? { return false; }
    var tmpCfg, tmpInfo := Tmp(cfg), Tmp(info);
    converted := SaveOutputs(d, tmpCfg, tmpInfo, y, cfg, info);
    if !converted { return; }
    if y.info.Some? {
      d.Unlink(info);
      converted := d.Rename(tmpInfo, info);
      if !converted {
        d.Unlink(tmpCfg);
        d.Unlink(tmpInfo);
        return;
      }
    }
    converted := InstallSettings(d, input, cfg, tmpCfg, Bak(input), y.pg.Some?, keep);
  }

  // ---------------------------------------------------------------------------
  // One file
  // ---------------------------------------------------------------------------

  /** The names used for the i-th file are apart from each other and from every other
      file to convert. Settings whose path fills its buffer are their own temporary file. */
  ghost predicate Apart(gs: seq<Goal>, i: nat) {
    && i < |gs|
    && var g := gs[i];
    && var all := |gs|;
    && g.bak == (if g.cfg == g.input then Bak(g.input) else g.input)
    && Foreign(Tmp(g.cfg), gs, all) && Foreign(Tmp(g.info), gs, all) && Foreign(g.info, gs, all)
    && Foreign(g.input, gs, i) && Foreign(g.bak, gs, i)
    && (if g.cfg == g.input then g.bak != g.input else Foreign(g.cfg, gs, all))
    && Tmp(g.cfg) !in {g.info, Tmp(g.info)} && Tmp(g.info) !in {g.info, g.cfg} && g.info != g.cfg
  }

  /** Nothing fails. */
  ghost predicate AllWork(l: Luck) { forall k :: l.works(k) }

  lemma RenameWorks(s: Past, l: Luck, a: string, c: Content)
    requires Has(s.files, a, c)
    ensures AllWork(l) ==> Renames(s, l, a)
  {
  }

  /** The old file is still there, at p, and the outputs written so far: the new settings
      at q, unless they were removed from their own place, the information at r. */
  ghost predicate Written(f: Files, g: Goal, p: string, q: string, r: string) {
    && Has(f, p, g.was)
    && (g.pg.Some? ==> (q in f ==> f[q] == g.pg.value) && (q != g.cfg ==> q in f))
    && (g.gi.Some? ==> Has(f, r, g.gi.value))
  }

  /** The names a file's conversion uses. */
  ghost function Names(g: Goal): set<string> {
    {g.input, g.bak, g.cfg, Tmp(g.cfg), Tmp(g.info)} + if g.gi.Some? then {g.info} else {}
  }

  /** All names but these stand as they did. */
  ghost predicate Untouched(f: Files, f': Files, names: set<string>) {
    forall p :: p !in names ==> (p in f' <==> p in f) && (p in f' ==> f'[p] == f[p])
  }

  /** From s to t nothing was forgotten, and only these names were used. */
  ghost predicate Leads(s: Past, t: Past, names: set<string>) {
    s.trace <= t.trace && Untouched(s.files, t.files, names)
  }

  lemma LeadsNowhere(s: Past, names: set<string>)
    ensures Leads(s, s, names) && Leads(s, AfterExists(s), names)
  {
  }

  lemma LeadsOn(s: Past, t: Past, u: Past, names: set<string>)
    requires Leads(s, t, names) && Leads(t, u, names)
    ensures Leads(s, u, names)
  {
  }

  lemma UnlinkLeads(s: Past, l: Luck, p: string, names: set<string>)
    requires p in names
    ensures Leads(s, AfterUnlink(s, l, p), names)
  {
  }

  lemma RenameLeads(s: Past, l: Luck, a: string, b: string, names: set<string>)
    requires a in names && b in names
    ensures Leads(s, AfterRename(s, l, a, b), names)
  {
  }

  lemma SaveOneLeads(s: Past, l: Luck, tmp: string, c: Option<Content>, names: set<string>)
    requires tmp in names
    ensures Leads(s, SaveOne(s, l, tmp, c).s, names)
  {
  }

  lemma ClearedLeads(s: Past, l: Luck, p: string, q: string, names: set<string>)
    requires p in names && q in names
    ensures Leads(s, Cleared(s, l, p, q), names)
  {
    hide Leads, AfterUnlink;
    UnlinkLeads(s, l, p, names);
    UnlinkLeads(AfterUnlink(s, l, p), l, q, names);
    LeadsOn(s, AfterUnlink(s, l, p), Cleared(s, l, p, q), names);
  }

  lemma SaveLeads(s: Past, l: Luck, cfg: string, info: string, y: Legacy, names: set<string>)
    requires Tmp(cfg) in names && Tmp(info) in names
    ensures Leads(s, Save(s, l, cfg, info, y).s, names)
  {
    hide Leads, AfterUnlink, AfterWrite, Tmp, Cleared, SaveOne;
    var p, q := Tmp(cfg), Tmp(info);
    var s2 := Cleared(s, l, p, q);
    ClearedLeads(s, l, p, q, names);
    var t := SaveOne(s2, l, p, y.pg);
    SaveOneLeads(s2, l, p, y.pg, names);
    LeadsOn(s, s2, t.s, names);
    var u := if t.ok then SaveOne(t.s, l, q, y.info) else t;
    if t.ok {
      SaveOneLeads(t.s, l, q, y.info, names);
      LeadsOn(s, t.s, u.s, names);
    }
    ClearedLeads(u.s, l, p, q, names);
    LeadsOn(s, u.s, Cleared(u.s, l, p, q), names);
  }

  lemma UntouchedHas(f: Files, f': Files, names: set<string>, p: string, c: Content)
    requires Untouched(f, f', names) && p !in names && Has(f, p, c)
    ensures Has(f', p, c)
  {
  }

  lemma ClearedKeeps(s: Past, l: Luck, p: string, q: string, n: nat, gs: seq<Goal>, i: nat)
    requires Batch(s, n, gs, i) && Foreign(p, gs, |gs|) && Foreign(q, gs, |gs|)
    ensures Batch(Cleared(s, l, p, q), n, gs, i)
  {
    hide Batch, Foreign, AfterUnlink;
    UnlinkForeign(s, l, p, n, gs, i);
    UnlinkForeign(AfterUnlink(s, l, p), l, q, n, gs, i);
  }

  lemma SaveOneKeeps(s: Past, l: Luck, tmp: string, c: Option<Content>, n: nat, gs: seq<Goal>, i: nat)
    requires Batch(s, n, gs, i) && Foreign(tmp, gs, |gs|)
    ensures var t := SaveOne(s, l, tmp, c);
      && Batch(t.s, n, gs, i) && (AllWork(l) ==> t.ok)
      && (t.ok && c.Some? ==> Has(t.s.files, tmp, c.value))
  {
    hide Batch, Foreign, AfterWrite, Has;
    if c.Some? { WriteForeign(s, l, tmp, c.value, n, gs, i); }
  }

  lemma SaveKeeps(s: Past, l: Luck, n: nat, gs: seq<Goal>, i: nat)
    requires Apart(gs, i) && Batch(s, n, gs, i) && Has(s.files, gs[i].input, gs[i].was)
    ensures var g := gs[i]; var t := Save(s, l, g.cfg, g.info, Legacy(g.pg, g.gi));
      && Batch(t.s, n, gs, i) && (AllWork(l) ==> t.ok)
      && (t.ok ==> Written(t.s.files, g, g.input, Tmp(g.cfg), Tmp(g.info)))
  {
    hide Batch, AfterUnlink, AfterWrite, Tmp, Bak, Cleared, SaveOne, Leads, AllWork, Has, Untouched;
    var g := gs[i];
    var p, q := Tmp(g.cfg), Tmp(g.info);
    var s2 := Cleared(s, l, p, q);
    ClearedKeeps(s, l, p, q, n, gs, i);
    var t := SaveOne(s2, l, p, g.pg);
    SaveOneKeeps(s2, l, p, g.pg, n, gs, i);
    var u := if t.ok then SaveOne(t.s, l, q, g.gi) else t;
    if t.ok { SaveOneKeeps(t.s, l, q, g.gi, n, gs, i); }
    if u.ok {
      SaveLeads(s, l, g.cfg, g.info, Legacy(g.pg, g.gi), {p, q});
      SavedStays(s, t.s, u.s, l, g);
    } else {
      ClearedKeeps(u.s, l, p, q, n, gs, i);
    }
  }

  lemma SavedStays(s: Past, t: Past, u: Past, l: Luck, g: Goal)
    requires Leads(s, u, {Tmp(g.cfg), Tmp(g.info)}) && u == SaveOne(t, l, Tmp(g.info), g.gi).s
    requires Tmp(g.cfg) != Tmp(g.info) && g.input !in {Tmp(g.cfg), Tmp(g.info)}
    requires Has(s.files, g.input, g.was)
    requires g.pg.Some? ==> Has(t.files, Tmp(g.cfg), g.pg.value)
    requires g.gi.Some? ==> Has(u.files, Tmp(g.info), g.gi.value)
    ensures Written(u.files, g, g.input, Tmp(g.cfg), Tmp(g.info))
  {
    hide Tmp, SaveOne, Untouched;
    UntouchedHas(s.files, u.files, {Tmp(g.cfg), Tmp(g.info)}, g.input, g.was);
    SaveOneLeads(t, l, Tmp(g.info), g.gi, {Tmp(g.info)});
    if g.pg.Some? { UntouchedHas(t.files, u.files, {Tmp(g.info)}, Tmp(g.cfg), g.pg.value); }
  }

  lemma UnlinkWritten(s: Past, l: Luck, x: string, g: Goal, p: string, q: string, r: string)
    requires Written(s.files, g, p, q, r) && x != p && x != r && (x == q ==> q == g.cfg)
    ensures Written(AfterUnlink(s, l, x).files, g, p, q, r)
  {
  }

  lemma RenameInfoWritten(s: Past, l: Luck, g: Goal, p: string, q: string, r: string)
    requires Written(s.files, g, p, q, r) && g.gi.Some? && {p, q} !! {r, g.info}
    ensures Renames(s, l, r) ==> Written(AfterRename(s, l, r, g.info).files, g, p, q, g.info)
    ensures AllWork(l) ==> Renames(s, l, r)
  {
  }

  lemma PlaceInfoKeeps(s: Past, l: Luck, n: nat, gs: seq<Goal>, i: nat)
    requires Apart(gs, i) && Batch(s, n, gs, i) && gs[i].gi.Some?
    requires var g := gs[i]; Written(s.files, g, g.input, Tmp(g.cfg), Tmp(g.info))
    ensures var g := gs[i]; var t := PlaceInfo(s, l, g.cfg, g.info);
      && Batch(t.s, n, gs, i) && Leads(s, t.s, Names(g)) && (AllWork(l) ==> t.ok)
      && (t.ok ==> Written(t.s.files, g, g.input, Tmp(g.cfg), g.info))
  {
    hide Batch, AfterUnlink, AfterRename, Renames, Tmp, Bak, Written, Leads, AllWork, Cleared;
    var g := gs[i];
    var p, q := Tmp(g.cfg), Tmp(g.info);
    var s1 := AfterUnlink(s, l, g.info);
    UnlinkForeign(s, l, g.info, n, gs, i);
    UnlinkWritten(s, l, g.info, g, g.input, p, q);
    UnlinkLeads(s, l, g.info, Names(g));
    var s2 := AfterRename(s1, l, q, g.info);
    RenameForeign(s1, l, q, g.info, n, gs, i);
    RenameInfoWritten(s1, l, g, g.input, p, q);
    RenameLeads(s1, l, q, g.info, Names(g));
    LeadsOn(s, s1, s2, Names(g));
    ClearedKeeps(s2, l, p, q, n, gs, i);
    ClearedLeads(s2, l, p, q, Names(g));
    LeadsOn(s, s2, Cleared(s2, l, p, q), Names(g));
  }

  lemma NoInfoWritten(f: Files, g: Goal, p: string, q: string, r: string, r': string)
    requires g.gi.None?
    ensures Written(f, g, p, q, r) ==> Written(f, g, p, q, r')
  {
  }

  lemma RenameWritten(s: Past, l: Luck, a: string, b: string, g: Goal, q: string)
    requires Written(s.files, g, a, q, g.info) && q !in {a, b} && g.info !in {a, b}
    ensures Written(AfterRename(s, l, a, b).files, g, if Renames(s, l, a) then b else a, q, g.info)
  {
  }

  lemma SettledBy(s: Past, t: Files, n: nat, g: Goal, p: string)
    requires Has(t, p, g.was) && (p == g.input || p == g.bak)
    ensures Settled(s, t, n, g)
  {
  }

  lemma ForeignBut(p: string, gs: seq<Goal>, i: nat)
    requires i < |gs|
    ensures Foreign(p, gs, |gs|) ==> Foreign(p, gs, i)
  {
  }

  lemma ForeignOwn(p: string, gs: seq<Goal>, i: nat)
    requires i < |gs| && Foreign(p, gs, |gs|)
    ensures p != gs[i].input && p != gs[i].bak
  {
  }

  lemma SetAsideKeeps(s: Past, l: Luck, n: nat, gs: seq<Goal>, i: nat)
    requires Apart(gs, i) && Batch(s, n, gs, i)
    requires var g := gs[i]; Written(s.files, g, g.input, Tmp(g.cfg), g.info)
    ensures var g := gs[i]; var t := SetAside(s, l, g.input, g.cfg, g.pg.Some?);
      && Batch(t.s, n, gs, i) && Leads(s, t.s, Names(g)) && (AllWork(l) ==> t.ok)
      && (t.ok ==> Written(t.s.files, g, g.bak, Tmp(g.cfg), g.info))
  {
    hide Batch, Foreign, AfterUnlink, AfterRename, Tmp, Bak, Written, Leads, Settled;
    var g := gs[i];
    ForeignOwn(Tmp(g.cfg), gs, i);
    ForeignOwn(g.info, gs, i);
    if g.input == g.cfg {
      SetAsideInPlace(s, l, n, gs, i);
    } else if g.pg.Some? {
      ForeignOwn(g.cfg, gs, i);
      UnlinkForeign(s, l, g.cfg, n, gs, i);
      UnlinkWritten(s, l, g.cfg, g, g.input, Tmp(g.cfg), g.info);
      UnlinkLeads(s, l, g.cfg, Names(g));
    } else {
      LeadsNowhere(s, Names(g));
    }
  }

  lemma SetAsideInPlace(s: Past, l: Luck, n: nat, gs: seq<Goal>, i: nat)
    requires Apart(gs, i) && Batch(s, n, gs, i) && gs[i].input == gs[i].cfg
    requires var g := gs[i];
      Written(s.files, g, g.input, Tmp(g.cfg), g.info) && {Tmp(g.cfg), g.info} !! {g.input, g.bak}
    ensures var g := gs[i]; var t := SetAside(s, l, g.input, g.cfg, g.pg.Some?);
      && Batch(t.s, n, gs, i) && Leads(s, t.s, Names(g)) && (AllWork(l) ==> t.ok)
      && (t.ok ==> Written(t.s.files, g, g.bak, Tmp(g.cfg), g.info))
  {
    hide Batch, Foreign, AfterUnlink, AfterRename, Tmp, Bak, Leads, Settled, Renames, Has;
    var g := gs[i];
    var s1 := AfterUnlink(s, l, g.bak);
    UnlinkWritten(s, l, g.bak, g, g.input, Tmp(g.cfg), g.info);
    SettledBy(s, s1.files, n, g, g.input);
    UnlinkOwn(s, l, g.bak, n, gs, i);
    UnlinkLeads(s, l, g.bak, Names(g));
    var s2 := AfterRename(s1, l, g.input, g.bak);
    RenameWritten(s1, l, g.input, g.bak, g, Tmp(g.cfg));
    SettledBy(s1, s2.files, n, g, if Renames(s1, l, g.input) then g.bak else g.input);
    RenameOwn(s1, l, g.input, g.bak, n, gs, i);
    RenameWorks(s1, l, g.input, g.was);
    RenameLeads(s1, l, g.input, g.bak, Names(g));
    LeadsOn(s, s1, s2, Names(g));
    UnlinkForeign(s2, l, Tmp(g.cfg), n, gs, i);
    UnlinkLeads(s2, l, Tmp(g.cfg), Names(g));
    LeadsOn(s, s2, AfterUnlink(s2, l, Tmp(g.cfg)), Names(g));
  }

  /** The rename of the new settings to their place. */
  lemma RenameDone(s: Past, l: Luck, g: Goal)
    requires Written(s.files, g, g.bak, Tmp(g.cfg), g.info) && g.pg.Some?
    requires g.bak !in {Tmp(g.cfg), g.cfg} && g.info !in {Tmp(g.cfg), g.cfg}
    ensures var t := AfterRename(s, l, Tmp(g.cfg), g.cfg);
      && Has(t.files, g.bak, g.was) && (Renames(s, l, Tmp(g.cfg)) ==> Done(t.files, g))
      && (AllWork(l) && Tmp(g.cfg) != g.cfg ==> Renames(s, l, Tmp(g.cfg)))
  {
    hide Tmp;
  }

  lemma PutInPlaceKeeps(s: Past, l: Luck, n: nat, gs: seq<Goal>, i: nat)
    requires Apart(gs, i) && Batch(s, n, gs, i) && gs[i].pg.Some?
    requires var g := gs[i]; Written(s.files, g, g.bak, Tmp(g.cfg), g.info)
    ensures var g := gs[i]; var t := PutInPlace(s, l, g.input, g.cfg);
      && Batch(t.s, n, gs, i) && Leads(s, t.s, Names(g)) && (AllWork(l) && Tmp(g.cfg) != g.cfg ==> t.ok)
      && (t.ok ==> Done(t.s.files, g) && Has(t.s.files, g.bak, g.was))
  {
    hide Batch, Foreign, AfterUnlink, AfterRename, Tmp, Bak, Leads, Settled, Renames, Has, Written, Done, AllWork;
    var g := gs[i];
    var tmp := Tmp(g.cfg);
    ForeignOwn(tmp, gs, i);
    if g.cfg != g.input { ForeignOwn(g.cfg, gs, i); }
    RenameDone(s, l, g);
    ForeignBut(tmp, gs, i);
    ForeignBut(g.cfg, gs, i);
    var s1 := AfterRename(s, l, tmp, g.cfg);
    SettledBy(s, s1.files, n, g, g.bak);
    RenameOwn(s, l, tmp, g.cfg, n, gs, i);
    RenameLeads(s, l, tmp, g.cfg, Names(g));
    if !Renames(s, l, tmp) {
      var s2 := if g.input == g.cfg then AfterRename(s1, l, g.bak, g.input) else s1;
      if g.input == g.cfg {
        RenameMoves(s1, l, g.bak, g.input, g.was);
        SettledBy(s1, s2.files, n, g, if Renames(s1, l, g.bak) then g.input else g.bak);
        RenameOwn(s1, l, g.bak, g.input, n, gs, i);
        RenameLeads(s1, l, g.bak, g.input, Names(g));
        LeadsOn(s, s1, s2, Names(g));
      }
      UnlinkForeign(s2, l, tmp, n, gs, i);
      UnlinkLeads(s2, l, tmp, Names(g));
      LeadsOn(s, s2, AfterUnlink(s2, l, tmp), Names(g));
    }
  }

  /** The old file goes once the outputs are in place. */
  lemma RetireKeeps(s: Past, l: Luck, n: nat, gs: seq<Goal>, i: nat)
    requires Apart(gs, i) && Batch(s, n, gs, i) && Done(s.files, gs[i])
    ensures var g := gs[i]; var t := AfterUnlink(s, l, g.bak);
      && Batch(t, n, gs, i) && Leads(s, t, Names(g)) && (AllWork(l) ==> g.bak !in t.files)
      && Done(t.files, g) && DoneBy(t.trace, n, |t.trace|, g)
  {
    hide Batch, Foreign, AfterUnlink, Tmp, Bak, Settled, DoneBy, Leads, Has, AllWork;
    var g, t := gs[i], AfterUnlink(s, l, gs[i].bak);
    if g.cfg != g.input { ForeignOwn(g.cfg, gs, i); }
    ForeignOwn(g.info, gs, i);
    DoneNow(s, n, gs, i);
    SettledDone(s, t.files, n, g);
    UnlinkOwn(s, l, g.bak, n, gs, i);
    UnlinkLeads(s, l, g.bak, Names(g));
    if g.pg.Some? { UnlinkKeeps(s, l, g.bak, g.cfg, g.pg.value); }
    if g.gi.Some? { UnlinkKeeps(s, l, g.bak, g.info, g.gi.value); }
    UnlinkTrace(s, l, g.bak);
    DoneStays(s, t, n, g);
  }

  lemma SettledDone(s: Past, t: Files, n: nat, g: Goal)
    requires DoneBy(s.trace, n, |s.trace|, g)
    ensures Settled(s, t, n, g)
  {
  }

  lemma UnlinkTrace(s: Past, l: Luck, p: string)
    ensures var t := AfterUnlink(s, l, p); t.trace == s.trace + [t.files] && (AllWork(l) ==> p !in t.files)
  {
  }

  /** Nothing keeps the file from being converted but failures: it has outputs, and its
      settings have a temporary file of their own. */
  ghost predicate Converts(g: Goal) { HasOutputs(g) && (g.pg.Some? ==> Tmp(g.cfg) != g.cfg) }

  /** The old file is in neither of its places; new settings may be in its own. */
  ghost predicate Gone(f: Files, g: Goal) { g.bak !in f && (g.pg.None? ==> g.input !in f) }

  /** What one turn of the loop does for the i-th file and to the others. */
  ghost predicate Turned(s: Past, l: Luck, t: Turn, n: nat, gs: seq<Goal>, i: nat, keep: bool)
    requires i < |gs|
  {
    var g := gs[i];
    && Batch(t.s, n, gs, i) && Leads(s, t.s, Names(g))
    && (t.ok ==> Done(t.s.files, g) && DoneBy(t.s.trace, n, |t.s.trace|, g))
    && (t.ok && keep ==> Has(t.s.files, g.bak, g.was))
    && (t.ok && !keep && AllWork(l) ==> Gone(t.s.files, g))
    && (AllWork(l) ==> (t.ok <==> Converts(g)) && (g.gi.Some? ==> Has(t.s.files, g.info, g.gi.value)))
  }

  lemma WrittenInfo(f: Files, g: Goal, p: string, q: string)
    requires Written(f, g, p, q, g.info)
    ensures g.gi.Some? ==> Has(f, g.info, g.gi.value)
  {
  }

  lemma DoneInfo(f: Files, g: Goal)
    requires Done(f, g)
    ensures g.gi.Some? ==> Has(f, g.info, g.gi.value)
  {
  }

  lemma WrittenIsDone(f: Files, g: Goal, p: string, q: string)
    requires Written(f, g, p, q, g.info) && HasOutputs(g) && g.pg.None?
    ensures Done(f, g) && Has(f, p, g.was)
  {
  }

  lemma InfoStays(s: Past, l: Luck, n: nat, gs: seq<Goal>, i: nat)
    requires Apart(gs, i) && gs[i].gi.Some? && Has(s.files, gs[i].info, gs[i].gi.value)
    ensures var g := gs[i]; Has(PutInPlace(s, l, g.input, g.cfg).s.files, g.info, g.gi.value)
  {
    hide Tmp, Bak, AfterUnlink, AfterRename, Renames, Has;
    var g := gs[i];
    var s1 := AfterRename(s, l, Tmp(g.cfg), g.cfg);
    ForeignOwn(g.info, gs, i);
    RenameKeeps(s, l, Tmp(g.cfg), g.cfg, g.info, g.gi.value);
    var s2 := if g.input == g.cfg then AfterRename(s1, l, Bak(g.input), g.input) else s1;
    if g.input == g.cfg { RenameKeeps(s1, l, Bak(g.input), g.input, g.info, g.gi.value); }
    UnlinkKeeps(s2, l, Tmp(g.cfg), g.info, g.gi.value);
  }

  /** Settings that are their own temporary file are removed before they are put in place. */
  lemma NeverPlaced(s: Past, l: Luck, input: string, cfg: string)
    requires AllWork(l) && Tmp(cfg) == cfg != input
    ensures !PutInPlace(SetAside(s, l, input, cfg, true).s, l, input, cfg).ok
  {
    hide Tmp, Bak;
  }

  lemma InstallKeeps(s: Past, u: Past, l: Luck, n: nat, gs: seq<Goal>, i: nat, keep: bool)
    requires i < |gs| && Apart(gs, i) && Batch(u, n, gs, i) && HasOutputs(gs[i]) && Leads(s, u, Names(gs[i]))
    requires var g := gs[i]; Written(u.files, g, g.input, Tmp(g.cfg), g.info)
    ensures var g := gs[i]; Turned(s, l, Install(u, l, g.input, g.cfg, g.pg.Some?, keep), n, gs, i, keep)
  {
    hide Batch, Apart, SetAside, PutInPlace, AfterUnlink, Tmp, Bak, Leads, DoneBy, Names, Written, Done, Has, AllWork;
    var g, names := gs[i], Names(gs[i]);
    BakIs(gs, i);
    var v := SetAside(u, l, g.input, g.cfg, g.pg.Some?);
    SetAsideKeeps(u, l, n, gs, i);
    LeadsOn(s, u, v.s, names);
    var w := if v.ok && g.pg.Some? then PutInPlace(v.s, l, g.input, g.cfg) else v;
    if v.ok {
      if g.pg.Some? {
        PutInPlaceKeeps(v.s, l, n, gs, i);
        LeadsOn(s, v.s, w.s, names);
        WrittenInfo(v.s.files, g, g.bak, Tmp(g.cfg));
        if g.gi.Some? { InfoStays(v.s, l, n, gs, i); }
        TmpApart(gs, i);
        if AllWork(l) && Tmp(g.cfg) == g.cfg { NeverPlaced(u, l, g.input, g.cfg); }
      } else {
        WrittenIsDone(v.s.files, g, g.bak, Tmp(g.cfg));
        MovedAway(u, l, g.input, g.cfg);
      }
    }
    if w.ok {
      DoneNow(w.s, n, gs, i);
      DoneInfo(w.s.files, g);
      RetireKeeps(w.s, l, n, gs, i);
      DoneInfo(AfterUnlink(w.s, l, g.bak).files, g);
      StaysAway(w.s, l, g.bak, g.input);
      LeadsOn(s, w.s, AfterUnlink(w.s, l, g.bak), names);
    }
  }

  lemma TmpApart(gs: seq<Goal>, i: nat)
    requires Apart(gs, i)
    ensures Tmp(gs[i].cfg) == gs[i].cfg ==> gs[i].cfg != gs[i].input
  {
    hide Tmp, Bak;
    ForeignOwn(Tmp(gs[i].cfg), gs, i);
  }

  lemma MovedAway(s: Past, l: Luck, input: string, cfg: string)
    ensures var t := SetAside(s, l, input, cfg, false);
      t.ok && input == cfg && Bak(input) != input ==> input !in t.s.files
  {
    hide Bak, Tmp;
  }

  lemma StaysAway(s: Past, l: Luck, q: string, p: string)
    ensures p !in s.files ==> p !in AfterUnlink(s, l, q).files
  {
  }

  lemma BakIs(gs: seq<Goal>, i: nat)
    requires Apart(gs, i)
    ensures var g := gs[i]; g.bak == if g.input == g.cfg then Bak(g.input) else g.input
    ensures var g := gs[i]; g.input == g.cfg ==> g.bak != g.input
  {
  }

  lemma ConvertToKeeps(s: Past, l: Luck, n: nat, gs: seq<Goal>, i: nat, keep: bool)
    requires i < |gs| && Apart(gs, i) && Batch(s, n, gs, i)
    requires Has(s.files, gs[i].input, gs[i].was) && HasOutputs(gs[i])
    ensures var g := gs[i];
      Turned(s, l, ConvertTo(s, l, g.input, g.cfg, g.info, Legacy(g.pg, g.gi), keep), n, gs, i, keep)
  {
    hide Batch, Apart, Save, PlaceInfo, Install, AfterUnlink, Tmp, Bak, Leads, DoneBy, Names;
    var g, names := gs[i], Names(gs[i]);
    var t := Save(s, l, g.cfg, g.info, Legacy(g.pg, g.gi));
    SaveKeeps(s, l, n, gs, i);
    TmpNames(g);
    SaveLeads(s, l, g.cfg, g.info, Legacy(g.pg, g.gi), names);
    if t.ok {
      var u := if g.gi.Some? then PlaceInfo(t.s, l, g.cfg, g.info) else t;
      if g.gi.Some? {
        PlaceInfoKeeps(t.s, l, n, gs, i);
        LeadsOn(s, t.s, u.s, names);
      } else {
        NoInfoWritten(t.s.files, g, g.input, Tmp(g.cfg), Tmp(g.info), g.info);
      }
      if u.ok { InstallKeeps(s, u.s, l, n, gs, i, keep); }
    }
  }

  lemma TmpNames(g: Goal)
    ensures Tmp(g.cfg) in Names(g) && Tmp(g.info) in Names(g)
  {
  }
  // ---------------------------------------------------------------------------
  // The directory
  // ---------------------------------------------------------------------------

  /** A path in the CFG directory of a device, snprintf'ed into 256 bytes. */
  function PathOf(prefix: string, name: string): string { Named(prefix + "CFG/", name) }

  predicate Ends(p: string, c: char) { p != "" && p[|p| - 1] == c }

  /** A directory entry that is converted: a file name with extension .cfg, in any case. */
  type CfgName = name: string | |name| >= 5 && '/' !in name && (Ends(name, 'g') || Ends(name, 'G')) witness "a.cfg"

  /** The information file is named without the extension, of at most 127 characters. */
  function BaseOf(name: CfgName): string {
    var n := |name| - 4;
    name[..if n > 127 then 127 else n]
  }

  function InfoOf(prefix: string, name: CfgName): string { PathOf(prefix, BaseOf(name) + ".info") }

  /** A call of cfgBatchMigratePerGame: its arguments, the entries of the directory in the
      order they are read, and the legacy reader. */
  datatype Job = Job(inPrefix: string, outPrefix: string, names: seq<CfgName>, parse: Content -> Legacy, keep: bool)

  function ConvertNth(s: Past, l: Luck, job: Job, i: nat): Turn
    requires i < |job.names|
  {
    var name := job.names[i];
    Convert(s, l, PathOf(job.inPrefix, name), PathOf(job.outPrefix, name), InfoOf(job.outPrefix, name), job.parse,
            job.keep)
  }

  datatype Progress = Progress(s: Past, converted: set<nat>)

  /** The disk after the first i files, and which of them were converted. */
  function After(s: Past, l: Luck, job: Job, i: nat): (p: Progress)
    requires i <= |job.names|
    ensures forall j :: j in p.converted ==> j < i
  {
    if i == 0 then Progress(s, {})
    else
      var p := After(s, l, job, i - 1);
      var t := ConvertNth(p.s, l, job, i - 1);
      Progress(t.s, if t.ok then p.converted + {i - 1} else p.converted)
  }

  /** cfgBatchMigratePerGame: the loop over the entries. */
  method MigrateAll(d: Disk, inPrefix: string, outPrefix: string, names: seq<CfgName>, parse: Content -> Legacy,
                    keep: bool)
    returns (count: nat)
    modifies d
    ensures var p := After(old(d.Now()), d.luck, Job(inPrefix, outPrefix, names, parse, keep), |names|);
      d.Now() == p.s && count == |p.converted|
  {
    hide Convert, PathOf, InfoOf;
    ghost var job := Job(inPrefix, outPrefix, names, parse, keep);
    count := 0;
    var i := 0;
    while i < |names|
      invariant 0 <= i <= |names|
      invariant var p := After(old(d.Now()), d.luck, job, i); d.Now() == p.s && count == |p.converted|
    {
      var name := names[i];
      var ok := MigrateOne(d, PathOf(inPrefix, name), PathOf(outPrefix, name), InfoOf(outPrefix, name), parse, keep);
      if ok { count := count + 1; }
      i := i + 1;
    }
  }

  // ---------------------------------------------------------------------------
  // Names
  // ---------------------------------------------------------------------------

  /** The files of the job are there under different names.  Prefixes fit the 64 bytes they
      are kept in, and the path of each file its buffer; the path of its settings on
      another device need not. */
  ghost predicate Listing(files: Files, job: Job) {
    && |job.inPrefix| <= 63 && |job.outPrefix| <= 63
    && (forall j :: 0 <= j < |job.names| ==>
          |job.inPrefix| + 4 + |job.names[j]| <= 255 && PathOf(job.inPrefix, job.names[j]) in files)
    && (forall j, k :: 0 <= j < k < |job.names| ==> job.names[j] != job.names[k])
  }

  ghost function GoalOf(files: Files, job: Job, name: CfgName): Goal
    requires PathOf(job.inPrefix, name) in files
  {
    var input, cfg := PathOf(job.inPrefix, name), PathOf(job.outPrefix, name);
    var y := job.parse(files[input]);
    Goal(input, if cfg == input then Bak(input) else input, files[input], cfg, y.pg, InfoOf(job.outPrefix, name),
         y.info)
  }

  ghost function Goals(files: Files, job: Job): (gs: seq<Goal>)
    requires Listing(files, job)
    ensures |gs| == |job.names|
    ensures forall j :: 0 <= j < |job.names| ==> gs[j] == GoalOf(files, job, job.names[j])
  {
    seq(|job.names|, j requires 0 <= j < |job.names| => GoalOf(files, job, job.names[j]))
  }

  /** A path of that directory. */
  predicate InDir(p: string, prefix: string) {
    var n := |prefix| + 4;
    n <= |p| && p[..n] == prefix + "CFG/" && '/' !in p[n..]
  }

  /** A path determines its directory. */
  lemma DirsDiffer(p: string, a: string, b: string)
    requires InDir(p, a) && InDir(p, b)
    ensures a == b
  {
    if |a| < |b| { SlashBehind(p, a, b); }
    if |b| < |a| { SlashBehind(p, b, a); }
    assert a == p[..|a| + 4][..|a|] && b == p[..|b| + 4][..|b|];
  }

  lemma SlashBehind(p: string, a: string, b: string)
    requires InDir(p, b) && |a| < |b| && |a| + 4 <= |p|
    ensures '/' in p[|a| + 4..]
  {
    assert p[..|b| + 4][|b| + 3] == '/';
    assert p[|a| + 4..][|b| - |a| - 1] == p[|b| + 3];
  }

  lemma PathIn(prefix: string, name: string)
    requires |prefix| <= 63 && '/' !in name
    ensures var p := PathOf(prefix, name); var n := |prefix| + 4;
      && InDir(p, prefix) && |p| <= 255
      && (n + |name| <= 255 ==> |p| == n + |name| && p[n..] == name && (name != "" ==> Ends(p, name[|name| - 1])))
      && (n + |name| >= 255 ==> |p| == 255)
  {
    var p, n, whole := PathOf(prefix, name), |prefix| + 4, prefix + "CFG/" + name;
    assert p == if |whole| > 255 then whole[..255] else whole;
    assert p[..n] == prefix + "CFG/";
    assert p[n..] == name[..|p| - n];
  }

  lemma SuffixIn(p: string, prefix: string, suffix: string)
    requires InDir(p, prefix) && '/' !in suffix && |p| <= 255
    ensures InDir(Named(p, suffix), prefix)
  {
    var q, n := Named(p, suffix), |prefix| + 4;
    assert q[..n] == p[..n];
    assert q[n..] == p[n..] + suffix[..|q| - |p|];
  }

  /** The last characters of the names made from a path of at most 255. */
  lemma TmpShape(p: string)
    requires |p| <= 255
    ensures var t := Tmp(p);
      && (|p| <= 251 ==> t == p + ".tmp" && Ends(t, 'p'))
      && (252 <= |p| ==> |t| == 255)
      && (|p| == 252 ==> Ends(t, 'm')) && (|p| == 253 ==> Ends(t, 't')) && (|p| == 254 ==> Ends(t, '.'))
      && (|p| == 255 ==> t == p)
  {
    var whole := p + ".tmp";
    if |p| == 255 { assert whole[..255] == p; }
  }

  lemma BakShape(p: string)
    requires |p| <= 255
    ensures var t := Bak(p);
      && |p| <= |t| && t[..|p|] == p
      && (|p| <= 251 ==> |t| == |p| + 4 && Ends(t, 'k'))
      && (252 <= |p| ==> |t| == 255)
      && (|p| == 252 ==> Ends(t, 'a')) && (|p| == 253 ==> Ends(t, 'b')) && (|p| == 254 ==> Ends(t, '.'))
      && (|p| == 255 ==> t == p)
  {
    var whole := p + ".bak";
    if |p| == 255 { assert whole[..255] == p; }
  }

  lemma BaksDiffer(p: string, q: string)
    requires |p| <= 255 && |q| <= 255 && Bak(p) == Bak(q)
    requires (Ends(p, 'g') || Ends(p, 'G')) && (Ends(q, 'g') || Ends(q, 'G'))
    ensures p == q
  {
    hide Bak;
    BakShape(p);
    BakShape(q);
    assert |p| == |q|;
    assert p == Bak(p)[..|p|] == q;
  }

  predicate EndsG(p: string) { Ends(p, 'g') || Ends(p, 'G') }

  /** What the names of one file look like. */
  ghost predicate Shaped(g: Goal, inPrefix: string, outPrefix: string) {
    && InDir(g.input, inPrefix) && |g.input| <= 255 && EndsG(g.input)
    && InDir(g.cfg, outPrefix) && |g.cfg| <= 255 && (|g.cfg| < 255 ==> EndsG(g.cfg))
    && InDir(g.info, outPrefix) && |g.info| <= 199 && Ends(g.info, 'o')
    && (g.cfg == g.input <==> inPrefix == outPrefix)
    && g.bak == if inPrefix == outPrefix then Bak(g.input) else g.input
  }

  lemma GoalShaped(files: Files, job: Job, name: CfgName)
    requires PathOf(job.inPrefix, name) in files && |job.inPrefix| + 4 + |name| <= 255
    requires |job.inPrefix| <= 63 && |job.outPrefix| <= 63
    ensures Shaped(GoalOf(files, job, name), job.inPrefix, job.outPrefix)
  {
    hide PathOf, InDir, Bak;
    PathIn(job.inPrefix, name);
    PathIn(job.outPrefix, name);
    assert '/' !in BaseOf(name) + ".info";
    PathIn(job.outPrefix, BaseOf(name) + ".info");
    var g := GoalOf(files, job, name);
    if g.cfg == g.input { DirsDiffer(g.cfg, job.inPrefix, job.outPrefix); }
  }

  lemma AllShaped(files: Files, job: Job)
    requires Listing(files, job)
    ensures forall j :: 0 <= j < |job.names| ==> Shaped(Goals(files, job)[j], job.inPrefix, job.outPrefix)
  {
    hide PathOf, Shaped, GoalOf;
    forall j | 0 <= j < |job.names| ensures Shaped(Goals(files, job)[j], job.inPrefix, job.outPrefix) {
      GoalShaped(files, job, job.names[j]);
    }
  }

  lemma InputsDiffer(files: Files, job: Job, i: nat, j: nat)
    requires Listing(files, job) && i < |job.names| && j < |job.names| && i != j
    ensures Goals(files, job)[i].input != Goals(files, job)[j].input
  {
    hide PathOf;
    PathIn(job.inPrefix, job.names[i]);
    PathIn(job.inPrefix, job.names[j]);
  }

  /** The names one file's conversion writes to do not meet its own or another's input. */
  lemma WritesApart(g: Goal, h: Goal, inPrefix: string, outPrefix: string)
    requires Shaped(g, inPrefix, outPrefix) && Shaped(h, inPrefix, outPrefix)
    requires inPrefix == outPrefix ==> |g.input| <= 253
    ensures Tmp(g.cfg) !in {h.input, h.bak} && Tmp(g.info) !in {h.input, h.bak} && g.info !in {h.input, h.bak}
    ensures inPrefix != outPrefix ==> g.cfg !in {h.input, h.bak}
  {
    hide Tmp, Bak, InDir, Named;
    TmpShape(g.cfg);
    TmpShape(g.info);
    BakShape(h.input);
    if inPrefix != outPrefix {
      TmpIn(g.cfg, outPrefix);
      TmpIn(g.info, outPrefix);
      OtherDir(Tmp(g.cfg), h.input, inPrefix, outPrefix);
      OtherDir(Tmp(g.info), h.input, inPrefix, outPrefix);
      OtherDir(g.info, h.input, inPrefix, outPrefix);
      OtherDir(g.cfg, h.input, inPrefix, outPrefix);
    }
  }

  lemma OtherDir(p: string, q: string, inPrefix: string, outPrefix: string)
    requires InDir(p, outPrefix) && InDir(q, inPrefix) && inPrefix != outPrefix
    ensures p != q
  {
    hide InDir;
    if p == q { DirsDiffer(p, inPrefix, outPrefix); }
  }

  lemma TmpIn(p: string, prefix: string)
    requires InDir(p, prefix) && |p| <= 255
    ensures InDir(Tmp(p), prefix)
  {
    hide InDir, Named;
    SuffixIn(p, prefix, ".tmp");
  }

  lemma OwnApart(g: Goal, inPrefix: string, outPrefix: string)
    requires Shaped(g, inPrefix, outPrefix)
    ensures Tmp(g.cfg) !in {g.info, Tmp(g.info)} && Tmp(g.info) !in {g.info, g.cfg} && g.info != g.cfg
  {
    hide Tmp, Bak, InDir;
    TmpShape(g.cfg);
    TmpShape(g.info);
    if |g.cfg| <= 251 {
      var p, q := Tmp(g.cfg), Tmp(g.info);
      assert p[|p| - 5] == g.cfg[|g.cfg| - 1] && q[|q| - 5] == 'o';
    }
  }

  lemma BackupApart(g: Goal, h: Goal, inPrefix: string, outPrefix: string)
    requires Shaped(g, inPrefix, outPrefix) && Shaped(h, inPrefix, outPrefix) && g.input != h.input
    requires inPrefix == outPrefix ==> |g.input| <= 253
    ensures g.input !in {h.input, h.bak} && g.bak !in {h.input, h.bak}
  {
    hide Bak, InDir;
    BakShape(g.input);
    BakShape(h.input);
    if g.bak == h.bak && inPrefix == outPrefix { BaksDiffer(g.input, h.input); }
  }

  /** The names a batch uses never get in each other's way, unless the path of a file to
      be converted in place is longer than 253 characters. */
  lemma NamesApart(files: Files, job: Job, i: nat)
    requires Listing(files, job) && i < |job.names|
    requires job.inPrefix == job.outPrefix ==> |Goals(files, job)[i].input| <= 253
    ensures Apart(Goals(files, job), i)
  {
    hide Listing, Goals, Shaped, Tmp, Bak;
    var gs, a, b := Goals(files, job), job.inPrefix, job.outPrefix;
    AllShaped(files, job);
    var g := gs[i];
    OwnApart(g, a, b);
    OwnShape(g, a, b);
    forall j | 0 <= j < |gs|
      ensures Tmp(g.cfg) !in {gs[j].input, gs[j].bak} && Tmp(g.info) !in {gs[j].input, gs[j].bak}
      ensures g.info !in {gs[j].input, gs[j].bak} && (a != b ==> g.cfg !in {gs[j].input, gs[j].bak})
      ensures j != i ==> g.input !in {gs[j].input, gs[j].bak} && g.bak !in {gs[j].input, gs[j].bak}
    {
      WritesApart(g, gs[j], a, b);
      if j != i {
        InputsDiffer(files, job, i, j);
        BackupApart(g, gs[j], a, b);
      }
    }
  }

  lemma OwnShape(g: Goal, inPrefix: string, outPrefix: string)
    requires Shaped(g, inPrefix, outPrefix) && (inPrefix == outPrefix ==> |g.input| <= 253)
    ensures g.cfg == g.input <==> inPrefix == outPrefix
    ensures g.bak == if g.cfg == g.input then Bak(g.input) else g.input
    ensures g.cfg == g.input ==> g.bak != g.input
  {
    hide Bak, InDir;
    BakShape(g.input);
  }

  // ---------------------------------------------------------------------------
  // The whole run
  // ---------------------------------------------------------------------------

  /** The last of the first i files that writes its information to this path. */
  ghost function LastWriter(gs: seq<Goal>, i: nat, path: string): (w: Option<nat>)
    requires i <= |gs|
    ensures w.Some? ==> w.value < i && gs[w.value].gi.Some? && gs[w.value].info == path
  {
    if i == 0 then None
    else if gs[i - 1].gi.Some? && gs[i - 1].info == path then Some(i - 1)
    else LastWriter(gs, i - 1, path)
  }

  /** What is left of the first i files: settings stay where they were put, information
      until another file writes there; when nothing fails also that of files whose
      settings could not be put in place.  Old files are kept, or gone when nothing fails. */
  ghost predicate Remain(f: Files, gs: seq<Goal>, converted: set<nat>, i: nat, all: bool, keep: bool) {
    && i <= |gs|
    && (forall j :: j in converted ==> j < i)
    && (forall j :: j in converted && gs[j].pg.Some? && Tmp(gs[j].cfg) != gs[j].cfg ==>
          Has(f, gs[j].cfg, gs[j].pg.value))
    && (forall j :: 0 <= j < i && (j in converted || all) && LastWriter(gs, i, gs[j].info) == Some(j) ==>
          Has(f, gs[j].info, gs[j].gi.value))
    && (forall j :: j in converted && keep ==> Has(f, gs[j].bak, gs[j].was))
    && (forall j :: j in converted && !keep && all ==> Gone(f, gs[j]))
  }

  /** No other file's conversion uses the names of an output, but to write information. */
  ghost predicate OutputsApart(gs: seq<Goal>, i: nat) {
    i < |gs| && forall j :: 0 <= j < |gs| && j != i ==>
      && (Tmp(gs[j].cfg) != gs[j].cfg ==> gs[j].cfg !in Names(gs[i]))
      && (gs[j].info in Names(gs[i]) ==> gs[i].gi.Some? && gs[j].info == gs[i].info)
      && gs[j].input !in Names(gs[i]) && gs[j].bak !in Names(gs[i])
  }

  lemma RemainNext(s: Past, l: Luck, t: Turn, n: nat, gs: seq<Goal>, i: nat, converted: set<nat>, keep: bool)
    requires Remain(s.files, gs, converted, i, AllWork(l), keep) && OutputsApart(gs, i)
    requires i < |gs| && Turned(s, l, t, n, gs, i, keep)
    ensures Remain(t.s.files, gs, if t.ok then converted + {i} else converted, i + 1, AllWork(l), keep)
  {
    hide Names, Batch, DoneBy, Converts, AllWork, Tmp;
    var f, f', names := s.files, t.s.files, Names(gs[i]);
    var after := if t.ok then converted + {i} else converted;
    forall j | j in after && gs[j].pg.Some? && Tmp(gs[j].cfg) != gs[j].cfg
      ensures Has(f', gs[j].cfg, gs[j].pg.value)
    {
      if j != i { UntouchedHas(f, f', names, gs[j].cfg, gs[j].pg.value); }
    }
    forall j | 0 <= j < i + 1 && (j in after || AllWork(l)) && LastWriter(gs, i + 1, gs[j].info) == Some(j)
      ensures Has(f', gs[j].info, gs[j].gi.value)
    {
      if j != i { UntouchedHas(f, f', names, gs[j].info, gs[j].gi.value); }
    }
    forall j | j in after && keep ensures Has(f', gs[j].bak, gs[j].was) {
      if j != i { UntouchedHas(f, f', names, gs[j].bak, gs[j].was); }
    }
  }

  /** cfg paths that do not fill their buffer differ. */
  lemma OutputsDiffer(files: Files, job: Job, i: nat, j: nat)
    requires Listing(files, job) && i < |job.names| && j < |job.names| && i != j
    requires |Goals(files, job)[j].cfg| < 255
    ensures Goals(files, job)[i].cfg != Goals(files, job)[j].cfg
  {
    hide PathOf;
    PathIn(job.outPrefix, job.names[i]);
    PathIn(job.outPrefix, job.names[j]);
  }

  lemma OutputsMeet(g: Goal, h: Goal, inPrefix: string, outPrefix: string)
    requires Shaped(g, inPrefix, outPrefix) && Shaped(h, inPrefix, outPrefix)
    requires inPrefix == outPrefix ==> |g.input| <= 253
    ensures Tmp(h.cfg) != h.cfg ==> |h.cfg| < 255 && h.cfg !in {Tmp(g.cfg), Tmp(g.info), g.info}
    ensures Tmp(h.cfg) != h.cfg && h.cfg != g.cfg ==> h.cfg !in {g.input, g.bak}
    ensures h.info !in {g.input, g.bak, g.cfg, Tmp(g.cfg), Tmp(g.info)}
  {
    hide Tmp, Bak, InDir;
    TmpShape(h.cfg);
    TmpShape(g.cfg);
    TmpShape(g.info);
    BakShape(g.input);
    if inPrefix != outPrefix { OtherDir(h.cfg, g.input, inPrefix, outPrefix); }
  }

  lemma OutputsAreApart(files: Files, job: Job, i: nat)
    requires Listing(files, job) && i < |job.names|
    requires job.inPrefix == job.outPrefix ==> |Goals(files, job)[i].input| <= 253
    ensures OutputsApart(Goals(files, job), i)
  {
    hide Listing, Goals, Shaped, Tmp, Bak;
    var gs := Goals(files, job);
    AllShaped(files, job);
    forall j | 0 <= j < |gs| && j != i
      ensures Tmp(gs[j].cfg) != gs[j].cfg ==> gs[j].cfg !in Names(gs[i])
      ensures gs[j].info in Names(gs[i]) ==> gs[i].gi.Some? && gs[j].info == gs[i].info
      ensures gs[j].input !in Names(gs[i]) && gs[j].bak !in Names(gs[i])
    {
      OutputsMeet(gs[i], gs[j], job.inPrefix, job.outPrefix);
      WritesApart(gs[i], gs[j], job.inPrefix, job.outPrefix);
      InputsDiffer(files, job, i, j);
      BackupApart(gs[i], gs[j], job.inPrefix, job.outPrefix);
      OwnShape(gs[i], job.inPrefix, job.outPrefix);
      if |gs[j].cfg| < 255 { OutputsDiffer(files, job, i, j); }
    }
  }

  /** All files are good so far, and those from the i-th on wait unchanged. */
  ghost predicate Waiting(s: Past, n: nat, gs: seq<Goal>, i: nat) {
    && (forall j :: 0 <= j < |gs| ==> Good(s, n, gs[j]))
    && (forall j :: i <= j < |gs| ==> Has(s.files, gs[j].input, gs[j].was))
  }

  /** The files converted among the first i: their outputs have been in place, and when
      nothing fails they are all those that nothing but failures keeps from it. */
  ghost predicate Tally(trace: seq<Files>, n: nat, gs: seq<Goal>, converted: set<nat>, i: nat, all: bool) {
    && i <= |gs|
    && (forall j :: j in converted ==> j < i && DoneBy(trace, n, |trace|, gs[j]))
    && (all ==> forall j :: 0 <= j < i ==> (j in converted <==> Converts(gs[j])))
  }

  lemma DoneGrows(before: seq<Files>, after: seq<Files>, n: nat, g: Goal)
    requires before <= after && DoneBy(before, n, |before|, g)
    ensures DoneBy(after, n, |after|, g)
  {
    var m :| n <= m < |before| && Done(before[m], g);
    assert after[m] == before[m];
  }

  lemma TallyNext(s: Past, l: Luck, t: Turn, n: nat, gs: seq<Goal>, i: nat, converted: set<nat>, keep: bool)
    requires Tally(s.trace, n, gs, converted, i, AllWork(l)) && i < |gs| && Turned(s, l, t, n, gs, i, keep)
    ensures Tally(t.s.trace, n, gs, if t.ok then converted + {i} else converted, i + 1, AllWork(l))
  {
    hide DoneBy, Converts, Batch, Names, AllWork;
    forall j | j in converted ensures DoneBy(t.s.trace, n, |t.s.trace|, gs[j]) {
      DoneGrows(s.trace, t.s.trace, n, gs[j]);
    }
  }

  /** Conversion in place needs room for two names. */
  ghost predicate HasRoom(job: Job, g: Goal) {
    job.inPrefix == job.outPrefix && HasOutputs(g) ==> |g.input| <= 253
  }

  lemma NothingDone(s: Past, l: Luck, n: nat, gs: seq<Goal>, i: nat, keep: bool)
    requires i < |gs| && Batch(s, n, gs, i) && (AllWork(l) ==> !HasOutputs(gs[i]))
    ensures Turned(s, l, Turn(AfterExists(s), false), n, gs, i, keep)
  {
    hide Batch, Names, DoneBy;
    ReadForeign(s, n, gs, i);
  }

  /** One turn of the loop, on a disk where everything so far is as it should be. */
  lemma NthTurns(s: Past, l: Luck, files: Files, job: Job, n: nat, i: nat)
    requires Listing(files, job) && i < |job.names| && Waiting(s, n, Goals(files, job), i)
    requires HasRoom(job, Goals(files, job)[i])
    ensures Turned(s, l, ConvertNth(s, l, job, i), n, Goals(files, job), i, job.keep)
  {
    hide Listing, Good, PathOf, InfoOf, ConvertTo, Turned, Apart, Bak;
    var gs := Goals(files, job);
    var g := gs[i];
    assert Batch(s, n, gs, i);
    RenameWorks(s, l, g.input, g.was);
    GoalIs(files, job, i);
    if Renames(s, l, g.input) && HasOutputs(g) {
      NamesApart(files, job, i);
      ReadForeign(s, n, gs, i);
      ConvertToKeeps(AfterExists(s), l, n, gs, i, job.keep);
      TurnedSinceRead(s, l, ConvertNth(s, l, job, i), n, gs, i, job.keep);
    } else {
      NothingDone(s, l, n, gs, i, job.keep);
    }
  }

  lemma TurnedSinceRead(s: Past, l: Luck, t: Turn, n: nat, gs: seq<Goal>, i: nat, keep: bool)
    requires i < |gs| && Turned(AfterExists(s), l, t, n, gs, i, keep)
    ensures Turned(s, l, t, n, gs, i, keep)
  {
  }

  lemma GoalIs(files: Files, job: Job, i: nat)
    requires Listing(files, job) && i < |job.names|
    ensures var g := Goals(files, job)[i]; var name := job.names[i];
      && g.input == PathOf(job.inPrefix, name) && g.cfg == PathOf(job.outPrefix, name)
      && g.info == InfoOf(job.outPrefix, name) && job.parse(g.was) == Legacy(g.pg, g.gi)
  {
  }

  lemma Starts(s: Past, l: Luck, job: Job)
    requires Listing(s.files, job) && s.trace != [] && s.trace[|s.trace| - 1] == s.files
    ensures var gs, n := Goals(s.files, job), |s.trace| - 1;
      && Waiting(s, n, gs, 0) && Tally(s.trace, n, gs, {}, 0, AllWork(l))
      && Remain(s.files, gs, {}, 0, AllWork(l), job.keep)
  {
    hide PathOf, InfoOf, Bak;
  }

  lemma WaitingNext(s: Past, l: Luck, t: Turn, n: nat, gs: seq<Goal>, i: nat, keep: bool)
    requires i < |gs| && Turned(s, l, t, n, gs, i, keep)
    ensures s.trace <= t.s.trace && Waiting(t.s, n, gs, i + 1)
  {
    hide Good, Names, DoneBy;
  }

  lemma IdleTurn(s: Past, l: Luck, files: Files, job: Job, n: nat, i: nat)
    requires Listing(files, job) && i < |job.names| && Waiting(s, n, Goals(files, job), i)
    requires !HasOutputs(Goals(files, job)[i])
    ensures ConvertNth(s, l, job, i) == Turn(AfterExists(s), false)
  {
    hide Listing, Goals, Good, PathOf, InfoOf, ConvertTo;
    GoalIs(files, job, i);
  }

  lemma RemainIdle(f: Files, gs: seq<Goal>, converted: set<nat>, i: nat, all: bool, keep: bool)
    requires Remain(f, gs, converted, i, all, keep) && i < |gs| && gs[i].gi.None?
    ensures Remain(f, gs, converted, i + 1, all, keep)
  {
    hide Tmp;
  }

  lemma RemainNth(s: Past, l: Luck, files: Files, job: Job, n: nat, i: nat, converted: set<nat>)
    requires Listing(files, job) && i < |job.names| && Waiting(s, n, Goals(files, job), i)
    requires HasRoom(job, Goals(files, job)[i])
    requires Remain(s.files, Goals(files, job), converted, i, AllWork(l), job.keep)
    requires Turned(s, l, ConvertNth(s, l, job, i), n, Goals(files, job), i, job.keep)
    ensures var t := ConvertNth(s, l, job, i);
      Remain(t.s.files, Goals(files, job), if t.ok then converted + {i} else converted, i + 1, AllWork(l), job.keep)
  {
    hide Listing, Goals, ConvertNth, Waiting, Remain, Turned, OutputsApart, AllWork;
    var gs := Goals(files, job);
    if HasOutputs(gs[i]) {
      OutputsAreApart(files, job, i);
      RemainNext(s, l, ConvertNth(s, l, job, i), n, gs, i, converted, job.keep);
    } else {
      IdleTurn(s, l, files, job, n, i);
      RemainIdle(s.files, gs, converted, i, AllWork(l), job.keep);
    }
  }

  /** After any number of turns, whatever fails: every input is good, those ahead wait,
      and the files converted are as they should be. */
  lemma {:induction false} RunIsSafe(s: Past, l: Luck, job: Job, i: nat)
    requires Listing(s.files, job) && s.trace != [] && s.trace[|s.trace| - 1] == s.files && i <= |job.names|
    requires forall j :: 0 <= j < |job.names| ==> HasRoom(job, Goals(s.files, job)[j])
    ensures var gs, n := Goals(s.files, job), |s.trace| - 1; var p := After(s, l, job, i);
      && s.trace <= p.s.trace
      && Waiting(p.s, n, gs, i) && Tally(p.s.trace, n, gs, p.converted, i, AllWork(l))
      && Remain(p.s.files, gs, p.converted, i, AllWork(l), job.keep)
  {
    hide Listing, Goals, ConvertNth, Turned, HasRoom, Waiting, Tally, Remain, AllWork, OutputsApart;
    var gs, n := Goals(s.files, job), |s.trace| - 1;
    if i == 0 {
      Starts(s, l, job);
    } else {
      RunIsSafe(s, l, job, i - 1);
      var p := After(s, l, job, i - 1);
      var t := ConvertNth(p.s, l, job, i - 1);
      NthTurns(p.s, l, s.files, job, n, i - 1);
      TallyNext(p.s, l, t, n, gs, i - 1, p.converted, job.keep);
      RemainNth(p.s, l, s.files, job, n, i - 1, p.converted);
      WaitingNext(p.s, l, t, n, gs, i - 1, job.keep);
    }
  }

  // ---------------------------------------------------------------------------
  // Exactly when nothing is lost
  // ---------------------------------------------------------------------------

  /** Over the whole run every file holds its old content at its path or its backup, or
      its outputs have been in place. */
  ghost predicate Kept(s: Past, l: Luck, job: Job)
    requires Listing(s.files, job) && s.trace != []
  {
    forall j :: 0 <= j < |job.names| ==>
      Good(After(s, l, job, |job.names|).s, |s.trace| - 1, Goals(s.files, job)[j])
  }

  /** Whatever the files hold, whatever the reader makes of them, and whatever fails. */
  ghost predicate AlwaysKept(inPrefix: string, outPrefix: string, names: seq<CfgName>) {
    forall s: Past, l: Luck, parse: Content -> Legacy, keep: bool ::
      var job := Job(inPrefix, outPrefix, names, parse, keep);
      Listing(s.files, job) && s.trace != [] && s.trace[|s.trace| - 1] == s.files ==> Kept(s, l, job)
  }

  /** The state after which the file is lost stays in the record. */
  ghost predicate Lost(trace: seq<Files>, n: nat, g: Goal) {
    exists k :: n <= k < |trace| && !Survives(trace[k], g) && !DoneBy(trace, n, k + 1, g)
  }

  lemma LostStays(before: seq<Files>, after: seq<Files>, n: nat, g: Goal)
    requires before <= after && Lost(before, n, g)
    ensures Lost(after, n, g)
  {
    var k: nat :| n <= k < |before| && !Survives(before[k], g) && !DoneBy(before, n, k + 1, g);
    assert after[k] == before[k];
    assert forall m :: n <= m < k + 1 ==> !Done(before[m], g) && before[m] == after[m];
  }

  // Turns only add to the record.

  lemma PartsGrow(s: Past, l: Luck, input: string, cfg: string, info: string, hasPg: bool)
    ensures s.trace <= PlaceInfo(s, l, cfg, info).s.trace
    ensures s.trace <= SetAside(s, l, input, cfg, hasPg).s.trace
    ensures s.trace <= PutInPlace(s, l, input, cfg).s.trace
  {
    hide Tmp, Bak, Renames;
  }

  lemma ConvertToGrows(s: Past, l: Luck, input: string, cfg: string, info: string, y: Legacy, keep: bool)
    ensures s.trace <= ConvertTo(s, l, input, cfg, info, y, keep).s.trace
    ensures AfterUnlink(s, l, Tmp(cfg)).trace <= ConvertTo(s, l, input, cfg, info, y, keep).s.trace
  {
    hide Tmp, Bak, PlaceInfo, SetAside, PutInPlace, Save;
    var t := Save(s, l, cfg, info, y);
    SaveGrows(s, l, cfg, info, y);
    PartsGrow(t.s, l, input, cfg, info, true);
    var u := if t.ok && y.info.Some? then PlaceInfo(t.s, l, cfg, info) else t;
    PartsGrow(u.s, l, input, cfg, info, y.pg.Some?);
    var v := SetAside(u.s, l, input, cfg, y.pg.Some?);
    PartsGrow(v.s, l, input, cfg, info, true);
  }

  lemma SaveGrows(s: Past, l: Luck, cfg: string, info: string, y: Legacy)
    ensures s.trace <= AfterUnlink(s, l, Tmp(cfg)).trace <= Save(s, l, cfg, info, y).s.trace
  {
    hide Tmp;
  }

  lemma {:induction false} AfterGrows(s: Past, l: Luck, job: Job, i: nat, k: nat)
    requires i <= k <= |job.names|
    ensures After(s, l, job, i).s.trace <= After(s, l, job, k).s.trace
    decreases k
  {
    hide ConvertTo, PathOf, InfoOf;
    if i < k {
      AfterGrows(s, l, job, i, k - 1);
      var p, name := After(s, l, job, k - 1).s, job.names[k - 1];
      var input := PathOf(job.inPrefix, name);
      if input in p.files {
        ConvertToGrows(AfterExists(p), l, input, PathOf(job.outPrefix, name), InfoOf(job.outPrefix, name),
                       job.parse(p.files[input]), job.keep);
      }
    }
  }

  /** With failing reads the files before the j-th are left alone. */
  lemma {:induction false} LeftAlone(s: Past, l: Luck, job: Job, i: nat)
    requires i <= |job.names| && forall k :: s.clock <= k < s.clock + i ==> !l.works(k)
    ensures After(s, l, job, i).s == s.(clock := s.clock + i)
  {
    hide ConvertTo, PathOf, InfoOf;
    if i > 0 { LeftAlone(s, l, job, i - 1); }
  }

  /** The luck that loses the j-th file: it is the first to be read, and the rename of the
      settings and the rename back fail. */
  function BadLuck(j: nat): Luck { Luck(k => k >= j && k != j + 6 && k != j + 7, k => None) }

  /** A file whose path fills its buffer is its own temporary file: the first unlink
      deletes it. */
  lemma FullPathLoses(s: Past, l: Luck, g: Goal, keep: bool)
    requires |g.input| == 255 && g.cfg == g.input && g.bak == Bak(g.input) && l.works(s.clock)
    requires g.pg.Some? && g.pg.value != g.was && Has(s.files, g.input, g.was)
    requires s.trace == [s.files]
    ensures Lost(ConvertTo(s, l, g.input, g.cfg, g.info, Legacy(g.pg, g.gi), keep).s.trace, 0, g)
  {
    hide ConvertTo, Tmp, Bak;
    TmpShape(g.input);
    BakShape(g.input);
    var s1 := AfterUnlink(s, l, Tmp(g.cfg));
    assert s1.trace == [s.files, s1.files] && g.input !in s1.files;
    assert !DoneBy(s1.trace, 0, 2, g) && !Survives(s1.trace[1], g);
    ConvertToGrows(s, l, g.input, g.cfg, g.info, Legacy(g.pg, g.gi), keep);
    LostStays(s1.trace, ConvertTo(s, l, g.input, g.cfg, g.info, Legacy(g.pg, g.gi), keep).s.trace, 0, g);
  }

  /** Nothing but the old content has been at p, now included. */
  ghost predicate NothingNew(s: Past, p: string, was: Content) {
    && (p in s.files ==> s.files[p] == was)
    && forall k :: 0 <= k < |s.trace| && p in s.trace[k] ==> s.trace[k][p] == was
  }

  lemma UnlinkNew(s: Past, l: Luck, q: string, p: string, was: Content)
    requires NothingNew(s, p, was)
    ensures NothingNew(AfterUnlink(s, l, q), p, was)
  {
  }

  lemma RenameNew(s: Past, l: Luck, a: string, b: string, p: string, was: Content)
    requires NothingNew(s, p, was) && (b != p || !Renames(s, l, a))
    ensures NothingNew(AfterRename(s, l, a, b), p, was)
  {
  }

  lemma WriteNew(s: Past, l: Luck, q: string, c: Content, p: string, was: Content)
    requires NothingNew(s, p, was) && q != p
    ensures NothingNew(AfterWrite(s, l, q, c), p, was)
  {
  }

  /** The temporary file of a path of 254 characters is its backup: the old file is moved
      there, and is removed with it when it cannot be put back. */
  lemma NearlyFullPathLoses(s: Past, j: nat, g: Goal, keep: bool)
    requires |g.input| == 254 && g.cfg == g.input && g.bak == Bak(g.input) && g.input !in {Tmp(g.info), g.info}
    requires g.pg.Some? && g.gi.None? && g.pg.value != g.was && Has(s.files, g.input, g.was)
    requires s.trace == [s.files] && s.clock == j + 1
    ensures Lost(ConvertTo(s, BadLuck(j), g.input, g.cfg, g.info, Legacy(g.pg, g.gi), keep).s.trace, 0, g)
  {
    NamesDifferIff(g.input);
    var l, tmp := BadLuck(j), Tmp(g.input);
    var tmpInfo := Tmp(g.info);
    hide Tmp, Bak;
    TmpShape(g.input);
    var s1 := AfterUnlink(s, l, tmp);
    var s2 := AfterUnlink(s1, l, tmpInfo);
    UnlinkNew(s, l, tmp, g.input, g.was);
    UnlinkNew(s1, l, tmpInfo, g.input, g.was);
    UnlinkKeeps(s, l, tmp, g.input, g.was);
    UnlinkKeeps(s1, l, tmpInfo, g.input, g.was);
    var s3 := AfterWrite(s2, l, tmp, g.pg.value);
    WriteNew(s2, l, tmp, g.pg.value, g.input, g.was);
    assert Save(s, l, g.cfg, g.info, Legacy(g.pg, g.gi)) == Turn(s3, true);
    var s4 := AfterUnlink(s3, l, tmp);
    UnlinkNew(s3, l, tmp, g.input, g.was);
    assert g.input in s4.files;
    var s5 := AfterRename(s4, l, g.input, tmp);
    RenameNew(s4, l, g.input, tmp, g.input, g.was);
    assert SetAside(s3, l, g.input, g.cfg, true) == Turn(s5, true) && g.input !in s5.files;
    var s6 := AfterRename(s5, l, tmp, g.input);
    RenameNew(s5, l, tmp, g.input, g.input, g.was);
    var s7 := AfterRename(s6, l, tmp, g.input);
    RenameNew(s6, l, tmp, g.input, g.input, g.was);
    var s8 := AfterUnlink(s7, l, tmp);
    UnlinkNew(s7, l, tmp, g.input, g.was);
    assert PutInPlace(s5, l, g.input, g.cfg) == Turn(s8, false);
    assert ConvertTo(s, l, g.input, g.cfg, g.info, Legacy(g.pg, g.gi), keep) == Turn(s8, false);
    assert s8.trace[|s8.trace| - 1] == s8.files && !Survives(s8.files, g);
    assert !DoneBy(s8.trace, 0, |s8.trace|, g);
  }

  /** Empty files at all paths of a job in place, and a reader that finds settings. */
  lemma EmptyFiles(prefix: string, names: seq<CfgName>) returns (files: Files, job: Job)
    requires |prefix| <= 63 && forall k :: 0 <= k < |names| ==> |prefix| + 4 + |names[k]| <= 255
    requires forall k, m :: 0 <= k < m < |names| ==> names[k] != names[m]
    ensures job.inPrefix == job.outPrefix == prefix && job.names == names
    ensures Listing(files, job) && forall g :: g in Goals(files, job) ==>
      g.was == [] && g.pg == Some([1]) && g.gi == None && Has(files, g.input, [])
  {
    hide PathOf, InfoOf, Bak;
    var paths := set k | 0 <= k < |names| :: PathOf(prefix, names[k]);
    files := map p | p in paths :: [];
    job := Job(prefix, prefix, names, c => Legacy(Some([1]), None), true);
    assert forall k :: 0 <= k < |names| ==> PathOf(prefix, names[k]) in paths;
  }

  /** A file of a job in place whose path has more than 253 characters can be lost. */
  lemma LongPathIsLost(prefix: string, names: seq<CfgName>, j: nat) returns (s: Past, job: Job)
    requires j < |names| && |prefix| <= 63 && 253 < |prefix| + 4 + |names[j]|
    requires forall k :: 0 <= k < |names| ==> |prefix| + 4 + |names[k]| <= 255
    requires forall k, m :: 0 <= k < m < |names| ==> names[k] != names[m]
    ensures job.inPrefix == job.outPrefix == prefix && job.names == names
    ensures Listing(s.files, job) && s.trace == [s.files] && !Kept(s, BadLuck(j), job)
  {
    var files: Files;
    files, job := EmptyFiles(prefix, names);
    s := Past(files, 0, [files]);
    var g := Goals(files, job)[j];
    hide *;
    assert g in Goals(files, job);
    JthIsLost(s, job, j, g);
    NotKept(s, BadLuck(j), job, j);
  }

  lemma NotKept(s: Past, l: Luck, job: Job, j: nat)
    requires Listing(s.files, job) && j < |job.names| && s.trace == [s.files]
    requires Lost(After(s, l, job, j + 1).s.trace, 0, Goals(s.files, job)[j])
    ensures !Kept(s, l, job)
  {
    hide Listing, Goals, After, Good, Lost;
    var last, g := After(s, l, job, |job.names|).s, Goals(s.files, job)[j];
    AfterGrows(s, l, job, j + 1, |job.names|);
    LostStays(After(s, l, job, j + 1).s.trace, last.trace, 0, g);
    LostIsNotGood(last, 0, g);
  }

  lemma TurnOfJ(s: Past, job: Job, j: nat, g: Goal)
    requires Listing(s.files, job) && j < |job.names| && g == Goals(s.files, job)[j]
    requires s.clock == 0 && g.pg.Some? && Has(s.files, g.input, g.was)
    ensures After(s, BadLuck(j), job, j + 1).s
      == ConvertTo(s.(clock := j + 1), BadLuck(j), g.input, g.cfg, g.info, Legacy(g.pg, g.gi), job.keep).s
  {
    hide Listing, Goals, PathOf, InfoOf, ConvertTo;
    LeftAlone(s, BadLuck(j), job, j);
    GoalIs(s.files, job, j);
  }

  lemma JthIsLost(s: Past, job: Job, j: nat, g: Goal)
    requires Listing(s.files, job) && j < |job.names| && g == Goals(s.files, job)[j]
    requires job.inPrefix == job.outPrefix && 253 < |job.inPrefix| + 4 + |job.names[j]|
    requires s.trace == [s.files] && s.clock == 0
    requires g.was == [] && g.pg == Some([1]) && g.gi == None && Has(s.files, g.input, [])
    ensures Lost(After(s, BadLuck(j), job, j + 1).s.trace, 0, g)
  {
    var s1 := s.(clock := j + 1);
    assert BadLuck(j).works(s1.clock);
    hide Goals, PathOf, InfoOf, Bak, Tmp, ConvertTo, Lost, BadLuck, InDir;
    TurnOfJ(s, job, j, g);
    GoalIs(s.files, job, j);
    PathIn(job.inPrefix, job.names[j]);
    AllShaped(s.files, job);
    TmpShape(g.info);
    if |g.input| == 255 {
      FullPathLoses(s1, BadLuck(j), g, job.keep);
    } else {
      NearlyFullPathLoses(s1, j, g, job.keep);
    }
  }

  lemma LostIsNotGood(s: Past, n: nat, g: Goal)
    requires Lost(s.trace, n, g)
    ensures !Good(s, n, g)
  {
  }

  /** A batch loses nothing, whatever fails, exactly when it converts to another device or
      every path has at most 253 characters. */
  lemma BatchSafeIff(inPrefix: string, outPrefix: string, names: seq<CfgName>)
    requires |inPrefix| <= 63 && |outPrefix| <= 63
    requires forall j :: 0 <= j < |names| ==> |inPrefix| + 4 + |names[j]| <= 255
    requires forall j, k :: 0 <= j < k < |names| ==> names[j] != names[k]
    ensures AlwaysKept(inPrefix, outPrefix, names) <==>
      (inPrefix == outPrefix ==> forall j :: 0 <= j < |names| ==> |inPrefix| + 4 + |names[j]| <= 253)
  {
    hide Listing, Kept;
    if inPrefix == outPrefix ==> forall j :: 0 <= j < |names| ==> |inPrefix| + 4 + |names[j]| <= 253 {
      forall s: Past, l: Luck, parse: Content -> Legacy, keep: bool
        | Listing(s.files, Job(inPrefix, outPrefix, names, parse, keep))
          && s.trace != [] && s.trace[|s.trace| - 1] == s.files
        ensures Kept(s, l, Job(inPrefix, outPrefix, names, parse, keep))
      {
        RunKeeps(s, l, Job(inPrefix, outPrefix, names, parse, keep));
      }
    } else {
      var j :| 0 <= j < |names| && |inPrefix| + 4 + |names[j]| > 253;
      var s, job := LongPathIsLost(inPrefix, names, j);
      assert job == Job(inPrefix, outPrefix, names, job.parse, job.keep);
    }
  }

  lemma RunKeeps(s: Past, l: Luck, job: Job)
    requires Listing(s.files, job) && s.trace != [] && s.trace[|s.trace| - 1] == s.files
    requires job.inPrefix == job.outPrefix ==>
      forall j :: 0 <= j < |job.names| ==> |job.inPrefix| + 4 + |job.names[j]| <= 253
    ensures Kept(s, l, job)
  {
    hide Goals, PathOf, After, Tally, Remain, Good;
    forall j | 0 <= j < |job.names| ensures HasRoom(job, Goals(s.files, job)[j]) {
      GoalIs(s.files, job, j);
      PathIn(job.inPrefix, job.names[j]);
    }
    RunIsSafe(s, l, job, |job.names|);
  }

  // ---------------------------------------------------------------------------
  // What is there at the end
  // ---------------------------------------------------------------------------

  /** Nothing has failed: a converted file's outputs are there at the end exactly when the
      last file to write its information wrote the same. */
  lemma RemainIff(s: Past, l: Luck, job: Job, j: nat)
    requires Listing(s.files, job) && s.trace != [] && s.trace[|s.trace| - 1] == s.files && AllWork(l)
    requires forall k :: 0 <= k < |job.names| ==> HasRoom(job, Goals(s.files, job)[k])
    requires j < |job.names| && j in After(s, l, job, |job.names|).converted
    ensures var gs := Goals(s.files, job); var w := LastWriter(gs, |gs|, gs[j].info);
      && (gs[j].gi.Some? ==> w.Some?)
      && (Done(After(s, l, job, |job.names|).s.files, gs[j]) <==> (gs[j].gi.Some? ==> gs[w.value].gi == gs[j].gi))
  {
    hide Goals, After, HasRoom, Good, Tmp;
    var gs := Goals(s.files, job);
    RunIsSafe(s, l, job, |job.names|);
    assert Converts(gs[j]);
    if gs[j].gi.Some? {
      SomeWriter(gs, |gs|, j);
      LastIsLast(gs, |gs|, gs[j].info);
    }
  }

  lemma {:induction false} SomeWriter(gs: seq<Goal>, i: nat, j: nat)
    requires j < i <= |gs| && gs[j].gi.Some?
    ensures LastWriter(gs, i, gs[j].info).Some? && LastWriter(gs, i, gs[j].info).value >= j
    decreases i
  {
    if j < i - 1 && !(gs[i - 1].gi.Some? && gs[i - 1].info == gs[j].info) { SomeWriter(gs, i - 1, j); }
  }

  lemma LastIsLast(gs: seq<Goal>, i: nat, path: string)
    requires i <= |gs| && LastWriter(gs, i, path).Some?
    ensures var w := LastWriter(gs, i, path).value; LastWriter(gs, i, gs[w].info) == Some(w)
  {
  }

  /** Settings whose path fills its buffer are never put in place when nothing fails: they
      are removed as their own predecessor. */
  lemma ConvertedIff(s: Past, l: Luck, job: Job, j: nat)
    requires Listing(s.files, job) && s.trace != [] && s.trace[|s.trace| - 1] == s.files && AllWork(l)
    requires forall k :: 0 <= k < |job.names| ==> HasRoom(job, Goals(s.files, job)[k])
    requires j < |job.names|
    ensures var g := Goals(s.files, job)[j];
      j in After(s, l, job, |job.names|).converted <==>
        HasOutputs(g) && (g.pg.Some? ==> |job.outPrefix| + 4 + |job.names[j]| < 255)
  {
    hide Goals, After, HasRoom, Good, PathOf, Waiting, Remain;
    RunIsSafe(s, l, job, |job.names|);
    GoalIs(s.files, job, j);
    PathIn(job.outPrefix, job.names[j]);
    var g := Goals(s.files, job)[j];
    hide Tmp;
    TmpShape(g.cfg);
  }

  /** Information files meet exactly when the names without extension are the same. */
  lemma InfosMeetIff(outPrefix: string, a: CfgName, b: CfgName)
    requires |outPrefix| <= 63
    ensures InfoOf(outPrefix, a) == InfoOf(outPrefix, b) <==> BaseOf(a) == BaseOf(b)
  {
    var p, q := BaseOf(a) + ".info", BaseOf(b) + ".info";
    assert '/' !in p && '/' !in q && |p| <= 132 && |q| <= 132;
    hide PathOf, BaseOf;
    PathIn(outPrefix, p);
    PathIn(outPrefix, q);
    if p == q { assert BaseOf(a) == p[..|p| - 5] == q[..|q| - 5]; }
  }

  /** Two names that differ in case only, in a directory converted without failures and
      without keeping the originals: at the end the information of the first file is
      overwritten, and the file itself is gone. */
  lemma FirstIsOverwritten(s: Past, l: Luck, job: Job)
    requires Listing(s.files, job) && s.trace != [] && s.trace[|s.trace| - 1] == s.files && AllWork(l)
    requires job.names == ["a.cfg", "a.CFG"] && !job.keep
    requires var gs := Goals(s.files, job); gs[0].gi.Some? && gs[1].gi.Some? && gs[0].gi != gs[1].gi
    ensures var g := Goals(s.files, job)[0]; var f := After(s, l, job, 2).s.files;
      !Done(f, g) && Has(f, g.info, Goals(s.files, job)[1].gi.value) && Gone(f, g)
  {
    var gs := Goals(s.files, job);
    assert BaseOf("a.cfg") == "a" == BaseOf("a.CFG");
    hide Goals, After, PathOf, Bak, InfoOf, BaseOf, Good, Waiting, Done;
    InfosMeetIff(job.outPrefix, "a.cfg", "a.CFG");
    forall k | 0 <= k < 2
      ensures HasRoom(job, gs[k]) && gs[k].info == InfoOf(job.outPrefix, job.names[k])
    {
      GoalIs(s.files, job, k);
      PathIn(job.inPrefix, job.names[k]);
      ConvertedIff(s, l, job, k);
    }
    RunIsSafe(s, l, job, 2);
    assert LastWriter(gs, 2, gs[0].info) == Some(1);
    RemainIff(s, l, job, 0);
  }

  /** The code gets there: two files on a disk where nothing fails. */
  method OverwriteFirst() returns (d: Disk)
    ensures "m:/CFG/a.cfg" !in d.files && "m:/CFG/a.cfg.bak" !in d.files
    ensures Has(d.files, "m:/CFG/a.info", [2])
  {
    var files: Files := map["m:/CFG/a.cfg" := [1], "m:/CFG/a.CFG" := [2]];
    var names: seq<CfgName> := ["a.cfg", "a.CFG"];
    d := new Disk(files, Luck(k => true, k => None));
    var parse := (c: Content) => Legacy(None, Some(c));
    ghost var s, job := d.Now(), Job("m:/", "m:/", names, parse, false);
    OverwriteNames();
    assert Listing(files, job) && AllWork(d.luck);
    assert Goals(files, job)[0].gi == Some([1]) && Goals(files, job)[1].gi == Some([2]);
    hide *;
    FirstIsOverwritten(s, d.luck, job);
    GoneIs(After(s, d.luck, job, 2).s.files, Goals(files, job)[0]);
    GoalIs(files, job, 0);
    var count := MigrateAll(d, "m:/", "m:/", names, parse, false);
  }

  lemma GoneIs(f: Files, g: Goal)
    requires Gone(f, g) && g.pg.None?
    ensures g.input !in f && g.bak !in f
  {
  }

  lemma OverwriteNames()
    ensures PathOf("m:/", "a.cfg") == "m:/CFG/a.cfg" && PathOf("m:/", "a.CFG") == "m:/CFG/a.CFG"
    ensures InfoOf("m:/", "a.cfg") == "m:/CFG/a.info" && Bak("m:/CFG/a.cfg") == "m:/CFG/a.cfg.bak"
  {
    assert BaseOf("a.cfg") == "a";
  }
}
