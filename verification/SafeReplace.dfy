/** The file replacement protocols of src/config_migration.c on a disk whose operations
    may each fail, seen at every moment the machine could stop. */
module SafeReplace {
  import opened Bytes
  import opened Options

  type Content = seq<byte>
  type Files = map<string, Content>

  function Has(files: Files, p: string, c: Content): bool { p in files && files[p] == c }

  function Removed(files: Files, p: string): Files { files - {p} }

  function Moved(files: Files, a: string, b: string): Files
    requires a in files
  {
    if a == b then files else (files - {a})[b := files[a]]
  }

  /** works(k) says whether the k-th operation succeeds; a write that fails leaves
      partial(k) behind, or the old file when it could not be opened. */
  datatype Luck = Luck(works: nat -> bool, partial: nat -> Option<Content>)

  /** A disk, the number of operations so far, and the disk after every change. */
  datatype Past = Past(files: Files, clock: nat, trace: seq<Files>)

  function AfterExists(s: Past): Past { s.(clock := s.clock + 1) }

  function AfterUnlink(s: Past, l: Luck, p: string): Past {
    var files := if l.works(s.clock) then Removed(s.files, p) else s.files;
    Past(files, s.clock + 1, s.trace + [files])
  }

  function Renames(s: Past, l: Luck, a: string): bool { l.works(s.clock) && a in s.files }

  function AfterRename(s: Past, l: Luck, a: string, b: string): Past {
    var files := if Renames(s, l, a) then Moved(s.files, a, b) else s.files;
    Past(files, s.clock + 1, s.trace + [files])
  }

  /** Opening cuts the file short; only a write that works leaves it complete. */
  function AfterWrite(s: Past, l: Luck, p: string, c: Content): Past {
    var cut := if l.partial(s.clock).Some? then s.files[p := l.partial(s.clock).value] else s.files;
    if l.works(s.clock) then Past(cut[p := c], s.clock + 1, s.trace + [cut, cut[p := c]])
    else Past(cut, s.clock + 1, s.trace + [cut])
  }

  class Disk {
    var files: Files
    var clock: nat
    const luck: Luck
    ghost var trace: seq<Files>

    ghost function Now(): Past
      reads this
    {
      Past(files, clock, trace)
    }

    constructor (files: Files, luck: Luck)
      ensures Now() == Past(files, 0, [files]) && this.luck == luck
    {
      this.files, this.luck, clock, trace := files, luck, 0, [files];
    }

    /** fopen for reading, and closed again. */
    method Exists(p: string) returns (r: bool)
      modifies this
      ensures Now() == AfterExists(old(Now())) && r == Renames(old(Now()), luck, p)
    {
      r := luck.works(clock) && p in files;
      clock := clock + 1;
    }

    method Read(p: string) returns (c: Option<Content>)
      modifies this
      ensures Now() == AfterExists(old(Now()))
      ensures c == if Renames(old(Now()), luck, p) then Some(old(files)[p]) else None
    {
      c := if luck.works(clock) && p in files then Some(files[p]) else None;
      clock := clock + 1;
    }

    method Unlink(p: string)
      modifies this
      ensures Now() == AfterUnlink(old(Now()), luck, p)
    {
      if luck.works(clock) { files := Removed(files, p); }
      clock, trace := clock + 1, trace + [files];
    }

    method Rename(a: string, b: string) returns (ok: bool)
      modifies this
      ensures Now() == AfterRename(old(Now()), luck, a, b) && ok == Renames(old(Now()), luck, a)
    {
      ok := luck.works(clock) && a in files;
      if ok { files := Moved(files, a, b); }
      clock, trace := clock + 1, trace + [files];
    }

    method WriteFile(p: string, c: Content) returns (ok: bool)
      modifies this
      ensures Now() == AfterWrite(old(Now()), luck, p, c) && ok == luck.works(old(clock))
    {
      ok := luck.works(clock);
      if luck.partial(clock).Some? { files := files[p := luck.partial(clock).value]; }
      trace := trace + [files];
      if ok {
        files := files[p := c];
        trace := trace + [files];
      }
      clock := clock + 1;
    }
  }

  // ---------------------------------------------------------------------------
  // One file
  // ---------------------------------------------------------------------------

  /** snprintf into 256 bytes. */
  function Named(path: string, suffix: string): string {
    var s := path + suffix;
    if |s| > 255 then s[..255] else s
  }

  function Tmp(path: string): string { Named(path, ".tmp") }
  function Bak(path: string): string { Named(path, ".bak") }

  /** The three names are different exactly when the path leaves room for two more
      characters; else the temporary file and the backup are one. */
  lemma NamesDifferIff(path: string)
    ensures Tmp(path) != Bak(path) <==> |path| <= 253
    ensures |path| <= 253 ==> Tmp(path) != path && Bak(path) != path
    ensures Tmp(path) == path <==> |path| == 255
    ensures |path| > 253 ==> Tmp(path) == Bak(path)
  {
    var t, b := path + ".tmp", path + ".bak";
    var n := |path|;
    assert t[n] == '.' == b[n] && t[n + 1] == 't' && b[n + 1] == 'b';
    assert forall i :: 0 <= i < n ==> t[i] == path[i] == b[i];
    if n <= 253 {
      assert Tmp(path)[n + 1] == 't' && Bak(path)[n + 1] == 'b';
    } else {
      assert Tmp(path) == Bak(path);
      if n == 255 { assert Tmp(path) == path; }
    }
  }

  /** The old content is at the path or its backup, or the new content is at the path. */
  ghost predicate Safe(files: Files, path: string, was: Content, now: Content) {
    Has(files, path, was) || Has(files, Bak(path), was) || Has(files, path, now)
  }

  ghost predicate SafeFrom(trace: seq<Files>, n: nat, path: string, was: Content, now: Content) {
    forall k :: n <= k < |trace| ==> Safe(trace[k], path, was, now)
  }

  /** cfgWriteLibconfig as a function of the disk and of what fails. */
  datatype Replaced = Replaced(s: Past, ok: bool, restored: bool)

  function Replace(s0: Past, l: Luck, path: string, now: Content, keepBackup: bool): Replaced {
    var tmp, bak := Tmp(path), Bak(path);
    var hadOriginal := Renames(s0, l, path);
    var s2 := AfterUnlink(AfterExists(s0), l, tmp);
    var s3 := AfterWrite(s2, l, tmp, now);
    if !l.works(s2.clock) then Replaced(AfterUnlink(s3, l, tmp), false, true)
    else if !hadOriginal then
      var s4 := AfterRename(s3, l, tmp, path);
      if Renames(s3, l, tmp) then Replaced(s4, true, true) else Replaced(AfterUnlink(s4, l, tmp), false, true)
    else
      var s4 := AfterUnlink(s3, l, bak);
      var s5 := AfterRename(s4, l, path, bak);
      if !Renames(s4, l, path) then Replaced(AfterUnlink(s5, l, tmp), false, true)
      else
        var s6 := AfterRename(s5, l, tmp, path);
        if Renames(s5, l, tmp) then Replaced(if keepBackup then s6 else AfterUnlink(s6, l, bak), true, true)
        else
          var s7 := AfterRename(s6, l, bak, path);
          Replaced(AfterUnlink(s7, l, tmp), false, Renames(s6, l, bak))
  }

  method WriteLibconfig(d: Disk, path: string, now: Content, keepBackup: bool) returns (ok: bool)
    modifies d
    ensures var r := Replace(old(d.Now()), d.luck, path, now, keepBackup); d.Now() == r.s && ok == r.ok
  {
    hide AfterExists, AfterUnlink, AfterRename, AfterWrite, Renames, Tmp, Bak;
    var tmp, bak := Tmp(path), Bak(path);
    var backedOriginal := false;
    var hadOriginal := d.Exists(path);
    d.Unlink(tmp);
    ok := d.WriteFile(tmp, now);
    if !ok {
      d.Unlink(tmp);
      return;
    }
    if hadOriginal {
      d.Unlink(bak);
      ok := d.Rename(path, bak);
      if !ok {
        d.Unlink(tmp);
        return;
      }
      backedOriginal := true;
    }
    ok := d.Rename(tmp, path);
    if !ok {
      if backedOriginal {
        var restored := d.Rename(bak, path);
      }
      d.Unlink(tmp);
      return;
    }
    if backedOriginal && !keepBackup {
      d.Unlink(bak);
    }
  }

  // ---------------------------------------------------------------------------
  // What single operations keep
  // ---------------------------------------------------------------------------

  lemma UnlinkKeeps(s: Past, l: Luck, p: string, q: string, c: Content)
    requires q != p && Has(s.files, q, c)
    ensures Has(AfterUnlink(s, l, p).files, q, c)
  {
  }

  lemma RenameKeeps(s: Past, l: Luck, a: string, b: string, q: string, c: Content)
    requires q != a && q != b && Has(s.files, q, c)
    ensures Has(AfterRename(s, l, a, b).files, q, c)
  {
  }

  lemma RenameMoves(s: Past, l: Luck, a: string, b: string, c: Content)
    requires Has(s.files, a, c)
    ensures Has(AfterRename(s, l, a, b).files, if Renames(s, l, a) then b else a, c)
  {
  }

  /** Safe all through, from the n-th state of the trace to now. */
  ghost predicate SafeAt(s: Past, n: nat, path: string, was: Content, now: Content) {
    n <= |s.trace| && SafeFrom(s.trace, n, path, was, now)
  }

  lemma ExistsSafe(s: Past, n: nat, path: string, was: Content, now: Content)
    requires SafeAt(s, n, path, was, now)
    ensures SafeAt(AfterExists(s), n, path, was, now)
  {
  }

  /** An unlink that spares q, when q makes the state safe. */
  lemma UnlinkSafe(s: Past, l: Luck, p: string, n: nat, path: string, was: Content, now: Content, q: string, c: Content)
    requires SafeAt(s, n, path, was, now) && q != p && Has(s.files, q, c) && Saves(path, was, now, q, c)
    ensures var t := AfterUnlink(s, l, p); SafeAt(t, n, path, was, now) && Has(t.files, q, c)
  {
    UnlinkKeeps(s, l, p, q, c);
  }

  /** A rename after which q makes the state safe. */
  lemma RenameSafe(s: Past, l: Luck, a: string, b: string, n: nat, path: string, was: Content, now: Content, q: string,
                   c: Content)
    requires SafeAt(s, n, path, was, now) && Has(AfterRename(s, l, a, b).files, q, c) && Saves(path, was, now, q, c)
    ensures SafeAt(AfterRename(s, l, a, b), n, path, was, now)
  {
  }

  lemma WriteSafe(s: Past, l: Luck, p: string, n: nat, path: string, was: Content, now: Content)
    requires SafeAt(s, n, path, was, now) && p != path && Has(s.files, path, was)
    ensures var t := AfterWrite(s, l, p, now);
      SafeAt(t, n, path, was, now) && Has(t.files, path, was) && (l.works(s.clock) ==> Has(t.files, p, now))
  {
  }

  /** Content c at q is one of the three that make a state safe. */
  predicate Saves(path: string, was: Content, now: Content, q: string, c: Content) {
    (c == was && (q == path || q == Bak(path))) || (c == now && q == path)
  }

  // ---------------------------------------------------------------------------
  // Replacing an existing file
  // ---------------------------------------------------------------------------

  /** The steps after the temporary file is complete. */
  lemma CommitIsSafe(s: Past, l: Luck, n: nat, path: string, was: Content, now: Content)
    requires |path| <= 253 && SafeAt(s, n, path, was, now)
    requires Has(s.files, path, was) && Has(s.files, Tmp(path), now)
    ensures var tmp, bak := Tmp(path), Bak(path);
      var s4 := AfterUnlink(s, l, bak);
      var s5 := AfterRename(s4, l, path, bak);
      && SafeAt(s5, n, path, was, now)
      && Has(s5.files, if Renames(s4, l, path) then bak else path, was)
      && Has(s5.files, tmp, now)
  {
    hide *;
    NamesDifferIff(path);
    SavesWhich(path, was, now);
    var tmp, bak := Tmp(path), Bak(path);
    var s4 := AfterUnlink(s, l, bak);
    UnlinkSafe(s, l, bak, n, path, was, now, path, was);
    UnlinkKeeps(s, l, bak, tmp, now);
    RenameMoves(s4, l, path, bak, was);
    RenameKeeps(s4, l, path, bak, tmp, now);
    RenameSafe(s4, l, path, bak, n, path, was, now, if Renames(s4, l, path) then bak else path, was);
  }

  lemma SavesWhich(path: string, was: Content, now: Content)
    ensures Saves(path, was, now, path, was) && Saves(path, was, now, Bak(path), was)
    ensures Saves(path, was, now, path, now)
  {
  }

  /** The last renames: the new file in place, or the old one back where that works. */
  lemma FinishIsSafe(s: Past, l: Luck, n: nat, path: string, was: Content, now: Content, keepBackup: bool)
    requires |path| <= 253 && SafeAt(s, n, path, was, now)
    requires Has(s.files, Bak(path), was) && Has(s.files, Tmp(path), now)
    ensures var tmp, bak := Tmp(path), Bak(path);
      var s6 := AfterRename(s, l, tmp, path);
      var s7 := AfterRename(s6, l, bak, path);
      if Renames(s, l, tmp) then
        var t := if keepBackup then s6 else AfterUnlink(s6, l, bak);
        && SafeAt(t, n, path, was, now) && Has(t.files, path, now)
        && (keepBackup ==> Has(t.files, bak, was))
      else
        var t := AfterUnlink(s7, l, tmp);
        && SafeAt(t, n, path, was, now)
        && Has(t.files, if Renames(s6, l, bak) then path else bak, was)
  {
    hide *;
    NamesDifferIff(path);
    SavesWhich(path, was, now);
    var tmp, bak := Tmp(path), Bak(path);
    var s6 := AfterRename(s, l, tmp, path);
    RenameMoves(s, l, tmp, path, now);
    RenameKeeps(s, l, tmp, path, bak, was);
    RenameSafe(s, l, tmp, path, n, path, was, now, bak, was);
    if Renames(s, l, tmp) {
      if !keepBackup { UnlinkSafe(s6, l, bak, n, path, was, now, path, now); }
    } else {
      var s7 := AfterRename(s6, l, bak, path);
      var q := if Renames(s6, l, bak) then path else bak;
      RenameMoves(s6, l, bak, path, was);
      RenameSafe(s6, l, bak, path, n, path, was, now, q, was);
      UnlinkSafe(s7, l, tmp, n, path, was, now, q, was);
    }
  }

  /** At every step, whatever fails and wherever the run stops: the old content is at the
      path or its backup, or the new content is at the path. A failing return leaves the
      old content at the path when the rename back worked, else at the backup. */
  lemma ReplaceIsSafe(s0: Past, l: Luck, path: string, was: Content, now: Content, keepBackup: bool)
    requires |path| <= 253 && Has(s0.files, path, was)
    ensures var r := Replace(s0, l, path, now, keepBackup);
      && SafeFrom(r.s.trace, |s0.trace|, path, was, now)
      && (r.ok ==> Has(r.s.files, path, now))
      && (r.ok && keepBackup && l.works(s0.clock) ==> Has(r.s.files, Bak(path), was))
      && (!r.ok ==> Has(r.s.files, if r.restored then path else Bak(path), was))
  {
    hide SafeFrom, Safe, AfterUnlink, AfterRename, AfterWrite, Tmp, Bak, Saves, SafeAt;
    NamesDifferIff(path);
    SavesWhich(path, was, now);
    SafeAtStart(s0, path, was, now);
    var n := |s0.trace|;
    var tmp, bak := Tmp(path), Bak(path);
    var s1 := AfterExists(s0);
    ExistsSafe(s0, n, path, was, now);
    var s2 := AfterUnlink(s1, l, tmp);
    UnlinkSafe(s1, l, tmp, n, path, was, now, path, was);
    var s3 := AfterWrite(s2, l, tmp, now);
    WriteSafe(s2, l, tmp, n, path, was, now);
    SafeAtIs(Replace(s0, l, path, now, keepBackup).s, n, path, was, now);
    if !l.works(s2.clock) {
      UnlinkSafe(s3, l, tmp, n, path, was, now, path, was);
    } else if Renames(s0, l, path) {
      CommitIsSafe(s3, l, n, path, was, now);
      var s4 := AfterUnlink(s3, l, bak);
      var s5 := AfterRename(s4, l, path, bak);
      if Renames(s4, l, path) {
        FinishIsSafe(s5, l, n, path, was, now, keepBackup);
      } else {
        UnlinkSafe(s5, l, tmp, n, path, was, now, path, was);
      }
    } else {
      UnseenIsSafe(s3, l, n, path, was, now);
    }
  }

  /** The file was there but could not be opened: it is replaced, or left alone. */
  lemma UnseenIsSafe(s: Past, l: Luck, n: nat, path: string, was: Content, now: Content)
    requires |path| <= 253 && SafeAt(s, n, path, was, now)
    requires Has(s.files, path, was) && Has(s.files, Tmp(path), now)
    ensures var s4 := AfterRename(s, l, Tmp(path), path);
      && SafeAt(s4, n, path, was, now)
      && SafeAt(AfterUnlink(s4, l, Tmp(path)), n, path, was, now)
      && (if Renames(s, l, Tmp(path)) then Has(s4.files, path, now)
          else Has(AfterUnlink(s4, l, Tmp(path)).files, path, was))
  {
    NamesDifferIff(path);
    SavesWhich(path, was, now);
    var s4 := AfterRename(s, l, Tmp(path), path);
    var c := if Renames(s, l, Tmp(path)) then now else was;
    assert Has(s4.files, path, c);
    RenameSafe(s, l, Tmp(path), path, n, path, was, now, path, c);
    UnlinkSafe(s4, l, Tmp(path), n, path, was, now, path, c);
  }

  lemma SafeAtStart(s: Past, path: string, was: Content, now: Content)
    ensures SafeAt(s, |s.trace|, path, was, now)
  {
  }

  lemma SafeAtIs(s: Past, n: nat, path: string, was: Content, now: Content)
    ensures SafeAt(s, n, path, was, now) ==> SafeFrom(s.trace, n, path, was, now)
  {
  }

  // ---------------------------------------------------------------------------
  // Paths too long for the two names
  // ---------------------------------------------------------------------------

  /** For a path of more than 253 characters the temporary file and the backup are the
      same file, and there is a course of failures that loses the old content: with 255
      characters the first unlink does, else a failed rename and a failed rename back. */
  lemma LongPathLoses(s0: Past, path: string, was: Content, now: Content, keepBackup: bool) returns (l: Luck)
    requires |path| > 253 && Has(s0.files, path, was) && was != now
    ensures !SafeFrom(Replace(s0, l, path, now, keepBackup).s.trace, |s0.trace|, path, was, now)
  {
    NamesDifferIff(path);
    var k0 := s0.clock;
    l := Luck(k => |path| == 255 || (k != k0 + 5 && k != k0 + 6), k => None);
    var n := |s0.trace|;
    var tmp := Tmp(path);
    var r := Replace(s0, l, path, now, keepBackup);
    var s2 := AfterUnlink(AfterExists(s0), l, tmp);
    var s3 := AfterWrite(s2, l, tmp, now);
    if |path| == 255 {
      assert path !in s2.files && s2.trace[n] == s2.files;
      UnsafeState(r.s.trace, n, n, path, was, now);
    } else {
      var s4 := AfterUnlink(s3, l, tmp);
      var s5 := AfterRename(s4, l, path, tmp);
      assert path !in s5.files;
      var s7 := AfterRename(AfterRename(s5, l, tmp, path), l, tmp, path);
      assert s7.files == s5.files;
      assert r.s == AfterUnlink(s7, l, tmp);
      UnsafeState(r.s.trace, n, |r.s.trace| - 1, path, was, now);
    }
  }

  lemma UnsafeState(trace: seq<Files>, n: nat, k: nat, path: string, was: Content, now: Content)
    requires n <= k < |trace| && path !in trace[k] && Bak(path) !in trace[k]
    ensures !SafeFrom(trace, n, path, was, now)
  {
    assert !Safe(trace[k], path, was, now);
  }

  ghost predicate AlwaysSafe(path: string) {
    forall s: Past, l: Luck, was: Content, now: Content, keepBackup: bool :: Has(s.files, path, was) ==>
      SafeFrom(Replace(s, l, path, now, keepBackup).s.trace, |s.trace|, path, was, now)
  }

  /** Replacement never loses the old file exactly when the path has at most 253 characters. */
  lemma AlwaysSafeIff(path: string)
    ensures AlwaysSafe(path) <==> |path| <= 253
  {
    if |path| <= 253 {
      forall s: Past, l: Luck, was: Content, now: Content, keepBackup: bool | Has(s.files, path, was)
        ensures SafeFrom(Replace(s, l, path, now, keepBackup).s.trace, |s.trace|, path, was, now)
      {
        ReplaceIsSafe(s, l, path, was, now, keepBackup);
      }
    } else {
      var s := Past(map[path := []], 0, []);
      var l := LongPathLoses(s, path, [], [0], true);
      assert Has(s.files, path, []);
    }
  }
}
