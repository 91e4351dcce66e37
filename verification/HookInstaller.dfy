/**
 Installing and uninstalling git hooks.  The hooks directory is a map from file names to contents;
 each hook type owns two names in it, its hook and its `.legacy` backup.  What remains of script
 generation is that a script starts with a header carrying the marker.
 */
module HookInstaller {
  import opened Wrappers
  import opened Graphs

  datatype HookType = PreCommit | PrePush | CommitMsg | PostCommit | PreRebase | PostRewrite | PostCheckout | PostMerge

  const ALL_TYPES: seq<HookType> :=
    [PreCommit, PrePush, CommitMsg, PostCommit, PreRebase, PostRewrite, PostCheckout, PostMerge]

  function AsStr(h: HookType): string {
    match h
    case PreCommit => "pre-commit"
    case PrePush => "pre-push"
    case CommitMsg => "commit-msg"
    case PostCommit => "post-commit"
    case PreRebase => "pre-rebase"
    case PostRewrite => "post-rewrite"
    case PostCheckout => "post-checkout"
    case PostMerge => "post-merge"
  }

  function Parse(s: string): Option<HookType> {
    match s
    case "pre-commit" => Some(PreCommit)
    case "pre-push" => Some(PrePush)
    case "commit-msg" => Some(CommitMsg)
    case "post-commit" => Some(PostCommit)
    case "pre-rebase" => Some(PreRebase)
    case "post-rewrite" => Some(PostRewrite)
    case "post-checkout" => Some(PostCheckout)
    case "post-merge" => Some(PostMerge)
    case _ => None
  }

  function BackupName(h: HookType): string {
    AsStr(h) + ".legacy"
  }

  /** A name parses to a hook type exactly when it is that type's name. */
  lemma ParseInvertsAsStr(s: string, h: HookType)
    ensures Parse(s) == Some(h) <==> s == AsStr(h)
  {
    SpellingTable();
  }

  /** Enough of each spelling to tell the names apart. */
  lemma SpellingTable()
    ensures |AsStr(PreCommit)| == 10 && AsStr(PreCommit)[4] == 'c'
    ensures |AsStr(PrePush)| == 8
    ensures |AsStr(CommitMsg)| == 10 && AsStr(CommitMsg)[4] == 'i'
    ensures |AsStr(PostCommit)| == 11
    ensures |AsStr(PreRebase)| == 10 && AsStr(PreRebase)[4] == 'r'
    ensures |AsStr(PostRewrite)| == 12
    ensures |AsStr(PostCheckout)| == 13
    ensures |AsStr(PostMerge)| == 10 && AsStr(PostMerge)[4] == '-'
    ensures forall h :: |AsStr(h)| > 0 && AsStr(h)[|AsStr(h)| - 1] != 'y'
  {
  }

  /** No two hook types share a name, and no hook's name is the name of a backup. */
  lemma NamesApart(g: HookType, h: HookType)
    ensures AsStr(g) == AsStr(h) <==> g == h
    ensures BackupName(g) == BackupName(h) <==> g == h
    ensures AsStr(g) != BackupName(h)
  {
    ParseInvertsAsStr(AsStr(g), g);
    ParseInvertsAsStr(AsStr(g), h);
    SpellingTable();
    if BackupName(g) == BackupName(h) {
      assert |AsStr(g)| == |AsStr(h)|;
      assert BackupName(g)[..|AsStr(g)|] == AsStr(g);
      assert BackupName(h)[..|AsStr(h)|] == AsStr(h);
    }
    assert BackupName(h)[|BackupName(h)| - 1] == 'y';
  }

  // ---------------------------------------------------------------- file contents

  /** A file that is valid text, or one that cannot be read as text. */
  datatype File = Text(text: string) | Binary(content: seq<bv8>)

  const MARKER := "Generated by SNP"
  const BEFORE_MARKER := "#!/usr/bin/env bash\n# "
  const AFTER_MARKER := " (Shell Not Pass)\n"

  predicate OccursAt(text: string, part: string, i: nat) {
    i + |part| <= |text| && text[i..i + |part|] == part
  }

  predicate Contains(text: string, part: string) {
    exists i :: 0 <= i <= |text| && OccursAt(text, part, i)
  }

  datatype Check = Yes | No | Unreadable

  function IsSnpHook(hook: Option<File>): Check {
    match hook
    case None => No
    case Some(Text(text)) => if Contains(text, MARKER) then Yes else No
    case Some(Binary(_)) => Unreadable
  }

  /** A hook is SNP's exactly if it is text with the marker somewhere in it. */
  lemma IsSnpMeaning(hook: Option<File>)
    ensures IsSnpHook(hook) == Yes <==>
            exists pre, post :: hook == Some(Text(pre + "Generated by SNP" + post))
    ensures IsSnpHook(hook) == Unreadable <==> hook.Some? && hook.value.Binary?
  {
    if hook.Some? && hook.value.Text? && Contains(hook.value.text, MARKER) {
      var text := hook.value.text;
      var i :| 0 <= i <= |text| && OccursAt(text, MARKER, i);
      assert text == text[..i] + MARKER + text[i + |MARKER|..];
    }
    if pre, post :| hook == Some(Text(pre + MARKER + post)) {
      var text := hook.value.text;
      assert text[|pre|..|pre| + |MARKER|] == MARKER;
      assert OccursAt(text, MARKER, |pre|);
    }
  }

  /** Everything generation may produce: the header and some rest. */
  function Script(rest: string): Option<File> {
    Some(Text(BEFORE_MARKER + MARKER + AFTER_MARKER + rest))
  }

  lemma ScriptCarriesMarker(rest: string)
    ensures IsSnpHook(Script(rest)) == Yes
  {
    var text := BEFORE_MARKER + MARKER + AFTER_MARKER + rest;
    var i := |BEFORE_MARKER|;
    assert text[i..i + |MARKER|] == MARKER;
    assert OccursAt(text, MARKER, i);
  }

  // ---------------------------------------------------------------- the directory, seen hook by hook

  type Dir = map<string, File>

  function Get(d: Dir, name: string): Option<File> {
    if name in d then Some(d[name]) else None
  }

  function Put(d: Dir, name: string, file: Option<File>): Dir {
    if file.Some? then d[name := file.value] else d - {name}
  }

  /** The two files of a hook type. */
  datatype Slot = Slot(hook: Option<File>, legacy: Option<File>)

  function SlotOf(d: Dir, h: HookType): Slot {
    Slot(Get(d, AsStr(h)), Get(d, BackupName(h)))
  }

  function WithSlot(d: Dir, h: HookType, s: Slot): Dir {
    Put(Put(d, AsStr(h), s.hook), BackupName(h), s.legacy)
  }

  ghost predicate Owned(name: string) {
    exists h :: name == AsStr(h) || name == BackupName(h)
  }

  /** The two directories have the same files apart from those of hook types. */
  ghost predicate SameElsewhere(d: Dir, e: Dir) {
    forall name :: !Owned(name) ==> Get(d, name) == Get(e, name)
  }

  lemma WithSlotOf(d: Dir, h: HookType, s: Slot, g: HookType)
    ensures SlotOf(WithSlot(d, h, s), g) == if g == h then s else SlotOf(d, g)
    ensures SameElsewhere(d, WithSlot(d, h, s))
  {
    NamesApart(g, h);
    NamesApart(h, g);
    NamesApart(h, h);
    forall name | !Owned(name) ensures Get(d, name) == Get(WithSlot(d, h, s), name) {
      assert name != AsStr(h) && name != BackupName(h);
    }
  }

  /** A directory is determined by its slots and the rest. */
  lemma SameDir(d: Dir, e: Dir)
    requires SameElsewhere(d, e) && forall h :: SlotOf(d, h) == SlotOf(e, h)
    ensures d == e
  {
    forall name ensures Get(d, name) == Get(e, name) {
      if Owned(name) {
        var h :| name == AsStr(h) || name == BackupName(h);
        assert SlotOf(d, h) == SlotOf(e, h);
      }
    }
    forall name ensures name in d <==> name in e { assert Get(d, name) == Get(e, name); }
    forall name | name in d ensures d[name] == e[name] { assert Get(d, name) == Get(e, name); }
  }

  // ---------------------------------------------------------------- one hook type

  datatype InstallConfig = InstallConfig(hookTypes: seq<string>, overwriteExisting: bool, backupExisting: bool,
                                         allowMissingConfig: bool)

  datatype Installed = Skipped | Done(backedUp: bool, overwritten: bool) | Failed

  function InstallOutcome(s: Slot, cfg: InstallConfig): Installed {
    match IsSnpHook(s.hook)
    case Yes => Skipped
    case Unreadable => Failed
    case No =>
      if s.hook.None? then Done(false, false)
      else if cfg.overwriteExisting then Done(false, true)
      else if cfg.backupExisting then Done(true, false)
      else Failed
  }

  function InstallSlot(s: Slot, cfg: InstallConfig, rest: string): Slot {
    match InstallOutcome(s, cfg)
    case Done(backedUp, _) => Slot(Script(rest), if backedUp then s.hook else s.legacy)
    case _ => s
  }

  function UninstallSlot(s: Slot, restore: bool): Slot {
    if IsSnpHook(s.hook) != Yes then s
    else if restore && s.legacy.Some? then Slot(s.legacy, None)
    else Slot(None, s.legacy)
  }

  // ---------------------------------------------------------------- lists of hook types

  /** `rest(h)` is what generation appends to the header for a type. */
  function InstallTypes(d: Dir, types: seq<HookType>, cfg: InstallConfig, rest: HookType -> string): Dir {
    if types == [] then d
    else
      var e := InstallTypes(d, types[..|types| - 1], cfg, rest);
      var h := types[|types| - 1];
      WithSlot(e, h, InstallSlot(SlotOf(e, h), cfg, rest(h)))
  }

  function UninstallTypes(d: Dir, types: seq<HookType>, restore: bool): Dir {
    if types == [] then d
    else
      var e := UninstallTypes(d, types[..|types| - 1], restore);
      var h := types[|types| - 1];
      WithSlot(e, h, UninstallSlot(SlotOf(e, h), restore))
  }

  /** Installing over an installation finds everything done, whatever the flags. */
  lemma InstallSlotTwice(s: Slot, cfg: InstallConfig, rest: string)
    ensures InstallSlot(InstallSlot(s, cfg, rest), cfg, rest) == InstallSlot(s, cfg, rest)
    ensures !InstallOutcome(InstallSlot(s, cfg, rest), cfg).Done?
  {
    ScriptCarriesMarker(rest);
  }

  /** Order and repetition do not matter: each listed type's files are installed once, all others stay. */
  lemma {:induction false} InstalledSlots(d: Dir, types: seq<HookType>, cfg: InstallConfig, rest: HookType -> string,
                                          h: HookType)
    ensures SlotOf(InstallTypes(d, types, cfg, rest), h) ==
        if h in types then InstallSlot(SlotOf(d, h), cfg, rest(h)) else SlotOf(d, h)
    ensures SameElsewhere(d, InstallTypes(d, types, cfg, rest))
  {
    if types != [] {
      var n := |types| - 1;
      var e := InstallTypes(d, types[..n], cfg, rest);
      assert types == types[..n] + [types[n]];
      InstalledSlots(d, types[..n], cfg, rest, h);
      WithSlotOf(e, types[n], InstallSlot(SlotOf(e, types[n]), cfg, rest(types[n])), h);
      InstallSlotTwice(SlotOf(d, h), cfg, rest(h));
    }
  }

  function UninstallTimes(s: Slot, n: nat, restore: bool): Slot {
    if n == 0 then s else UninstallSlot(UninstallTimes(s, n - 1, restore), restore)
  }

  function Occurrences(types: seq<HookType>, h: HookType): nat {
    if types == [] then 0
    else Occurrences(types[..|types| - 1], h) + if types[|types| - 1] == h then 1 else 0
  }

  lemma OccursIfListed(types: seq<HookType>, h: HookType)
    ensures Occurrences(types, h) > 0 <==> h in types
  {
    if types != [] {
      var n := |types| - 1;
      assert types == types[..n] + [types[n]];
      OccursIfListed(types[..n], h);
    }
  }

  lemma {:induction false} UninstalledSlots(d: Dir, types: seq<HookType>, restore: bool, h: HookType)
    ensures SlotOf(UninstallTypes(d, types, restore), h) == UninstallTimes(SlotOf(d, h), Occurrences(types, h), restore)
  {
    if types != [] {
      var n := |types| - 1;
      UninstalledSlots(d, types[..n], restore, h);
      UninstallLast(d, types, restore, h);
    }
  }

  lemma UninstallLast(d: Dir, types: seq<HookType>, restore: bool, h: HookType)
    requires types != []
    ensures var before := SlotOf(UninstallTypes(d, types[..|types| - 1], restore), h);
            SlotOf(UninstallTypes(d, types, restore), h) ==
                if types[|types| - 1] == h then UninstallSlot(before, restore) else before
  {
    var e := UninstallTypes(d, types[..|types| - 1], restore);
    var g := types[|types| - 1];
    WithSlotOf(e, g, UninstallSlot(SlotOf(e, g), restore), h);
  }

  lemma {:induction false} UninstallStaysOff(d: Dir, types: seq<HookType>, restore: bool)
    ensures SameElsewhere(d, UninstallTypes(d, types, restore))
  {
    if types != [] {
      var n := |types| - 1;
      var e := UninstallTypes(d, types[..n], restore);
      UninstallStaysOff(d, types[..n], restore);
      WithSlotOf(e, types[n], UninstallSlot(SlotOf(e, types[n]), restore), PreCommit);
    }
  }

  // ---------------------------------------------------------------- what installing and uninstalling promise

  /** A second installation, with any flags, changes no file. */
  lemma InstallIsIdempotent(d: Dir, types: seq<HookType>, cfg: InstallConfig, rest: HookType -> string)
    ensures var e := InstallTypes(d, types, cfg, rest); InstallTypes(e, types, cfg, rest) == e
  {
    var e := InstallTypes(d, types, cfg, rest);
    forall h ensures SlotOf(InstallTypes(e, types, cfg, rest), h) == SlotOf(e, h) {
      InstalledSlots(d, types, cfg, rest, h);
      InstalledSlots(e, types, cfg, rest, h);
      InstallSlotTwice(SlotOf(d, h), cfg, rest(h));
    }
    InstalledSlots(e, types, cfg, rest, PreCommit);
    SameDir(InstallTypes(e, types, cfg, rest), e);
  }

  /**
   Nothing of this type is lost by installing and uninstalling with these flags: the hook is not ours
   yet; an absent one has no old backup that would be restored; a foreign one is left alone, or is
   backed up over no old backup and restored.
   */
  predicate Restorable(s: Slot, cfg: InstallConfig, restore: bool) {
    match IsSnpHook(s.hook)
    case Unreadable => true
    case Yes => false
    case No =>
      if s.hook.None? then !restore || s.legacy.None?
      else if cfg.overwriteExisting then false
      else if cfg.backupExisting then restore && s.legacy.None?
      else true
  }

  /** Once a hook of ours was uninstalled with restore its backup is used up, however often one repeats it. */
  lemma {:induction false} AfterUninstall(s: Slot, n: nat, restore: bool)
    requires n > 0 && IsSnpHook(s.hook) == Yes
    ensures !restore ==> UninstallTimes(s, n, restore) == Slot(None, s.legacy)
    ensures restore ==> UninstallTimes(s, n, restore).legacy.None?
    ensures restore && IsSnpHook(s.legacy) != Yes ==> UninstallTimes(s, n, restore) == Slot(s.legacy, None)
    ensures restore && s.legacy.None? ==> UninstallTimes(s, n, restore).hook.None?
  {
    if n > 1 { AfterUninstall(s, n - 1, restore); }
  }

  lemma {:induction false} NotOurs(s: Slot, n: nat, restore: bool)
    requires IsSnpHook(s.hook) != Yes
    ensures UninstallTimes(s, n, restore) == s
  {
    if n > 0 { NotOurs(s, n - 1, restore); }
  }

  lemma SlotRoundTrip(s: Slot, cfg: InstallConfig, rest: string, restore: bool, n: nat)
    requires n > 0
    ensures UninstallTimes(InstallSlot(s, cfg, rest), n, restore) == s <==> Restorable(s, cfg, restore)
  {
    var t := InstallSlot(s, cfg, rest);
    ScriptCarriesMarker(rest);
    if IsSnpHook(t.hook) == Yes { AfterUninstall(t, n, restore); } else { NotOurs(t, n, restore); }
  }

  /**
   Installing some hook types and uninstalling the same list gives back the original directory exactly
   when each listed type was restorable to begin with, for every combination of flags.
   */
  lemma RoundTripByName(d: Dir, types: seq<HookType>, cfg: InstallConfig, rest: HookType -> string, restore: bool)
    ensures UninstallTypes(InstallTypes(d, types, cfg, rest), types, restore) == d <==>
            forall h :: h in types ==> Restorable(SlotOf(d, h), cfg, restore)
  {
    var e := InstallTypes(d, types, cfg, rest);
    var f := UninstallTypes(e, types, restore);
    forall h ensures SlotOf(f, h) == SlotOf(d, h) <==> (h in types ==> Restorable(SlotOf(d, h), cfg, restore)) {
      InstalledSlots(d, types, cfg, rest, h);
      UninstalledSlots(e, types, restore, h);
      OccursIfListed(types, h);
      if h in types { SlotRoundTrip(SlotOf(d, h), cfg, rest(h), restore, Occurrences(types, h)); }
    }
    InstalledSlots(d, types, cfg, rest, PreCommit);
    UninstallStaysOff(e, types, restore);
    if forall h :: h in types ==> Restorable(SlotOf(d, h), cfg, restore) { SameDir(f, d); }
  }

  // ---------------------------------------------------------------- uninstalling everything that is ours

  /** The installed hooks among the first `n` types, unless one of them cannot be read. */
  function FindAmong(d: Dir, n: nat): Option<seq<HookType>>
    requires n <= |ALL_TYPES|
  {
    if n == 0 then Some([])
    else
      var found := FindAmong(d, n - 1);
      var h := ALL_TYPES[n - 1];
      match IsSnpHook(SlotOf(d, h).hook)
      case Unreadable => None
      case Yes => if found.Some? then Some(found.value + [h]) else None
      case No => found
  }

  lemma {:induction false} FindAmongMeaning(d: Dir, n: nat)
    requires n <= |ALL_TYPES|
    ensures FindAmong(d, n).None? <==> exists h :: h in ALL_TYPES[..n] && IsSnpHook(SlotOf(d, h).hook) == Unreadable
    ensures FindAmong(d, n).Some? ==> forall h :: h in FindAmong(d, n).value <==>
        h in ALL_TYPES[..n] && IsSnpHook(SlotOf(d, h).hook) == Yes
  {
    if n > 0 {
      FindAmongMeaning(d, n - 1);
      OneTypeMore(n);
    }
  }

  lemma OneTypeMore(n: nat)
    requires 0 < n <= |ALL_TYPES|
    ensures forall h :: h in ALL_TYPES[..n] <==> h in ALL_TYPES[..n - 1] || h == ALL_TYPES[n - 1]
  {
    assert ALL_TYPES[..n] == ALL_TYPES[..n - 1] + [ALL_TYPES[n - 1]];
  }

  lemma AllTypesListed(h: HookType)
    ensures h in ALL_TYPES
  {
    var i := match h
      case PreCommit => 0 case PrePush => 1 case CommitMsg => 2 case PostCommit => 3
      case PreRebase => 4 case PostRewrite => 5 case PostCheckout => 6 case PostMerge => 7;
    assert ALL_TYPES[i] == h;
  }

  function FindInstalled(d: Dir): Option<seq<HookType>> {
    FindAmong(d, |ALL_TYPES|)
  }

  lemma FindInstalledMeaning(d: Dir)
    ensures FindInstalled(d).None? <==> exists h :: IsSnpHook(SlotOf(d, h).hook) == Unreadable
    ensures FindInstalled(d).Some? ==> forall h :: h in FindInstalled(d).value <==> IsSnpHook(SlotOf(d, h).hook) == Yes
  {
    FindAmongMeaning(d, |ALL_TYPES|);
    assert ALL_TYPES[..|ALL_TYPES|] == ALL_TYPES;
    forall h ensures h in ALL_TYPES { AllTypesListed(h); }
  }

  /** Uninstalling without a list: everything that is found, or nothing if the search fails. */
  function UninstallFound(d: Dir, restore: bool): Dir {
    var found := FindInstalled(d);
    if found.Some? then UninstallTypes(d, found.value, restore) else d
  }

  /** What becomes of one type when whatever is found is uninstalled. */
  predicate FoundRestorable(s: Slot, listed: bool, cfg: InstallConfig, restore: bool) {
    IsSnpHook(s.hook) != Yes && (listed ==> Restorable(s, cfg, restore))
  }

  /**
   Installing some hook types and uninstalling whatever is found gives back the original directory
   exactly when: if all hooks can be read, none was ours and each listed type was restorable; and if
   one cannot be read, so that uninstalling refuses, installing had nothing to do.  For all flags.
   */
  lemma RoundTripByFinding(d: Dir, types: seq<HookType>, cfg: InstallConfig, rest: HookType -> string, restore: bool)
    ensures UninstallFound(InstallTypes(d, types, cfg, rest), restore) == d <==>
            if exists h :: IsSnpHook(SlotOf(d, h).hook) == Unreadable
            then forall h :: h in types ==> !InstallOutcome(SlotOf(d, h), cfg).Done?
            else forall h :: FoundRestorable(SlotOf(d, h), h in types, cfg, restore)
  {
    var e := InstallTypes(d, types, cfg, rest);
    forall h ensures IsSnpHook(SlotOf(e, h).hook) == Unreadable <==> IsSnpHook(SlotOf(d, h).hook) == Unreadable {
      InstalledSlots(d, types, cfg, rest, h);
      ScriptCarriesMarker(rest(h));
    }
    FindInstalledMeaning(e);
    if exists h :: IsSnpHook(SlotOf(d, h).hook) == Unreadable {
      NothingInstalled(d, types, cfg, rest);
    } else {
      FoundRoundTrip(d, types, cfg, rest, restore);
    }
  }

  /** The directory whose only files of hook types are these two of `h`. */
  ghost predicate OnlyFiles(d: Dir, h: HookType, s: Slot) {
    && SameElsewhere(d, map[])
    && forall g {:trigger SlotOf(d, g)} :: SlotOf(d, g) == if g == h then s else Slot(None, None)
  }

  lemma OneFile(h: HookType, file: File)
    ensures OnlyFiles(map[AsStr(h) := file], h, Slot(Some(file), None))
    ensures OnlyFiles(map[BackupName(h) := file], h, Slot(None, Some(file)))
  {
    forall g ensures (AsStr(g) == AsStr(h) <==> g == h) && (BackupName(g) == BackupName(h) <==> g == h)
                     && AsStr(g) != BackupName(h) && BackupName(g) != AsStr(h)
    {
      NamesApart(g, h);
      NamesApart(h, g);
    }
  }

  /** Uninstalling a list that names only `h` turns its backup into the hook again. */
  lemma Revives(d: Dir, types: seq<HookType>, h: HookType, s: Slot, past: File)
    requires OnlyFiles(d, h, s) && (forall g :: g in types <==> g == h)
    requires IsSnpHook(s.hook) == Yes && s.legacy == Some(past) && IsSnpHook(s.legacy) != Yes
    ensures UninstallTypes(d, types, true) == map[AsStr(h) := past]
  {
    var f := UninstallTypes(d, types, true);
    OneFile(h, past);
    UninstallStaysOff(d, types, true);
    forall g ensures SlotOf(f, g) == SlotOf(map[AsStr(h) := past], g) {
      UninstalledSlots(d, types, true, g);
      OccursIfListed(types, g);
      if g == h { AfterUninstall(s, Occurrences(types, h), true); }
    }
    SameDir(f, map[AsStr(h) := past]);
  }

  /**
   Where the round trip fails: no hook, but an old backup of one.  Installing and uninstalling with
   restore brings that hook back, whatever the flags, by name and by finding.
   */
  lemma OldBackupComesBack(h: HookType, past: File, cfg: InstallConfig, rest: HookType -> string)
    requires IsSnpHook(Some(past)) != Yes
    ensures var d := map[BackupName(h) := past];
            && UninstallTypes(InstallTypes(d, [h], cfg, rest), [h], true) == map[AsStr(h) := past]
            && UninstallFound(InstallTypes(d, [h], cfg, rest), true) == map[AsStr(h) := past]
            && map[AsStr(h) := past] != d
  {
    var d := map[BackupName(h) := past];
    var e := InstallTypes(d, [h], cfg, rest);
    var s := Slot(Script(rest(h)), Some(past));
    NamesApart(h, h);
    OneFile(h, past);
    ScriptCarriesMarker(rest(h));
    assert SlotOf(d, h) == Slot(None, Some(past));
    forall g ensures SlotOf(e, g) == if g == h then s else Slot(None, None) { InstalledSlots(d, [h], cfg, rest, g); }
    InstalledSlots(d, [h], cfg, rest, h);
    assert OnlyFiles(e, h, s);
    Revives(e, [h], h, s, past);
    FindInstalledMeaning(e);
    assert FindInstalled(e).Some?;
    Revives(e, FindInstalled(e).value, h, s, past);
    assert AsStr(h) in map[AsStr(h) := past] && AsStr(h) !in d;
  }

  lemma NothingInstalled(d: Dir, types: seq<HookType>, cfg: InstallConfig, rest: HookType -> string)
    ensures InstallTypes(d, types, cfg, rest) == d <==> forall h :: h in types ==>
        !InstallOutcome(SlotOf(d, h), cfg).Done?
  {
    var e := InstallTypes(d, types, cfg, rest);
    forall h ensures SlotOf(e, h) == SlotOf(d, h) <==> (h in types ==> !InstallOutcome(SlotOf(d, h), cfg).Done?) {
      InstalledSlots(d, types, cfg, rest, h);
      ScriptCarriesMarker(rest(h));
    }
    InstalledSlots(d, types, cfg, rest, PreCommit);
    if forall h :: h in types ==> !InstallOutcome(SlotOf(d, h), cfg).Done? { SameDir(e, d); }
  }

  lemma FoundRoundTrip(d: Dir, types: seq<HookType>, cfg: InstallConfig, rest: HookType -> string, restore: bool)
    requires forall h :: IsSnpHook(SlotOf(d, h).hook) != Unreadable
    requires FindInstalled(InstallTypes(d, types, cfg, rest)).Some?
    ensures UninstallFound(InstallTypes(d, types, cfg, rest), restore) == d <==>
            forall h :: FoundRestorable(SlotOf(d, h), h in types, cfg, restore)
  {
    var e := InstallTypes(d, types, cfg, rest);
    var found := FindInstalled(e).value;
    var f := UninstallTypes(e, found, restore);
    FindInstalledMeaning(e);
    forall h ensures SlotOf(f, h) == SlotOf(d, h) <==> FoundRestorable(SlotOf(d, h), h in types, cfg, restore) {
      InstalledSlots(d, types, cfg, rest, h);
      UninstalledSlots(e, found, restore, h);
      OccursIfListed(found, h);
      FoundSlotRoundTrip(SlotOf(d, h), cfg, rest(h), h in types, restore, Occurrences(found, h));
    }
    InstalledSlots(d, types, cfg, rest, PreCommit);
    UninstallStaysOff(e, found, restore);
    if forall h :: FoundRestorable(SlotOf(d, h), h in types, cfg, restore) { SameDir(f, d); }
  }

  lemma FoundSlotRoundTrip(s: Slot, cfg: InstallConfig, rest: string, listed: bool, restore: bool, n: nat)
    requires IsSnpHook(s.hook) != Unreadable
    requires n > 0 <==> IsSnpHook((if listed then InstallSlot(s, cfg, rest) else s).hook) == Yes
    ensures UninstallTimes(if listed then InstallSlot(s, cfg, rest) else s, n, restore) == s <==>
            FoundRestorable(s, listed, cfg, restore)
  {
    ScriptCarriesMarker(rest);
    if listed && n > 0 {
      SlotRoundTrip(s, cfg, rest, restore, n);
    } else if n > 0 {
      AfterUninstall(s, n, restore);
    }
  }

  // ---------------------------------------------------------------- names given by the caller

  /** The types of the names before the first one that is no hook type. */
  function GoodPrefix(names: seq<string>): seq<HookType> {
    if names == [] then []
    else
      var p := GoodPrefix(names[..|names| - 1]);
      var h := Parse(names[|names| - 1]);
      if |p| == |names| - 1 && h.Some? then p + [h.value] else p
  }

  lemma GoodPrefixMeaning(names: seq<string>)
    ensures |GoodPrefix(names)| <= |names|
    ensures forall i :: 0 <= i < |GoodPrefix(names)| ==> names[i] == AsStr(GoodPrefix(names)[i])
    ensures |GoodPrefix(names)| < |names| ==> Parse(names[|GoodPrefix(names)|]).None?
  {
    if names != [] {
      var n := |names| - 1;
      GoodPrefixMeaning(names[..n]);
      if Parse(names[n]).Some? { ParseInvertsAsStr(names[n], Parse(names[n]).value); }
    }
  }

  /** Names after the first bad one change nothing. */
  lemma PrefixStops(names: seq<string>, i: nat)
    requires i < |names| && |GoodPrefix(names[..i])| == i && Parse(names[i]).None?
    ensures GoodPrefix(names) == GoodPrefix(names[..i])
    decreases |names|
  {
    var n := |names| - 1;
    if i < n {
      assert names[..n][..i] == names[..i];
      PrefixStops(names[..n], i);
    }
  }

  datatype InstallResult = InstallResult(hooksInstalled: seq<string>, hooksBackedUp: seq<string>,
                                         hooksOverwritten: seq<string>, failures: seq<string>)

  datatype UninstallResult = UninstallResult(hooksRemoved: seq<string>, hooksRestored: seq<string>)

  datatype Error = BareRepository | HooksPathSet | NoConfigFile | BadHookType(name: string) | UnreadableHook

  datatype Result<T> = Ok(value: T) | Err(error: Error)

  function Report(r: InstallResult, name: string, outcome: Installed): InstallResult {
    match outcome
    case Skipped => r
    case Failed => r.(failures := r.failures + [name])
    case Done(backedUp, overwritten) =>
      r.(hooksInstalled := r.hooksInstalled + [name],
         hooksBackedUp := if backedUp then r.hooksBackedUp + [name] else r.hooksBackedUp,
         hooksOverwritten := if overwritten then r.hooksOverwritten + [name] else r.hooksOverwritten)
  }

  function ReportRemoval(r: UninstallResult, name: string, s: Slot, restore: bool): UninstallResult {
    if IsSnpHook(s.hook) != Yes then r
    else UninstallResult(r.hooksRemoved + [name], if restore && s.legacy.Some? then r.hooksRestored + [name]
        else r.hooksRestored)
  }

  function UninstallReport(d: Dir, types: seq<HookType>, restore: bool): UninstallResult {
    if types == [] then UninstallResult([], [])
    else
      var e := UninstallTypes(d, types[..|types| - 1], restore);
      var h := types[|types| - 1];
      ReportRemoval(UninstallReport(d, types[..|types| - 1], restore), AsStr(h), SlotOf(e, h), restore)
  }

  /** A type is reported removed exactly when it was listed and its hook was SNP's, restored if it had a backup too. */
  lemma {:induction false} UninstallReportMeaning(d: Dir, types: seq<HookType>, restore: bool, h: HookType)
    ensures var r, s := UninstallReport(d, types, restore), SlotOf(d, h);
            && (AsStr(h) in r.hooksRemoved <==> h in types && IsSnpHook(s.hook) == Yes)
            && (AsStr(h) in r.hooksRestored <==> h in types && IsSnpHook(s.hook) == Yes && restore && s.legacy.Some?)
  {
    if types != [] {
      var n := |types| - 1;
      var g, s := types[n], SlotOf(d, h);
      assert types == types[..n] + [g];
      UninstallReportMeaning(d, types[..n], restore, h);
      NamesApart(g, h);
      UninstalledSlots(d, types[..n], restore, h);
      OccursIfListed(types[..n], h);
      var before := Occurrences(types[..n], h);
      if IsSnpHook(s.hook) != Yes {
        NotOurs(s, before, restore);
      } else if before > 0 {
        AfterUninstall(s, before, restore);
      }
    }
  }

  /** What the types report one after the other. */
  function InstallReport(d: Dir, types: seq<HookType>, cfg: InstallConfig, rest: HookType -> string): InstallResult {
    if types == [] then InstallResult([], [], [], [])
    else
      var e := InstallTypes(d, types[..|types| - 1], cfg, rest);
      var h := types[|types| - 1];
      Report(InstallReport(d, types[..|types| - 1], cfg, rest), AsStr(h), InstallOutcome(SlotOf(e, h), cfg))
  }

  ghost predicate Mentions(r: InstallResult, name: string, o: Installed) {
    && (name in r.hooksInstalled <==> o.Done?)
    && (name in r.hooksBackedUp <==> o.Done? && o.backedUp)
    && (name in r.hooksOverwritten <==> o.Done? && o.overwritten)
    && (name in r.failures <==> o.Failed?)
  }

  /** Telling of another outcome does not change what is said of a name, nor does saying `Skipped` or the same again. */
  lemma ReportKeeps(r: InstallResult, name: string, outcome: Installed, x: string, o: Installed)
    requires Mentions(r, x, o)
    ensures x != name ==> Mentions(Report(r, name, outcome), x, o)
    ensures x == name && (o.Skipped? || o == outcome) ==> Mentions(Report(r, name, outcome), x, outcome)
    ensures x == name && outcome.Skipped? ==> Mentions(Report(r, name, outcome), x, o)
  {
  }

  lemma InstallOutcomeTwice(s: Slot, cfg: InstallConfig, rest: string)
    ensures InstallOutcome(InstallSlot(s, cfg, rest), cfg) == if InstallOutcome(s, cfg).Done? then Skipped
        else InstallOutcome(s, cfg)
  {
    ScriptCarriesMarker(rest);
  }

  /** The report names a type exactly when it was listed and the original directory called for that outcome. */
  lemma {:induction false} ReportMeaning(d: Dir, types: seq<HookType>, cfg: InstallConfig, rest: HookType -> string,
                                         h: HookType)
    ensures Mentions(InstallReport(d, types, cfg, rest), AsStr(h),
        if h in types then InstallOutcome(SlotOf(d, h), cfg) else Skipped)
  {
    if types != [] {
      var n := |types| - 1;
      var g := types[n];
      assert types == types[..n] + [g];
      ReportMeaning(d, types[..n], cfg, rest, h);
      InstalledSlots(d, types[..n], cfg, rest, g);
      InstallOutcomeTwice(SlotOf(d, g), cfg, rest(g));
      NamesApart(h, g);
      ReportKeeps(InstallReport(d, types[..n], cfg, rest), AsStr(g),
          InstallOutcome(SlotOf(InstallTypes(d, types[..n], cfg, rest), g), cfg),
                  AsStr(h), if h in types[..n] then InstallOutcome(SlotOf(d, h), cfg) else Skipped);
    }
  }

  /** A second installation reports nothing installed. */
  lemma {:induction false} SecondInstallReportsNothing(d: Dir, all: seq<HookType>, types: seq<HookType>,
                                                       cfg: InstallConfig, rest: HookType -> string)
    requires forall h :: h in types ==> h in all
    ensures InstallReport(InstallTypes(d, all, cfg, rest), types, cfg, rest).hooksInstalled == []
  {
    if types != [] {
      var n := |types| - 1;
      var h := types[n];
      var e := InstallTypes(d, all, cfg, rest);
      assert types == types[..n] + [h];
      SecondInstallReportsNothing(d, all, types[..n], cfg, rest);
      InstalledSlots(d, all, cfg, rest, h);
      InstalledSlots(e, types[..n], cfg, rest, h);
      InstallSlotTwice(SlotOf(d, h), cfg, rest(h));
    }
  }

  function Names(types: seq<HookType>): seq<string> {
    seq(|types|, i requires 0 <= i < |types| => AsStr(types[i]))
  }

  lemma NamesAreGood(types: seq<HookType>)
    ensures GoodPrefix(Names(types)) == types
  {
    if types != [] {
      var n := |types| - 1;
      assert Names(types)[..n] == Names(types[..n]);
      NamesAreGood(types[..n]);
      ParseInvertsAsStr(AsStr(types[n]), types[n]);
      assert types == types[..n] + [types[n]];
    }
  }

  lemma UnreadableStays(d: Dir, m: nat, n: nat)
    requires m <= n <= |ALL_TYPES| && FindAmong(d, m).None?
    ensures FindAmong(d, n).None?
  {
    if m < n { UnreadableStays(d, m, n - 1); }
  }

  class GitHookManager {
    var dir: Dir
    const isBare: bool
    const hasCoreHooksPath: bool
    const configExists: bool
    const rest: HookType -> string

    constructor (dir: Dir, isBare: bool, hasCoreHooksPath: bool, configExists: bool, rest: HookType -> string)
      ensures this.dir == dir && this.isBare == isBare && this.hasCoreHooksPath == hasCoreHooksPath
      ensures this.configExists == configExists && this.rest == rest
    {
      this.dir, this.isBare, this.hasCoreHooksPath, this.configExists, this.rest := dir, isBare, hasCoreHooksPath,
          configExists, rest;
    }

    /** Copies the hook to its backup name; the hook itself stays until it is overwritten. */
    method BackupHook(h: HookType)
      requires AsStr(h) in dir
      modifies this
      ensures dir == old(dir)[BackupName(h) := old(dir)[AsStr(h)]]
    {
      dir := dir[BackupName(h) := dir[AsStr(h)]];
    }

    method RestoreHook(h: HookType) returns (ok: bool)
      modifies this
      ensures ok <==> BackupName(h) in old(dir)
      ensures dir == if ok then old(dir)[AsStr(h) := old(dir)[BackupName(h)]] - {BackupName(h)} else old(dir)
    {
      ok := BackupName(h) in dir;
      if ok {
        dir := dir[AsStr(h) := dir[BackupName(h)]];
        dir := dir - {BackupName(h)};
      }
    }

    /** What the file operations amount to: the slot of this type, and nothing else, is installed. */
    method InstallSingleHook(h: HookType, cfg: InstallConfig) returns (r: Installed)
      modifies this
      ensures r == InstallOutcome(SlotOf(old(dir), h), cfg)
      ensures dir == WithSlot(old(dir), h, InstallSlot(SlotOf(old(dir), h), cfg, rest(h)))
    {
      NamesApart(h, h);
      var name := AsStr(h);
      var backedUp, overwritten := false, false;
      if name in dir {
        var check := IsSnpHook(Some(dir[name]));
        if check.Unreadable? { return Failed; }
        if check.Yes? { return Skipped; }
        if cfg.overwriteExisting {
          dir := dir - {name};
          overwritten := true;
        } else if cfg.backupExisting {
          BackupHook(h);
          backedUp := true;
        } else {
          return Failed;
        }
      }
      dir := dir[name := Script(rest(h)).value];
      r := Done(backedUp, overwritten);
    }

    /** Only a hook of ours is removed; its backup, if any, takes its place and is used up. */
    method UninstallSingleHook(h: HookType, restore: bool) returns (removed: bool, restored: bool)
      modifies this
      ensures removed <==> IsSnpHook(SlotOf(old(dir), h).hook) == Yes
      ensures restored <==> removed && restore && SlotOf(old(dir), h).legacy.Some?
      ensures dir == WithSlot(old(dir), h, UninstallSlot(SlotOf(old(dir), h), restore))
    {
      NamesApart(h, h);
      var name := AsStr(h);
      if name !in dir || IsSnpHook(Some(dir[name])) != Yes {
        return false, false;
      }
      dir := dir - {name};
      removed, restored := true, false;
      if restore {
        restored := RestoreHook(h);
      }
    }

    /**
     Refuses before touching anything, or installs the listed types in order (`pre-commit` if none is
     listed).  A name that is no hook type ends the call with an error, but what was installed before
     it stays installed.
     */
    method InstallHooks(cfg: InstallConfig) returns (r: Result<InstallResult>)
      modifies this
      ensures r == Err(BareRepository) <==> isBare
      ensures r == Err(HooksPathSet) <==> !isBare && hasCoreHooksPath
      ensures r == Err(NoConfigFile) <==> !isBare && !hasCoreHooksPath && !cfg.allowMissingConfig && !configExists
      ensures isBare || hasCoreHooksPath || (!cfg.allowMissingConfig && !configExists) ==> dir == old(dir)
      ensures !(isBare || hasCoreHooksPath || (!cfg.allowMissingConfig && !configExists)) ==>
                var names := if cfg.hookTypes == [] then ["pre-commit"] else cfg.hookTypes;
                var types := GoodPrefix(names);
                && dir == InstallTypes(old(dir), types, cfg, rest)
                && (|types| < |names| ==> r == Err(BadHookType(names[|types|])))
                && (|types| >= |names| ==> r == Ok(InstallReport(old(dir), types, cfg, rest)))
    {
      if isBare { return Err(BareRepository); }
      if hasCoreHooksPath { return Err(HooksPathSet); }
      if !cfg.allowMissingConfig && !configExists { return Err(NoConfigFile); }
      var names := if cfg.hookTypes == [] then ["pre-commit"] else cfg.hookTypes;
      r := InstallNamed(names, cfg);
    }

    method InstallNamed(names: seq<string>, cfg: InstallConfig) returns (r: Result<InstallResult>)
      modifies this
      ensures var types := GoodPrefix(names);
              && dir == InstallTypes(old(dir), types, cfg, rest)
              && (|types| < |names| ==> r == Err(BadHookType(names[|types|])))
              && (|types| >= |names| ==> r == Ok(InstallReport(old(dir), types, cfg, rest)))
    {
      var result := InstallResult([], [], [], []);
      ghost var types := [];
      for i := 0 to |names|
        invariant types == GoodPrefix(names[..i]) && |types| == i
        invariant dir == InstallTypes(old(dir), types, cfg, rest)
        invariant result == InstallReport(old(dir), types, cfg, rest)
      {
        assert names[..i + 1][..i] == names[..i];
        var h := Parse(names[i]);
        if h.None? {
          PrefixStops(names, i);
          return Err(BadHookType(names[i]));
        }
        ParseInvertsAsStr(names[i], h.value);
        var outcome := InstallSingleHook(h.value, cfg);
        result := Report(result, names[i], outcome);
        assert (types + [h.value])[..i] == types;
        types := types + [h.value];
      }
      assert names[..|names|] == names;
      r := Ok(result);
    }

    /** Removes the listed types, or every hook of ours that is found; one that cannot be read stops the search. */
    method UninstallHooks(names: seq<string>, restore: bool) returns (r: Result<UninstallResult>)
      modifies this
      ensures names == [] ==> dir == UninstallFound(old(dir), restore)
      ensures names == [] ==> (r == Err(UnreadableHook) <==> FindInstalled(old(dir)).None?)
      ensures names != [] ==>
                var types := GoodPrefix(names);
                && dir == UninstallTypes(old(dir), types, restore)
                && (|types| < |names| ==> r == Err(BadHookType(names[|types|])))
                && (|types| >= |names| ==> r == Ok(UninstallReport(old(dir), types, restore)))
      ensures names == [] && FindInstalled(old(dir)).Some? ==>
          r == Ok(UninstallReport(old(dir), FindInstalled(old(dir)).value, restore))
    {
      var chosen := names;
      if names == [] {
        var found := FindInstalledSnpHooks();
        if found.None? { return Err(UnreadableHook); }
        chosen := found.value;
        NamesAreGood(FindInstalled(dir).value);
      }
      r := UninstallNamed(chosen, restore);
    }

    method UninstallNamed(names: seq<string>, restore: bool) returns (r: Result<UninstallResult>)
      modifies this
      ensures var types := GoodPrefix(names);
              && dir == UninstallTypes(old(dir), types, restore)
              && (|types| < |names| ==> r == Err(BadHookType(names[|types|])))
              && (|types| >= |names| ==> r == Ok(UninstallReport(old(dir), types, restore)))
    {
      var result := UninstallResult([], []);
      ghost var types := [];
      for i := 0 to |names|
        invariant types == GoodPrefix(names[..i]) && |types| == i
        invariant dir == UninstallTypes(old(dir), types, restore)
        invariant result == UninstallReport(old(dir), types, restore)
      {
        assert names[..i + 1][..i] == names[..i];
        var h := Parse(names[i]);
        if h.None? {
          PrefixStops(names, i);
          return Err(BadHookType(names[i]));
        }
        ParseInvertsAsStr(names[i], h.value);
        ghost var s := SlotOf(dir, h.value);
        var removed, restored := UninstallSingleHook(h.value, restore);
        if removed { result := result.(hooksRemoved := result.hooksRemoved + [names[i]]); }
        if restored { result := result.(hooksRestored := result.hooksRestored + [names[i]]); }
        assert (types + [h.value])[..i] == types;
        assert result == ReportRemoval(UninstallReport(old(dir), types, restore), names[i], s, restore);
        types := types + [h.value];
      }
      assert names[..|names|] == names;
      r := Ok(result);
    }

    method FindInstalledSnpHooks() returns (r: Option<seq<string>>)
      ensures r.None? <==> FindInstalled(dir).None?
      ensures r.Some? ==> r.value == Names(FindInstalled(dir).value)
    {
      var installed := [];
      for i := 0 to |ALL_TYPES|
        invariant FindAmong(dir, i).Some? && installed == Names(FindAmong(dir, i).value)
      {
        var h := ALL_TYPES[i];
        var check := IsSnpHook(Get(dir, AsStr(h)));
        if check.Unreadable? {
          UnreadableStays(dir, i + 1, |ALL_TYPES|);
          return None;
        }
        if check.Yes? {
          installed := installed + [AsStr(h)];
        }
      }
      r := Some(installed);
    }
  }
}
