// The nginx data directory and the swap that activates a staged configuration. Every call of the swap
// that can fail has its own field in `Faults`, so "for every choice of failing steps" is "for every f".
module NginxTree {
  import opened Options
  import opened SiteRegistry

  datatype RootConf = RootConf(https: bool)

  datatype Disk = Disk(
    activeSites: Option<SitesTree>, backupSites: Option<SitesTree>, stagedSites: Option<SitesTree>,
    activeRoot: Option<RootConf>, backupRoot: Option<RootConf>, stagedRoot: Option<RootConf>)

  /** The outcome of a recursive removal: everything gone, or some files left behind. */
  datatype Removal = Cleared | Left(files: set<string>)

  /** One field per fallible call, in source order; true means that the call fails. */
  datatype Faults = Faults(
    directories: seq<bool>,
    oldBackupSites: Removal, oldBackupRoot: bool,
    sitesProbe: bool, sitesToBackup: bool, stagedSitesIn: bool, sitesBack: bool,
    rootProbe: bool, rootToBackup: bool, stagedRootIn: bool,
    undoSites: Removal, undoSitesBack: bool, undoRootBack: bool,
    lastBackupSites: Removal, lastBackupRoot: bool)

  function RemoveTree(tree: Option<SitesTree>, removal: Removal): Option<SitesTree> {
    if tree.None? || removal.Cleared? then None
    else Some(map file | file in tree.value && file in removal.files :: tree.value[file])
  }

  function RemoveFile(file: Option<RootConf>, fails: bool): Option<RootConf> {
    if fails then file else None
  }

  /** A directory is never renamed onto an existing one; a file replaces the file at its target. */
  predicate TreeMoves(source: Option<SitesTree>, target: Option<SitesTree>, fails: bool) {
    !fails && source.Some? && target.None?
  }

  predicate FileMoves(source: Option<RootConf>, fails: bool) {
    !fails && source.Some?
  }

  // ----- What one activation amounts to -----

  /** The disk after lines 58 to 60 tried to remove stale backups. */
  function Prepared(d: Disk, f: Faults): Disk {
    d.(backupSites := RemoveTree(d.backupSites, f.oldBackupSites),
       backupRoot := RemoveFile(d.backupRoot, f.oldBackupRoot))
  }

  datatype Stop = BeforeAnything | BeforeSwap | SwappingSites | ProbingRoot | BackingUpRoot | SwappingRoot | Nowhere

  /** The first step that fails. Only the last of the directory creations is looked at. */
  function StopOf(d: Disk, f: Faults): Stop {
    var p := Prepared(d, f);
    if f.directories != [] && f.directories[|f.directories| - 1] then BeforeAnything
    else if f.sitesProbe || (d.activeSites.Some? && !TreeMoves(d.activeSites, p.backupSites, f.sitesToBackup)) then
      BeforeSwap
    else if f.stagedSitesIn || d.stagedSites.None? then SwappingSites
    else if f.rootProbe then ProbingRoot
    else if d.activeRoot.Some? && f.rootToBackup then BackingUpRoot
    else if f.stagedRootIn || d.stagedRoot.None? then SwappingRoot
    else Nowhere
  }

  /** The final disk, case by case. */
  function Outcome(d: Disk, f: Faults): Disk {
    var p := Prepared(d, f);
    var hadSites := d.activeSites.Some?;
    match StopOf(d, f)
    case BeforeAnything => d
    case BeforeSwap => p
    case SwappingSites =>
      if hadSites && f.sitesBack then p.(activeSites := None, backupSites := d.activeSites) else p
    case Nowhere =>
      Disk(d.stagedSites, RemoveTree(if hadSites then d.activeSites else p.backupSites, f.lastBackupSites),
           None,
           d.stagedRoot, RemoveFile(if d.activeRoot.Some? then d.activeRoot else p.backupRoot, f.lastBackupRoot),
           None)
    case rootFailed =>
      var left := RemoveTree(d.stagedSites, f.undoSites);
      var sitesReturn := hadSites && left.None? && !f.undoSitesBack;
      var hadRoot := rootFailed != ProbingRoot && d.activeRoot.Some?;
      var moved := hadRoot && rootFailed == SwappingRoot;
      var backup := if moved then d.activeRoot else p.backupRoot;
      var rootReturns := hadRoot && FileMoves(backup, f.undoRootBack);
      p.(activeSites := if sitesReturn then d.activeSites else left,
         backupSites := if sitesReturn then None else if hadSites then d.activeSites else p.backupSites,
         stagedSites := None,
         activeRoot := if rootReturns then backup else if moved then None else d.activeRoot,
         backupRoot := if rootReturns then None else backup)
  }

  predicate Succeeds(d: Disk, f: Faults) {
    StopOf(d, f) == Nowhere
  }

  // ----- All or nothing -----

  /** Success means exactly the staged configuration is active. */
  lemma SuccessActivatesStaged(d: Disk, f: Faults)
    requires Succeeds(d, f)
    ensures d.stagedSites.Some? && Outcome(d, f).activeSites == d.stagedSites
    ensures d.stagedRoot.Some? && Outcome(d, f).activeRoot == d.stagedRoot
  {
  }

  /** A success uses the staging paths up, and leaves a backup exactly if removing it failed. */
  lemma SuccessLeavesBackupsExactly(d: Disk, f: Faults)
    requires Succeeds(d, f)
    ensures Outcome(d, f).stagedSites.None? && Outcome(d, f).stagedRoot.None?
    ensures Outcome(d, f).backupSites.None? <==>
            f.lastBackupSites.Cleared? || (d.activeSites.None? && (d.backupSites.None? || f.oldBackupSites.Cleared?))
    ensures Outcome(d, f).backupRoot.None? <==>
            !f.lastBackupRoot || (d.activeRoot.None? && (d.backupRoot.None? || !f.oldBackupRoot))
  {
  }

  /** A stale backup of the sites that cannot be removed is in the way of the new one: nothing is activated, and
      what was active and staged stays. */
  lemma StaleSitesBackupBlocks(d: Disk, f: Faults)
    requires d.activeSites.Some? && d.backupSites.Some? && !f.oldBackupSites.Cleared?
    ensures var o := Outcome(d, f);
            && !Succeeds(d, f) && o.activeSites == d.activeSites && o.activeRoot == d.activeRoot
            && o.stagedSites == d.stagedSites && o.stagedRoot == d.stagedRoot
  {
  }

  predicate FaultFree(f: Faults) {
    && (f.directories == [] || !f.directories[|f.directories| - 1])
    && f.oldBackupSites.Cleared? && !f.oldBackupRoot && !f.sitesProbe && !f.sitesToBackup && !f.stagedSitesIn
    && !f.rootProbe && !f.rootToBackup && !f.stagedRootIn
  }

  /** Whatever was active before or left behind by an earlier crash: without faults, a staged
      configuration gets in. */
  lemma FaultFreeSucceeds(d: Disk, f: Faults)
    requires FaultFree(f) && d.stagedSites.Some? && d.stagedRoot.Some?
    ensures Succeeds(d, f)
  {
  }

  /** The guards under which a failed activation brings the previous sites back. */
  predicate SitesBroughtBack(d: Disk, f: Faults) {
    match StopOf(d, f)
    case BeforeAnything => true
    case BeforeSwap => true
    case SwappingSites => d.activeSites.None? || !f.sitesBack
    case _ =>
      if f.undoSites.Cleared? then d.activeSites.None? || !f.undoSitesBack
      else RemoveTree(d.stagedSites, f.undoSites) == d.activeSites
  }

  /** The guards under which it brings the previous root file back. When backing it up failed, the undo
      step still renames whatever stale backup is there over it. */
  predicate RootBroughtBack(d: Disk, f: Faults) {
    match StopOf(d, f)
    case BackingUpRoot =>
      Prepared(d, f).backupRoot.None? || f.undoRootBack || Prepared(d, f).backupRoot == d.activeRoot
    case SwappingRoot => d.activeRoot.None? || !f.undoRootBack
    case _ => true
  }

  /** A failed activation leaves the previous configuration exactly under these guards. */
  lemma FailureKeepsPreviousExactly(d: Disk, f: Faults)
    requires !Succeeds(d, f)
    ensures Outcome(d, f).activeSites == d.activeSites <==> SitesBroughtBack(d, f)
    ensures Outcome(d, f).activeRoot == d.activeRoot <==> RootBroughtBack(d, f)
  {
  }

  predicate UndoStepsSucceed(f: Faults) {
    !f.sitesBack && f.undoSites.Cleared? && !f.undoSitesBack && !f.undoRootBack
  }

  predicate StaleRootRemoved(d: Disk, f: Faults) {
    Prepared(d, f).backupRoot.None?
  }

  /** All or nothing: with reliable undo steps and no stale root backup, the active configuration is the
      staged one or the previous one, never a mixture. */
  lemma AllOrNothing(d: Disk, f: Faults)
    requires UndoStepsSucceed(f) && StaleRootRemoved(d, f)
    ensures var o := Outcome(d, f);
            if Succeeds(d, f) then o.activeSites == d.stagedSites && o.activeRoot == d.stagedRoot
            else o.activeSites == d.activeSites && o.activeRoot == d.activeRoot
  {
    if Succeeds(d, f) {
      SuccessActivatesStaged(d, f);
    } else {
      FailureKeepsPreviousExactly(d, f);
    }
  }

  const NO_FAULT := Faults([], Cleared, false, false, false, false, false, false, false, false,
                           Cleared, false, false, Cleared, false)

  /** The stale backup matters: if it survives and the root cannot be backed up, the undo step replaces
      the working root file by the stale one. */
  lemma StaleBackupReplacesRoot()
    ensures exists d, f :: !Succeeds(d, f) && UndoStepsSucceed(f) && d.activeRoot.Some? &&
                           Outcome(d, f).activeRoot == d.backupRoot != d.activeRoot
  {
    var tree: SitesTree := map[];
    var d := Disk(Some(tree), None, Some(tree), Some(RootConf(true)), Some(RootConf(false)), Some(RootConf(true)));
    var f := NO_FAULT.(oldBackupRoot := true, rootToBackup := true);
    assert StopOf(d, f) == BackingUpRoot;
    assert Outcome(d, f).activeRoot == Some(RootConf(false));
  }

  /** The undo steps matter: if the new sites cannot be removed again, they stay beside the old root. */
  lemma FailedUndoMixesTrees()
    ensures exists d, f :: !Succeeds(d, f) && StaleRootRemoved(d, f) &&
                           d.activeSites.Some? && d.stagedSites.Some? && d.activeSites != d.stagedSites &&
                           Outcome(d, f).activeSites == d.stagedSites && Outcome(d, f).activeRoot == d.activeRoot
  {
    var block := ServerBlock("a.test", "a", true);
    var before: SitesTree := map[];
    var after: SitesTree := map["a.test.conf" := block];
    var d := Disk(Some(before), None, Some(after), Some(RootConf(true)), None, Some(RootConf(true)));
    var f := NO_FAULT.(stagedRootIn := true, undoSites := Left({"a.test.conf"}));
    assert StopOf(d, f) == SwappingRoot;
    assert RemoveTree(d.stagedSites, f.undoSites).value == after;
    assert Outcome(d, f).activeSites == d.stagedSites && Outcome(d, f).activeRoot == d.activeRoot;
    assert "a.test.conf" in after && "a.test.conf" !in before;
  }

  // ----- Crashes -----

  /** The previous configuration is still at the active or the backup paths. */
  predicate PreviousKept(d: Disk, s: Disk) {
    && (d.activeSites.Some? ==> s.activeSites == d.activeSites || s.backupSites == d.activeSites)
    && (d.activeRoot.Some? ==> s.activeRoot == d.activeRoot || s.backupRoot == d.activeRoot)
  }

  /** A disk a crash may leave: the previous configuration is kept, or the staged one is fully active. */
  predicate Recoverable(d: Disk, s: Disk) {
    PreviousKept(d, s) || (s.activeSites == d.stagedSites && s.activeRoot == d.stagedRoot)
  }

  predicate ComesFrom(tree: Option<SitesTree>, file: string, block: ServerBlock) {
    tree.Some? && file in tree.value && tree.value[file] == block
  }

  /** Every active server block was active before, or staged. */
  predicate Sourced(d: Disk, s: Disk) {
    s.activeSites.Some? ==>
      forall file | file in s.activeSites.value ::
        ComesFrom(d.activeSites, file, s.activeSites.value[file]) ||
        ComesFrom(d.stagedSites, file, s.activeSites.value[file])
  }

  /** A fault choice that agrees with `f` on the stale backups, or stops before anything is swapped. */
  predicate CutsOff(start: Disk, f: Faults, g: Faults) {
    StopOf(start, g) in {BeforeAnything, BeforeSwap} || Prepared(start, g) == Prepared(start, f)
  }

  /** A disk between two steps is what such a choice of faults leaves for good: to the disk, a crash is a
      fault followed by a restart. */
  ghost predicate StepOf(start: Disk, f: Faults, d: Disk) {
    exists g | CutsOff(start, f, g) :: Outcome(start, g) == d
  }

  /** Hence, at every step: only previous and staged blocks are active, and unless a stale root backup was
      in the way the disk is recoverable. */
  lemma EveryStepIsRecoverable(start: Disk, f: Faults, d: Disk)
    requires StepOf(start, f, d)
    ensures Sourced(start, d) && (StaleRootRemoved(start, f) ==> Recoverable(start, d))
  {
    var g :| CutsOff(start, f, g) && Outcome(start, g) == d;
    if d.activeSites.Some? {
      OutcomeIsSourced(start, g);
    }
  }

  lemma OutcomeIsSourced(start: Disk, g: Faults)
    ensures Sourced(start, Outcome(start, g))
  {
  }

  lemma RemovalLeavesListedFiles(tree: SitesTree, files: set<string>)
    ensures var left := RemoveTree(Some(tree), Left(files));
            && left.Some? && left.value.Keys == tree.Keys * files
            && forall file | file in left.value :: left.value[file] == tree[file]
  {
  }

  lemma NothingRemoved(tree: SitesTree)
    ensures RemoveTree(Some(tree), Left(tree.Keys)) == Some(tree)
  {
    assert (map file | file in tree && file in tree.Keys :: tree[file]) == tree;
  }

  function Backups(start: Disk, f: Faults): (Option<SitesTree>, Option<RootConf>) {
    (if start.activeSites.Some? then start.activeSites else Prepared(start, f).backupSites,
     if start.activeRoot.Some? then start.activeRoot else Prepared(start, f).backupRoot)
  }

  /** The site trees are swapped. */
  function SitesSwapped(start: Disk, f: Faults): Disk {
    Prepared(start, f).(activeSites := start.stagedSites, stagedSites := None, backupSites := Backups(start, f).0)
  }

  /** Both are swapped, and the backups still there. */
  function Swapped(start: Disk, f: Faults): Disk {
    Disk(start.stagedSites, Backups(start, f).0, None, start.stagedRoot, Backups(start, f).1, None)
  }

  /** The sites are swapped, the root file is not. */
  function HalfSwapped(start: Disk, f: Faults): Disk {
    if StopOf(start, f) == SwappingRoot && start.activeRoot.Some?
    then SitesSwapped(start, f).(activeRoot := None, backupRoot := start.activeRoot)
    else SitesSwapped(start, f)
  }

  function KeepBackups(start: Disk, f: Faults): Faults {
    f.(lastBackupSites := if Backups(start, f).0.Some? then Left(Backups(start, f).0.value.Keys) else Cleared,
       lastBackupRoot := true)
  }

  /** A swap that is done but has not dropped its backups yet. */
  lemma BackupsKept(start: Disk, f: Faults)
    requires Succeeds(start, f)
    ensures Outcome(start, KeepBackups(start, f)) == Swapped(start, f)
  {
    var backup := Backups(start, f).0;
    if backup.Some? {
      NothingRemoved(backup.value);
    }
  }

  /** The history grew by steps of one activation only. */
  ghost predicate Extends(before: seq<Disk>, after: seq<Disk>, start: Disk, f: Faults) {
    before <= after && forall k | |before| <= k < |after| :: StepOf(start, f, after[k])
  }

  // ----- A failing activation after a crash -----

  // The guarantee covers one activation. The next one removes the backups first, so what a crash left only
  // there may be lost when it fails too.

  /** Every failing activation keeps a site tree that is only at the backup path exactly if it stops before
      removing the backups or leaves every file of them behind. */
  lemma BackupSitesSurviveExactly(d: Disk, f: Faults)
    requires d.backupSites.Some? && d.activeSites != d.backupSites && !Succeeds(d, f)
    ensures Outcome(d, f).backupSites == d.backupSites <==>
            StopOf(d, f) == BeforeAnything || RemoveTree(d.backupSites, f.oldBackupSites) == d.backupSites
    ensures d.activeSites.None? && f.undoSites.Cleared? ==> Outcome(d, f).activeSites.None?
  {
  }

  /** The same for a root file when there is no active one. */
  lemma BackupRootSurvivesExactly(d: Disk, f: Faults)
    requires d.activeRoot.None? && d.backupRoot.Some? && !Succeeds(d, f)
    ensures Outcome(d, f).backupRoot == d.backupRoot <==> StopOf(d, f) == BeforeAnything || f.oldBackupRoot
  {
  }

  /** The guards under which a failing activation keeps the sites of `start`, which `d` still holds. */
  predicate SitesSafe(start: Disk, d: Disk, f: Faults) {
    || start.activeSites.None? || d.activeSites == start.activeSites
    || StopOf(d, f) == BeforeAnything || RemoveTree(d.backupSites, f.oldBackupSites) == d.backupSites
  }

  /** And its root file. At its active path it is lost only to a stale backup; at its backup path only if that
      is removed, or replaced by another root file that is moved there. */
  predicate RootSafe(start: Disk, d: Disk, f: Faults) {
    || start.activeRoot.None? || StopOf(d, f) == BeforeAnything
    || if d.activeRoot == start.activeRoot then
         StopOf(d, f) != BackingUpRoot || Prepared(d, f).backupRoot.None? || f.undoRootBack ||
         Prepared(d, f).backupRoot == d.activeRoot
       else f.oldBackupRoot && (StopOf(d, f) != SwappingRoot || d.activeRoot.None?)
  }

  /** A configuration that is still kept somewhere, after a crash at whatever point, survives a failing
      activation under these guards, and unless removing the new sites fails only under them. */
  lemma KeptSurvivesExactly(start: Disk, d: Disk, f: Faults)
    requires PreviousKept(start, d) && !Succeeds(d, f)
    ensures SitesSafe(start, d, f) && RootSafe(start, d, f) ==> PreviousKept(start, Outcome(d, f))
    ensures f.undoSites.Cleared? && PreviousKept(start, Outcome(d, f)) ==>
              SitesSafe(start, d, f) && RootSafe(start, d, f)
  {
  }

  /** The disk after the old sites were moved away, after the new ones took their place, and after the old
      root file was moved away too: three points at which an activation can be cut off. */
  function SitesAway(start: Disk): Disk {
    start.(activeSites := None, backupSites := start.activeSites, backupRoot := None)
  }

  function SitesIn(start: Disk): Disk {
    SitesAway(start).(activeSites := start.stagedSites, stagedSites := None)
  }

  function RootAway(start: Disk): Disk {
    SitesIn(start).(activeRoot := None, backupRoot := start.activeRoot)
  }

  function Restaged(d: Disk, sites: SitesTree, root: RootConf): Disk {
    d.(stagedSites := Some(sites), stagedRoot := Some(root))
  }

  predicate HasBoth(start: Disk) {
    start.activeSites.Some? && start.activeRoot.Some? && start.stagedSites.Some? && start.stagedRoot.Some?
  }

  /** An activation without faults passes through all three, and each keeps the old configuration. */
  lemma CrashPoints(start: Disk)
    requires HasBoth(start)
    ensures StepOf(start, NO_FAULT, SitesAway(start)) && PreviousKept(start, SitesAway(start))
    ensures StepOf(start, NO_FAULT, SitesIn(start)) && PreviousKept(start, SitesIn(start))
    ensures StepOf(start, NO_FAULT, RootAway(start)) && PreviousKept(start, RootAway(start))
  {
    var all := Left(start.stagedSites.value.Keys);
    NothingRemoved(start.stagedSites.value);
    var away := NO_FAULT.(stagedSitesIn := true, sitesBack := true);
    var sitesIn := NO_FAULT.(rootProbe := true, undoSites := all);
    var rootAway := NO_FAULT.(stagedRootIn := true, undoSites := all, undoRootBack := true);
    assert CutsOff(start, NO_FAULT, away) && Outcome(start, away) == SitesAway(start);
    assert CutsOff(start, NO_FAULT, sitesIn) && Outcome(start, sitesIn) == SitesIn(start);
    assert CutsOff(start, NO_FAULT, rootAway) && Outcome(start, rootAway) == RootAway(start);
  }

  /** From each of them a failing activation whose undo steps work can lose part of the old configuration:
      all sites; the old sites, with the new ones beside the old root file; the root file. */
  lemma FailureAfterCrashLoses(start: Disk, sites: SitesTree, root: RootConf)
    requires HasBoth(start) && start.stagedSites != start.activeSites
    ensures var o := Outcome(Restaged(SitesAway(start), sites, root), NO_FAULT.(stagedSitesIn := true));
            o.activeSites.None? && o.backupSites.None?
    ensures var o := Outcome(Restaged(SitesIn(start), sites, root), NO_FAULT.(stagedSitesIn := true));
            o.activeSites == start.stagedSites && o.backupSites.None? && o.activeRoot == start.activeRoot &&
            !PreviousKept(start, o)
    ensures var o := Outcome(Restaged(RootAway(start), sites, root), NO_FAULT.(stagedRootIn := true));
            o.activeRoot.None? && o.backupRoot.None?
    ensures UndoStepsSucceed(NO_FAULT.(stagedSitesIn := true)) && UndoStepsSucceed(NO_FAULT.(stagedRootIn := true))
  {
    assert StopOf(Restaged(SitesAway(start), sites, root), NO_FAULT.(stagedSitesIn := true)) == SwappingSites;
    assert StopOf(Restaged(SitesIn(start), sites, root), NO_FAULT.(stagedSitesIn := true)) == SwappingSites;
    assert StopOf(Restaged(RootAway(start), sites, root), NO_FAULT.(stagedRootIn := true)) == SwappingRoot;
  }

  lemma OneSite() returns (start: Disk)
    ensures HasBoth(start) && start.stagedSites != start.activeSites && start.activeSites.value != map[]
  {
    var before: SitesTree := map["a.test.conf" := ServerBlock("a.test", "a", true)];
    var after: SitesTree := map[];
    assert "a.test.conf" in before && "a.test.conf" !in after;
    start := Disk(Some(before), None, Some(after), Some(RootConf(true)), None, Some(RootConf(true)));
  }

  /** One such case in full: the only site is gone after a crash between the two site renames and a failing
      next activation. */
  lemma CrashThenFailureLosesSites()
    ensures exists start: Disk, crashed: Disk, sites: SitesTree, root: RootConf, f: Faults ::
              && start.activeSites.Some? && start.activeSites.value != map[] && StepOf(start, NO_FAULT, crashed)
              && UndoStepsSucceed(f) && !Succeeds(Restaged(crashed, sites, root), f)
              && Outcome(Restaged(crashed, sites, root), f).activeSites.None?
              && Outcome(Restaged(crashed, sites, root), f).backupSites.None?
  {
    var start := OneSite();
    CrashPoints(start);
    FailureAfterCrashLoses(start, map[], RootConf(true));
    assert !Succeeds(Restaged(SitesAway(start), map[], RootConf(true)), NO_FAULT.(stagedSitesIn := true));
  }

  class NginxData {
    var disk: Disk
    /** The disk after every single change, oldest first. */
    ghost var history: seq<Disk>

    constructor (disk: Disk)
      ensures Valid() && this.disk == disk
    {
      this.disk := disk;
      history := [disk];
    }

    /** No change has escaped the history. */
    ghost predicate Valid()
      reads this
    {
      history != [] && history[|history| - 1] == disk
    }

    method Change(d: Disk)
      modifies this
      ensures disk == d && history == old(history) + [d]
    {
      disk := d;
      history := history + [d];
    }

    /** One change within an activation, with the fault choice that would have left it for good. */
    method Step(d: Disk, ghost start: Disk, ghost f: Faults, ghost g: Faults)
      requires Valid() && CutsOff(start, f, g) && Outcome(start, g) == d
      modifies this
      ensures Valid() && disk == d && Extends(old(history), history, start, f)
    {
      Change(d);
    }

    /** Swaps the staged configuration in, step by step, undoing what it did when a step fails. */
    method Activate(f: Faults) returns (ok: bool)
      requires Valid()
      modifies this
      ensures Valid()
      ensures ok == Succeeds(old(disk), f)
      ensures disk == Outcome(old(disk), f)
      ensures ok ==> disk.activeSites == old(disk).stagedSites && disk.activeRoot == old(disk).stagedRoot
      ensures ok && f.lastBackupSites.Cleared? && !f.lastBackupRoot ==>
                disk.backupSites.None? && disk.stagedSites.None? && disk.backupRoot.None? && disk.stagedRoot.None?
      ensures !ok && UndoStepsSucceed(f) && StaleRootRemoved(old(disk), f) ==>
                disk.activeSites == old(disk).activeSites && disk.activeRoot == old(disk).activeRoot
      ensures Extends(old(history), history, old(disk), f)
    {
      if UndoStepsSucceed(f) && StaleRootRemoved(disk, f) {
        AllOrNothing(disk, f);
      }
      var error := CreateDirectories(f.directories);
      if error {
        return false;
      }
      DropStaleBackups(f);
      if f.sitesProbe {
        return false;
      }
      var hadSites := disk.activeSites.Some?;
      ok := SwapSites(f, hadSites, old(disk));
      if ok {
        ok := SwapRoot(f, hadSites, old(disk));
      }
      if ok {
        DropBackups(f, old(disk));
      }
    }

    /** The error variable is overwritten by every call, so only the last one decides. */
    method CreateDirectories(results: seq<bool>) returns (error: bool)
      ensures error == (results != [] && results[|results| - 1])
    {
      error := false;
      for i := 0 to |results|
        invariant error == (i > 0 && results[i - 1])
      {
        error := results[i];
      }
    }

    method DropStaleBackups(f: Faults)
      requires Valid() && StopOf(disk, f) != BeforeAnything
      modifies this
      ensures disk == Prepared(old(disk), f)
      ensures Valid() && Extends(old(history), history, old(disk), f)
    {
      Step(disk.(backupSites := RemoveTree(disk.backupSites, f.oldBackupSites)),
           old(disk), f, f.(oldBackupRoot := true, sitesProbe := true));
      Step(disk.(backupRoot := RemoveFile(disk.backupRoot, f.oldBackupRoot)), old(disk), f, f.(sitesProbe := true));
    }

    method DropBackups(f: Faults, ghost start: Disk)
      requires Valid() && Succeeds(start, f)
      requires disk == Swapped(start, f)
      modifies this
      ensures disk == Outcome(start, f)
      ensures Valid() && Extends(old(history), history, start, f)
    {
      Step(disk.(backupSites := RemoveTree(disk.backupSites, f.lastBackupSites)), start, f, f.(lastBackupRoot := true));
      Step(disk.(backupRoot := RemoveFile(disk.backupRoot, f.lastBackupRoot)), start, f, f);
    }

    /** The first half: the site trees. */
    method SwapSites(f: Faults, hadSites: bool, ghost start: Disk) returns (ok: bool)
      requires Valid() && hadSites == start.activeSites.Some? && disk == Prepared(start, f)
      requires StopOf(start, f) != BeforeAnything && !f.sitesProbe
      modifies this
      ensures ok <==> StopOf(start, f) !in {BeforeSwap, SwappingSites}
      ensures !ok ==> disk == Outcome(start, f)
      ensures ok ==> start.stagedSites.Some?
      ensures ok ==> disk == SitesSwapped(start, f)
      ensures Valid() && Extends(old(history), history, start, f)
    {
      if hadSites {
        if !TreeMoves(disk.activeSites, disk.backupSites, f.sitesToBackup) {
          return false;
        }
        Step(disk.(activeSites := None, backupSites := disk.activeSites),
             start, f, f.(stagedSitesIn := true, sitesBack := true));
      }
      if !TreeMoves(disk.stagedSites, disk.activeSites, f.stagedSitesIn) {
        if hadSites && TreeMoves(disk.backupSites, disk.activeSites, f.sitesBack) {
          Step(disk.(activeSites := disk.backupSites, backupSites := None), start, f, f);
        }
        return false;
      }
      NothingRemoved(start.stagedSites.value);
      Step(disk.(activeSites := disk.stagedSites, stagedSites := None),
           start, f, f.(rootProbe := true, undoSites := Left(start.stagedSites.value.Keys)));
      return true;
    }

    /** The second half: the root file, and the undo steps for both. */
    method SwapRoot(f: Faults, hadSites: bool, ghost start: Disk) returns (ok: bool)
      requires Valid() && hadSites == start.activeSites.Some? && start.stagedSites.Some?
      requires StopOf(start, f) !in {BeforeAnything, BeforeSwap, SwappingSites} && disk == SitesSwapped(start, f)
      modifies this
      ensures ok == Succeeds(start, f)
      ensures disk == if ok then Swapped(start, f) else Outcome(start, f)
      ensures Valid() && Extends(old(history), history, start, f)
    {
      var error := f.rootProbe;
      var hadRoot := !error && disk.activeRoot.Some?;
      if hadRoot {
        error := BackUpRoot(f, start);
      }
      if !error {
        error := !FileMoves(disk.stagedRoot, f.stagedRootIn);
        if !error {
          BackupsKept(start, f);
          Step(disk.(activeRoot := disk.stagedRoot, stagedRoot := None), start, f, KeepBackups(start, f));
        }
      }
      if error {
        Undo(f, hadSites, hadRoot, start);
      }
      return !error;
    }

    method BackUpRoot(f: Faults, ghost start: Disk) returns (error: bool)
      requires Valid() && start.stagedSites.Some? && start.activeRoot.Some?
      requires StopOf(start, f) in {BackingUpRoot, SwappingRoot, Nowhere} && disk == SitesSwapped(start, f)
      modifies this
      ensures error == (StopOf(start, f) == BackingUpRoot)
      ensures disk == if error then SitesSwapped(start, f)
                      else SitesSwapped(start, f).(activeRoot := None, backupRoot := start.activeRoot)
      ensures Valid() && Extends(old(history), history, start, f)
    {
      error := !FileMoves(disk.activeRoot, f.rootToBackup);
      if !error {
        NothingRemoved(start.stagedSites.value);
        Step(disk.(activeRoot := None, backupRoot := disk.activeRoot), start, f,
             f.(stagedRootIn := true, undoSites := Left(start.stagedSites.value.Keys), undoRootBack := true));
      }
    }

    /** The undo steps of a failed root swap. */
    method Undo(f: Faults, hadSites: bool, hadRoot: bool, ghost start: Disk)
      requires Valid() && start.stagedSites.Some? && hadSites == start.activeSites.Some?
      requires StopOf(start, f) in {ProbingRoot, BackingUpRoot, SwappingRoot} && disk == HalfSwapped(start, f)
      requires hadRoot == (StopOf(start, f) != ProbingRoot && start.activeRoot.Some?)
      modifies this
      ensures disk == Outcome(start, f)
      ensures Valid() && Extends(old(history), history, start, f)
    {
      Step(disk.(activeSites := RemoveTree(disk.activeSites, f.undoSites)),
           start, f, f.(undoSitesBack := true, undoRootBack := true));
      if hadSites && TreeMoves(disk.backupSites, disk.activeSites, f.undoSitesBack) {
        Step(disk.(activeSites := disk.backupSites, backupSites := None), start, f, f.(undoRootBack := true));
      }
      if hadRoot && FileMoves(disk.backupRoot, f.undoRootBack) {
        Step(disk.(activeRoot := disk.backupRoot, backupRoot := None), start, f, f);
      }
    }
  }
}
