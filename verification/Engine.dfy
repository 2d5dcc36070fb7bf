// The publish transaction: scan, certificates, staging, activation, clean-up and hosts file, driven by
// refreshes and by the `config.set` command with its rollback.
module Engine {
  import opened Options
  import opened Labels
  import opened Sequences
  import opened SiteRegistry
  import opened HostsFile
  import opened ConfigStore
  import NginxTree
  import Tls = CertificateManager

  // ----- Certificates behind the active tree -----

  /** What the coverage of the active tree depends on. */
  datatype World = World(disk: NginxTree.Disk, leaves: set<string>)

  predicate BlockCovered(block: ServerBlock, leaves: set<string>) {
    block.https ==> block.hostname + ".crt.pem" in leaves && block.hostname + ".key.pem" in leaves
  }

  predicate TreeCovered(tree: SitesTree, leaves: set<string>) {
    forall file | file in tree :: BlockCovered(tree[file], leaves)
  }

  /** Every hostname the active HTTPS tree refers to has its certificate and its key file on disk. */
  predicate Covered(w: World) {
    w.disk.activeSites.Some? ==> TreeCovered(w.disk.activeSites.value, w.leaves)
  }

  /** The active and the staged tree are covered. */
  predicate StagedCovered(d: NginxTree.Disk, leaves: set<string>) {
    && (d.activeSites.Some? ==> TreeCovered(d.activeSites.value, leaves))
    && (d.stagedSites.Some? ==> TreeCovered(d.stagedSites.value, leaves))
  }

  /** Then the active tree is covered at every step of an activation, and after a crash between two. */
  lemma StepsCovered(start: NginxTree.Disk, f: NginxTree.Faults, steps: seq<NginxTree.Disk>, leaves: set<string>)
    requires StagedCovered(start, leaves)
    requires forall k | 0 <= k < |steps| :: NginxTree.StepOf(start, f, steps[k])
    ensures DisksCovered(steps, leaves)
  {
    forall k | 0 <= k < |steps| ensures Covered(World(steps[k], leaves)) {
      NginxTree.EveryStepIsRecoverable(start, f, steps[k]);
    }
  }

  predicate HostsCovered(hostnames: seq<string>, leaves: set<string>) {
    forall h | h in hostnames :: h + ".crt.pem" in leaves && h + ".key.pem" in leaves
  }

  lemma {:induction false} BlocksAreValidSites(sites: seq<Site>, https: bool)
    ensures forall file | file in ConfTree(sites, https) ::
              ConfTree(sites, https)[file].https == https &&
              ConfTree(sites, https)[file].hostname in ValidHostnames(sites)
    decreases |sites|
  {
    if sites != [] {
      BlocksAreValidSites(sites[..|sites| - 1], https);
    }
  }

  lemma ValidHostnamesAreValid(sites: seq<Site>)
    requires Publishable(sites)
    ensures forall h | h in ValidHostnames(sites) :: ValidHostname(h)
  {
  }

  lemma CleanUpKeepsHosts(hostnames: seq<string>, leaves: map<string, Tls.LeafFile>)
    requires HostsCovered(hostnames, leaves.Keys) && forall h | h in hostnames :: ValidHostname(h)
    ensures HostsCovered(hostnames, Tls.Retained(leaves, hostnames).Keys)
  {
    forall h | h in hostnames
      ensures CertificateFile(h) in Tls.Retained(leaves, hostnames) && KeyFile(h) in Tls.Retained(leaves, hostnames)
    {
      Tls.RetainedPairSurvives(leaves, hostnames, h);
    }
  }

  // ----- Left-overs in the staging directory -----

  /** A staged configuration: the server blocks the clean-up left there, the sites generated over them, and
      the leaf files at that time. */
  datatype Staging = Staging(left: SitesTree, sites: seq<Site>, https: bool, leaves: set<string>) {
    function Tree(): SitesTree {
      left + ConfTree(sites, https)
    }

    /** No left-over block stays beside the generated ones. */
    predicate Overwrites() {
      left.Keys <= ConfTree(sites, https).Keys
    }

    /** Both leaf files of this host are there, and clean-up will retain them. */
    predicate LeafStays(hostname: string) {
      && CertificateFile(hostname) in leaves && !Tls.Obsolete(CertificateFile(hostname), ValidHostnames(sites))
      && KeyFile(hostname) in leaves && !Tls.Obsolete(KeyFile(hostname), ValidHostnames(sites))
    }

    /** The leaf files of every left-over HTTPS block that is not overwritten stay. */
    predicate Harmless() {
      forall file | file in left && file !in ConfTree(sites, https) && left[file].https ::
        LeafStays(left[file].hostname)
    }
  }

  /** For the hostnames of the registry: it is published, and its leaf files are there. */
  lemma LeafStaysExactly(st: Staging, hostname: string)
    requires ValidHostname(hostname)
    ensures st.LeafStays(hostname) <==>
            hostname in ValidHostnames(st.sites) &&
            CertificateFile(hostname) in st.leaves && KeyFile(hostname) in st.leaves
  {
    LeafFilesRecoverHostname(hostname);
  }

  lemma GeneratedBlocksStay(st: Staging)
    requires Publishable(st.sites) && (st.https ==> HostsCovered(ValidHostnames(st.sites), st.leaves))
    ensures forall file | file in ConfTree(st.sites, st.https) && ConfTree(st.sites, st.https)[file].https ::
              st.LeafStays(ConfTree(st.sites, st.https)[file].hostname)
  {
    BlocksAreValidSites(st.sites, st.https);
    ValidHostnamesAreValid(st.sites);
    forall h | h in ValidHostnames(st.sites) && st.https ensures st.LeafStays(h) {
      LeafStaysExactly(st, h);
    }
  }

  /** What is staged becomes the active tree. Before clean-up it is covered if the left-overs are harmless;
      after clean-up it is covered exactly then. */
  lemma LeftoversDecideCoverage(st: Staging, leaves: map<string, Tls.LeafFile>)
    requires st.leaves == leaves.Keys
    requires Publishable(st.sites) && (st.https ==> HostsCovered(ValidHostnames(st.sites), st.leaves))
    ensures st.Harmless() ==> TreeCovered(st.Tree(), st.leaves)
    ensures TreeCovered(st.Tree(), Tls.Retained(leaves, ValidHostnames(st.sites)).Keys) <==> st.Harmless()
  {
    var tree, kept := ConfTree(st.sites, st.https), Tls.Retained(leaves, ValidHostnames(st.sites)).Keys;
    GeneratedBlocksStay(st);
    assert forall h :: st.LeafStays(h) <==> CertificateFile(h) in kept && KeyFile(h) in kept;
    assert forall file | file in tree :: st.Tree()[file] == tree[file] && BlockCovered(tree[file], kept);
    assert forall file | file in st.left && file !in tree :: file in st.Tree() && st.Tree()[file] == st.left[file];
  }

  lemma SameFilesExactly(tree: SitesTree, left: SitesTree, entries: seq<Entry>, https: bool)
    requires ServesFolders(tree, entries, https) && ServesNothingElse(tree, entries)
    ensures ServesNothingElse(left + tree, entries) <==> left.Keys <= tree.Keys
  {
    if ServesNothingElse(left + tree, entries) {
      forall file | file in left ensures file in tree {
        assert file in left + tree;
        var i :| 0 <= i < |entries| && IsFileOf(file, entries, i);
        assert ServesFolder(tree, entries[i], https);
      }
    }
    if left.Keys <= tree.Keys {
      assert (left + tree).Keys == tree.Keys;
    }
  }

  /** What is staged serves every folder that is to be served, from that folder, and nothing else exactly if no
      left-over block stays beside them. */
  lemma StagedServesFolders(st: Staging, entries: seq<Entry>)
    requires st.sites == SitesOf(entries, FolderNames(entries))
    ensures ServesFolders(st.Tree(), entries, st.https)
    ensures ServesNothingElse(st.Tree(), entries) <==> st.Overwrites()
  {
    GeneratedServesFolders(st.left, entries, st.https);
    GeneratedServesFolders(map[], entries, st.https);
    assert map[] + ConfTree(st.sites, st.https) == ConfTree(st.sites, st.https);
    OnlyFoldersServed(entries, st.https);
    SameFilesExactly(ConfTree(st.sites, st.https), st.left, entries, st.https);
  }

  /** The staged block of a site that is gone, whose certificate is still there. */
  lemma GoneSite() returns (st: Staging, leaves: map<string, Tls.LeafFile>)
    ensures st.sites == [] && st.https && "b.test.conf" in st.left && st.left.Keys == {"b.test.conf"}
    ensures st.leaves == leaves.Keys && TreeCovered(st.left, leaves.Keys) && !st.Harmless()
  {
    var hostname := "b.test";
    leaves := map[CertificateFile(hostname) := Tls.Junk(""), KeyFile(hostname) := Tls.Junk("")];
    st := Staging(map["b.test.conf" := ServerBlock(hostname, "b", true)], [], true, leaves.Keys);
    assert ValidHostname(hostname) by {
      assert hostname[1..] == SITE_SUFFIX && hostname[..1] == "b";
    }
    LeafStaysExactly(st, hostname);
    assert !st.LeafStays(st.left["b.test.conf"].hostname);
  }

  lemma LeftAsItWas(d: NginxTree.Disk, f: StagingFaults, left: SitesTree)
    requires d.stagedSites == Some(left) && f.before == NginxTree.Left(left.Keys)
    ensures LeftInStaging(d, f) == left
  {
    NginxTree.NothingRemoved(left);
  }

  /** The condition can fail: here the block of a site that is gone was left in the staging directory. The
      swap succeeds, clean-up deletes the certificate of that site, and the active tree still refers to it. */
  lemma HarmfulLeftover()
    ensures exists d: NginxTree.Disk, f: StagingFaults, a: NginxTree.Faults, leaves: map<string, Tls.LeafFile> ::
              && StagedCovered(d, leaves.Keys) && CanStage([], f) && NginxTree.Succeeds(Staged(d, [], true, f), a)
              && var o := NginxTree.Outcome(Staged(d, [], true, f), a);
                 o.activeSites.Some? && !TreeCovered(o.activeSites.value, Tls.Retained(leaves, []).Keys)
  {
    var st, leaves := GoneSite();
    var d := NginxTree.Disk(None, None, Some(st.left), None, None, None);
    var f := StagingFaults(NginxTree.Left(st.left.Keys), false, false, _ => Written, false, false,
                           NginxTree.Cleared, false);
    LeftAsItWas(d, f, st.left);
    NginxTree.FaultFreeSucceeds(Staged(d, [], true, f), NginxTree.NO_FAULT);
    NginxTree.SuccessActivatesStaged(Staged(d, [], true, f), NginxTree.NO_FAULT);
    LeftoversDecideCoverage(st, leaves);
    assert CanStage([], f);
  }

  // ----- Agreement of the three stores -----

  /** The active configuration is the one generated from these sites. */
  predicate Published(disk: NginxTree.Disk, sites: seq<Site>, https: bool) {
    disk.activeSites == Some(ConfTree(sites, https)) && disk.activeRoot == Some(NginxTree.RootConf(https))
  }

  predicate SameActive(before: NginxTree.Disk, after: NginxTree.Disk) {
    after.activeSites == before.activeSites && after.activeRoot == before.activeRoot
  }

  predicate HostsNamed(text: string, sites: seq<Site>) {
    Naming(Lines(text), true) == HostsLines(ValidHostnames(sites))
  }

  /** The lines the engine does not own. */
  function ForeignLines(text: string): seq<string> {
    Naming(Lines(text), false)
  }

  lemma SyncedHosts(text: string, f: HostsFaults, sites: seq<Site>)
    requires f.truncatedAt.None? && Publishable(sites)
    ensures HostsNamed(f.Remains(Sync(text, ValidHostnames(sites))), sites)
    ensures ForeignLines(f.Remains(Sync(text, ValidHostnames(sites)))) == ForeignLines(text)
  {
    PublishableIsPrintable(sites);
    SyncKeepsForeignLines(text, ValidHostnames(sites));
  }

  /** The hosts file is as before, or synchronized with these sites as far as it was written. */
  ghost predicate HostsFollow(before: string, after: string, sites: seq<Site>, f: HostsFaults) {
    after == before || (Publishable(sites) && after == f.Remains(Sync(before, ValidHostnames(sites))))
  }

  function ConfFiles(hostnames: seq<string>): set<string> {
    set h | h in hostnames :: ConfFile(h)
  }

  /** The active conf files, the tagged hosts lines and the hostnames of the valid sites correspond one to
      one: the files are those of the hostnames, as many as there are hostnames, and one line each. */
  predicate Agreeing(sites: seq<Site>, disk: NginxTree.Disk, text: string) {
    && disk.activeSites.Some?
    && disk.activeSites.value.Keys == ConfFiles(ValidHostnames(sites))
    && |disk.activeSites.value| == |ValidHostnames(sites)|
    && Naming(Lines(text), true) == HostsLines(ValidHostnames(sites))
  }

  lemma StoresAgree(sites: seq<Site>, https: bool, disk: NginxTree.Disk, text: string)
    requires Publishable(sites) && Published(disk, sites, https) && HostsNamed(text, sites)
    ensures Agreeing(sites, disk, text)
    ensures forall h | h in ValidHostnames(sites) :: ValidHostname(h)
    ensures forall i, j | 0 <= i < j < |ValidHostnames(sites)| :: ValidHostnames(sites)[i] != ValidHostnames(sites)[j]
  {
    DistinctHostnames(sites);
    ConfFilesAreHostnames(sites, https);
    OneFilePerHostname(sites, https);
  }

  lemma {:induction false} DistinctHostnames(sites: seq<Site>)
    requires Publishable(sites)
    ensures var hostnames := ValidHostnames(sites);
            forall i, j | 0 <= i < j < |hostnames| :: hostnames[i] != hostnames[j]
    decreases |sites|
  {
    if sites != [] {
      var front, last := sites[..|sites| - 1], sites[|sites| - 1];
      DistinctHostnames(front);
      forall h | h in ValidHostnames(front) && last.Valid() ensures h != last.hostname {
        var s :| s in front && s.Valid() && s.hostname == h;
      }
      var hostnames, n := ValidHostnames(sites), |ValidHostnames(front)|;
      forall i, j | 0 <= i < j < |hostnames| ensures hostnames[i] != hostnames[j] {
        assert hostnames[i] == ValidHostnames(front)[i] && hostnames[i] in ValidHostnames(front);
        if j < n {
          assert hostnames[j] == ValidHostnames(front)[j];
        } else {
          assert last.Valid() && hostnames[j] == last.hostname;
        }
      }
    }
  }

  ghost function CertificateWorlds(disk: NginxTree.Disk, changes: seq<Tls.Snapshot>): (r: seq<World>)
    ensures |r| == |changes|
  {
    seq(|changes|, i requires 0 <= i < |changes| => World(disk, changes[i].files.leaves.Keys))
  }

  ghost function DiskWorlds(changes: seq<NginxTree.Disk>, leaves: set<string>): (r: seq<World>)
    ensures |r| == |changes|
  {
    seq(|changes|, i requires 0 <= i < |changes| => World(changes[i], leaves))
  }

  predicate DisksCovered(disks: seq<NginxTree.Disk>, leaves: set<string>) {
    forall k | 0 <= k < |disks| :: Covered(World(disks[k], leaves))
  }

  ghost predicate AllCovered(worlds: seq<World>) {
    forall k | 0 <= k < |worlds| :: Covered(worlds[k])
  }

  ghost predicate LogsDisk(worlds: seq<World>, disk: NginxTree.Disk) {
    exists k | 0 <= k < |worlds| :: worlds[k].disk == disk
  }

  ghost predicate LogsLeaves(worlds: seq<World>, leaves: set<string>) {
    exists k | 0 <= k < |worlds| :: worlds[k].leaves == leaves
  }

  /** No change of the disk or of the leaf files is missing from the log. */
  ghost predicate Logs(worlds: seq<World>, disks: seq<NginxTree.Disk>, snapshots: seq<Tls.Snapshot>) {
    && (forall i | 0 <= i < |disks| :: LogsDisk(worlds, disks[i]))
    && (forall i | 0 <= i < |snapshots| :: LogsLeaves(worlds, snapshots[i].files.leaves.Keys))
  }

  lemma LongerLogOfDisk(worlds: seq<World>, more: seq<World>, disk: NginxTree.Disk)
    requires LogsDisk(worlds, disk)
    ensures LogsDisk(worlds + more, disk)
  {
    var k :| 0 <= k < |worlds| && worlds[k].disk == disk;
    assert (worlds + more)[k].disk == disk;
  }

  lemma LongerLogOfLeaves(worlds: seq<World>, more: seq<World>, leaves: set<string>)
    requires LogsLeaves(worlds, leaves)
    ensures LogsLeaves(worlds + more, leaves)
  {
    var k :| 0 <= k < |worlds| && worlds[k].leaves == leaves;
    assert (worlds + more)[k].leaves == leaves;
  }

  lemma LongerLog(worlds: seq<World>, more: seq<World>, disks: seq<NginxTree.Disk>, snapshots: seq<Tls.Snapshot>)
    requires Logs(worlds, disks, snapshots)
    ensures Logs(worlds + more, disks, snapshots)
  {
    forall i | 0 <= i < |disks| ensures LogsDisk(worlds + more, disks[i]) {
      LongerLogOfDisk(worlds, more, disks[i]);
    }
    forall i | 0 <= i < |snapshots| ensures LogsLeaves(worlds + more, snapshots[i].files.leaves.Keys) {
      LongerLogOfLeaves(worlds, more, snapshots[i].files.leaves.Keys);
    }
  }

  lemma LogsCertificates(worlds: seq<World>, disks: seq<NginxTree.Disk>, snapshots: seq<Tls.Snapshot>, from: nat,
                         disk: NginxTree.Disk)
    requires from <= |snapshots| && Logs(worlds, disks, snapshots[..from])
    ensures Logs(worlds + CertificateWorlds(disk, snapshots[from..]), disks, snapshots)
  {
    var more := CertificateWorlds(disk, snapshots[from..]);
    LongerLog(worlds, more, disks, snapshots[..from]);
    forall i | 0 <= i < |snapshots| ensures LogsLeaves(worlds + more, snapshots[i].files.leaves.Keys) {
      if i < from {
        assert snapshots[..from][i] == snapshots[i];
      } else {
        assert (worlds + more)[|worlds| + i - from].leaves == snapshots[i].files.leaves.Keys;
      }
    }
  }

  lemma LogsDisks(worlds: seq<World>, disks: seq<NginxTree.Disk>, snapshots: seq<Tls.Snapshot>, from: nat,
                  leaves: set<string>)
    requires from <= |disks| && Logs(worlds, disks[..from], snapshots)
    ensures Logs(worlds + DiskWorlds(disks[from..], leaves), disks, snapshots)
  {
    var more := DiskWorlds(disks[from..], leaves);
    LongerLog(worlds, more, disks[..from], snapshots);
    forall i | 0 <= i < |disks| ensures LogsDisk(worlds + more, disks[i]) {
      if i < from {
        assert disks[..from][i] == disks[i];
      } else {
        assert (worlds + more)[|worlds| + i - from].disk == disks[i];
      }
    }
  }

  // ----- What one refresh meets -----

  datatype StagingFaults = StagingFaults(
    before: NginxTree.Removal, rootBefore: bool,
    directory: bool, files: string -> FileFault, root: bool, rejected: bool,
    after: NginxTree.Removal, rootAfter: bool)

  /** Everything one refresh finds outside the engine: whether nginx is detected and running, the folders,
      the time at each call of the certificate manager (the status first, then one call per hostname), and
      which calls fail. */
  datatype Surroundings = Surroundings(
    detected: bool, wasRunning: bool, folders: string -> Listing, now: nat -> int,
    databaseFails: bool, tls: Tls.Faults, staging: StagingFaults, activation: NginxTree.Faults,
    hosts: HostsFaults, restartFails: bool)

  ghost predicate TroubleFree(s: Surroundings) {
    && !s.databaseFails && Tls.NoFaults(s.tls)
    && !s.staging.directory && (forall file :: s.staging.files(file).Written?) && !s.staging.root && !s.staging.rejected
    && NginxTree.FaultFree(s.activation) && !s.hosts.Reported() && !s.restartFails
  }

  function LeftInStaging(d: NginxTree.Disk, f: StagingFaults): SitesTree {
    match NginxTree.RemoveTree(d.stagedSites, f.before)
    case None => map[]
    case Some(tree) => tree
  }

  /** The disk with everything staged. */
  function Staged(d: NginxTree.Disk, sites: seq<Site>, https: bool, f: StagingFaults): NginxTree.Disk {
    d.(stagedSites := Some(LeftInStaging(d, f) + ConfTree(sites, https)), stagedRoot := Some(NginxTree.RootConf(https)))
  }

  predicate CanStage(sites: seq<Site>, f: StagingFaults) {
    CanWriteConfigs(sites, f.directory, f.files) && !f.root && !f.rejected
  }

  /** A CA that is valid at the first of these times stays so to the last. */
  ghost predicate Steady(files: Tls.Files, now: nat -> int, calls: nat) {
    Tls.CaValid(files, now(0)) ==> forall k | 0 <= k <= calls :: Tls.CaValid(files, now(k))
  }

  ghost predicate CanIssue(files: Tls.Files, trusted: set<Tls.Certificate>, hostnames: seq<string>, now: nat -> int,
                           tls: Tls.Faults) {
    && Tls.CaValid(files, now(0)) && files.caCertificate.value in trusted && !tls(Tls.OpenStoreToRead)
    && Steady(files, now, |hostnames|)
    && forall k | 0 <= k < |hostnames| :: Tls.CanIssueLeaf(files, trusted, hostnames[k], now(k + 1), tls)
  }

  /** Certificates, staging and activation all succeed. */
  ghost predicate CanPublish(files: Tls.Files, trusted: set<Tls.Certificate>, d: NginxTree.Disk, sites: seq<Site>,
                             https: bool, s: Surroundings) {
    && (https ==> CanIssue(files, trusted, ValidHostnames(sites), s.now, s.tls))
    && (s.detected ==> CanSwap(d, sites, https, s))
  }

  /** The CA does not expire in the course of issuing. */
  ghost predicate SteadyCa(files: Tls.Files, sites: seq<Site>, https: bool, s: Surroundings) {
    https ==> Steady(files, s.now, |ValidHostnames(sites)|)
  }

  predicate CanSwap(d: NginxTree.Disk, sites: seq<Site>, https: bool, s: Surroundings) {
    CanStage(sites, s.staging) && NginxTree.Succeeds(Staged(d, sites, https, s.staging), s.activation)
  }

  /** The undo steps of the activation work, and no stale root backup is in their way. */
  predicate CanUndo(s: Surroundings) {
    NginxTree.UndoStepsSucceed(s.activation) && !s.activation.oldBackupRoot
  }

  lemma OverwrittenExactly(left: SitesTree, tree: SitesTree)
    ensures left + tree == tree <==> left.Keys <= tree.Keys
  {
    assert (left + tree).Keys == left.Keys + tree.Keys;
    assert forall file | file in tree :: (left + tree)[file] == tree[file];
  }

  /** What the swap of a staged configuration makes active. */
  lemma SwapOfStaged(d: NginxTree.Disk, sites: seq<Site>, https: bool, s: Surroundings)
    ensures var staged := Staged(d, sites, https, s.staging);
            var o := NginxTree.Outcome(staged, s.activation);
            && (LeftInStaging(d, s.staging).Keys <= ConfTree(sites, https).Keys <==>
                  staged.stagedSites == Some(ConfTree(sites, https)))
            && (NginxTree.Succeeds(staged, s.activation) ==>
                  o.activeSites == staged.stagedSites && o.activeRoot == staged.stagedRoot)
            && (!NginxTree.Succeeds(staged, s.activation) && CanUndo(s) ==>
                  o.activeSites == d.activeSites && o.activeRoot == d.activeRoot)
  {
    var staged := Staged(d, sites, https, s.staging);
    OverwrittenExactly(LeftInStaging(d, s.staging), ConfTree(sites, https));
    if NginxTree.Succeeds(staged, s.activation) {
      NginxTree.SuccessActivatesStaged(staged, s.activation);
    } else {
      NginxTree.FailureKeepsPreviousExactly(staged, s.activation);
    }
  }

  /** With a trusted CA, a readable projects folder and no faults, everything can be published, whatever
      an earlier failure or crash has left behind. */
  lemma TroubleFreePublishes(files: Tls.Files, trusted: set<Tls.Certificate>, d: NginxTree.Disk, sites: seq<Site>,
                             https: bool, s: Surroundings)
    requires TroubleFree(s) && Publishable(sites)
    requires https ==> forall k: nat :: Tls.CaValid(files, s.now(k))
    requires https ==> Tls.CaValid(files, s.now(0)) && files.caCertificate.value in trusted
    ensures CanPublish(files, trusted, d, sites, https, s)
  {
    ValidHostnamesAreValid(sites);
    NginxTree.FaultFreeSucceeds(Staged(d, sites, https, s.staging), s.activation);
  }

  /** As long as the CA is valid, the same leaves can be issued with either. */
  ghost predicate SameIssuable(before: Tls.Files, after: Tls.Files, trusted: set<Tls.Certificate>, tls: Tls.Faults) {
    forall h, t | Tls.CaValid(before, t) ::
      Tls.CanIssueLeaf(before, trusted, h, t, tls) <==> Tls.CanIssueLeaf(after, trusted, h, t, tls)
  }

  /** Issuing a leaf for one host changes for no host, at no time, whether its leaf can be issued. */
  lemma IssuingStep(before: Tls.Files, after: Tls.Files, trusted: set<Tls.Certificate>, issued: string,
                    now: int, tls: Tls.Faults)
    requires Tls.CaValid(before, now) && Tls.SameCa(before, after)
    requires Tls.OnlyThisHost(before.leaves, after.leaves, issued)
    requires Tls.CanIssueLeaf(before, trusted, issued, now, tls)
    requires after.leaves == before.leaves || Tls.CanCreateLeaf(issued, tls)
    requires after.ownership.Names(after.caCertificate.value)
    ensures SameIssuable(before, after, trusted, tls)
  {
    forall h, t | Tls.CaValid(before, t)
      ensures Tls.CanIssueLeaf(before, trusted, h, t, tls) <==> Tls.CanIssueLeaf(after, trusted, h, t, tls)
    {
      if ValidHostname(h) && issued != h {
        Tls.OtherHostsUndisturbed(before, after, issued, h, Tls.RENEWAL_DAYS, t);
      } else if after.leaves == before.leaves {
        Tls.SameFilesSameValidity(before, after, h, Tls.RENEWAL_DAYS, t);
      }
    }
  }

  /** What a step added to the log of stagings: at most one, of what the clean-up left then. */
  ghost predicate StagedAs(before: seq<Staging>, after: seq<Staging>, d: NginxTree.Disk, sites: seq<Site>, https: bool,
                           s: Surroundings) {
    && before <= after && |after| <= |before| + 1
    && (|after| > |before| ==>
          var st := after[|before|];
          s.detected && st.left == LeftInStaging(d, s.staging) && st.sites == sites && st.https == https)
  }

  /** What was staged from this place of the log on was harmless. */
  predicate HarmlessSince(stagings: seq<Staging>, from: nat)
    decreases |stagings| - from
  {
    from >= |stagings| || (stagings[from].Harmless() && HarmlessSince(stagings, from + 1))
  }

  lemma {:induction false} HarmlessEach(stagings: seq<Staging>, from: nat)
    ensures HarmlessSince(stagings, from) <==> forall k | from <= k < |stagings| :: stagings[k].Harmless()
    decreases |stagings| - from
  {
    if from < |stagings| {
      HarmlessEach(stagings, from + 1);
    }
  }

  lemma HarmlessTogether(before: seq<Staging>, between: seq<Staging>, after: seq<Staging>)
    requires before <= between <= after
    ensures HarmlessSince(after, |before|) <==>
            HarmlessSince(between, |before|) && HarmlessSince(after, |between|)
  {
    HarmlessEach(after, |before|);
    HarmlessEach(between, |before|);
    HarmlessEach(after, |between|);
  }

  lemma HarmlessWhenCleared(before: seq<Staging>, after: seq<Staging>, d: NginxTree.Disk, sites: seq<Site>,
                            https: bool, s: Surroundings)
    requires StagedAs(before, after, d, sites, https, s) && s.staging.before.Cleared?
    ensures HarmlessSince(after, |before|)
  {
  }

  datatype Response = Ok | Error

  datatype Request =
    | Provision(now: int, tls: Tls.Faults)
    | Start(s: Surroundings)
    | Refresh(s: Surroundings)
    | ConfigSet(settings: Settings, s: Surroundings, save: SaveFaults, later: Surroundings)
  {
    predicate WritesHostsFully() {
      match this
      case Provision(_, _) => true
      case Start(s) => s.hosts.truncatedAt.None?
      case Refresh(s) => s.hosts.truncatedAt.None?
      case ConfigSet(_, s, _, later) => s.hosts.truncatedAt.None? && later.hosts.truncatedAt.None?
    }

    /** Every clean-up of the staging directory in it empties the directory. */
    predicate ClearsStaging() {
      match this
      case Provision(_, _) => true
      case Start(s) => s.staging.before.Cleared?
      case Refresh(s) => s.staging.before.Cleared?
      case ConfigSet(_, s, _, later) => s.staging.before.Cleared? && later.staging.before.Cleared?
    }
  }

  class Engine {
    const registry: Registry
    const nginx: NginxTree.NginxData
    const certificates: Tls.Manager
    const hosts: Hosts
    const store: Store
    var config: AppConfig
    /** Active tree and leaf files after every single change, oldest first. */
    ghost var worlds: seq<World>
    /** Every configuration handed to the swap, oldest first. */
    ghost var stagings: seq<Staging>

    constructor (registry: Registry, nginx: NginxTree.NginxData, certificates: Tls.Manager, hosts: Hosts,
                 store: Store)
      requires certificates.Valid() && nginx.Valid() && Publishable(registry.table)
      requires |certificates.history| == 1 && |nginx.history| == 1
      ensures Consistent() && config == store.Load()
      ensures worlds == [World(nginx.disk, certificates.files.leaves.Keys)]
      ensures this.registry == registry && this.nginx == nginx && this.certificates == certificates
      ensures this.hosts == hosts && this.store == store
    {
      this.registry, this.nginx, this.certificates := registry, nginx, certificates;
      this.hosts, this.store := hosts, store;
      config := store.Load();
      worlds, stagings := [World(nginx.disk, certificates.files.leaves.Keys)], [];
      new;
      assert worlds[0] == Current();
    }

    ghost function Current(): World
      reads nginx, certificates
    {
      World(nginx.disk, certificates.files.leaves.Keys)
    }

    /** The invariant of every run; no change escapes the log. */
    ghost predicate Consistent()
      reads `worlds, registry, nginx, certificates
    {
      && certificates.Valid() && nginx.Valid() && Publishable(registry.table)
      && worlds != [] && worlds[|worlds| - 1] == Current()
      && Logs(worlds, nginx.history, certificates.history)
    }

    /** No state so far, not even between two single changes, refers to a missing leaf file. */
    ghost predicate AlwaysCovered()
      reads `worlds
    {
      AllCovered(worlds)
    }

    /** Logs the certificate changes since `from`, which kept the files in `kept`. */
    ghost method LogCertificates(from: nat, kept: set<string>)
      requires certificates.Valid() && nginx.Valid() && Publishable(registry.table)
      requires 0 < from <= |certificates.history| && worlds != []
      requires worlds[|worlds| - 1] == World(nginx.disk, certificates.history[from - 1].files.leaves.Keys)
      requires Logs(worlds, nginx.history, certificates.history[..from])
      requires forall k | from <= k < |certificates.history| :: kept <= certificates.history[k].files.leaves.Keys
      modifies `worlds
      ensures Consistent() && old(worlds) <= worlds
      ensures old(AlwaysCovered()) && Covered(World(nginx.disk, kept)) ==> AlwaysCovered()
    {
      LogsCertificates(worlds, nginx.history, certificates.history, from, nginx.disk);
      worlds := worlds + CertificateWorlds(nginx.disk, certificates.history[from..]);
    }

    ghost method LogDisk(from: nat)
      requires certificates.Valid() && nginx.Valid() && Publishable(registry.table)
      requires 0 < from <= |nginx.history| && worlds != []
      requires worlds[|worlds| - 1] == World(nginx.history[from - 1], certificates.files.leaves.Keys)
      requires Logs(worlds, nginx.history[..from], certificates.history)
      modifies `worlds
      ensures Consistent() && old(worlds) <= worlds
      ensures old(AlwaysCovered()) && DisksCovered(nginx.history[from..], certificates.files.leaves.Keys) ==>
                AlwaysCovered()
    {
      LogsDisks(worlds, nginx.history, certificates.history, from, certificates.files.leaves.Keys);
      worlds := worlds + DiskWorlds(nginx.history[from..], certificates.files.leaves.Keys);
    }

    /** Issues the leaf of one host. A CA that has expired since it was found ready is replaced: the old one
        leaves the store, and nothing enters it. */
    method IssueCertificate(hostname: string, now: int, tls: Tls.Faults) returns (ok: bool)
      requires Consistent()
      modifies this`worlds, certificates
      ensures Consistent() && old(worlds) <= worlds && (old(AlwaysCovered()) ==> AlwaysCovered())
      ensures old(certificates.files).leaves.Keys <= certificates.files.leaves.Keys
      ensures ok ==> HostsCovered([hostname], certificates.files.leaves.Keys)
      ensures old(Tls.CaValid(certificates.files, now)) ==>
                && ok == Tls.CanIssueLeaf(old(certificates.files), old(certificates.store), hostname, now, tls)
                && Tls.SameCa(old(certificates.files), certificates.files)
                && certificates.store == old(certificates.store)
                && (ok ==> SameIssuable(old(certificates.files), certificates.files, certificates.store, tls))
      ensures ok && !old(Tls.CaValid(certificates.files, now)) ==>
                certificates.store <= old(certificates.store) &&
                forall c | old(certificates.files).ownership.Names(c) :: c !in certificates.store
    {
      ghost var before, from := certificates.files, |certificates.history|;
      ok := certificates.EnsureSiteCertificate(hostname, now, tls);
      LogCertificates(from, before.leaves.Keys);
      if ok && Tls.CaValid(before, now) {
        IssuingStep(before, certificates.files, certificates.store, hostname, now, tls);
      }
    }

    /** Issues a leaf for every hostname, in order. It needs a trusted CA at the start; if that does not expire
        on the way, neither the CA nor the trust store changes. */
    method IssueCertificates(hostnames: seq<string>, now: nat -> int, tls: Tls.Faults) returns (ok: bool)
      requires Consistent()
      modifies this`worlds, certificates
      ensures Consistent() && old(worlds) <= worlds && (old(AlwaysCovered()) ==> AlwaysCovered())
      ensures ok ==> HostsCovered(hostnames, certificates.files.leaves.Keys)
      ensures old(Steady(certificates.files, now, |hostnames|)) ==>
                && ok == CanIssue(old(certificates.files), old(certificates.store), hostnames, now, tls)
                && Tls.SameCa(old(certificates.files), certificates.files)
                && certificates.store == old(certificates.store)
    {
      var ready := certificates.Status(now(0), tls);
      if !ready {
        return false;
      }
      ghost var start, trusted := certificates.files, certificates.store;
      ghost var steady := Steady(start, now, |hostnames|);
      for k := 0 to |hostnames|
        invariant Consistent() && old(worlds) <= worlds && (old(AlwaysCovered()) ==> AlwaysCovered())
        invariant HostsCovered(hostnames[..k], certificates.files.leaves.Keys)
        invariant steady ==> Tls.SameCa(start, certificates.files) && certificates.store == trusted
        invariant steady ==> forall j | 0 <= j < k :: Tls.CanIssueLeaf(start, trusted, hostnames[j], now(j + 1), tls)
        invariant steady ==> SameIssuable(start, certificates.files, trusted, tls)
      {
        assert steady ==> Tls.CaValid(start, now(k + 1));
        ok := IssueCertificate(hostnames[k], now(k + 1), tls);
        if !ok {
          return false;
        }
        NextPrefix(hostnames, k);
      }
      assert hostnames[..|hostnames|] == hostnames;
      return true;
    }

    /** A change of the staging directory. */
    method ChangeStaging(sites: Option<SitesTree>, root: Option<NginxTree.RootConf>)
      requires Consistent()
      modifies this`worlds, nginx
      ensures Consistent() && old(worlds) <= worlds && (old(AlwaysCovered()) ==> AlwaysCovered())
      ensures nginx.disk == old(nginx.disk).(stagedSites := sites, stagedRoot := root)
    {
      ghost var from := |nginx.history|;
      nginx.Change(nginx.disk.(stagedSites := sites, stagedRoot := root));
      LogDisk(from);
    }

    /** Cleans the staging directory, as far as that succeeds. */
    method ClearStaging(left: NginxTree.Removal, rootFails: bool)
      requires Consistent()
      modifies this`worlds, nginx
      ensures Consistent() && old(worlds) <= worlds && (old(AlwaysCovered()) ==> AlwaysCovered())
      ensures nginx.disk == old(nginx.disk).(stagedSites := NginxTree.RemoveTree(old(nginx.disk).stagedSites, left),
                                             stagedRoot := NginxTree.RemoveFile(old(nginx.disk).stagedRoot, rootFails))
    {
      ChangeStaging(NginxTree.RemoveTree(nginx.disk.stagedSites, left),
                    NginxTree.RemoveFile(nginx.disk.stagedRoot, rootFails));
    }

    /** Generates and validates the staged configuration, over whatever the clean-up left there. */
    method Stage(f: StagingFaults) returns (ok: bool)
      requires Consistent()
      modifies this`worlds, nginx
      ensures Consistent() && old(worlds) <= worlds && (old(AlwaysCovered()) ==> AlwaysCovered())
      ensures ok == CanStage(registry.table, f)
      ensures ok ==> nginx.disk == Staged(old(nginx.disk), registry.table, config.httpsEnabled, f)
      ensures nginx.disk == old(nginx.disk).(stagedSites := nginx.disk.stagedSites, stagedRoot := nginx.disk.stagedRoot)
    {
      ClearStaging(f.before, f.rootBefore);
      var existing := if nginx.disk.stagedSites.Some? then nginx.disk.stagedSites.value else map[];
      var tree: SitesTree;
      ok, tree := WriteNginxConfigs(registry.table, config.httpsEnabled, existing, f.directory, f.files);
      if !f.directory {
        ChangeStaging(Some(tree), nginx.disk.stagedRoot);
      }
      ok := ok && !f.root;
      if ok {
        ChangeStaging(nginx.disk.stagedSites, Some(NginxTree.RootConf(config.httpsEnabled)));
        ok := !f.rejected;
      }
      if !ok {
        ClearStaging(f.after, f.rootAfter);
      }
    }

    method PublishedHostnames() returns (hostnames: seq<string>)
      ensures hostnames == ValidHostnames(registry.table)
    {
      hostnames := [];
      for k := 0 to |registry.table|
        invariant hostnames == ValidHostnames(registry.table[..k])
      {
        assert registry.table[..k + 1][..k] == registry.table[..k];
        if registry.table[k].Valid() {
          hostnames := hostnames + [registry.table[k].hostname];
        }
      }
      assert registry.table[..|registry.table|] == registry.table;
    }

    /** Issues, stages, activates and cleans up, in this order. When it fails and the undo steps of the
        activation succeed, the active configuration is the one before. */
    method ConfigureNginx(s: Surroundings) returns (ok: bool)
      requires Consistent()
      modifies this`worlds, this`stagings, nginx, certificates
      ensures Consistent() && old(worlds) <= worlds
      ensures StagedAs(old(stagings), stagings, old(nginx.disk), registry.table, config.httpsEnabled, s)
      ensures old(AlwaysCovered()) && HarmlessSince(stagings, |old(stagings)|) ==> AlwaysCovered()
      ensures old(SteadyCa(certificates.files, registry.table, config.httpsEnabled, s)) ==>
                && ok == CanPublish(old(certificates.files), old(certificates.store), old(nginx.disk), registry.table,
                                    config.httpsEnabled, s)
                && Tls.SameCa(old(certificates.files), certificates.files)
                && certificates.store == old(certificates.store)
      ensures !ok && CanUndo(s) ==> SameActive(old(nginx.disk), nginx.disk)
      ensures !s.detected ==> nginx.disk == old(nginx.disk)
      ensures ok && s.detected ==> |stagings| > |old(stagings)| && SwappedIn(stagings[|old(stagings)|], s)
    {
      var hostnames := PublishedHostnames();
      if config.httpsEnabled {
        ok := IssueCertificates(hostnames, s.now, s.tls);
        if !ok {
          return false;
        }
      }
      if !s.detected {
        return true;
      }
      ok := PublishStaged(s, hostnames);
    }

    /** This staging is active now. The active tree is the generated one exactly if every left-over was
        overwritten; it is covered if the left-overs were harmless, and only then when clean-up was not
        stopped; and that leaves no obsolete leaf file. */
    ghost predicate SwappedIn(st: Staging, s: Surroundings)
      reads nginx, certificates
    {
      && nginx.disk.activeSites == Some(st.Tree()) && nginx.disk.activeRoot == Some(NginxTree.RootConf(st.https))
      && (Published(nginx.disk, st.sites, st.https) <==> st.Overwrites())
      && (st.Harmless() ==> Covered(Current()))
      && (Tls.NoFaults(s.tls) && Covered(Current()) ==> st.Harmless())
      && (Tls.NoFaults(s.tls) ==>
            forall file | file in certificates.files.leaves :: !Tls.Obsolete(file, ValidHostnames(st.sites)))
    }

    /** The part for a detected nginx: stage, activate, clean up. */
    method PublishStaged(s: Surroundings, hostnames: seq<string>) returns (ok: bool)
      requires Consistent() && hostnames == ValidHostnames(registry.table)
      requires config.httpsEnabled ==> HostsCovered(hostnames, certificates.files.leaves.Keys)
      modifies this`worlds, this`stagings, nginx, certificates
      ensures Consistent() && old(worlds) <= worlds
      ensures var st := Staging(LeftInStaging(old(nginx.disk), s.staging), registry.table, config.httpsEnabled,
                                old(certificates.files).leaves.Keys);
              && stagings == old(stagings) + (if CanStage(registry.table, s.staging) then [st] else [])
              && (ok ==> SwappedIn(st, s))
      ensures ok ==> HoldsSites(nginx.disk.activeSites.value, registry.table, config.httpsEnabled)
      ensures old(AlwaysCovered()) && HarmlessSince(stagings, |old(stagings)|) ==> AlwaysCovered()
      ensures ok == CanSwap(old(nginx.disk), registry.table, config.httpsEnabled, s)
      ensures Tls.SameCa(old(certificates.files), certificates.files) && certificates.store == old(certificates.store)
      ensures !ok && CanUndo(s) ==> SameActive(old(nginx.disk), nginx.disk)
      ensures !ok ==> certificates.files == old(certificates.files)
    {
      ghost var st := Staging(LeftInStaging(nginx.disk, s.staging), registry.table, config.httpsEnabled,
                              certificates.files.leaves.Keys);
      SwapOfStaged(nginx.disk, registry.table, config.httpsEnabled, s);
      GeneratedHoldsSites(st.left, st.sites, st.https);
      ok := Stage(s.staging);
      if ok {
        stagings := stagings + [st];
        assert stagings[|old(stagings)|] == st;
        ok := SwapIn(s, hostnames, st);
      }
    }

    /** Activates and cleans up. Leaf files are deleted only once nothing active needs them. */
    method SwapIn(s: Surroundings, hostnames: seq<string>, ghost st: Staging) returns (ok: bool)
      requires Consistent() && hostnames == ValidHostnames(st.sites) && st.leaves == certificates.files.leaves.Keys
      requires Publishable(st.sites) && (st.https ==> HostsCovered(hostnames, st.leaves))
      requires nginx.disk.stagedSites == Some(st.Tree()) && nginx.disk.stagedRoot == Some(NginxTree.RootConf(st.https))
      modifies this`worlds, nginx, certificates
      ensures Consistent() && old(worlds) <= worlds
      ensures old(AlwaysCovered()) && st.Harmless() ==> AlwaysCovered()
      ensures ok == NginxTree.Succeeds(old(nginx.disk), s.activation)
      ensures nginx.disk == NginxTree.Outcome(old(nginx.disk), s.activation)
      ensures ok ==> SwappedIn(st, s)
      ensures Tls.SameCa(old(certificates.files), certificates.files) && certificates.store == old(certificates.store)
      ensures !ok ==> certificates.files == old(certificates.files)
    {
      LeftoversDecideCoverage(st, certificates.files.leaves);
      OverwrittenExactly(st.left, ConfTree(st.sites, st.https));
      if NginxTree.Succeeds(nginx.disk, s.activation) {
        NginxTree.SuccessActivatesStaged(nginx.disk, s.activation);
      }
      ok := ActivateStaged(s.activation);
      if ok {
        CleanUp(hostnames, s.tls);
      }
    }

    /** Swaps the staged configuration in. */
    method ActivateStaged(f: NginxTree.Faults) returns (ok: bool)
      requires Consistent()
      modifies this`worlds, nginx
      ensures Consistent() && old(worlds) <= worlds
      ensures ok == NginxTree.Succeeds(old(nginx.disk), f) && nginx.disk == NginxTree.Outcome(old(nginx.disk), f)
      ensures old(AlwaysCovered()) && StagedCovered(old(nginx.disk), certificates.files.leaves.Keys) ==> AlwaysCovered()
    {
      ghost var start, from := nginx.disk, |nginx.history|;
      ok := nginx.Activate(f);
      if StagedCovered(start, certificates.files.leaves.Keys) {
        StepsCovered(start, f, nginx.history[from..], certificates.files.leaves.Keys);
      }
      LogDisk(from);
    }

    /** Deletes the leaf files of hostnames that are no longer published. */
    method CleanUp(hostnames: seq<string>, tls: Tls.Faults)
      requires Consistent()
      modifies this`worlds, certificates
      ensures Consistent() && old(worlds) <= worlds
      ensures Covered(World(nginx.disk, Tls.Retained(old(certificates.files).leaves, hostnames).Keys)) ==>
                Covered(Current()) && (old(AlwaysCovered()) ==> AlwaysCovered())
      ensures Tls.SameCa(old(certificates.files), certificates.files) && certificates.store == old(certificates.store)
      ensures Tls.CanCleanUp(old(certificates.files).leaves, hostnames, tls) ==>
                certificates.files.leaves == Tls.Retained(old(certificates.files).leaves, hostnames)
    {
      ghost var from, kept := |certificates.history|, Tls.Retained(certificates.files.leaves, hostnames).Keys;
      var removed := certificates.RemoveUnusedSiteCertificates(hostnames, tls);
      LogCertificates(from, kept);
    }

    /** The scan and the publication under this configuration succeed. */
    ghost predicate WillPublish(config: AppConfig, s: Surroundings)
      reads nginx, certificates
    {
      var listing := s.folders(config.rootFolder);
      && registry.CanRescan(listing, s.databaseFails)
      && CanPublish(certificates.files, certificates.store, nginx.disk, ScannedSites(listing), config.httpsEnabled, s)
    }

    ghost predicate WillSteady(config: AppConfig, s: Surroundings)
      reads certificates
    {
      SteadyCa(certificates.files, ScannedSites(s.folders(config.rootFolder)), config.httpsEnabled, s)
    }

    ghost predicate AlwaysReady(now: nat -> int)
      reads certificates
    {
      forall k: nat :: certificates.Ready(now(k))
    }

    /** Nothing outside stands in the way of a refresh under this configuration. */
    ghost predicate NothingInTheWay(config: AppConfig, s: Surroundings) {
      TroubleFree(s) && registry.CanRescan(s.folders(config.rootFolder), false)
    }

    ghost predicate CanRefresh(config: AppConfig, s: Surroundings)
      reads nginx, certificates
    {
      WillPublish(config, s) && !s.hosts.Reported() && !(s.wasRunning && s.restartFails)
    }

    /** The active configuration serves every folder that is to be served, from that folder, under its hostname
        and with the configured protocol; `exactly` that, if no other block is active. */
    ghost predicate Serves(folder: Listing, exactly: bool)
      reads this`config, registry, nginx
    {
      && TableOfFolders(registry.table, EntriesOf(folder))
      && nginx.disk.activeRoot == Some(NginxTree.RootConf(config.httpsEnabled))
      && nginx.disk.activeSites.Some?
      && ServesFolders(nginx.disk.activeSites.value, EntriesOf(folder), config.httpsEnabled)
      && (ServesNothingElse(nginx.disk.activeSites.value, EntriesOf(folder)) <==> exactly)
    }

    /** That is what any refresh, `config.set` or recovery that succeeded with nginx detected comes to. */
    lemma FollowingServes(folder: Listing, s: Surroundings, staged: nat)
      requires registry.table == ScannedSites(folder) && staged < |stagings| && SwappedIn(stagings[staged], s)
      requires stagings[staged].sites == registry.table && stagings[staged].https == config.httpsEnabled
      ensures Serves(folder, stagings[staged].Overwrites())
    {
      ScanIsTableOfFolders(EntriesOf(folder));
      StagedServesFolders(stagings[staged], EntriesOf(folder));
    }

    /** The first half of a refresh: scan and configure. */
    method ScanAndConfigure(s: Surroundings, listing: Listing) returns (ok: bool)
      requires Consistent() && listing == s.folders(config.rootFolder)
      modifies this`worlds, this`stagings, registry, nginx, certificates
      ensures Consistent() && old(worlds) <= worlds
      ensures old(stagings) <= stagings
      ensures s.staging.before.Cleared? ==> HarmlessSince(stagings, |old(stagings)|)
      ensures old(AlwaysCovered()) && HarmlessSince(stagings, |old(stagings)|) ==> AlwaysCovered()
      ensures old(SteadyCa(certificates.files, ScannedSites(listing), config.httpsEnabled, s)) ==>
                && ok == (registry.CanRescan(listing, s.databaseFails) &&
                          CanPublish(old(certificates.files), old(certificates.store), old(nginx.disk),
                                     ScannedSites(listing), config.httpsEnabled, s))
                && Tls.SameCa(old(certificates.files), certificates.files)
                && certificates.store == old(certificates.store)
      ensures registry.table ==
              if registry.CanRescan(listing, s.databaseFails) then ScannedSites(listing) else old(registry.table)
      ensures ok ==> registry.table == ScannedSites(listing)
      ensures !ok && CanUndo(s) ==> SameActive(old(nginx.disk), nginx.disk)
      ensures !s.detected ==> nginx.disk == old(nginx.disk)
      ensures ok && s.detected ==> NginxFollows(s, old(nginx.disk), |old(stagings)|)
    {
      ScanIsPublishable(listing);
      ok := registry.Rescan(listing, s.databaseFails);
      if ok {
        ghost var before, disk := stagings, nginx.disk;
        ok := ConfigureNginx(s);
        if s.staging.before.Cleared? {
          HarmlessWhenCleared(before, stagings, disk, registry.table, config.httpsEnabled, s);
        }
        if ok && s.detected {
          FollowingServes(listing, s, |before|);
        }
      }
    }

    /** The three stores after a successful refresh, each under its own condition: the table always; the hosts
        file as far as it was written; nginx where it is detected, from what was staged over the left-overs. */
    ghost predicate StoresFollow(s: Surroundings, text: string, disk: NginxTree.Disk, staged: nat)
      reads this`config, this`stagings, registry, nginx, certificates, hosts
    {
      && registry.table == ScannedSites(s.folders(config.rootFolder))
      && hosts.text == s.hosts.Remains(Sync(text, ValidHostnames(registry.table)))
      && (s.hosts.truncatedAt.None? ==> HostsNamed(hosts.text, registry.table))
      && (if s.detected then NginxFollows(s, disk, staged) else nginx.disk == disk)
    }

    ghost predicate NginxFollows(s: Surroundings, disk: NginxTree.Disk, staged: nat)
      reads this`config, this`stagings, registry, nginx, certificates
    {
      && |stagings| == staged + 1 && SwappedIn(stagings[staged], s)
      && stagings[staged].left == LeftInStaging(disk, s.staging)
      && stagings[staged].sites == registry.table && stagings[staged].https == config.httpsEnabled
      && Serves(s.folders(config.rootFolder), stagings[staged].Overwrites())
      && (s.staging.before.Cleared? ==> Published(nginx.disk, registry.table, config.httpsEnabled))
    }

    /** One refresh: scan, configure, synchronize hosts, restart. */
    method RescanAndRefresh(s: Surroundings) returns (ok: bool)
      requires Consistent()
      modifies this`worlds, this`stagings, registry, nginx, certificates, hosts
      ensures Consistent() && old(worlds) <= worlds
      ensures old(stagings) <= stagings
      ensures s.staging.before.Cleared? ==> HarmlessSince(stagings, |old(stagings)|)
      ensures old(AlwaysCovered()) && HarmlessSince(stagings, |old(stagings)|) ==> AlwaysCovered()
      ensures old(WillSteady(config, s)) ==>
                && ok == old(CanRefresh(config, s))
                && Tls.SameCa(old(certificates.files), certificates.files)
                && certificates.store == old(certificates.store)
      ensures ok ==> StoresFollow(s, old(hosts.text), old(nginx.disk), |old(stagings)|)
      ensures HostsFollow(old(hosts.text), hosts.text, registry.table, s.hosts)
      ensures s.hosts.truncatedAt.None? ==> ForeignLines(hosts.text) == ForeignLines(old(hosts.text))
      ensures !s.detected ==> nginx.disk == old(nginx.disk)
      ensures CanUndo(s) && old(WillSteady(config, s)) && !old(WillPublish(config, s)) ==>
                SameActive(old(nginx.disk), nginx.disk) && hosts.text == old(hosts.text)
    {
      var listing := s.folders(config.rootFolder);
      ok := ScanAndConfigure(s, listing);
      if !ok {
        return false;
      }
      ok := SyncAndRestart(s);
    }

    /** The second half: synchronize hosts, restart nginx if it was running. */
    method SyncAndRestart(s: Surroundings) returns (ok: bool)
      requires Publishable(registry.table)
      modifies hosts
      ensures ok == (!s.hosts.Reported() && !(s.wasRunning && s.restartFails))
      ensures ok ==> hosts.text == s.hosts.Remains(Sync(old(hosts.text), ValidHostnames(registry.table)))
      ensures HostsFollow(old(hosts.text), hosts.text, registry.table, s.hosts)
      ensures s.hosts.truncatedAt.None? ==> ForeignLines(hosts.text) == ForeignLines(old(hosts.text))
      ensures ok && s.hosts.truncatedAt.None? ==> HostsNamed(hosts.text, registry.table)
    {
      if s.hosts.truncatedAt.None? {
        SyncedHosts(hosts.text, s.hosts, registry.table);
      }
      ok := hosts.SyncHosts(registry.table, s.hosts);
      if !ok {
        return false;
      }
      return !(s.wasRunning && s.restartFails);
    }

    /** After a refresh or a `config.set` that succeeded with nginx detected, with a complete hosts file and no
        left-over block beside the generated ones, the three stores agree. */
    lemma FollowingStoresAgree(s: Surroundings, text: string, disk: NginxTree.Disk, staged: nat)
      requires Publishable(registry.table) && StoresFollow(s, text, disk, staged)
      requires s.detected && s.hosts.truncatedAt.None? && stagings[staged].Overwrites()
      ensures Agreeing(registry.table, nginx.disk, hosts.text)
    {
      StoresAgree(registry.table, config.httpsEnabled, nginx.disk, hosts.text);
    }

    /** The `sites.rescan` command. */
    method RescanSites(s: Surroundings) returns (response: Response)
      requires Consistent()
      modifies this`worlds, this`stagings, registry, nginx, certificates, hosts
      ensures Consistent() && old(worlds) <= worlds && old(stagings) <= stagings
      ensures old(WillSteady(config, s)) ==> (response == Ok <==> old(CanRefresh(config, s)))
      ensures response == Ok ==> StoresFollow(s, old(hosts.text), old(nginx.disk), |old(stagings)|)
      ensures response == Ok && s.detected && s.hosts.truncatedAt.None? && stagings[|old(stagings)|].Overwrites() ==>
                Agreeing(registry.table, nginx.disk, hosts.text)
    {
      var ok := RescanAndRefresh(s);
      if !ok {
        return Error;
      }
      if s.detected && s.hosts.truncatedAt.None? && stagings[|old(stagings)|].Overwrites() {
        FollowingStoresAgree(s, old(hosts.text), old(nginx.disk), |old(stagings)|);
      }
      return Ok;
    }

    /** The command succeeds exactly if the refresh and the save can; a failure loses the old settings file
        exactly if a save was attempted and got as far as removing it. */
    ghost predicate SetExactly(ok: bool, canRefresh: bool, before: Stored, save: SaveFaults)
      reads store
    {
      && ok == (canRefresh && CanSave(save))
      && (!ok ==> store.stored == if canRefresh && !save.unwritable && !save.removal then Missing else before)
    }

    ghost predicate CanSet(settings: Settings, s: Surroundings)
      reads this`config, nginx, certificates
    {
      settings.WellTyped() && CanRefresh(Merge(config, settings), s)
    }

    /** The `config.set` command. After a failed refresh or a failed save it goes back to the previous
        settings and refreshes once more, in the surroundings found by then. */
    method SetConfig(settings: Settings, s: Surroundings, save: SaveFaults, later: Surroundings)
      returns (response: Response, recovered: bool)
      requires Consistent()
      modifies this, registry, nginx, certificates, hosts, store
      ensures Consistent() && old(worlds) <= worlds && old(stagings) <= stagings
      ensures old(AlwaysCovered()) && HarmlessSince(stagings, |old(stagings)|) ==> AlwaysCovered()
      ensures s.staging.before.Cleared? && later.staging.before.Cleared? ==> HarmlessSince(stagings, |old(stagings)|)
      // When it answers ok.
      ensures old(WillSteady(Merge(config, settings), s)) ==>
                SetExactly(response == Ok, old(CanSet(settings, s)), old(store.stored), save)
      ensures response == Ok ==> settings.WellTyped() && config == Merge(old(config), settings)
      ensures response == Ok ==> SetTo(settings, old(config), config)
      ensures SavedAs(response == Ok, old(store.stored), store.stored, Merge(old(config), settings), save)
      ensures response == Ok ==> StoresFollow(s, old(hosts.text), old(nginx.disk), |old(stagings)|)
      // When it answers with an error.
      ensures response == Error && settings.WellTyped() ==> config == old(config)
      ensures !settings.WellTyped() ==>
                response == Error && !recovered && config == Merge(old(config), BeforeIllTyped(settings)) &&
                registry.table == old(registry.table) && nginx.disk == old(nginx.disk) &&
                hosts.text == old(hosts.text) && store.stored == old(store.stored)
      // What the recovery restores, and when it succeeds.
      ensures recovered ==> response == Error && FollowsRecovery(s, later, old(hosts.text))
      ensures response == Error && settings.WellTyped() && old(WillSteady(Merge(config, settings), s)) &&
              NothingInTheWay(config, later) && (!config.httpsEnabled || old(AlwaysReady(later.now))) ==>
                recovered
      // Either way.
      ensures config.activeVersions == old(config).activeVersions && config.serviceRoots == old(config).serviceRoots
      ensures !s.detected && !later.detected ==> nginx.disk == old(nginx.disk)
      ensures s.hosts.truncatedAt.None? && later.hosts.truncatedAt.None? ==>
                ForeignLines(hosts.text) == ForeignLines(old(hosts.text))
    {
      var previous := config;
      var threw := ApplySettings(settings);
      if threw {
        return Error, false;
      }
      MergeSets(previous, settings);
      response, recovered := ActivateOrRollBack(previous, s, save, later);
    }

    /** The rest of the command, with the new settings already in memory. */
    method ActivateOrRollBack(previous: AppConfig, s: Surroundings, save: SaveFaults, later: Surroundings)
      returns (response: Response, recovered: bool)
      requires Consistent()
      modifies this`config, this`worlds, this`stagings, registry, nginx, certificates, hosts, store
      ensures Consistent() && old(worlds) <= worlds && old(stagings) <= stagings
      ensures old(AlwaysCovered()) && HarmlessSince(stagings, |old(stagings)|) ==> AlwaysCovered()
      ensures s.staging.before.Cleared? && later.staging.before.Cleared? ==> HarmlessSince(stagings, |old(stagings)|)
      ensures SavedAs(response == Ok, old(store.stored), store.stored, old(config), save)
      ensures old(WillSteady(config, s)) ==>
                SetExactly(response == Ok, old(CanRefresh(config, s)), old(store.stored), save)
      ensures response == Ok ==> config == old(config)
      ensures response == Ok ==> StoresFollow(s, old(hosts.text), old(nginx.disk), |old(stagings)|)
      ensures response == Error ==> config == previous
      ensures recovered ==> response == Error && FollowsRecovery(s, later, old(hosts.text))
      ensures response == Error && old(WillSteady(config, s)) && NothingInTheWay(config, later) &&
              (!config.httpsEnabled || old(AlwaysReady(later.now))) ==>
                recovered
      ensures !s.detected && !later.detected ==> nginx.disk == old(nginx.disk)
      ensures s.hosts.truncatedAt.None? && later.hosts.truncatedAt.None? ==>
                ForeignLines(hosts.text) == ForeignLines(old(hosts.text))
    {
      ghost var before := stagings;
      var ok := ActivateAndSave(s, save);
      if ok {
        return Ok, false;
      }
      recovered := RollBack(previous, s, later, old(hosts.text), before);
      return Error, recovered;
    }

    /** The recovery, seen from the state before the failed attempt: the hosts text and the stagings then. */
    method RollBack(previous: AppConfig, s: Surroundings, later: Surroundings, ghost text: string,
                    ghost before: seq<Staging>)
      returns (recovered: bool)
      requires Consistent() && before <= stagings
      requires s.hosts.truncatedAt.None? ==> ForeignLines(hosts.text) == ForeignLines(text)
      modifies this`config, this`worlds, this`stagings, registry, nginx, certificates, hosts
      ensures Consistent() && old(worlds) <= worlds && config == previous && old(stagings) <= stagings
      ensures old(HarmlessSince(stagings, |before|)) && later.staging.before.Cleared? ==>
                HarmlessSince(stagings, |before|)
      ensures HarmlessSince(stagings, |before|) ==>
                old(HarmlessSince(stagings, |before|)) && (old(AlwaysCovered()) ==> AlwaysCovered())
      ensures recovered ==> FollowsRecovery(s, later, text)
      ensures !later.detected ==> nginx.disk == old(nginx.disk)
      ensures s.hosts.truncatedAt.None? && later.hosts.truncatedAt.None? ==>
                ForeignLines(hosts.text) == ForeignLines(text)
      ensures NothingInTheWay(config, later) &&
              (!config.httpsEnabled || old(AlwaysReady(later.now))) ==>
                recovered
    {
      ghost var between, disk, staged := hosts.text, nginx.disk, stagings;
      recovered := Recover(previous, later);
      HarmlessTogether(before, staged, stagings);
      if recovered {
        RefreshedTwice(s, later, text, between, disk, |staged|);
      }
    }

    /** The three stores after a recovery. */
    ghost predicate FollowsRecovery(s: Surroundings, later: Surroundings, text: string)
      reads this`config, this`stagings, registry, nginx, certificates, hosts
    {
      && registry.table == ScannedSites(later.folders(config.rootFolder))
      && (s.hosts.truncatedAt.None? ==>
            hosts.text == later.hosts.Remains(Sync(text, ValidHostnames(registry.table))))
      && (later.hosts.truncatedAt.None? ==> HostsNamed(hosts.text, registry.table))
      && (later.detected ==>
            && stagings != [] && SwappedIn(stagings[|stagings| - 1], later)
            && stagings[|stagings| - 1].sites == registry.table
            && stagings[|stagings| - 1].https == config.httpsEnabled
            && Serves(later.folders(config.rootFolder), stagings[|stagings| - 1].Overwrites())
            && (later.staging.before.Cleared? ==> Published(nginx.disk, registry.table, config.httpsEnabled)))
    }

    /** What a successful refresh gives after an earlier one whose hosts file was written completely. */
    lemma RefreshedTwice(s: Surroundings, later: Surroundings, text: string, between: string, disk: NginxTree.Disk,
                         staged: nat)
      requires StoresFollow(later, between, disk, staged)
      requires s.hosts.truncatedAt.None? ==> ForeignLines(between) == ForeignLines(text)
      ensures FollowsRecovery(s, later, text)
    {
    }

    /** Refreshes under the new settings, and saves them if that succeeds. */
    method ActivateAndSave(s: Surroundings, save: SaveFaults) returns (ok: bool)
      requires Consistent()
      modifies this`worlds, this`stagings, registry, nginx, certificates, hosts, store
      ensures Consistent() && old(worlds) <= worlds
      ensures old(stagings) <= stagings
      ensures s.staging.before.Cleared? ==> HarmlessSince(stagings, |old(stagings)|)
      ensures old(AlwaysCovered()) && HarmlessSince(stagings, |old(stagings)|) ==> AlwaysCovered()
      ensures old(WillSteady(config, s)) ==>
                && SetExactly(ok, old(CanRefresh(config, s)), old(store.stored), save)
                && Tls.SameCa(old(certificates.files), certificates.files)
                && certificates.store == old(certificates.store)
      ensures SavedAs(ok, old(store.stored), store.stored, config, save)
      ensures ok ==> StoresFollow(s, old(hosts.text), old(nginx.disk), |old(stagings)|)
      ensures s.hosts.truncatedAt.None? ==> ForeignLines(hosts.text) == ForeignLines(old(hosts.text))
      ensures !s.detected ==> nginx.disk == old(nginx.disk)
    {
      ok := RescanAndRefresh(s);
      if ok {
        ok := store.Save(config, save);
      }
    }

    /** Takes the parameters over one by one; an ill-typed one throws, and what was assigned stays. */
    method ApplySettings(settings: Settings) returns (threw: bool)
      modifies this`config
      ensures threw == !settings.WellTyped()
      ensures config == Merge(old(config), BeforeIllTyped(settings))
    {
      if settings.rootFolder.IllTyped? {
        return true;
      }
      config := config.(rootFolder := settings.rootFolder.Or(config.rootFolder));
      if settings.httpsEnabled.IllTyped? {
        return true;
      }
      config := config.(httpsEnabled := settings.httpsEnabled.Or(config.httpsEnabled));
      if settings.runMinimized.IllTyped? {
        return true;
      }
      config := config.(runMinimized := settings.runMinimized.Or(config.runMinimized));
      if settings.autostart.IllTyped? {
        return true;
      }
      config := config.(autostart := settings.autostart.Or(config.autostart));
      return false;
    }

    /** The rollback after a failed refresh or save. */
    method Recover(previous: AppConfig, later: Surroundings) returns (recovered: bool)
      requires Consistent()
      modifies this`config, this`worlds, this`stagings, registry, nginx, certificates, hosts
      ensures Consistent() && old(worlds) <= worlds && config == previous
      ensures old(stagings) <= stagings
      ensures later.staging.before.Cleared? ==> HarmlessSince(stagings, |old(stagings)|)
      ensures old(AlwaysCovered()) && HarmlessSince(stagings, |old(stagings)|) ==> AlwaysCovered()
      ensures recovered ==> StoresFollow(later, old(hosts.text), old(nginx.disk), |old(stagings)|)
      ensures later.hosts.truncatedAt.None? ==> ForeignLines(hosts.text) == ForeignLines(old(hosts.text))
      ensures !later.detected ==> nginx.disk == old(nginx.disk)
      ensures NothingInTheWay(config, later) &&
              (!config.httpsEnabled || old(AlwaysReady(later.now))) ==>
                recovered
    {
      config := previous;
      recovered := RefreshUnhindered(later);
    }

    /** A refresh that succeeds when nothing is in its way. */
    method RefreshUnhindered(s: Surroundings) returns (ok: bool)
      requires Consistent()
      modifies this`worlds, this`stagings, registry, nginx, certificates, hosts
      ensures Consistent() && old(worlds) <= worlds
      ensures old(stagings) <= stagings
      ensures s.staging.before.Cleared? ==> HarmlessSince(stagings, |old(stagings)|)
      ensures old(AlwaysCovered()) && HarmlessSince(stagings, |old(stagings)|) ==> AlwaysCovered()
      ensures ok ==> StoresFollow(s, old(hosts.text), old(nginx.disk), |old(stagings)|)
      ensures s.hosts.truncatedAt.None? ==> ForeignLines(hosts.text) == ForeignLines(old(hosts.text))
      ensures !s.detected ==> nginx.disk == old(nginx.disk)
      ensures NothingInTheWay(config, s) && (!config.httpsEnabled || old(AlwaysReady(s.now))) ==> ok
    {
      if NothingInTheWay(config, s) && (!config.httpsEnabled || AlwaysReady(s.now)) {
        WillSucceed(s);
      }
      ok := RescanAndRefresh(s);
    }

    /** Without faults and with a CA that is trusted throughout, a refresh succeeds from every state. */
    lemma WillSucceed(s: Surroundings)
      requires NothingInTheWay(config, s) && (!config.httpsEnabled || AlwaysReady(s.now))
      ensures WillSteady(config, s) && CanRefresh(config, s)
    {
      var sites := ScannedSites(s.folders(config.rootFolder));
      ScanIsPublishable(s.folders(config.rootFolder));
      if config.httpsEnabled {
        forall k: nat ensures Tls.CaValid(certificates.files, s.now(k)) {
          assert certificates.Ready(s.now(k));
        }
        assert certificates.Ready(s.now(0));
      }
      TroubleFreePublishes(certificates.files, certificates.store, nginx.disk, sites, config.httpsEnabled, s);
    }

    /** A start of the engine, after a crash or otherwise: it reads its settings, drops the table and
        refreshes. Without faults it succeeds from whatever the run before left. */
    method Restart(s: Surroundings) returns (ok: bool)
      requires Consistent()
      modifies this`config, this`worlds, this`stagings, registry, nginx, certificates, hosts
      ensures Consistent() && old(worlds) <= worlds && config == store.Load()
      ensures StartsWith(store.stored, config)
      ensures old(stagings) <= stagings
      ensures s.staging.before.Cleared? ==> HarmlessSince(stagings, |old(stagings)|)
      ensures old(AlwaysCovered()) && HarmlessSince(stagings, |old(stagings)|) ==> AlwaysCovered()
      ensures NothingInTheWay(config, s) &&
              (!config.httpsEnabled || old(AlwaysReady(s.now))) ==>
                ok
      ensures ok ==> StoresFollow(s, old(hosts.text), old(nginx.disk), |old(stagings)|)
      ensures s.hosts.truncatedAt.None? ==> ForeignLines(hosts.text) == ForeignLines(old(hosts.text))
      ensures !s.detected ==> nginx.disk == old(nginx.disk)
    {
      config := store.Load();
      registry.Recreate();
      ok := RefreshUnhindered(s);
    }

    /** The CA is provisioned from outside while the engine holds no lock. */
    method ProvisionCa(now: int, tls: Tls.Faults)
      requires Consistent()
      modifies this`worlds, certificates
      ensures Consistent() && old(worlds) <= worlds && (old(AlwaysCovered()) ==> AlwaysCovered())
      ensures certificates.files.leaves == old(certificates.files.leaves)
    {
      ghost var from, kept := |certificates.history|, certificates.files.leaves.Keys;
      var _ := certificates.Provision(now, tls);
      LogCertificates(from, kept);
    }

    method Do(request: Request)
      requires Consistent()
      modifies this, registry, nginx, certificates, hosts, store
      ensures Consistent() && old(worlds) <= worlds && old(stagings) <= stagings
      ensures old(AlwaysCovered()) && HarmlessSince(stagings, |old(stagings)|) ==> AlwaysCovered()
      ensures request.ClearsStaging() ==> HarmlessSince(stagings, |old(stagings)|)
      ensures request.WritesHostsFully() ==> ForeignLines(hosts.text) == ForeignLines(old(hosts.text))
    {
      match request {
        case Provision(now, tls) => ProvisionCa(now, tls);
        case Start(s) => var _ := Restart(s);
        case Refresh(s) => var _ := RescanAndRefresh(s);
        case ConfigSet(settings, s, save, later) => var _, _ := SetConfig(settings, s, save, later);
      }
    }

    /** Over every run of starts, refreshes, settings changes and CA repairs, whatever fails and wherever
        it is cut off, the active HTTPS tree never refers to a missing certificate or key file, as long as
        what the clean-ups of the staging directory left there was harmless; and as long as the hosts file is
        written to its end, no foreign line of it is lost. */
    method Run(requests: seq<Request>)
      requires Consistent()
      modifies this, registry, nginx, certificates, hosts, store
      ensures Consistent() && old(worlds) <= worlds && old(stagings) <= stagings
      ensures old(AlwaysCovered()) && HarmlessSince(stagings, |old(stagings)|) ==> AlwaysCovered() && Covered(Current())
      ensures (forall r | r in requests :: r.ClearsStaging()) ==> HarmlessSince(stagings, |old(stagings)|)
      ensures (forall r | r in requests :: r.WritesHostsFully()) ==>
                ForeignLines(hosts.text) == ForeignLines(old(hosts.text))
    {
      for k := 0 to |requests|
        invariant Consistent() && old(worlds) <= worlds && old(stagings) <= stagings
        invariant old(AlwaysCovered()) && HarmlessSince(stagings, |old(stagings)|) ==> AlwaysCovered()
        invariant (forall r | r in requests[..k] :: r.ClearsStaging()) ==> HarmlessSince(stagings, |old(stagings)|)
        invariant (forall r | r in requests[..k] :: r.WritesHostsFully()) ==>
                    ForeignLines(hosts.text) == ForeignLines(old(hosts.text))
      {
        NextPrefix(requests, k);
        ghost var staged := stagings;
        Do(requests[k]);
        HarmlessTogether(old(stagings), staged, stagings);
      }
      assert requests[..|requests|] == requests;
    }
  }
}
