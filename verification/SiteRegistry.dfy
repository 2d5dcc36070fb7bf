// The registry of served folders: label validation with case-insensitive collisions, the scan that
// replaces the table in one transaction, and the nginx server blocks generated from it.
module SiteRegistry {
  import opened Options
  import opened Labels
  import opened Sequences

  /** One entry of the projects folder as the directory iterator meets it. */
  datatype Entry =
    | Folder(name: string, path: string, hasPhpIndex: bool, hasHtmlIndex: bool)
    | NotFolder
    | Inaccessible

  /** What reading the projects folder meets. A folder that is there but cannot be opened for iteration
      reads as an empty one. */
  datatype Listing = NotADirectory | Unreadable | Unopenable | Readable(entries: seq<Entry>)

  datatype Site = Site(name: string, hostname: string, path: string, kind: string, hasIndex: bool, error: string) {
    predicate Valid() {
      error == ""
    }
  }

  // ----- Validation -----

  predicate ValidFormOf(name: string, lower: string) {
    ValidLabel(name) && Lower(name) == lower
  }

  predicate CollidingPair(names: seq<string>, i: nat, j: nat, lower: string)
    requires i < |names| && j < |names|
  {
    i < j && ValidFormOf(names[i], lower) && ValidFormOf(names[j], lower)
  }

  /** At least two positions hold valid labels with this lowercase form. */
  ghost predicate Collides(names: seq<string>, lower: string) {
    exists i, j :: 0 <= i < |names| && 0 <= j < |names| && CollidingPair(names, i, j, lower)
  }

  function CollisionMessage(lower: string): string {
    "Case-insensitive hostname collision for " + lower + SITE_SUFFIX + "."
  }

  /** The error a folder is shown with; empty for a published one. */
  ghost function SiteError(names: seq<string>, name: string): string {
    if !ValidLabel(name) then ValidateDnsLabel(name)
    else if Collides(names, Lower(name)) then CollisionMessage(Lower(name))
    else ""
  }

  ghost predicate ErrorsOf(errors: map<string, string>, names: seq<string>) {
    && (forall name :: name in errors <==> name in names && SiteError(names, name) != "")
    && (forall name | name in errors :: errors[name] == SiteError(names, name))
  }

  predicate InvalidOf(errors: map<string, string>, names: seq<string>) {
    && (forall name | name in errors :: name in names && !ValidLabel(name) && errors[name] == ValidateDnsLabel(name))
    && (forall name | name in names && !ValidLabel(name) :: name in errors)
  }

  predicate GroupsOf(groups: map<string, seq<string>>, names: seq<string>) {
    && (forall lower | lower in groups :: groups[lower] == ValidWithLower(names, lower))
    && (forall name | name in names && ValidLabel(name) :: Lower(name) in groups)
  }

  /** The valid labels of one lowercase form, in order. */
  function ValidWithLower(names: seq<string>, lower: string): (r: seq<string>)
    ensures forall name :: name in r <==> name in names && ValidFormOf(name, lower)
  {
    if names == [] then []
    else
      var n := |names| - 1;
      ValidWithLower(names[..n], lower) + (if ValidFormOf(names[n], lower) then [names[n]] else [])
  }

  /** At which positions the form occurs. */
  function Positions(names: seq<string>, lower: string): (r: seq<bool>)
    ensures |r| == |names|
  {
    seq(|names|, i requires 0 <= i < |names| => ValidFormOf(names[i], lower))
  }

  function CountTrue(bits: seq<bool>): nat {
    if bits == [] then 0 else CountTrue(bits[..|bits| - 1]) + (if bits[|bits| - 1] then 1 else 0)
  }

  lemma PositionsOfFront(names: seq<string>, lower: string)
    requires names != []
    ensures Positions(names, lower)[..|names| - 1] == Positions(names[..|names| - 1], lower)
    ensures Positions(names, lower)[|names| - 1] == ValidFormOf(names[|names| - 1], lower)
  {
  }

  lemma {:induction false} GroupSizeIsCount(names: seq<string>, lower: string)
    ensures |ValidWithLower(names, lower)| == CountTrue(Positions(names, lower))
    decreases |names|
  {
    if names != [] {
      GroupSizeIsCount(names[..|names| - 1], lower);
      PositionsOfFront(names, lower);
    }
  }

  lemma {:induction false} CountShowsOne(bits: seq<bool>)
    ensures CountTrue(bits) >= 1 <==> exists i | 0 <= i < |bits| :: bits[i]
    decreases |bits|
  {
    if bits != [] {
      CountShowsOne(bits[..|bits| - 1]);
    }
  }

  lemma {:induction false} CountShowsTwo(bits: seq<bool>)
    ensures CountTrue(bits) >= 2 <==> exists i, j | 0 <= i < j < |bits| :: bits[i] && bits[j]
    decreases |bits|
  {
    if bits != [] {
      var front := bits[..|bits| - 1];
      CountShowsTwo(front);
      CountShowsOne(front);
    }
  }

  lemma CollisionsAreTwoBits(names: seq<string>, lower: string)
    ensures var bits := Positions(names, lower);
            Collides(names, lower) <==> exists i, j | 0 <= i < j < |bits| :: bits[i] && bits[j]
  {
    var bits := Positions(names, lower);
    forall i, j | 0 <= i < j < |bits| && bits[i] && bits[j] ensures Collides(names, lower) {
      assert CollidingPair(names, i, j, lower);
    }
    if Collides(names, lower) {
      var i, j :| 0 <= i < |names| && 0 <= j < |names| && CollidingPair(names, i, j, lower);
      assert bits[i] && bits[j];
    }
  }

  /** A group has two members exactly when two positions collide. */
  lemma GroupSizeShowsCollision(names: seq<string>, lower: string)
    ensures |ValidWithLower(names, lower)| >= 2 <==> Collides(names, lower)
  {
    GroupSizeIsCount(names, lower);
    CountShowsTwo(Positions(names, lower));
    CollisionsAreTwoBits(names, lower);
  }

  function AddToGroup(groups: map<string, seq<string>>, name: string): map<string, seq<string>> {
    var lower := Lower(name);
    groups[lower := (if lower in groups then groups[lower] else []) + [name]]
  }

  lemma GroupedNames(groups: map<string, seq<string>>, names: seq<string>, lower: string)
    requires GroupsOf(groups, names)
    ensures ValidWithLower(names, lower) != [] ==> lower in groups
  {
    var group := ValidWithLower(names, lower);
    assert group != [] ==> group[0] in group;
  }

  lemma GroupGrows(names: seq<string>, name: string, lower: string)
    ensures ValidWithLower(names + [name], lower) ==
            ValidWithLower(names, lower) + (if ValidFormOf(name, lower) then [name] else [])
  {
    assert (names + [name])[..|names|] == names;
  }

  lemma GroupingStep(groups: map<string, seq<string>>, names: seq<string>, name: string)
    requires GroupsOf(groups, names)
    ensures GroupsOf(if ValidLabel(name) then AddToGroup(groups, name) else groups, names + [name])
  {
    var after := if ValidLabel(name) then AddToGroup(groups, name) else groups;
    forall lower | lower in after ensures after[lower] == ValidWithLower(names + [name], lower) {
      GroupGrows(names, name, lower);
      GroupedNames(groups, names, lower);
    }
  }

  lemma InvalidStep(errors: map<string, string>, names: seq<string>, name: string)
    requires InvalidOf(errors, names)
    ensures InvalidOf(if ValidLabel(name) then errors else errors[name := ValidateDnsLabel(name)], names + [name])
  {
  }

  /** Validates a list of labels: the two loops of the registry, over a map of normalized groups. */
  method ValidateDnsLabels(names: seq<string>) returns (errors: map<string, string>)
    ensures ErrorsOf(errors, names)
  {
    errors := map[];
    var groups: map<string, seq<string>> := map[];
    for k := 0 to |names|
      invariant InvalidOf(errors, names[..k]) && GroupsOf(groups, names[..k])
    {
      var name := names[k];
      var error := ValidateDnsLabel(name);
      NextPrefix(names, k);
      GroupingStep(groups, names[..k], name);
      InvalidStep(errors, names[..k], name);
      if error != "" {
        errors := errors[name := error];
      } else {
        groups := AddToGroup(groups, name);
      }
    }
    assert names[..|names|] == names;
    errors := FlagCollisions(names, groups, errors);
  }

  /** The errors recorded while the groups in `pending` are still to be looked at. */
  ghost predicate Flagged(errors: map<string, string>, names: seq<string>, pending: set<string>) {
    && (forall name | name in errors :: name in names && errors[name] == SiteError(names, name) != "")
    && (forall name | name in names && SiteError(names, name) != "" ::
          name in errors || (ValidLabel(name) && Lower(name) in pending))
  }

  /** Looking at one group settles its members. */
  lemma FlaggingStep(errors: map<string, string>, marked: map<string, string>, names: seq<string>,
                     pending: set<string>, lower: string)
    requires Flagged(errors, names, pending)
    requires marked == if |ValidWithLower(names, lower)| < 2 then errors
                       else errors + Marks(ValidWithLower(names, lower), CollisionMessage(lower))
    ensures Flagged(marked, names, pending - {lower})
  {
    GroupSizeShowsCollision(names, lower);
    forall name | name in marked ensures name in names && marked[name] == SiteError(names, name) != "" {
      if name in ValidWithLower(names, lower) && Collides(names, lower) {
        assert ValidFormOf(name, lower);
      }
    }
    forall name | name in names && SiteError(names, name) != ""
      ensures name in marked || (ValidLabel(name) && Lower(name) in pending - {lower})
    {
      if ValidFormOf(name, lower) {
        assert name in ValidWithLower(names, lower);
      }
    }
  }

  function Marks(names: seq<string>, message: string): map<string, string> {
    map name | name in names :: message
  }

  method MarkAll(errors: map<string, string>, originals: seq<string>, message: string)
    returns (marked: map<string, string>)
    ensures marked == errors + Marks(originals, message)
  {
    marked := errors;
    for i := 0 to |originals|
      invariant marked == errors + Marks(originals[..i], message)
    {
      assert originals[..i + 1] == originals[..i] + [originals[i]];
      marked := marked[originals[i] := message];
    }
    assert originals[..|originals|] == originals;
  }

  lemma AllGroupsPending(errors: map<string, string>, groups: map<string, seq<string>>, names: seq<string>)
    requires InvalidOf(errors, names) && GroupsOf(groups, names)
    ensures Flagged(errors, names, groups.Keys)
  {
  }

  lemma NonePending(errors: map<string, string>, names: seq<string>)
    requires Flagged(errors, names, {})
    ensures ErrorsOf(errors, names)
  {
  }

  method FlagCollisions(names: seq<string>, groups: map<string, seq<string>>, invalid: map<string, string>)
    returns (errors: map<string, string>)
    requires InvalidOf(invalid, names) && GroupsOf(groups, names)
    ensures ErrorsOf(errors, names)
  {
    errors := invalid;
    var pending := groups.Keys;
    AllGroupsPending(errors, groups, names);
    while pending != {}
      invariant pending <= groups.Keys && Flagged(errors, names, pending)
    {
      var lower :| lower in pending;
      var originals := groups[lower];
      ghost var before := errors;
      if |originals| >= 2 {
        errors := MarkAll(errors, originals, CollisionMessage(lower));
      }
      FlaggingStep(before, errors, names, pending, lower);
      pending := pending - {lower};
    }
    NonePending(errors, names);
  }

  // ----- The scan -----

  function FolderNames(entries: seq<Entry>): (names: seq<string>)
    ensures forall name :: name in names <==> exists e | e in entries :: e.Folder? && e.name == name
  {
    if entries == [] then []
    else
      var n := |entries| - 1;
      FolderNames(entries[..n]) + (if entries[n].Folder? then [entries[n].name] else [])
  }

  /** A scanned folder before collisions are known. */
  function SiteDraft(e: Entry): Site
    requires e.Folder?
  {
    Site(e.name, Hostname(e.name), e.path,
         if e.hasPhpIndex then "php" else if e.hasHtmlIndex then "html" else "",
         e.hasPhpIndex || e.hasHtmlIndex, ValidateDnsLabel(e.name))
  }

  function Drafts(entries: seq<Entry>): seq<Site> {
    if entries == [] then []
    else
      var n := |entries| - 1;
      Drafts(entries[..n]) + (if entries[n].Folder? then [SiteDraft(entries[n])] else [])
  }

  /** One site per folder, in order, each with the error its name earns among all names. */
  ghost function SitesOf(entries: seq<Entry>, names: seq<string>): (sites: seq<Site>)
  {
    if entries == [] then []
    else
      var n, last := |entries| - 1, entries[|entries| - 1];
      SitesOf(entries[..n], names) +
      (if last.Folder? then [Flag(SiteDraft(last), names)] else [])
  }

  ghost function ScannedSites(listing: Listing): seq<Site> {
    if listing.Readable? then SitesOf(listing.entries, FolderNames(listing.entries)) else []
  }

  predicate Scannable(listing: Listing) {
    match listing
    case NotADirectory => true
    case Unreadable => false
    case Unopenable => true
    case Readable(entries) => Inaccessible !in entries
  }

  method ReadFolders(entries: seq<Entry>) returns (ok: bool, scanned: seq<Site>, names: seq<string>)
    ensures ok <==> Inaccessible !in entries
    ensures ok ==> scanned == Drafts(entries) && names == FolderNames(entries)
  {
    scanned, names := [], [];
    for k := 0 to |entries|
      invariant Inaccessible !in entries[..k]
      invariant scanned == Drafts(entries[..k]) && names == FolderNames(entries[..k])
    {
      var e := entries[k];
      assert entries[..k + 1] == entries[..k] + [e];
      assert entries[..k + 1][..k] == entries[..k];
      if e.Inaccessible? {
        return false, scanned, names;
      }
      if e.Folder? {
        scanned, names := scanned + [SiteDraft(e)], names + [e.name];
      }
    }
    assert entries[..|entries|] == entries;
    return true, scanned, names;
  }

  method ApplyErrors(ghost entries: seq<Entry>, drafts: seq<Site>, names: seq<string>, errors: map<string, string>)
    returns (sites: seq<Site>)
    requires drafts == Drafts(entries) && names == FolderNames(entries) && ErrorsOf(errors, names)
    ensures sites == SitesOf(entries, names)
  {
    sites := drafts;
    for k := 0 to |sites|
      invariant |sites| == |drafts|
      invariant forall i | 0 <= i < k :: sites[i] == Corrected(drafts[i], errors)
      invariant forall i | k <= i < |sites| :: sites[i] == drafts[i]
    {
      if sites[k].name in errors {
        sites := sites[k := Corrected(sites[k], errors)];
      }
    }
    CorrectedDrafts(entries, names, errors, sites);
  }

  function Corrected(site: Site, errors: map<string, string>): Site {
    if site.name in errors then site.(error := errors[site.name]) else site
  }

  lemma CorrectionIsSiteError(draft: Site, names: seq<string>, errors: map<string, string>)
    requires ErrorsOf(errors, names) && draft.name in names && draft.error == ValidateDnsLabel(draft.name)
    ensures Corrected(draft, errors) == draft.(error := SiteError(names, draft.name))
  {
  }

  class Registry {
    const hasDatabase: bool
    var table: seq<Site>

    constructor (hasDatabase: bool)
      ensures this.hasDatabase == hasDatabase && table == []
    {
      this.hasDatabase := hasDatabase;
      table := [];
    }

    /** What opening the database does: the table of an earlier run is dropped. */
    method Recreate()
      modifies this
      ensures table == []
    {
      table := [];
    }

    predicate CanRescan(listing: Listing, databaseFails: bool) {
      hasDatabase && Scannable(listing) && !databaseFails
    }

    /** Replaces the table by the scanned folders, or leaves it alone: reading errors are met before the
        transaction starts, and a failing transaction is rolled back. */
    method Rescan(listing: Listing, databaseFails: bool) returns (ok: bool)
      modifies this
      ensures ok == CanRescan(listing, databaseFails)
      ensures table == if ok then ScannedSites(listing) else old(table)
      ensures ok ==> TableOfFolders(table, EntriesOf(listing))
    {
      ScanIsTableOfFolders(EntriesOf(listing));
      if !hasDatabase || listing.Unreadable? {
        return false;
      }
      var entries := if listing.Readable? then listing.entries else [];
      var read, scanned, names := ReadFolders(entries);
      if !read {
        return false;
      }
      var errors := ValidateDnsLabels(names);
      scanned := ApplyErrors(entries, scanned, names, errors);
      if databaseFails {
        return false;
      }
      table := scanned;
      return true;
    }
  }

  lemma {:induction false} DraftIsNamed(entries: seq<Entry>)
    ensures forall i | 0 <= i < |Drafts(entries)| ::
              Drafts(entries)[i].name in FolderNames(entries) &&
              Drafts(entries)[i].error == ValidateDnsLabel(Drafts(entries)[i].name)
    decreases |entries|
  {
    if entries != [] {
      DraftIsNamed(entries[..|entries| - 1]);
    }
  }

  lemma CorrectedDrafts(entries: seq<Entry>, names: seq<string>, errors: map<string, string>, sites: seq<Site>)
    requires names == FolderNames(entries) && ErrorsOf(errors, names)
    requires |sites| == |Drafts(entries)|
    requires forall i | 0 <= i < |sites| :: sites[i] == Corrected(Drafts(entries)[i], errors)
    ensures sites == SitesOf(entries, names)
  {
    DraftIsNamed(entries);
    forall i | 0 <= i < |sites| ensures sites[i] == Flag(Drafts(entries)[i], names) {
      CorrectionIsSiteError(Drafts(entries)[i], names, errors);
    }
    SitesAreFlaggedDrafts(entries, names);
  }

  ghost function Flag(draft: Site, names: seq<string>): Site {
    draft.(error := SiteError(names, draft.name))
  }

  lemma {:induction false} SitesAreFlaggedDrafts(entries: seq<Entry>, names: seq<string>)
    ensures |SitesOf(entries, names)| == |Drafts(entries)|
    ensures forall i | 0 <= i < |Drafts(entries)| :: SitesOf(entries, names)[i] == Flag(Drafts(entries)[i], names)
    decreases |entries|
  {
    if entries != [] {
      SitesAreFlaggedDrafts(entries[..|entries| - 1], names);
    }
  }

  // ----- What the table guarantees -----

  /** The hostnames of the valid sites, in order. */
  function ValidHostnames(sites: seq<Site>): (r: seq<string>)
    ensures forall h :: h in r <==> exists s | s in sites :: s.Valid() && s.hostname == h
  {
    if sites == [] then []
    else
      var n := |sites| - 1;
      ValidHostnames(sites[..n]) + (if sites[n].Valid() then [sites[n].hostname] else [])
  }

  /** What every scanned table satisfies: hostnames come from names, valid ones are certifiable and
      pairwise distinct. */
  ghost predicate Publishable(sites: seq<Site>) {
    && (forall i | 0 <= i < |sites| && sites[i].Valid() :: ValidHostname(sites[i].hostname))
    && (forall i, j | 0 <= i < j < |sites| && sites[i].Valid() && sites[j].Valid() ::
          sites[i].hostname != sites[j].hostname)
  }

  lemma {:induction false} SitesByPosition(entries: seq<Entry>, names: seq<string>)
    ensures |SitesOf(entries, names)| == |FolderNames(entries)|
    ensures forall i | 0 <= i < |SitesOf(entries, names)| ::
              var name, s := FolderNames(entries)[i], SitesOf(entries, names)[i];
              s.name == name && s.hostname == Hostname(name) && s.error == SiteError(names, name)
    decreases |entries|
  {
    if entries != [] {
      SitesByPosition(entries[..|entries| - 1], names);
    }
  }

  lemma ScannedHostnamesDiffer(entries: seq<Entry>, i: nat, j: nat)
    requires var names, sites := FolderNames(entries), SitesOf(entries, FolderNames(entries));
             i < j < |sites| && sites[i].Valid() && sites[j].Valid()
    ensures SitesOf(entries, FolderNames(entries))[i].hostname != SitesOf(entries, FolderNames(entries))[j].hostname
  {
    var names := FolderNames(entries);
    SitesByPosition(entries, names);
    if Hostname(names[i]) == Hostname(names[j]) {
      assert Lower(names[i]) == Hostname(names[i])[..|names[i]|];
      assert Lower(names[j]) == Hostname(names[j])[..|names[j]|];
      assert CollidingPair(names, i, j, Lower(names[i]));
    }
  }

  /** A scanned table publishes only certifiable, pairwise distinct hostnames. */
  lemma ScanIsPublishable(listing: Listing)
    ensures Publishable(ScannedSites(listing))
  {
    if listing.Readable? {
      var names, sites := FolderNames(listing.entries), ScannedSites(listing);
      SitesByPosition(listing.entries, names);
      forall i | 0 <= i < |sites| && sites[i].Valid() ensures ValidHostname(sites[i].hostname) {
        PublishedExactlyWhenCertifiable(names[i]);
      }
      forall i, j | 0 <= i < j < |sites| && sites[i].Valid() && sites[j].Valid()
        ensures sites[i].hostname != sites[j].hostname
      {
        ScannedHostnamesDiffer(listing.entries, i, j);
      }
    }
  }

  // ----- The table, from the folders themselves -----

  function FoldersBefore(entries: seq<Entry>, i: nat): nat
    requires i <= |entries|
  {
    if i == 0 then 0 else FoldersBefore(entries, i - 1) + (if entries[i - 1].Folder? then 1 else 0)
  }

  predicate ClashesAt(entries: seq<Entry>, i: nat, j: nat)
    requires i < |entries| && j < |entries| && entries[i].Folder?
  {
    j != i && entries[j].Folder? && SameUpToCase(entries[j].name, entries[i].name)
  }

  /** A folder that is to be served: its name is a valid label, and no other folder has the same name up to
      letter case. */
  predicate ToBeServed(entries: seq<Entry>, i: nat)
    requires i < |entries|
  {
    entries[i].Folder? && ValidLabel(entries[i].name) &&
    forall j | 0 <= j < |entries| :: !ClashesAt(entries, i, j)
  }

  predicate SiteOfFolder(site: Site, e: Entry, served: bool)
    requires e.Folder?
  {
    && site.name == e.name && site.hostname == Hostname(e.name) && site.path == e.path
    && site.hasIndex == (e.hasPhpIndex || e.hasHtmlIndex)
    && (e.hasPhpIndex ==> site.kind == "php")
    && (!e.hasPhpIndex && e.hasHtmlIndex ==> site.kind == "html")
    && (!e.hasPhpIndex && !e.hasHtmlIndex ==> site.kind == "")
    && (site.error == "" <==> served)
    && (!ValidLabel(e.name) ==> site.error == ValidateDnsLabel(e.name))
    && (ValidLabel(e.name) && !served ==>
          site.error == "Case-insensitive hostname collision for " + Hostname(e.name) + ".")
  }

  /** One row per folder, in order, free of errors exactly if the folder is to be served. */
  predicate TableOfFolders(sites: seq<Site>, entries: seq<Entry>) {
    && |sites| == FoldersBefore(entries, |entries|)
    && forall i | 0 <= i < |entries| && entries[i].Folder? ::
         FoldersBefore(entries, i) < |sites| &&
         SiteOfFolder(sites[FoldersBefore(entries, i)], entries[i], ToBeServed(entries, i))
  }

  /** What is found in a folder; one that cannot be opened is taken for empty. */
  function EntriesOf(listing: Listing): seq<Entry> {
    if listing.Readable? then listing.entries else []
  }

  lemma {:induction false} FoldersBeforeOfFront(entries: seq<Entry>, n: nat, i: nat)
    requires i <= n <= |entries|
    ensures FoldersBefore(entries[..n], i) == FoldersBefore(entries, i)
    decreases i
  {
    if i > 0 {
      FoldersBeforeOfFront(entries, n, i - 1);
    }
  }

  lemma {:induction false} FoldersAreCounted(entries: seq<Entry>, names: seq<string>)
    ensures |FolderNames(entries)| == |SitesOf(entries, names)| == FoldersBefore(entries, |entries|)
    decreases |entries|
  {
    if entries != [] {
      var n := |entries| - 1;
      FoldersAreCounted(entries[..n], names);
      FoldersBeforeOfFront(entries, n, n);
    }
  }

  /** Where the folder at position i is found. */
  lemma {:induction false} FolderAt(entries: seq<Entry>, names: seq<string>, i: nat)
    requires i < |entries| && entries[i].Folder?
    ensures var k := FoldersBefore(entries, i);
            && k < |FolderNames(entries)| == |SitesOf(entries, names)|
            && FolderNames(entries)[k] == entries[i].name
            && SitesOf(entries, names)[k] == Flag(SiteDraft(entries[i]), names)
    decreases |entries|
  {
    var n := |entries| - 1;
    FoldersAreCounted(entries[..n], names);
    FoldersBeforeOfFront(entries, n, i);
    if i < n {
      FolderAt(entries[..n], names, i);
    }
  }

  /** And which folder is found at position k. */
  lemma {:induction false} FolderBehind(entries: seq<Entry>, k: nat) returns (i: nat)
    requires k < |FolderNames(entries)|
    ensures i < |entries| && entries[i].Folder? && FoldersBefore(entries, i) == k
    decreases |entries|
  {
    var n := |entries| - 1;
    FoldersAreCounted(entries[..n], []);
    if k < |FolderNames(entries[..n])| {
      i := FolderBehind(entries[..n], k);
    } else {
      i := n;
    }
    FoldersBeforeOfFront(entries, n, i);
  }

  lemma {:induction false} LaterFolderLater(entries: seq<Entry>, i: nat, j: nat)
    requires i < j <= |entries| && entries[i].Folder?
    ensures FoldersBefore(entries, i) < FoldersBefore(entries, j)
    decreases j
  {
    if i < j - 1 {
      LaterFolderLater(entries, i, j - 1);
    }
  }

  lemma SameUpToCaseSameForm(a: string, b: string)
    ensures SameUpToCase(a, b) ==> (ValidLabel(a) <==> ValidLabel(b))
    ensures ValidLabel(a) ==> (ValidFormOf(b, Lower(a)) <==> SameUpToCase(b, a))
  {
    LowerFoldsCase(b, a);
    if SameUpToCase(a, b) {
      LowerFoldsCase(a, b);
      PublishedExactlyWhenCertifiable(a);
      PublishedExactlyWhenCertifiable(b);
    }
  }

  lemma ClashCollides(entries: seq<Entry>, i: nat, j: nat)
    requires i < |entries| && j < |entries| && entries[i].Folder? && ClashesAt(entries, i, j)
    requires ValidLabel(entries[i].name)
    ensures Collides(FolderNames(entries), Lower(entries[i].name))
  {
    var names, a, b := FolderNames(entries), FoldersBefore(entries, i), FoldersBefore(entries, j);
    FolderAt(entries, names, i);
    FolderAt(entries, names, j);
    SameUpToCaseSameForm(entries[i].name, entries[j].name);
    if i < j {
      LaterFolderLater(entries, i, j);
      assert CollidingPair(names, a, b, Lower(entries[i].name));
    } else {
      LaterFolderLater(entries, j, i);
      assert CollidingPair(names, b, a, Lower(entries[i].name));
    }
  }

  lemma CollisionClashes(entries: seq<Entry>, i: nat)
    requires i < |entries| && entries[i].Folder? && ValidLabel(entries[i].name)
    requires Collides(FolderNames(entries), Lower(entries[i].name))
    ensures exists j :: 0 <= j < |entries| && ClashesAt(entries, i, j)
  {
    var names, lower := FolderNames(entries), Lower(entries[i].name);
    var a: nat, b: nat :| a < |names| && b < |names| && CollidingPair(names, a, b, lower);
    var j := FolderBehind(entries, if FoldersBefore(entries, i) == a then b else a);
    FolderAt(entries, names, j);
    SameUpToCaseSameForm(entries[i].name, entries[j].name);
    assert ClashesAt(entries, i, j);
  }

  /** What a scan makes of the folders it finds. */
  lemma ScanIsTableOfFolders(entries: seq<Entry>)
    ensures TableOfFolders(SitesOf(entries, FolderNames(entries)), entries)
  {
    var names := FolderNames(entries);
    FoldersAreCounted(entries, names);
    forall i | 0 <= i < |entries| && entries[i].Folder?
      ensures FoldersBefore(entries, i) < |SitesOf(entries, names)|
      ensures SiteOfFolder(SitesOf(entries, names)[FoldersBefore(entries, i)], entries[i], ToBeServed(entries, i))
    {
      FolderAt(entries, names, i);
      ServedWithoutError(entries, i);
      CollisionNamesHost(entries[i].name);
    }
  }

  lemma CollisionNamesHost(name: string)
    ensures CollisionMessage(Lower(name)) == "Case-insensitive hostname collision for " + Hostname(name) + "."
  {
    Associative("Case-insensitive hostname collision for ", Lower(name), SITE_SUFFIX);
  }

  lemma ServedWithoutError(entries: seq<Entry>, i: nat)
    requires i < |entries| && entries[i].Folder?
    ensures SiteError(FolderNames(entries), entries[i].name) == "" <==> ToBeServed(entries, i)
  {
    if ValidLabel(entries[i].name) {
      if Collides(FolderNames(entries), Lower(entries[i].name)) {
        CollisionClashes(entries, i);
      }
      forall j | 0 <= j < |entries| && ClashesAt(entries, i, j)
        ensures Collides(FolderNames(entries), Lower(entries[i].name))
      {
        ClashCollides(entries, i, j);
      }
    }
  }

  // ----- nginx server blocks -----

  datatype ServerBlock = ServerBlock(hostname: string, root: string, https: bool)
  type SitesTree = map<string, ServerBlock>

  function ConfFile(hostname: string): string {
    hostname + ".conf"
  }

  function BlockOf(site: Site, https: bool): ServerBlock {
    ServerBlock(site.hostname, site.path, https)
  }

  function ConfTree(sites: seq<Site>, https: bool): SitesTree {
    if sites == [] then map[]
    else
      var n, last := |sites| - 1, sites[|sites| - 1];
      var tree := ConfTree(sites[..n], https);
      if last.Valid() then tree[ConfFile(last.hostname) := BlockOf(last, https)] else tree
  }

  lemma ConfFileInjective(a: string, b: string)
    ensures ConfFile(a) == ConfFile(b) ==> a == b
  {
    assert a == ConfFile(a)[..|ConfFile(a)| - 5];
    assert b == ConfFile(b)[..|ConfFile(b)| - 5];
  }

  /** The files of the tree are those of the valid hostnames. */
  lemma {:induction false} ConfFilesAreHostnames(sites: seq<Site>, https: bool)
    ensures forall f :: f in ConfTree(sites, https) <==> exists h | h in ValidHostnames(sites) :: f == ConfFile(h)
    decreases |sites|
  {
    if sites != [] {
      ConfFilesAreHostnames(sites[..|sites| - 1], https);
    }
  }

  lemma NewConfFile(sites: seq<Site>, https: bool)
    requires Publishable(sites) && sites != [] && sites[|sites| - 1].Valid()
    ensures ConfFile(sites[|sites| - 1].hostname) !in ConfTree(sites[..|sites| - 1], https)
  {
    var n := |sites| - 1;
    ConfFilesAreHostnames(sites[..n], https);
    forall h | h in ValidHostnames(sites[..n]) ensures ConfFile(h) != ConfFile(sites[n].hostname) {
      ConfFileInjective(h, sites[n].hostname);
    }
  }

  /** As many files as valid hostnames: no two sites share a file. */
  lemma {:induction false} OneFilePerHostname(sites: seq<Site>, https: bool)
    requires Publishable(sites)
    ensures |ConfTree(sites, https)| == |ValidHostnames(sites)|
    decreases |sites|
  {
    if sites != [] {
      var n := |sites| - 1;
      OneFilePerHostname(sites[..n], https);
      if sites[n].Valid() {
        NewConfFile(sites, https);
      }
    }
  }

  /** The file of each valid site holds that site's own block: none is overwritten. */
  lemma {:induction false} ConfFileHoldsItsSite(sites: seq<Site>, https: bool, i: nat)
    requires Publishable(sites) && i < |sites| && sites[i].Valid()
    ensures HoldsSite(ConfTree(sites, https), sites[i], https)
    decreases |sites|
  {
    var n := |sites| - 1;
    if i < n {
      ConfFileHoldsItsSite(sites[..n], https, i);
      ConfFileInjective(sites[i].hostname, sites[n].hostname);
    }
  }

  predicate HoldsSite(tree: SitesTree, site: Site, https: bool) {
    site.hostname + ".conf" in tree &&
    tree[site.hostname + ".conf"] == ServerBlock(site.hostname, site.path, https)
  }

  /** Every valid site has its file, with its hostname, its folder as root, and this protocol. */
  predicate HoldsSites(tree: SitesTree, sites: seq<Site>, https: bool) {
    forall i | 0 <= i < |sites| && sites[i].Valid() :: HoldsSite(tree, sites[i], https)
  }

  lemma GeneratedHoldsSites(left: SitesTree, sites: seq<Site>, https: bool)
    requires Publishable(sites)
    ensures HoldsSites(left + ConfTree(sites, https), sites, https)
  {
    forall i | 0 <= i < |sites| && sites[i].Valid() ensures HoldsSite(left + ConfTree(sites, https), sites[i], https) {
      ConfFileHoldsItsSite(sites, https, i);
    }
  }

  predicate ServesFolder(tree: SitesTree, e: Entry, https: bool)
    requires e.Folder?
  {
    && Hostname(e.name) + ".conf" in tree
    && tree[Hostname(e.name) + ".conf"] == ServerBlock(Hostname(e.name), e.path, https)
  }

  /** Every folder that is to be served has its server block, rooted in that folder. */
  predicate ServesFolders(tree: SitesTree, entries: seq<Entry>, https: bool) {
    forall i | 0 <= i < |entries| && ToBeServed(entries, i) :: ServesFolder(tree, entries[i], https)
  }

  predicate IsFileOf(file: string, entries: seq<Entry>, i: nat)
    requires i < |entries|
  {
    ToBeServed(entries, i) && file == Hostname(entries[i].name) + ".conf"
  }

  /** And there is no other file. */
  predicate ServesNothingElse(tree: SitesTree, entries: seq<Entry>) {
    forall file | file in tree :: exists i | 0 <= i < |entries| :: IsFileOf(file, entries, i)
  }

  lemma SitesServeFolders(tree: SitesTree, sites: seq<Site>, entries: seq<Entry>, https: bool)
    requires TableOfFolders(sites, entries) && HoldsSites(tree, sites, https)
    ensures ServesFolders(tree, entries, https)
  {
    forall i | 0 <= i < |entries| && ToBeServed(entries, i) ensures ServesFolder(tree, entries[i], https) {
      assert HoldsSite(tree, sites[FoldersBefore(entries, i)], https);
    }
  }

  lemma GeneratedServesFolders(left: SitesTree, entries: seq<Entry>, https: bool)
    ensures ServesFolders(left + ConfTree(SitesOf(entries, FolderNames(entries)), https), entries, https)
  {
    var sites := SitesOf(entries, FolderNames(entries));
    ScanIsPublishable(Readable(entries));
    ScanIsTableOfFolders(entries);
    GeneratedHoldsSites(left, sites, https);
    SitesServeFolders(left + ConfTree(sites, https), sites, entries, https);
  }

  lemma OnlyFoldersServed(entries: seq<Entry>, https: bool)
    ensures ServesNothingElse(ConfTree(SitesOf(entries, FolderNames(entries)), https), entries)
  {
    var names := FolderNames(entries);
    var sites := SitesOf(entries, names);
    ConfFilesAreHostnames(sites, https);
    FoldersAreCounted(entries, names);
    forall file | file in ConfTree(sites, https)
      ensures exists i | 0 <= i < |entries| :: IsFileOf(file, entries, i)
    {
      var site :| site in sites && site.Valid() && file == ConfFile(site.hostname);
      var k: nat :| k < |sites| && sites[k] == site;
      var i := FolderBehind(entries, k);
      FolderAt(entries, names, i);
      ServedWithoutError(entries, i);
      assert IsFileOf(file, entries, i);
    }
  }

  lemma LaterWriteWins(existing: SitesTree, tree: SitesTree, file: string, block: ServerBlock)
    ensures (existing + tree)[file := block] == existing + tree[file := block]
  {
  }

  lemma NextSite(sites: seq<Site>, https: bool, k: nat)
    requires k < |sites|
    ensures var tree, site := ConfTree(sites[..k], https), sites[k];
            ConfTree(sites[..k + 1], https) ==
            if site.Valid() then tree[ConfFile(site.hostname) := BlockOf(site, https)] else tree
    ensures ValidHostnames(sites[..k + 1]) ==
            ValidHostnames(sites[..k]) + (if sites[k].Valid() then [sites[k].hostname] else [])
  {
    assert sites[..k + 1][..k] == sites[..k];
  }

  /** What happens to one file: it is written, it cannot be opened, or a write to it fails. */
  datatype FileFault = Written | CannotOpen | CannotWrite

  predicate CanWriteConfigs(sites: seq<Site>, directoryFails: bool, files: string -> FileFault) {
    !directoryFails && forall h | h in ValidHostnames(sites) :: files(ConfFile(h)).Written?
  }

  /** Writes the block of every valid site into a tree; a file that cannot be opened or written ends it. */
  method WriteNginxConfigs(sites: seq<Site>, https: bool, existing: SitesTree, directoryFails: bool,
                           files: string -> FileFault)
    returns (ok: bool, tree: SitesTree)
    ensures ok == CanWriteConfigs(sites, directoryFails, files)
    ensures ok ==> tree == existing + ConfTree(sites, https)
    ensures ok && Publishable(sites) ==> HoldsSites(tree, sites, https)
    ensures directoryFails ==> tree == existing
  {
    tree := existing;
    if directoryFails {
      return false, tree;
    }
    for k := 0 to |sites|
      invariant tree == existing + ConfTree(sites[..k], https)
      invariant forall h | h in ValidHostnames(sites[..k]) :: files(ConfFile(h)).Written?
    {
      NextSite(sites, https, k);
      if sites[k].Valid() {
        var file := ConfFile(sites[k].hostname);
        assert sites[k] in sites;
        if files(file).CannotOpen? {
          return false, tree;
        }
        LaterWriteWins(existing, ConfTree(sites[..k], https), file, BlockOf(sites[k], https));
        tree := tree[file := BlockOf(sites[k], https)];
        if files(file).CannotWrite? {
          return false, tree;
        }
      }
    }
    assert sites[..|sites|] == sites;
    if Publishable(sites) {
      GeneratedHoldsSites(existing, sites, https);
    }
    return true, tree;
  }
}
