// The owner of the machine-wide CA and of the per-site certificates: CA files, ownership record, leaf
// files and the machine's root store. Keys and certificates are records, a signature is the id of the
// signing key, and digests are injective. Every write, deletion and store operation may fail.
module CertificateManager {
  import opened Options
  import opened Labels
  import opened Sequences

  const DAY := 86400
  const ROOT_VALIDITY_DAYS := 3652
  const LEAF_VALIDITY_DAYS := 397
  const RENEWAL_DAYS := 30
  const ROOT_KEY_BITS := 3072
  const LEAF_KEY_BITS := 2048
  const CA_NAME := "Appytizer Local Development Root CA"

  datatype Key = Key(id: nat, bits: nat)

  datatype Certificate = Certificate(
    serial: nat, subject: string, issuer: string, key: Key, signer: Key,
    isCa: bool, dnsNames: seq<string>, serverAuth: bool, notBefore: int, notAfter: int)

  datatype Digest = Blank | Sha1(of: Certificate) | Sha256(of: Certificate) | Unknown(text: string)

  /** The ownership record; `NoRecord` is a missing or unparsable file, or another owner's. */
  datatype Ownership = NoRecord | Recorded(sha1: Digest, sha256: Digest) {
    predicate Names(c: Certificate) {
      Recorded? && sha1 == Sha1(c) && sha256 == Sha256(c)
    }
  }

  datatype LeafFile = CertificatePem(certificate: Certificate) | KeyPem(key: Key) | Junk(bytes: string)

  /** The certificate directory. The CA certificate and key are `None` when missing or unparsable. */
  datatype Files = Files(present: bool, caCertificate: Option<Certificate>, caKey: Option<Key>,
                         ownership: Ownership, leaves: map<string, LeafFile>)

  const NO_FILES := Files(false, None, None, NoRecord, map[])

  // ----- Validity -----

  predicate CaValid(files: Files, now: int) {
    && files.caCertificate.Some? && files.caKey.Some?
    && var c, key := files.caCertificate.value, files.caKey.value;
       && key.bits >= ROOT_KEY_BITS && c.key == key && c.isCa && c.notAfter > now
       && c.signer == key && c.subject == c.issuer
  }

  /** A complete, unexpired CA with its own key, signed by itself. */
  predicate SoundCa(files: Files, now: int) {
    && files.caCertificate.Some? && files.caKey.Some?
    && var c := files.caCertificate.value;
       && c.key == files.caKey.value && c.signer == c.key && c.key.bits >= 3072
       && c.issuer == c.subject && c.isCa && now < c.notAfter
  }

  lemma CaValidExactly(files: Files, now: int)
    ensures CaValid(files, now) <==> SoundCa(files, now)
  {
  }

  /** A CA created at this time. */
  predicate CaIssuedAt(files: Files, now: int) {
    && files.caCertificate.Some?
    && var c := files.caCertificate.value;
       && c.subject == "Appytizer Local Development Root CA"
       && c.notBefore == now && c.notAfter == now + 3652 * 86400
  }

  /** Division and remainder as `ASN1_TIME_diff` reports them: both carry the sign of the difference. */
  function WholeDays(seconds: int): int {
    if seconds >= 0 then seconds / DAY else -((-seconds) / DAY)
  }

  function LeftoverSeconds(seconds: int): int {
    seconds - DAY * WholeDays(seconds)
  }

  predicate ExpiresWithin(remaining: int, days: int) {
    WholeDays(remaining) < days || (WholeDays(remaining) == days && LeftoverSeconds(remaining) <= 0)
  }

  /** The comparison by days and seconds is the comparison of seconds, for every sign of either side. */
  lemma ExpiresWithinExactly(remaining: int, days: int)
    ensures ExpiresWithin(remaining, days) <==> remaining <= 86400 * days
  {
    var whole := WholeDays(remaining);
    if remaining >= 0 {
      assert DAY * whole <= remaining < DAY * whole + DAY;
    } else {
      assert DAY * whole - DAY < remaining <= DAY * whole;
    }
  }

  predicate PairFor(files: Files, hostname: string) {
    && CertificateFile(hostname) in files.leaves && files.leaves[CertificateFile(hostname)].CertificatePem?
    && KeyFile(hostname) in files.leaves && files.leaves[KeyFile(hostname)].KeyPem?
  }

  function LeafOf(files: Files, hostname: string): Certificate
    requires PairFor(files, hostname)
  {
    files.leaves[CertificateFile(hostname)].certificate
  }

  /** The on-disk pair matches, is signed by the current CA, and names exactly this host. */
  predicate GenuinePair(files: Files, hostname: string) {
    && files.caCertificate.Some? && PairFor(files, hostname)
    && var ca, leaf, key := files.caCertificate.value, LeafOf(files, hostname), files.leaves[KeyFile(hostname)].key;
       && key.bits >= LEAF_KEY_BITS && leaf.key == key
       && leaf.issuer == ca.subject && leaf.signer == ca.key
       && leaf.dnsNames == [hostname] && leaf.serverAuth && leaf.subject == hostname
  }

  predicate SiteCertificateValid(files: Files, hostname: string, renewalDays: int, now: int) {
    && GenuinePair(files, hostname)
    && LeafOf(files, hostname).notBefore <= now
    && !ExpiresWithin(LeafOf(files, hostname).notAfter - now, renewalDays)
  }

  predicate HasPair(files: Files, hostname: string) {
    && hostname + ".crt.pem" in files.leaves && files.leaves[hostname + ".crt.pem"].CertificatePem?
    && hostname + ".key.pem" in files.leaves && files.leaves[hostname + ".key.pem"].KeyPem?
  }

  /** A certificate for exactly this host, with its own key, signed by the CA on disk and good for more than thirty
      days. */
  predicate SoundLeaf(files: Files, hostname: string, now: int) {
    && HasPair(files, hostname) && files.caCertificate.Some?
    && var leaf, ca := files.leaves[hostname + ".crt.pem"].certificate, files.caCertificate.value;
       && leaf.signer == ca.key && leaf.issuer == ca.subject
       && leaf.key == files.leaves[hostname + ".key.pem"].key && leaf.key.bits >= 2048
       && leaf.subject == hostname && leaf.dnsNames == [hostname] && leaf.serverAuth
       && leaf.notBefore <= now && leaf.notAfter - now > 30 * 86400
  }

  /** The check before a renewal accepts exactly these. */
  lemma SiteCertificateValidExactly(files: Files, hostname: string, now: int)
    ensures SiteCertificateValid(files, hostname, RENEWAL_DAYS, now) <==> SoundLeaf(files, hostname, now)
  {
    if PairFor(files, hostname) {
      ExpiresWithinExactly(LeafOf(files, hostname).notAfter - now, RENEWAL_DAYS);
    }
  }

  predicate LeafIssuedAt(files: Files, hostname: string, now: int) {
    && HasPair(files, hostname)
    && var leaf := files.leaves[hostname + ".crt.pem"].certificate;
       !leaf.isCa && leaf.notBefore == now && leaf.notAfter == now + 397 * 86400
  }

  /** A leaf issued at `issued` counts as valid, for the renewal check, for exactly 367 days. */
  lemma FreshLeafLasts(files: Files, hostname: string, issued: int, now: int)
    requires GenuinePair(files, hostname) && LeafIssuedAt(files, hostname, issued)
    ensures SiteCertificateValid(files, hostname, RENEWAL_DAYS, now) <==> issued <= now < issued + 367 * 86400
  {
    ExpiresWithinExactly(LeafOf(files, hostname).notAfter - now, RENEWAL_DAYS);
  }

  /** The leaf files clean-up leaves alone. */
  function Retained(leaves: map<string, LeafFile>, hostnames: seq<string>): map<string, LeafFile> {
    map file | file in leaves && !Obsolete(file, hostnames) :: leaves[file]
  }

  predicate Obsolete(file: string, hostnames: seq<string>) {
    LeafHostname(file).Some? && LeafHostname(file).value !in hostnames
  }

  predicate MarkerAt(file: string, i: nat) {
    i + 6 <= |file| && file[i..i + 6] == ".test."
  }

  predicate FirstMarkerAt(file: string, i: nat) {
    MarkerAt(file, i) && forall j | 0 <= j < i :: !MarkerAt(file, j)
  }

  /** A file is deleted exactly if ".test." occurs in its name and the name up to the first of these, with the
      "test", is no listed hostname. */
  lemma ObsoleteExactly(file: string, hostnames: seq<string>)
    ensures Obsolete(file, hostnames) <==>
            exists i | 0 <= i <= |file| - 6 :: FirstMarkerAt(file, i) && file[..i + 5] !in hostnames
  {
    assert forall i: nat :: MarkerAt(file, i) <==> OccursAt(file, LEAF_MARKER, i);
    var first := FindFrom(file, LEAF_MARKER, 0);
    if first.Some? {
      assert FirstMarkerAt(file, first.value);
    }
  }

  /** What is left while the files in `pending` are still to be looked at. */
  function Remaining(leaves: map<string, LeafFile>, hostnames: seq<string>, pending: set<string>)
    : map<string, LeafFile>
  {
    map file | file in leaves && (file in pending || !Obsolete(file, hostnames)) :: leaves[file]
  }

  function Without(leaves: map<string, LeafFile>, file: string): map<string, LeafFile> {
    map other | other in leaves && other != file :: leaves[other]
  }

  lemma RemainingStep(leaves: map<string, LeafFile>, hostnames: seq<string>, pending: set<string>, file: string)
    requires file in pending
    ensures Remaining(leaves, hostnames, pending - {file}) ==
            if Obsolete(file, hostnames) then Without(Remaining(leaves, hostnames, pending), file)
            else Remaining(leaves, hostnames, pending)
  {
  }

  lemma RemainingEnds(leaves: map<string, LeafFile>, hostnames: seq<string>, pending: set<string>)
    ensures Remaining(leaves, hostnames, leaves.Keys) == leaves
    ensures Remaining(leaves, hostnames, {}) == Retained(leaves, hostnames)
    ensures Retained(leaves, hostnames).Keys <= Remaining(leaves, hostnames, pending).Keys <= leaves.Keys
  {
  }

  /** Both files of a retained hostname survive. */
  lemma RetainedPairSurvives(leaves: map<string, LeafFile>, hostnames: seq<string>, hostname: string)
    requires hostname in hostnames && ValidHostname(hostname)
    ensures CertificateFile(hostname) in leaves <==> CertificateFile(hostname) in Retained(leaves, hostnames)
    ensures KeyFile(hostname) in leaves <==> KeyFile(hostname) in Retained(leaves, hostnames)
  {
    LeafFilesRecoverHostname(hostname);
  }

  // ----- Faults -----

  /** The calls that can fail. */
  datatype Step =
    | CreateDirectory | GenerateCaKey | WriteCaKey | WriteCaCertificate | WriteRecord
    | OpenStoreToAdd | OpenStoreToRemove | OpenStoreToRead | AddToStore | DeleteFromStore | DeleteDirectory
    | GenerateLeafKey(hostname: string) | WriteLeafKey(hostname: string) | WriteLeafCertificate(hostname: string)
    | ReadDirectory | DeleteFile(file: string)

  /** Which of them do; a crash in the middle of a call leaves what a fault at that point leaves. */
  type Faults = Step -> bool

  /** What a failing deletion of the directory leaves behind. */
  datatype Leftover = Leftover(certificate: bool, key: bool, record: bool, leaves: set<string>)

  ghost predicate NoFaults(fails: Faults) {
    forall step :: !fails(step)
  }

  predicate CanRemoveEntry(files: Files, store: set<Certificate>, fails: Faults) {
    match files.ownership
    case NoRecord => !files.present
    case Recorded(sha1, sha256) =>
      sha1 != Blank && sha256 != Blank && !fails(OpenStoreToRemove) &&
      (!fails(DeleteFromStore) || forall c | c in store :: !files.ownership.Names(c))
  }

  predicate CanEnsureCa(files: Files, store: set<Certificate>, now: int, fails: Faults) {
    if CaValid(files, now) then files.ownership.Names(files.caCertificate.value) || !fails(WriteRecord)
    else
      && (files.ownership.Recorded? ==> CanRemoveEntry(files, store, fails))
      && !fails(CreateDirectory) && !fails(GenerateCaKey) && !fails(WriteCaKey) && !fails(WriteCaCertificate)
      && !fails(WriteRecord)
  }

  predicate CanCleanUp(leaves: map<string, LeafFile>, hostnames: seq<string>, fails: Faults) {
    !fails(ReadDirectory) && forall file | file in leaves && Obsolete(file, hostnames) :: !fails(DeleteFile(file))
  }

  predicate CanCreateLeaf(hostname: string, fails: Faults) {
    !fails(GenerateLeafKey(hostname)) && !fails(WriteLeafKey(hostname)) && !fails(WriteLeafCertificate(hostname))
  }

  /** Enough for a valid leaf of this host; with a valid CA on disk, also necessary. */
  predicate CanIssueLeaf(files: Files, store: set<Certificate>, hostname: string, now: int, fails: Faults) {
    && ValidHostname(hostname) && CanEnsureCa(files, store, now, fails)
    && (CanCreateLeaf(hostname, fails) ||
        (CaValid(files, now) && SiteCertificateValid(files, hostname, RENEWAL_DAYS, now)))
  }

  predicate SameCa(a: Files, b: Files) {
    a.caCertificate == b.caCertificate && a.caKey == b.caKey
  }

  predicate SameAt(a: map<string, LeafFile>, b: map<string, LeafFile>, file: string) {
    (file in a <==> file in b) && (file in a ==> a[file] == b[file])
  }

  /** Whether a leaf is valid depends on the CA certificate and on the two files of its host only. */
  lemma SameFilesSameValidity(before: Files, after: Files, hostname: string, days: int, now: int)
    requires SameCa(before, after)
    requires SameAt(before.leaves, after.leaves, CertificateFile(hostname))
    requires SameAt(before.leaves, after.leaves, KeyFile(hostname))
    ensures SiteCertificateValid(before, hostname, days, now) <==> SiteCertificateValid(after, hostname, days, now)
  {
  }

  /** So issuing one host's leaf leaves the validity of every other as it was. */
  lemma OtherHostsUndisturbed(before: Files, after: Files, issued: string, other: string, days: int, now: int)
    requires SameCa(before, after) && OnlyThisHost(before.leaves, after.leaves, issued)
    requires ValidHostname(issued) && ValidHostname(other) && issued != other
    ensures SiteCertificateValid(before, other, days, now) <==> SiteCertificateValid(after, other, days, now)
  {
    forall file | file == CertificateFile(other) || file == KeyFile(other)
      ensures SameAt(before.leaves, after.leaves, file)
    {
      LeafFilesRecoverHostname(issued);
      LeafFilesRecoverHostname(other);
    }
    SameFilesSameValidity(before, after, other, days, now);
  }

  // ----- Ownership -----

  /** Everything the manager touches, with the certificates it added itself and nobody removed since,
      and whether it was somebody else's change that led there. */
  datatype Snapshot = Snapshot(files: Files, store: set<Certificate>, installed: set<Certificate>, foreign: bool)

  /** The installed CA is the one the record names, and the CA certificate on disk is no other. */
  ghost predicate Owned(s: Snapshot) {
    && s.installed <= s.store
    && forall c | c in s.installed ::
         s.files.ownership.Names(c) && (s.files.caCertificate.Some? ==> s.files.caCertificate.value == c)
  }

  /** The record names one certificate, so at most one CA of Appytizer's own is ever trusted. */
  lemma AtMostOneInstalled(s: Snapshot, a: Certificate, b: Certificate)
    requires Owned(s) && a in s.installed && b in s.installed
    ensures a == b && s.files.ownership == Recorded(Sha1(a), Sha256(a))
  {
  }

  /** Only the recorded certificate leaves the store, and only the recorded CA on disk enters it. */
  ghost predicate StoreDiscipline(before: Snapshot, after: Snapshot) {
    && (forall c | c in before.store && c !in after.store :: before.files.ownership.Names(c))
    && (forall c | c in after.store && c !in before.store ::
          after.files.ownership.Names(c) && after.files.caCertificate == Some(c))
  }

  /** The history grew by steps of the manager itself: each leads to an owned state that keeps these leaf
      files, removes nothing from the store but what the record names then, and adds nothing to it but the
      recorded CA on disk. */
  ghost predicate Extends(before: seq<Snapshot>, after: seq<Snapshot>, kept: set<string>) {
    && before <= after && before != []
    && forall k | |before| <= k < |after| ::
         OwnStep(after[k - 1], after[k]) && kept <= after[k].files.leaves.Keys
  }

  ghost predicate OwnStep(before: Snapshot, after: Snapshot) {
    Owned(after) && !after.foreign && StoreDiscipline(before, after)
  }

  /** The history grew by such steps, and by foreign changes that leave it owned. */
  ghost predicate Continues(before: seq<Snapshot>, after: seq<Snapshot>) {
    && before <= after && before != []
    && forall k | |before| <= k < |after| ::
         OwnStep(after[k - 1], after[k]) || (after[k].foreign && Owned(after[k]))
  }

  lemma ExtendsFurther(before: seq<Snapshot>, between: seq<Snapshot>, after: seq<Snapshot>,
                       kept: set<string>, more: set<string>)
    requires Extends(before, between, kept) && Extends(between, after, more) && kept <= more
    ensures Extends(before, after, kept)
  {
    assert forall k | 0 <= k < |between| :: after[k] == between[k];
  }

  lemma ContinuesFurther(before: seq<Snapshot>, between: seq<Snapshot>, after: seq<Snapshot>)
    requires Continues(before, between) && Continues(between, after)
    ensures Continues(before, after)
  {
    assert forall k | 0 <= k < |between| :: after[k] == between[k];
  }

  lemma NewLeafIsSound(files: Files, hostname: string, key: Key, leaf: Certificate, now: int)
    requires files.caCertificate.Some? && leaf.key == key && key.bits >= 2048
    requires leaf.signer == files.caCertificate.value.key && leaf.issuer == files.caCertificate.value.subject
    requires leaf.subject == hostname && leaf.dnsNames == [hostname] && leaf.serverAuth && !leaf.isCa
    requires leaf.notBefore == now && leaf.notAfter == now + 397 * 86400
    ensures var withKey := files.leaves[KeyFile(hostname) := KeyPem(key)];
            var leaves := withKey[CertificateFile(hostname) := CertificatePem(leaf)];
            var after := files.(leaves := leaves);
            && SiteCertificateValid(after, hostname, 0, now) && SoundLeaf(after, hostname, now)
            && LeafIssuedAt(after, hostname, now)
  {
    LeafExtensionsDiffer(hostname);
    ExpiresWithinExactly(397 * 86400, 0);
  }

  class Manager {
    var files: Files
    var store: set<Certificate>
    ghost var installed: set<Certificate>
    ghost var foreign: bool
    /** What was there after every single change, oldest first: the states a crash can leave. */
    ghost var history: seq<Snapshot>

    constructor (files: Files, store: set<Certificate>)
      ensures Valid() && this.files == files && this.store == store && installed == {}
    {
      this.files, this.store := files, store;
      installed, foreign, history := {}, false, [Snapshot(files, store, {}, false)];
    }

    ghost function Now(): Snapshot
      reads this
    {
      Snapshot(files, store, installed, foreign)
    }

    /** The CA is owned, and no change has escaped the history. */
    ghost predicate Valid()
      reads this
    {
      Owned(Now()) && history != [] && history[|history| - 1] == Now()
    }

    /** One atomic replacement of one file: it happens, or nothing changes. */
    method Write(changed: Files, fails: bool) returns (ok: bool)
      requires Valid() && Owned(Snapshot(changed, store, installed, false))
      modifies this
      ensures Valid() && Extends(old(history), history, changed.leaves.Keys)
      ensures ok == !fails && store == old(store) && installed == old(installed)
      ensures files == if ok then changed else old(files)
      ensures history == if ok then old(history) + [Now()] else old(history)
    {
      if !fails {
        files := changed;
        foreign, history := false, history + [Snapshot(files, store, installed, false)];
      }
      return !fails;
    }

    method EnsureCaFiles(now: int, fails: Faults) returns (ok: bool)
      requires Valid()
      modifies this
      ensures Valid() && Extends(old(history), history, old(files).leaves.Keys)
      ensures ok == CanEnsureCa(old(files), old(store), now, fails)
      ensures files.leaves == old(files).leaves
      ensures ok ==> CaValid(files, now) && files.ownership.Names(files.caCertificate.value)
      ensures ok ==> SoundCa(files, now) &&
                     files.ownership == Recorded(Sha1(files.caCertificate.value), Sha256(files.caCertificate.value))
      ensures ok && !old(SoundCa(files, now)) ==> CaIssuedAt(files, now)
      ensures old(CaValid(files, now)) ==>
                files == old(files).(ownership := files.ownership) && store == old(store)
      ensures store <= old(store) && StoreDiscipline(old(Now()), Now())
      ensures ok && !old(CaValid(files, now)) ==> forall c | old(files).ownership.Names(c) :: c !in store
    {
      CaValidExactly(files, now);
      if CaValid(files, now) {
        var c := files.caCertificate.value;
        ok := files.ownership.Names(c);
        if !ok {
          ok := Write(files.(ownership := Recorded(Sha1(c), Sha256(c))), fails(WriteRecord));
        }
        return ok;
      }
      ok := ReplaceCa(now, fails);
    }

    /** The part without a valid CA on disk: drops the recorded trust, then creates and records a new CA. */
    method ReplaceCa(now: int, fails: Faults) returns (ok: bool)
      requires Valid() && !CaValid(files, now)
      modifies this
      ensures Valid() && Extends(old(history), history, old(files).leaves.Keys)
      ensures ok == CanEnsureCa(old(files), old(store), now, fails)
      ensures files.leaves == old(files).leaves
      ensures ok ==> SoundCa(files, now) && CaIssuedAt(files, now) && files.ownership.Names(files.caCertificate.value)
      ensures store <= old(store) && StoreDiscipline(old(Now()), Now())
      ensures ok ==> forall c | old(files).ownership.Names(c) :: c !in store
    {
      if files.ownership.Recorded? {
        var removed := RemoveRecordedTrustEntry(fails);
        if !removed {
          return false;
        }
      }
      ok := CreateRoot(now, fails);
      if !ok {
        return false;
      }
      var c := files.caCertificate.value;
      ok := Write(files.(ownership := Recorded(Sha1(c), Sha256(c))), fails(WriteRecord));
    }

    method CreateRoot(now: int, fails: Faults) returns (ok: bool)
      requires Valid() && installed == {}
      modifies this
      ensures Valid() && installed == {} && store == old(store)
      ensures Extends(old(history), history, old(files).leaves.Keys)
      ensures ok <==> !fails(CreateDirectory) && !fails(GenerateCaKey) && !fails(WriteCaKey) &&
                      !fails(WriteCaCertificate)
      ensures files.leaves == old(files).leaves && files.ownership == old(files).ownership
      ensures ok ==> SoundCa(files, now) && CaIssuedAt(files, now)
    {
      ok := Write(files.(present := true), fails(CreateDirectory));
      if !ok || fails(GenerateCaKey) {
        return false;
      }
      var id: nat, serial: nat :| true;
      var key := Key(id, ROOT_KEY_BITS);
      var c := Certificate(serial, CA_NAME, CA_NAME, key, key, true, [], false,
                           now, now + ROOT_VALIDITY_DAYS * DAY);
      ok := Write(files.(caKey := Some(key)), fails(WriteCaKey));
      if ok {
        ok := Write(files.(caCertificate := Some(c)), fails(WriteCaCertificate));
      }
    }

    method InstallTrustEntry(fails: Faults) returns (ok: bool)
      requires Valid()
      requires files.caCertificate.Some? ==> files.ownership.Names(files.caCertificate.value)
      modifies this
      ensures Valid() && Extends(old(history), history, old(files).leaves.Keys)
      ensures files == old(files)
      ensures ok <==> !fails(OpenStoreToAdd) && files.caCertificate.Some? &&
                      (files.caCertificate.value in old(store) || !fails(AddToStore))
      ensures store == if ok then old(store) + {files.caCertificate.value} else old(store)
    {
      if fails(OpenStoreToAdd) || files.caCertificate.None? {
        return false;
      }
      var c := files.caCertificate.value;
      if c in store {
        return true;
      }
      if fails(AddToStore) {
        return false;
      }
      store := store + {c};
      installed := installed + {c};
      foreign, history := false, history + [Snapshot(files, store, installed, false)];
      return true;
    }

    /** Creates or validates the CA and trusts it. */
    method Provision(now: int, fails: Faults) returns (ok: bool)
      requires Valid()
      modifies this
      ensures Valid() && Extends(old(history), history, old(files).leaves.Keys)
      ensures files.leaves == old(files).leaves
      ensures ok ==> Ready(now) && files.ownership.Names(files.caCertificate.value)
      ensures ok ==> CanEnsureCa(old(files), old(store), now, fails) && !fails(OpenStoreToAdd)
      ensures CanEnsureCa(old(files), old(store), now, fails) && !fails(OpenStoreToAdd) && !fails(AddToStore) ==> ok
      ensures StoreDiscipline(old(Now()), Now())
    {
      ok := EnsureCaFiles(now, fails);
      if ok {
        ok := InstallTrustEntry(fails);
      }
    }

    method RemoveRecordedTrustEntry(fails: Faults) returns (ok: bool)
      requires Valid()
      modifies this
      ensures Valid() && Extends(old(history), history, old(files).leaves.Keys)
      ensures files == old(files) && ok == CanRemoveEntry(old(files), old(store), fails)
      ensures ok ==> installed == {} && forall c | files.ownership.Names(c) :: c !in store
      ensures store <= old(store) && forall c | c in old(store) && c !in store :: files.ownership.Names(c)
      ensures forall c | c in old(store) ::
                (ok && files.ownership == Recorded(Sha1(c), Sha256(c)) ==> c !in store) &&
                (c !in store ==> files.ownership == Recorded(Sha1(c), Sha256(c)))
    {
      if files.ownership.NoRecord? {
        return !files.present;
      }
      if files.ownership.sha1 == Blank || files.ownership.sha256 == Blank || fails(OpenStoreToRemove) {
        return false;
      }
      var pending := store;
      while pending != {}
        invariant pending <= store == old(store) && Now() == old(Now()) && history == old(history)
        invariant forall c | c in store - pending :: !files.ownership.Names(c)
      {
        var current :| current in pending;
        pending := pending - {current};
        if files.ownership.Names(current) {
          if fails(DeleteFromStore) {
            return false;
          }
          store := store - {current};
          installed := installed - {current};
          foreign, history := false, history + [Snapshot(files, store, installed, false)];
          return true;
        }
      }
      return true;
    }

    /** Removes the recorded trust entry, then the whole directory. */
    method Remove(fails: Faults, left: Leftover) returns (ok: bool)
      requires Valid()
      modifies this
      ensures Valid() && Extends(old(history), history, {})
      ensures ok == (CanRemoveEntry(old(files), old(store), fails) && !fails(DeleteDirectory))
      ensures ok ==> installed == {} && files == NO_FILES
      ensures ok ==> !files.present && files.caCertificate.None? && files.caKey.None? &&
                     files.ownership.NoRecord? && files.leaves == map[]
      ensures ok ==> forall c | old(files).ownership.Names(c) :: c !in store
      ensures store <= old(store) && forall c | c in old(store) && c !in store :: old(files).ownership.Names(c)
    {
      ok := RemoveRecordedTrustEntry(fails);
      if !ok {
        return false;
      }
      if fails(DeleteDirectory) {
        files := files.(
          caCertificate := if left.certificate then files.caCertificate else None,
          caKey := if left.key then files.caKey else None,
          ownership := if left.record then files.ownership else NoRecord,
          leaves := map file | file in files.leaves && file in left.leaves :: files.leaves[file]);
      } else {
        files := NO_FILES;
      }
      foreign, history := false, history + [Snapshot(files, store, installed, false)];
      return !fails(DeleteDirectory);
    }

    method CreateLeaf(hostname: string, now: int, fails: Faults) returns (ok: bool)
      requires Valid() && ValidHostname(hostname)
      modifies this
      ensures Valid() && Extends(old(history), history, old(files).leaves.Keys)
      ensures store == old(store) && files == old(files).(leaves := files.leaves)
      ensures OnlyThisHost(old(files).leaves, files.leaves, hostname)
      ensures ok <==> CaValid(files, now) && CanCreateLeaf(hostname, fails)
      ensures ok ==> SiteCertificateValid(files, hostname, 0, now)
      ensures ok ==> SoundLeaf(files, hostname, now) && LeafIssuedAt(files, hostname, now)
    {
      if !CaValid(files, now) || fails(GenerateLeafKey(hostname)) {
        return false;
      }
      var id: nat, serial: nat :| true;
      var key, ca := Key(id, LEAF_KEY_BITS), files.caCertificate.value;
      var leaf := Certificate(serial, hostname, ca.subject, key, files.caKey.value, false, [hostname], true,
                              now, now + LEAF_VALIDITY_DAYS * DAY);
      NewLeafIsSound(files, hostname, key, leaf, now);
      ok := WritePair(hostname, key, leaf, fails);
    }

    /** The key first, then the certificate. */
    method WritePair(hostname: string, key: Key, leaf: Certificate, fails: Faults) returns (ok: bool)
      requires Valid()
      modifies this
      ensures Valid() && Extends(old(history), history, old(files).leaves.Keys)
      ensures store == old(store) && installed == old(installed) && files == old(files).(leaves := files.leaves)
      ensures ok == (!fails(WriteLeafKey(hostname)) && !fails(WriteLeafCertificate(hostname)))
      ensures files.leaves == (
                if fails(WriteLeafKey(hostname)) then old(files).leaves
                else if !ok then old(files).leaves[KeyFile(hostname) := KeyPem(key)]
                else old(files).leaves[KeyFile(hostname) := KeyPem(key)]
                                      [CertificateFile(hostname) := CertificatePem(leaf)])
    {
      ok := Write(files.(leaves := files.leaves[KeyFile(hostname) := KeyPem(key)]), fails(WriteLeafKey(hostname)));
      if ok {
        ok := Write(files.(leaves := files.leaves[CertificateFile(hostname) := CertificatePem(leaf)]),
                    fails(WriteLeafCertificate(hostname)));
      }
    }

    /** Issues or renews the leaf of one host, unless a valid one has more than 30 days left. */
    method EnsureSiteCertificate(hostname: string, now: int, fails: Faults) returns (ok: bool)
      requires Valid()
      modifies this
      ensures Valid() && Extends(old(history), history, old(files).leaves.Keys)
      ensures !ValidHostname(hostname) ==> !ok && files == old(files) && store == old(store)
      ensures ok ==> CanEnsureCa(old(files), old(store), now, fails)
      ensures CanIssueLeaf(old(files), old(store), hostname, now, fails) ==> ok
      ensures old(CaValid(files, now)) ==> ok == CanIssueLeaf(old(files), old(store), hostname, now, fails)
      ensures old(CaValid(files, now)) ==> SameCa(old(files), files) && store == old(store)
      ensures ok ==> CaValid(files, now) && SiteCertificateValid(files, hostname, RENEWAL_DAYS, now)
      ensures ok ==> SoundCa(files, now) && SoundLeaf(files, hostname, now)
      ensures ok ==> if SoundLeaf(files.(leaves := old(files).leaves), hostname, now)
                     then files.leaves == old(files).leaves else LeafIssuedAt(files, hostname, now)
      ensures ok ==> files.ownership.Names(files.caCertificate.value)
      ensures OnlyThisHost(old(files).leaves, files.leaves, hostname)
      ensures old(CaValid(files, now) && SiteCertificateValid(files, hostname, RENEWAL_DAYS, now)) ==>
                files == old(files).(ownership := files.ownership)
      ensures store <= old(store) && StoreDiscipline(old(Now()), Now())
      ensures ok && !old(CaValid(files, now)) ==> forall c | old(files).ownership.Names(c) :: c !in store
    {
      if !ValidHostname(hostname) {
        return false;
      }
      ok := EnsureCaFiles(now, fails);
      if !ok {
        return false;
      }
      SiteCertificateValidExactly(files, hostname, now);
      if SiteCertificateValid(files, hostname, RENEWAL_DAYS, now) {
        return true;
      }
      ok := CreateLeaf(hostname, now, fails);
      if !ok || !SiteCertificateValid(files, hostname, 0, now) {
        return false;
      }
      FreshLeafLasts(files, hostname, now, now);
    }

    /** Deletes the files of hostnames not listed; stops at the first file it cannot delete. */
    method RemoveUnusedSiteCertificates(hostnames: seq<string>, fails: Faults) returns (ok: bool)
      requires Valid()
      modifies this
      ensures Valid() && Extends(old(history), history, Retained(old(files).leaves, hostnames).Keys)
      ensures store == old(store) && files == old(files).(leaves := files.leaves)
      ensures forall file | file in files.leaves ::
                file in old(files).leaves && files.leaves[file] == old(files).leaves[file]
      ensures Retained(old(files).leaves, hostnames).Keys <= files.leaves.Keys
      ensures ok ==> files.leaves == Retained(old(files).leaves, hostnames)
      ensures ok == CanCleanUp(old(files).leaves, hostnames, fails)
    {
      if fails(ReadDirectory) {
        return false;
      }
      ghost var leaves, kept := files.leaves, Retained(files.leaves, hostnames).Keys;
      var pending := files.leaves.Keys;
      RemainingEnds(leaves, hostnames, pending);
      while pending != {}
        invariant Valid() && Extends(old(history), history, kept)
        invariant store == old(store) && files == old(files).(leaves := files.leaves)
        invariant pending <= leaves.Keys && files.leaves == Remaining(leaves, hostnames, pending)
        invariant forall file | file in leaves && Obsolete(file, hostnames) ::
                    file in pending || !fails(DeleteFile(file))
      {
        var file :| file in pending;
        RemainingStep(leaves, hostnames, pending, file);
        pending := pending - {file};
        if Obsolete(file, hostnames) {
          ghost var between := history;
          var rest := Without(files.leaves, file);
          RemainingEnds(leaves, hostnames, pending);
          ok := Write(files.(leaves := rest), fails(DeleteFile(file)));
          ExtendsFurther(old(history), between, history, kept, rest.Keys);
          if !ok {
            RemainingEnds(leaves, hostnames, pending + {file});
            return false;
          }
        }
      }
      RemainingEnds(leaves, hostnames, pending);
      return true;
    }

    /** Whether the CA files are valid and the exact CA certificate is trusted. */
    ghost predicate Ready(now: int)
      reads this
    {
      CaValid(files, now) && files.caCertificate.value in store
    }

    method Status(now: int, fails: Faults) returns (ready: bool)
      ensures ready <==> Ready(now) && !fails(OpenStoreToRead)
      ensures ready <==> SoundCa(files, now) && files.caCertificate.value in store && !fails(OpenStoreToRead)
    {
      ready := CaValid(files, now) && !fails(OpenStoreToRead) && files.caCertificate.value in store;
    }

    /** What others may do between calls: change the store at will, lose or damage CA files, and put
        anything into the leaf files. Only the ownership record is left alone. */
    method Interfere(others: set<Certificate>, losesCertificate: bool, losesKey: bool, leaves: map<string, LeafFile>)
      requires Valid()
      modifies this
      ensures Valid() && history == old(history) + [Now()] && foreign
      ensures installed <= old(installed)
      ensures store == others && files.leaves == leaves
    {
      store := others;
      installed := installed * others;
      files := files.(caCertificate := if losesCertificate then None else files.caCertificate,
                      caKey := if losesKey then None else files.caKey, leaves := leaves);
      foreign, history := true, history + [Snapshot(files, store, installed, true)];
    }

    /** Ownership over every run: any calls in any order, each failing anywhere, at any times, with
        foreign changes in between. Every state a crash can leave is owned. */
    method Run(calls: seq<Call>)
      requires Valid()
      modifies this
      ensures Valid() && Continues(old(history), history)
      ensures (forall call | call in calls :: !call.Foreign?) ==> Extends(old(history), history, {})
    {
      for k := 0 to |calls|
        invariant Valid() && Continues(old(history), history)
        invariant (forall call | call in calls[..k] :: !call.Foreign?) ==> Extends(old(history), history, {})
      {
        NextPrefix(calls, k);
        assert calls[k] in calls[..k + 1];
        ghost var between := history;
        Do(calls[k]);
        ContinuesFurther(old(history), between, history);
        if forall call | call in calls[..k + 1] :: !call.Foreign? {
          assert forall call | call in calls[..k] :: call in calls[..k + 1];
          ExtendsFurther(old(history), between, history, {}, {});
        }
      }
      assert calls[..|calls|] == calls;
    }

    method Do(call: Call)
      requires Valid()
      modifies this
      ensures Valid() && Continues(old(history), history)
      ensures !call.Foreign? ==> Extends(old(history), history, {})
    {
      match call {
        case Provision(now, fails) => var _ := Provision(now, fails);
        case ProvisionFilesOnly(now, fails) => var _ := EnsureCaFiles(now, fails);
        case EnsureSite(hostname, now, fails) => var _ := EnsureSiteCertificate(hostname, now, fails);
        case RemoveUnused(hostnames, fails) => var _ := RemoveUnusedSiteCertificates(hostnames, fails);
        case Remove(fails, left) => var _ := Remove(fails, left);
        case Foreign(others, noCertificate, noKey, leaves) => Interfere(others, noCertificate, noKey, leaves);
      }
    }
  }

  datatype Call =
    | Provision(now: int, fails: Faults)
    | ProvisionFilesOnly(now: int, fails: Faults)
    | EnsureSite(hostname: string, now: int, fails: Faults)
    | RemoveUnused(hostnames: seq<string>, fails: Faults)
    | Remove(fails: Faults, left: Leftover)
    | Foreign(others: set<Certificate>, noCertificate: bool, noKey: bool, leaves: map<string, LeafFile>)

  /** Nothing but the two files of this host changes, and neither disappears. */
  ghost predicate OnlyThisHost(before: map<string, LeafFile>, after: map<string, LeafFile>, hostname: string) {
    && before.Keys <= after.Keys
    && forall file | file in after && file != hostname + ".crt.pem" && file != hostname + ".key.pem" ::
         file in before && after[file] == before[file]
  }

  lemma LeafExtensionsDiffer(hostname: string)
    ensures CertificateFile(hostname) != KeyFile(hostname)
  {
    assert CertificateFile(hostname)[|hostname| + 1] == 'c' && KeyFile(hostname)[|hostname| + 1] == 'k';
  }
}
