// DNS labels and `.test` hostnames: the folder-name check of the site registry, the hostname check
// of the certificate manager, and the filename search that certificate clean-up relies on.
module Labels {
  import opened Options

  const SITE_SUFFIX := ".test"
  const CERTIFICATE_EXTENSION := ".crt.pem"
  const KEY_EXTENSION := ".key.pem"
  const LEAF_MARKER := ".test."

  function LowerChar(c: char): char {
    if 'A' <= c <= 'Z' then (c as int + 32) as char else c
  }

  /** `std::tolower` over a whole string, in the "C" locale. */
  function Lower(s: string): (r: string)
    ensures |r| == |s|
    ensures forall i | 0 <= i < |s| :: r[i] == LowerChar(s[i])
  {
    seq(|s|, i requires 0 <= i < |s| => LowerChar(s[i]))
  }

  /** The same character, or one letter once as a capital and once as a small letter. */
  predicate SameLetter(a: char, b: char) {
    || a == b
    || ('A' <= a <= 'Z' && b as int == a as int + 32)
    || ('A' <= b <= 'Z' && a as int == b as int + 32)
  }

  /** Equal up to letter case, character by character. */
  predicate SameUpToCase(a: string, b: string) {
    |a| == |b| && forall i | 0 <= i < |a| :: SameLetter(a[i], b[i])
  }

  lemma TailsSameUpToCase(a: string, b: string, from: nat)
    requires SameUpToCase(a, b) && from <= |a|
    ensures SameUpToCase(a[from..], b[from..])
  {
    forall i | 0 <= i < |a| - from ensures SameLetter(a[from..][i], b[from..][i]) {
      assert SameLetter(a[from + i], b[from + i]);
    }
  }

  predicate NoCapitals(s: string) {
    forall i | 0 <= i < |s| :: !('A' <= s[i] <= 'Z')
  }

  /** The lowercase form is the one spelling of a string that has no capitals. */
  lemma LowerIsTheSmallSpelling(s: string, small: string)
    ensures small == Lower(s) <==> NoCapitals(small) && SameUpToCase(small, s)
  {
    if NoCapitals(small) && SameUpToCase(small, s) {
      forall i | 0 <= i < |s| ensures small[i] == Lower(s)[i] {
        assert SameLetter(small[i], s[i]);
      }
    }
  }

  /** Two strings have the same lowercase form exactly when they are equal up to letter case. */
  lemma LowerFoldsCase(a: string, b: string)
    ensures Lower(a) == Lower(b) <==> SameUpToCase(a, b)
  {
    if Lower(a) == Lower(b) {
      forall i | 0 <= i < |a| ensures SameLetter(a[i], b[i]) {
        assert Lower(a)[i] == Lower(b)[i];
      }
    }
    if SameUpToCase(a, b) {
      forall i | 0 <= i < |a| ensures Lower(a)[i] == Lower(b)[i] {
        assert SameLetter(a[i], b[i]);
      }
    }
  }

  predicate IsLabelChar(c: char) {
    'a' <= c <= 'z' || 'A' <= c <= 'Z' || '0' <= c <= '9' || c == '-'
  }

  /** The folder-name check: the empty string means the name is a valid DNS label. */
  function ValidateDnsLabel(folder: string): string {
    if folder == "" then "Folder name is empty."
    else if |folder| > 63 then "Folder name exceeds the 63-character DNS label limit."
    else if folder[0] == '-' || folder[|folder| - 1] == '-' then "DNS labels cannot start or end with a hyphen."
    else if exists i | 0 <= i < |folder| :: !IsLabelChar(folder[i]) then
      "Folder name must contain only ASCII letters, digits, and hyphens."
    else ""
  }

  predicate ValidLabel(folder: string) {
    ValidateDnsLabel(folder) == ""
  }

  function Hostname(folder: string): string {
    Lower(folder) + SITE_SUFFIX
  }

  /** A folder is published under its own spelling with every capital made small, and ".test" behind it; a
      folder without capitals is published under its own name. */
  lemma HostnameKeepsSpelling(folder: string)
    ensures SameUpToCase(Hostname(folder), folder + ".test") && NoCapitals(Hostname(folder))
    ensures NoCapitals(folder) ==> Hostname(folder) == folder + ".test"
  {
    LowerIsTheSmallSpelling(folder, Lower(folder));
    if NoCapitals(folder) {
      LowerIsTheSmallSpelling(folder, folder);
    }
  }

  /** Two folders share a hostname exactly when their names are equal up to letter case. */
  lemma SameHostnameExactly(a: string, b: string)
    ensures Hostname(a) == Hostname(b) <==> SameUpToCase(a, b)
  {
    LowerFoldsCase(a, b);
    assert Lower(a) == Hostname(a)[..|a|] && Lower(b) == Hostname(b)[..|b|];
  }

  /** The certificate manager's own check of a hostname, written independently of the one above. */
  predicate ValidHostname(hostname: string) {
    && |hostname| > |SITE_SUFFIX|
    && hostname[|hostname| - |SITE_SUFFIX|..] == SITE_SUFFIX
    && var folder := hostname[..|hostname| - |SITE_SUFFIX|];
       && |folder| <= 63 && folder[0] != '-' && folder[|folder| - 1] != '-'
       && forall i | 0 <= i < |folder| :: 'a' <= folder[i] <= 'z' || '0' <= folder[i] <= '9' || folder[i] == '-'
  }

  /** A folder name passes the registry exactly when its hostname passes the certificate manager. */
  lemma PublishedExactlyWhenCertifiable(folder: string)
    ensures ValidLabel(folder) <==> ValidHostname(Hostname(folder))
  {
    var lower := Lower(folder);
    assert Hostname(folder)[..|folder|] == lower;
    if ValidLabel(folder) {
      forall i | 0 <= i < |folder|
        ensures 'a' <= lower[i] <= 'z' || '0' <= lower[i] <= '9' || lower[i] == '-'
      {
        assert IsLabelChar(folder[i]);
      }
    }
    if ValidHostname(Hostname(folder)) {
      forall i | 0 <= i < |folder| ensures IsLabelChar(folder[i]) {
        assert lower[i] == LowerChar(folder[i]);
      }
    }
  }

  lemma FolderOfValidHostname(hostname: string)
    requires ValidHostname(hostname)
    ensures var folder := hostname[..|hostname| - 5];
            ValidLabel(folder) && NoCapitals(folder) && hostname == folder + ".test"
  {
    var folder := hostname[..|hostname| - 5];
    HostnameKeepsSpelling(folder);
    assert hostname == folder + hostname[|hostname| - 5..];
    PublishedExactlyWhenCertifiable(folder);
  }

  /** The certificate manager takes exactly the valid labels without capitals, followed by ".test". */
  lemma ValidHostnameExactly(hostname: string)
    ensures ValidHostname(hostname) <==>
            exists folder :: ValidLabel(folder) && NoCapitals(folder) && hostname == folder + ".test"
  {
    if ValidHostname(hostname) {
      FolderOfValidHostname(hostname);
    }
    forall folder | ValidLabel(folder) && NoCapitals(folder) && hostname == folder + ".test"
      ensures ValidHostname(hostname)
    {
      HostnameKeepsSpelling(folder);
      PublishedExactlyWhenCertifiable(folder);
    }
  }

  predicate OccursAt(s: string, pattern: string, i: nat) {
    i + |pattern| <= |s| && s[i..i + |pattern|] == pattern
  }

  /** `std::string::find`: the first occurrence at or after `from`. */
  function FindFrom(s: string, pattern: string, from: nat): (r: Option<nat>)
    requires from <= |s|
    ensures r.Some? ==> from <= r.value && OccursAt(s, pattern, r.value)
    ensures r.Some? ==> forall j | from <= j < r.value :: !OccursAt(s, pattern, j)
    ensures r.None? ==> forall j | from <= j :: !OccursAt(s, pattern, j)
    decreases |s| - from
  {
    if OccursAt(s, pattern, from) then Some(from)
    else if from == |s| then None
    else FindFrom(s, pattern, from + 1)
  }

  predicate Contains(s: string, pattern: string) {
    FindFrom(s, pattern, 0).Some?
  }

  function CertificateFile(hostname: string): string {
    hostname + CERTIFICATE_EXTENSION
  }

  function KeyFile(hostname: string): string {
    hostname + KEY_EXTENSION
  }

  /** The hostname clean-up reads out of a file name, if it finds one. */
  function LeafHostname(filename: string): Option<string> {
    match FindFrom(filename, LEAF_MARKER, 0)
    case None => None
    case Some(i) => Some(filename[..i + |LEAF_MARKER| - 1])
  }

  lemma SuffixByCharacter(hostname: string)
    requires ValidHostname(hostname)
    ensures var at := |hostname| - |SITE_SUFFIX|;
            && hostname[at] == '.' && hostname[at + 1] == 't' && hostname[at + 2] == 'e'
            && hostname[at + 3] == 's' && hostname[at + 4] == 't'
            && forall i | 0 <= i < at :: hostname[i] != '.'
  {
    var at := |hostname| - |SITE_SUFFIX|;
    assert forall i | 0 <= i < |SITE_SUFFIX| :: hostname[at..][i] == hostname[at + i];
    assert forall i | 0 <= i < at :: hostname[..at][i] == hostname[i];
  }

  lemma MarkerByCharacter(s: string, i: nat)
    requires i + 6 <= |s|
    requires s[i] == '.' && s[i + 1] == 't' && s[i + 2] == 'e' && s[i + 3] == 's' && s[i + 4] == 't' && s[i + 5] == '.'
    ensures OccursAt(s, LEAF_MARKER, i)
  {
    var found := s[i..i + 6];
    assert found == [found[0], found[1], found[2], found[3], found[4], found[5]];
  }

  lemma OtherCharacter(s: string, pattern: string, i: nat)
    requires pattern != "" && i < |s| && s[i] != pattern[0]
    ensures !OccursAt(s, pattern, i)
  {
    if i + |pattern| <= |s| {
      assert s[i..i + |pattern|][0] == s[i];
    }
  }

  lemma FindsHostname(hostname: string, extension: string)
    requires ValidHostname(hostname) && extension != "" && extension[0] == '.'
    ensures LeafHostname(hostname + extension) == Some(hostname)
  {
    var filename, at := hostname + extension, |hostname| - |SITE_SUFFIX|;
    SuffixByCharacter(hostname);
    assert forall i | 0 <= i < |hostname| :: filename[i] == hostname[i];
    assert filename[|hostname|] == '.';
    MarkerByCharacter(filename, at);
    forall j | 0 <= j < at ensures !OccursAt(filename, LEAF_MARKER, j) {
      OtherCharacter(filename, LEAF_MARKER, j);
    }
    assert FindFrom(filename, LEAF_MARKER, 0) == Some(at);
    assert filename[..|hostname|] == hostname;
  }

  /** The search recovers a valid hostname from both of its file names, so no two hosts share a file. */
  lemma LeafFilesRecoverHostname(hostname: string)
    requires ValidHostname(hostname)
    ensures LeafHostname(CertificateFile(hostname)) == Some(hostname)
    ensures LeafHostname(KeyFile(hostname)) == Some(hostname)
  {
    FindsHostname(hostname, CERTIFICATE_EXTENSION);
    FindsHostname(hostname, KEY_EXTENSION);
  }
}
