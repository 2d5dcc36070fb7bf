// What publication means to a browser: the hosts line and the DNS answer of a site agree, and the files
// of its certificate lead back to it.
module Publication {
  import opened Options
  import opened Labels
  import opened SiteRegistry
  import opened HostsFile
  import opened Dns
  import opened DnsMessage
  import Tls = CertificateManager

  function Decimal(n: nat): string {
    (if n < 10 then "" else Decimal(n / 10)) + [('0' as int + n % 10) as char]
  }

  /** An IPv4 address in dotted decimal notation. */
  function Dotted(address: seq<Byte>): string {
    if address == [] then ""
    else if |address| == 1 then Decimal(address[0])
    else Decimal(address[0]) + "." + Dotted(address[1..])
  }

  lemma LoopbackIsDotted()
    ensures Dotted(LOOPBACK) == "127.0.0.1"
  {
    assert Decimal(127) == "127" && Decimal(0) == "0" && Decimal(1) == "1";
    assert LOOPBACK[1..] == [0, 0, 1] && LOOPBACK[2..] == [0, 1] && LOOPBACK[3..] == [1];
    assert Dotted([1]) == "1";
    assert Dotted([0, 1]) == "0.1" by { assert [0, 1][1..] == [1]; }
    assert Dotted([0, 0, 1]) == "0.0.1" by { assert [0, 0, 1][1..] == [0, 1]; }
  }

  lemma JoinOfTwo(a: seq<Byte>, b: seq<Byte>)
    ensures Join([a, b]) == Text(a) + "." + Text(b)
  {
    assert [a, b][..1] == [a];
  }

  lemma SplitHostname(hostname: string)
    requires ValidHostname(hostname)
    ensures var folder := hostname[..|hostname| - |SITE_SUFFIX|];
            && hostname == folder + "." + "test" && 1 <= |folder| <= 63
            && forall i | 0 <= i < |folder| :: folder[i] as int < 256 && folder[i] != '.'
  {
    var at := |hostname| - |SITE_SUFFIX|;
    assert hostname == hostname[..at] + hostname[at..];
    assert SITE_SUFFIX == "." + "test";
  }

  /** Every site hostname can be asked for: it is the join of two labels of legal length. */
  lemma HostnameIsAskable(hostname: string)
    requires ValidHostname(hostname)
    ensures exists name: Name :: WireName(name) && DotFree(name) && |name| == 2 && Join(name) == hostname
  {
    SplitHostname(hostname);
    var folder, top := Octets(hostname[..|hostname| - |SITE_SUFFIX|]), Octets("test");
    JoinOfTwo(folder, top);
    assert DotFree([folder, top]);
  }

  /** A query for the address of this host, in any letter case. */
  predicate AsksForAddress(query: seq<Byte>, hostname: string) {
    && AnswerableQuestion(query).Some?
    && SameUpToCase(Join(AnswerableQuestion(query).value.name), hostname)
    && Read16(query, AnswerableQuestion(query).value.next) == TYPE_A
  }

  lemma PublishedIsCertifiable(listing: Listing, hostname: string)
    requires hostname in ValidHostnames(ScannedSites(listing))
    ensures ValidHostname(hostname)
  {
    ScanIsPublishable(listing);
  }

  /** Clean-up reads exactly this hostname out of the names of its leaf files, and keeps both. */
  lemma PublishedLeafIsKept(listing: Listing, hostname: string)
    requires hostname in ValidHostnames(ScannedSites(listing))
    ensures LeafHostname(CertificateFile(hostname)) == Some(hostname) == LeafHostname(KeyFile(hostname))
    ensures !Tls.Obsolete(CertificateFile(hostname), ValidHostnames(ScannedSites(listing)))
    ensures !Tls.Obsolete(KeyFile(hostname), ValidHostnames(ScannedSites(listing)))
  {
    PublishedIsCertifiable(listing, hostname);
    LeafFilesRecoverHostname(hostname);
  }

  function Entry(address: seq<Byte>, hostname: string): string {
    Dotted(address) + "\t" + hostname + "\t" + HOSTS_TAG
  }

  lemma HostsLineIsEntry(hostname: string)
    ensures HostsLine(hostname) == Entry(LOOPBACK, hostname)
  {
    LoopbackIsDotted();
    var address, tab := "127.0.0.1", "\t";
    assert "127.0.0.1\t" == address + tab;
  }

  lemma SyncedEntry(text: string, hostnames: seq<string>, hostname: string)
    requires Printable(hostnames) && hostname in hostnames
    ensures HostsLine(hostname) in Naming(Lines(Sync(text, hostnames)), true)
  {
    SyncKeepsForeignLines(text, hostnames);
    var i :| 0 <= i < |hostnames| && hostnames[i] == hostname;
    assert HostsLines(hostnames)[i] == HostsLine(hostname);
  }

  /** The address the hosts line of a published hostname gives is the one its A query is answered with. */
  lemma HostsAndDnsAgree(listing: Listing, text: string, hostname: string, query: seq<Byte>)
    requires hostname in ValidHostnames(ScannedSites(listing)) && AsksForAddress(query, hostname)
    ensures ReadMessage(Response(query)).Some? && |ReadMessage(Response(query)).value.answers| == 1
    ensures var answer := ReadMessage(Response(query)).value.answers[0];
            && answer.name == AnswerableQuestion(query).value.name
            && answer.rtype == TYPE_A && answer.rclass == CLASS_IN
            && Entry(answer.rdata, hostname) in
                 Naming(Lines(Sync(text, ValidHostnames(ScannedSites(listing)))), true)
  {
    PublishedIsCertifiable(listing, hostname);
    SiteResolvesToLoopback(query, hostname);
    ScanIsPublishable(listing);
    PublishableIsPrintable(ScannedSites(listing));
    SyncedEntry(text, ValidHostnames(ScannedSites(listing)), hostname);
    HostsLineIsEntry(hostname);
  }
}
