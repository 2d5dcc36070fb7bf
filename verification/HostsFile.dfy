// The hosts file, at text level: the engine owns the lines carrying its tag, rewrites them from the
// site table, and keeps every other line in order.
module HostsFile {
  import opened Options
  import opened Labels
  import opened Sequences
  import opened SiteRegistry

  const HOSTS_TAG := "# Appytizer"

  function HostsLine(hostname: string): string {
    "127.0.0.1\t" + hostname + "\t" + HOSTS_TAG
  }

  function HostsLines(hostnames: seq<string>): (r: seq<string>)
    ensures |r| == |hostnames|
  {
    seq(|hostnames|, i requires 0 <= i < |hostnames| => HostsLine(hostnames[i]))
  }

  // ----- Text and lines -----

  /** `std::getline`: the text up to the first newline, and what follows it. */
  function GetLine(text: string): (r: (string, string))
    requires text != ""
    ensures |r.1| < |text|
  {
    match FindFrom(text, "\n", 0)
    case None => (text, "")
    case Some(i) => (text[..i], text[i + 1..])
  }

  function Lines(text: string): seq<string>
    decreases |text|
  {
    if text == "" then [] else [GetLine(text).0] + Lines(GetLine(text).1)
  }

  function Print(lines: seq<string>): string {
    if lines == [] then "" else lines[0] + "\n" + Print(lines[1..])
  }

  predicate OneLine(s: string) {
    '\n' !in s
  }

  predicate AllOneLine(lines: seq<string>) {
    forall i | 0 <= i < |lines| :: OneLine(lines[i])
  }

  lemma FindNewline(line: string, rest: string)
    requires OneLine(line)
    ensures FindFrom(line + "\n" + rest, "\n", 0) == Some(|line|)
  {
    var text := line + "\n" + rest;
    assert text[|line|..|line| + 1] == "\n";
    assert OccursAt(text, "\n", |line|);
    forall j | 0 <= j < |line| ensures !OccursAt(text, "\n", j) {
      assert text[j] == line[j] && line[j] in line;
      assert text[j..j + 1][0] == text[j];
    }
  }

  lemma FirstLine(line: string, rest: string)
    requires OneLine(line)
    ensures Lines(line + "\n" + rest) == [line] + Lines(rest)
  {
    var text := line + "\n" + rest;
    FindNewline(line, rest);
    assert text[..|line|] == line && text[|line| + 1..] == rest;
  }

  /** Printed newline-free lines in front of a text are read back as the same lines. */
  lemma {:induction false} LinesAfterPrint(lines: seq<string>, text: string)
    requires AllOneLine(lines)
    ensures Lines(Print(lines) + text) == lines + Lines(text)
    decreases |lines|
  {
    if lines == [] {
      assert Print(lines) + text == text && lines + Lines(text) == Lines(text);
    } else {
      Associative(lines[0] + "\n", Print(lines[1..]), text);
      FirstLine(lines[0], Print(lines[1..]) + text);
      LinesAfterPrint(lines[1..], text);
      Associative([lines[0]], lines[1..], Lines(text));
      assert [lines[0]] + lines[1..] == lines;
    }
  }

  /** Printing newline-free lines and reading them back gives the same lines. */
  lemma LinesOfPrint(lines: seq<string>)
    requires AllOneLine(lines)
    ensures Lines(Print(lines)) == lines
  {
    LinesAfterPrint(lines, "");
    assert Print(lines) + "" == Print(lines) && lines + [] == lines;
  }

  lemma GetLineSplits(text: string)
    requires text != ""
    ensures OneLine(GetLine(text).0)
    ensures text == GetLine(text).0 + "\n" + GetLine(text).1 || (text == GetLine(text).0 && GetLine(text).1 == "")
  {
    match FindFrom(text, "\n", 0)
    case None =>
      forall i | 0 <= i < |text| ensures text[i] != '\n' {
        NoNewlineAt(text, i);
      }
    case Some(at) =>
      forall i | 0 <= i < at ensures text[i] != '\n' {
        NoNewlineAt(text, i);
      }
      assert text == text[..at] + text[at..at + 1] + text[at + 1..];
  }

  lemma NoNewlineAt(text: string, i: nat)
    requires i < |text| && !OccursAt(text, "\n", i)
    ensures text[i] != '\n'
  {
    assert text[i..i + 1] == [text[i]];
  }

  /** Conversely, the lines of a text make up the whole text: printed, they give it back, closed by a newline
      if its last line was not. */
  lemma {:induction false} PrintOfLines(text: string)
    ensures AllOneLine(Lines(text))
    ensures Print(Lines(text)) == if text == "" || text[|text| - 1] == '\n' then text else text + "\n"
    decreases |text|
  {
    if text != "" {
      var (first, rest) := GetLine(text);
      GetLineSplits(text);
      PrintOfLines(rest);
      assert ([first] + Lines(rest))[1..] == Lines(rest);
      if text == first {
        assert text[|text| - 1] in first;
        assert first + "\n" + "" == first + "\n";
      } else if rest != "" {
        assert text[|text| - 1] == rest[|rest| - 1];
        Associative(first + "\n", rest, "\n");
      }
    }
  }

  lemma {:induction false} PrintConcat(a: seq<string>, b: seq<string>)
    ensures Print(a + b) == Print(a) + Print(b)
    decreases |a|
  {
    if a == [] {
      assert a + b == b;
    } else {
      TailOfConcat(a, b);
      PrintConcat(a[1..], b);
      Associative(a[0] + "\n", Print(a[1..]), Print(b));
    }
  }

  // ----- Ownership of lines -----

  /** The test of the read loop. */
  predicate Tagged(line: string) {
    Contains(line, HOSTS_TAG)
  }

  predicate TagAt(line: string, i: nat) {
    i + 11 <= |line| && line[i..i + 11] == "# Appytizer"
  }

  /** The eleven characters of the tag occur somewhere in the line. */
  predicate NamesAppytizer(line: string) {
    exists i | 0 <= i <= |line| :: TagAt(line, i)
  }

  /** The test finds them wherever they are, and nothing else. */
  lemma TaggedExactly(line: string)
    ensures Tagged(line) <==> NamesAppytizer(line)
  {
    assert forall i: nat :: TagAt(line, i) <==> OccursAt(line, HOSTS_TAG, i);
  }

  /** The lines that name Appytizer, or the others, in order. */
  function Naming(lines: seq<string>, wanted: bool): (r: seq<string>)
    ensures AllOneLine(lines) ==> AllOneLine(r)
  {
    if lines == [] then []
    else (if NamesAppytizer(lines[0]) == wanted then [lines[0]] else []) + Naming(lines[1..], wanted)
  }

  lemma {:induction false} NamingConcat(a: seq<string>, b: seq<string>, wanted: bool)
    ensures Naming(a + b, wanted) == Naming(a, wanted) + Naming(b, wanted)
    decreases |a|
  {
    if a == [] {
      assert a + b == b;
    } else {
      TailOfConcat(a, b);
      NamingConcat(a[1..], b, wanted);
      Associative(if NamesAppytizer(a[0]) == wanted then [a[0]] else [], Naming(a[1..], wanted), Naming(b, wanted));
    }
  }

  lemma {:induction false} NamingNaming(lines: seq<string>, wanted: bool)
    ensures Naming(Naming(lines, wanted), wanted) == Naming(lines, wanted)
    ensures Naming(Naming(lines, wanted), !wanted) == []
    decreases |lines|
  {
    if lines != [] {
      NamingNaming(lines[1..], wanted);
      var head := if NamesAppytizer(lines[0]) == wanted then [lines[0]] else [];
      NamingConcat(head, Naming(lines[1..], wanted), wanted);
      NamingConcat(head, Naming(lines[1..], wanted), !wanted);
    }
  }

  lemma HostsLineIsTagged(hostname: string)
    ensures NamesAppytizer(HostsLine(hostname))
  {
    var line := HostsLine(hostname);
    assert TagAt(line, |line| - 11);
  }

  lemma {:induction false} NamingHostsLines(hostnames: seq<string>)
    ensures Naming(HostsLines(hostnames), true) == HostsLines(hostnames)
    ensures Naming(HostsLines(hostnames), false) == []
    decreases |hostnames|
  {
    if hostnames != [] {
      HostsLineIsTagged(hostnames[0]);
      assert HostsLines(hostnames)[1..] == HostsLines(hostnames[1..]);
      NamingHostsLines(hostnames[1..]);
    }
  }

  // ----- Synchronization -----

  /** The text a completed synchronization leaves behind. */
  function Sync(text: string, hostnames: seq<string>): string {
    Print(Naming(Lines(text), false) + HostsLines(hostnames))
  }

  predicate Printable(hostnames: seq<string>) {
    AllOneLine(hostnames)
  }

  lemma LinesOfSync(text: string, hostnames: seq<string>)
    requires Printable(hostnames)
    ensures Lines(Sync(text, hostnames)) == Naming(Lines(text), false) + HostsLines(hostnames)
  {
    PrintOfLines(text);
    forall i | 0 <= i < |hostnames| ensures OneLine(HostsLines(hostnames)[i]) {
    }
    LinesOfPrint(Naming(Lines(text), false) + HostsLines(hostnames));
  }

  /** After a sync the foreign lines are the ones there before, in order, and the engine's own lines are
      exactly the entries of the hostnames. */
  lemma SyncKeepsForeignLines(text: string, hostnames: seq<string>)
    requires Printable(hostnames)
    ensures Naming(Lines(Sync(text, hostnames)), false) == Naming(Lines(text), false)
    ensures Naming(Lines(Sync(text, hostnames)), true) == HostsLines(hostnames)
  {
    LinesOfSync(text, hostnames);
    var kept := Naming(Lines(text), false);
    NamingConcat(kept, HostsLines(hostnames), false);
    NamingConcat(kept, HostsLines(hostnames), true);
    NamingNaming(Lines(text), false);
    NamingHostsLines(hostnames);
  }

  /** The lines of the new text are the old ones in which `# Appytizer` occurs nowhere, in order, and behind them
      one entry per hostname. */
  predicate SyncedLines(before: string, after: string, hostnames: seq<string>) {
    var others, lines := Naming(Lines(before), false), Lines(after);
    && |lines| == |others| + |hostnames|
    && others <= lines
    && forall i | 0 <= i < |hostnames| :: lines[|others| + i] == "127.0.0.1\t" + hostnames[i] + "\t# Appytizer"
  }

  lemma SyncReplacesEntries(text: string, hostnames: seq<string>)
    requires Printable(hostnames)
    ensures SyncedLines(text, Sync(text, hostnames), hostnames)
  {
    LinesOfSync(text, hostnames);
    forall i | 0 <= i < |hostnames|
      ensures HostsLines(hostnames)[i] == "127.0.0.1\t" + hostnames[i] + "\t# Appytizer"
    {
      Associative("127.0.0.1\t" + hostnames[i], "\t", "# Appytizer");
    }
  }

  /** Every line the entries of these hostnames make in the file carries the tag. */
  predicate EntriesTagged(hostnames: seq<string>) {
    AllTagged(Lines(Print(HostsLines(hostnames))))
  }

  predicate AllTagged(lines: seq<string>) {
    forall i | 0 <= i < |lines| :: NamesAppytizer(lines[i])
  }

  lemma {:induction false} NoneForeign(lines: seq<string>)
    ensures Naming(lines, false) == [] <==> AllTagged(lines)
    decreases |lines|
  {
    if lines != [] {
      NoneForeign(lines[1..]);
      assert AllTagged(lines) <==> NamesAppytizer(lines[0]) && AllTagged(lines[1..]) by {
        assert forall i | 1 <= i < |lines| :: lines[i] == lines[1..][i - 1];
      }
    }
  }

  /** What of a synced text the next sync takes for foreign. */
  lemma ForeignAfterSync(text: string, hostnames: seq<string>)
    ensures Naming(Lines(Sync(text, hostnames)), false) ==
            Naming(Lines(text), false) + Naming(Lines(Print(HostsLines(hostnames))), false)
  {
    var kept, entries := Naming(Lines(text), false), Print(HostsLines(hostnames));
    PrintOfLines(text);
    PrintConcat(kept, HostsLines(hostnames));
    LinesAfterPrint(kept, entries);
    NamingConcat(kept, Lines(entries), false);
    NamingNaming(Lines(text), false);
  }

  lemma LongerPrintDiffers(kept: seq<string>, more: seq<string>, entries: seq<string>)
    ensures Print(kept + more + entries) == Print(kept + entries) <==> more == []
  {
    PrintConcat(kept + more, entries);
    PrintConcat(kept, more);
    PrintConcat(kept, entries);
    if more == [] {
      assert kept + more == kept;
    }
  }

  /** For any two lists of hostnames and any text, the last sync wins exactly when every line of the earlier
      entries is tagged. */
  lemma LastSyncWinsExactly(text: string, hostnames1: seq<string>, hostnames2: seq<string>)
    ensures Sync(Sync(text, hostnames1), hostnames2) == Sync(text, hostnames2) <==> EntriesTagged(hostnames1)
  {
    var more := Naming(Lines(Print(HostsLines(hostnames1))), false);
    ForeignAfterSync(text, hostnames1);
    LongerPrintDiffers(Naming(Lines(text), false), more, HostsLines(hostnames2));
    NoneForeign(Lines(Print(HostsLines(hostnames1))));
  }

  lemma PrintableIsTagged(hostnames: seq<string>)
    requires Printable(hostnames)
    ensures EntriesTagged(hostnames)
  {
    var lines := HostsLines(hostnames);
    forall i | 0 <= i < |lines| ensures OneLine(lines[i]) && NamesAppytizer(lines[i]) {
      HostsLineIsTagged(hostnames[i]);
    }
    LinesOfPrint(lines);
  }

  /** The last sync wins: with hostnames2 == hostnames1 this is idempotence, with none it is removal. */
  lemma LastSyncWins(text: string, hostnames1: seq<string>, hostnames2: seq<string>)
    requires Printable(hostnames1)
    ensures Sync(Sync(text, hostnames1), hostnames2) == Sync(text, hostnames2)
  {
    PrintableIsTagged(hostnames1);
    LastSyncWinsExactly(text, hostnames1, hostnames2);
  }

  lemma ShortLineIsUntagged()
    ensures !NamesAppytizer("127.0.0.1	a")
  {
    var line := "127.0.0.1\ta";
    assert !TagAt(line, 0) by {
      assert line[0..11][0] == '1';
    }
  }

  lemma BrokenEntry()
    ensures !EntriesTagged(["a\nb"])
  {
    var first, rest := "127.0.0.1\ta", "b\t" + HOSTS_TAG + "\n";
    assert HostsLines(["a\nb"]) == [HostsLine("a\nb")];
    assert Print([HostsLine("a\nb")]) == first + "\n" + rest by {
      PrintSnoc([], HostsLine("a\nb"));
      assert [] + [HostsLine("a\nb")] == [HostsLine("a\nb")];
    }
    FirstLine(first, rest);
    ShortLineIsUntagged();
    assert Lines(first + "\n" + rest)[0] == first;
  }

  /** Why hostnames have to be free of newlines: the entry of this one outlives every later sync. */
  lemma LineBreakSurvives()
    ensures exists hostname: string :: forall text, hostnames ::
              Sync(Sync(text, [hostname]), hostnames) != Sync(text, hostnames)
  {
    BrokenEntry();
    forall text, hostnames ensures Sync(Sync(text, ["a\nb"]), hostnames) != Sync(text, hostnames) {
      LastSyncWinsExactly(text, ["a\nb"], hostnames);
    }
  }

  /** The hostnames of a scanned table hold no line break, so both laws above apply to every site list
      the registry can produce. */
  lemma PublishableIsPrintable(sites: seq<Site>)
    requires Publishable(sites)
    ensures Printable(ValidHostnames(sites))
  {
    var hostnames := ValidHostnames(sites);
    forall i | 0 <= i < |hostnames| ensures OneLine(hostnames[i]) {
      assert hostnames[i] in hostnames;
      ValidHostnameIsOneLine(hostnames[i]);
    }
  }

  lemma ValidHostnameIsOneLine(hostname: string)
    requires ValidHostname(hostname)
    ensures OneLine(hostname)
  {
    var n := |hostname| - |SITE_SUFFIX|;
    forall i | 0 <= i < |hostname| ensures hostname[i] != '\n' {
      if i < n {
        assert hostname[i] == hostname[..n][i];
      } else {
        assert hostname[i] == hostname[n..][i - n];
      }
    }
  }

  /** Opening for reading or for writing may fail, and the writing may stop after some characters. */
  datatype HostsFaults = HostsFaults(unreadable: bool, unwritable: bool, truncatedAt: Option<nat>) {
    predicate Reported() {
      unreadable || unwritable
    }

    /** What a write that is not looked at leaves of this text. */
    function Remains(text: string): string {
      if truncatedAt.Some? && truncatedAt.value < |text| then text[..truncatedAt.value] else text
    }
  }

  class Hosts {
    var text: string

    constructor (text: string)
      ensures this.text == text
    {
      this.text := text;
    }

    /** Rewrites the file from the table. Failing to open it, for reading or for writing, leaves it as it
        was. Write errors are not looked at, so a truncated file comes back as success. */
    method SyncHosts(sites: seq<Site>, f: HostsFaults) returns (ok: bool)
      modifies this
      ensures ok == !f.Reported()
      ensures text == if ok then f.Remains(Sync(old(text), ValidHostnames(sites))) else old(text)
      ensures ok && f.truncatedAt.None? && Printable(ValidHostnames(sites)) ==>
                SyncedLines(old(text), text, ValidHostnames(sites))
    {
      if Printable(ValidHostnames(sites)) {
        SyncReplacesEntries(text, ValidHostnames(sites));
      }
      if f.unreadable {
        return false;
      }
      var lines := ReadForeignLines(text);
      lines := AppendEntries(lines, sites);
      if f.unwritable {
        return false;
      }
      var output := PrintLines(lines);
      text := f.Remains(output);
      return true;
    }
  }

  method AppendEntries(kept: seq<string>, sites: seq<Site>) returns (lines: seq<string>)
    ensures lines == kept + HostsLines(ValidHostnames(sites))
  {
    lines := kept;
    for k := 0 to |sites|
      invariant lines == kept + HostsLines(ValidHostnames(sites[..k]))
    {
      assert sites[..k + 1][..k] == sites[..k];
      if sites[k].Valid() {
        assert HostsLines(ValidHostnames(sites[..k + 1])) ==
               HostsLines(ValidHostnames(sites[..k])) + [HostsLine(sites[k].hostname)];
        lines := lines + [HostsLine(sites[k].hostname)];
      }
    }
    assert sites[..|sites|] == sites;
  }

  method PrintLines(lines: seq<string>) returns (output: string)
    ensures output == Print(lines)
  {
    output := "";
    for k := 0 to |lines|
      invariant output == Print(lines[..k])
    {
      PrintSnoc(lines[..k], lines[k]);
      assert lines[..k + 1] == lines[..k] + [lines[k]];
      output := output + lines[k] + "\n";
    }
    assert lines[..|lines|] == lines;
  }

  lemma NamingFirst(entry: string, rest: seq<string>, wanted: bool)
    ensures Naming([entry] + rest, wanted) ==
            (if NamesAppytizer(entry) == wanted then [entry] else []) + Naming(rest, wanted)
  {
    assert ([entry] + rest)[1..] == rest;
  }

  /** One line more: it goes to the foreign lines unless it is tagged. */
  lemma ForeignStep(lines: seq<string>, entry: string, after: seq<string>)
    ensures lines + Naming([entry] + after, false) ==
            (if NamesAppytizer(entry) then lines else lines + [entry]) + Naming(after, false)
  {
    NamingFirst(entry, after, false);
    Associative(lines, if NamesAppytizer(entry) == false then [entry] else [], Naming(after, false));
    assert lines + [] == lines;
  }

  method ReadForeignLines(text: string) returns (lines: seq<string>)
    ensures lines == Naming(Lines(text), false)
  {
    lines := [];
    var rest := text;
    while rest != ""
      invariant Naming(Lines(text), false) == lines + Naming(Lines(rest), false)
      decreases |rest|
    {
      var (entry, after) := GetLine(rest);
      ForeignStep(lines, entry, Lines(after));
      TaggedExactly(entry);
      rest := after;
      if !Tagged(entry) {
        lines := lines + [entry];
      }
    }
    assert lines + [] == lines;
  }

  lemma {:induction false} PrintSnoc(lines: seq<string>, last: string)
    ensures Print(lines + [last]) == Print(lines) + last + "\n"
    decreases |lines|
  {
    var longer := lines + [last];
    if lines == [] {
      assert longer[1..] == [] && Print([]) == "";
    } else {
      assert longer[1..] == lines[1..] + [last];
      PrintSnoc(lines[1..], last);
    }
  }
}
