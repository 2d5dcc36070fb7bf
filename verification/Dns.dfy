// The DNS responder: a byte-level question parser and a responder that rewrites the question packet,
// checked against a strict reader of the message format of RFC 1035, sections 4.1.1 to 4.1.4.
module Dns {
  import opened Options
  import Labels
  import opened Sequences

  type Byte = b: int | 0 <= b < 256
  type Name = seq<seq<Byte>>

  const HEADER_SIZE: nat := 12
  const TYPE_A := 1
  const CLASS_IN := 1
  const LOOPBACK: seq<Byte> := [127, 0, 0, 1]
  const ANSWER: seq<Byte> := [0xc0, 0x0c, 0, 1, 0, 1, 0, 0, 0, 5, 0, 4, 127, 0, 0, 1]

  // ----- Names on the wire -----

  function Text(octets: seq<Byte>): (s: string)
    ensures |s| == |octets|
  {
    seq(|octets|, i requires 0 <= i < |octets| => octets[i] as char)
  }

  function Octets(s: string): (octets: seq<Byte>)
    requires forall i | 0 <= i < |s| :: s[i] as int < 256
    ensures |octets| == |s| && Text(octets) == s
  {
    if s == "" then []
    else
      var first: Byte := s[0] as int;
      [first] + Octets(s[1..])
  }

  /** The labels joined by dots. */
  function Join(name: Name): string {
    if name == [] then ""
    else if |name| == 1 then Text(name[0])
    else Join(name[..|name| - 1]) + "." + Text(name[|name| - 1])
  }

  predicate WireName(name: Name) {
    forall i | 0 <= i < |name| :: 1 <= |name[i]| <= 63
  }

  /** RFC 1035, section 4.1.2: each label behind its length octet, closed by the zero octet. */
  function Encode(name: Name): seq<Byte>
    requires WireName(name)
  {
    if name == [] then [0] else [|name[0]|] + name[0] + Encode(name[1..])
  }

  datatype NameAt = NameAt(name: Name, next: nat)

  /** Reads an uncompressed name as a list of labels. */
  function ReadName(packet: seq<Byte>, pos: nat): (r: Option<NameAt>)
    ensures r.Some? ==> pos < r.value.next <= |packet| && WireName(r.value.name)
    decreases |packet| - pos
  {
    if pos >= |packet| then None
    else if packet[pos] == 0 then Some(NameAt([], pos + 1))
    else
      var end := pos + 1 + packet[pos];
      if packet[pos] >= 64 || end > |packet| then None
      else
        match ReadName(packet, end)
        case None => None
        case Some(rest) => Some(NameAt([packet[pos + 1..end]] + rest.name, rest.next))
  }

  predicate LiesAt(octets: seq<Byte>, packet: seq<Byte>, pos: nat) {
    pos + |octets| <= |packet| && packet[pos..pos + |octets|] == octets
  }

  lemma LiesBetween(before: seq<Byte>, octets: seq<Byte>, after: seq<Byte>)
    ensures LiesAt(octets, before + octets + after, |before|)
  {
    var packet, last := before + octets + after, |before| + |octets|;
    assert packet[|before|..last] == octets;
  }

  lemma PartsLieApart(first: Byte, part: seq<Byte>, rest: seq<Byte>, packet: seq<Byte>, pos: nat)
    requires LiesAt([first] + part + rest, packet, pos)
    ensures packet[pos] == first && packet[pos + 1..pos + 1 + |part|] == part
    ensures LiesAt(rest, packet, pos + 1 + |part|)
  {
    var n := 1 + |part| + |rest|;
    PartsOfThree(first, part, rest);
    SliceOfSlice(packet, pos, pos + n, 1, 1 + |part|);
    SliceOfSlice(packet, pos, pos + n, 1 + |part|, n);
    assert packet[pos..pos + n][0] == packet[pos];
  }

  lemma OctetsOfName(name: Name, octets: seq<Byte>, first: Byte, rest: seq<Byte>)
    requires WireName(name) && name != [] && octets == Encode(name)
    requires first == |name[0]| && rest == Encode(name[1..])
    ensures octets == [first] + name[0] + rest && |octets| == 1 + |name[0]| + |rest|
  {
  }

  lemma RootLies(packet: seq<Byte>, pos: nat)
    requires LiesAt([0], packet, pos)
    ensures ReadName(packet, pos) == Some(NameAt([], pos + 1))
  {
    assert packet[pos] == packet[pos..pos + 1][0];
  }

  lemma ReadStep(packet: seq<Byte>, pos: nat, name: Name, end: nat, next: nat)
    requires name != [] && 1 <= |name[0]| <= 63 && end == pos + 1 + |name[0]| <= |packet|
    requires packet[pos] == |name[0]| && packet[pos + 1..end] == name[0]
    requires ReadName(packet, end) == Some(NameAt(name[1..], next))
    ensures ReadName(packet, pos) == Some(NameAt(name, next))
  {
    assert [name[0]] + name[1..] == name;
  }

  lemma {:induction false} ReadEncodedAt(packet: seq<Byte>, pos: nat, name: Name)
    requires WireName(name) && LiesAt(Encode(name), packet, pos)
    ensures ReadName(packet, pos) == Some(NameAt(name, pos + |Encode(name)|))
    decreases |name|
  {
    if name == [] {
      RootLies(packet, pos);
    } else {
      var rest, end := Encode(name[1..]), pos + 1 + |name[0]|;
      OctetsOfName(name, Encode(name), |name[0]|, rest);
      PartsLieApart(|name[0]|, name[0], rest, packet, pos);
      ReadEncodedAt(packet, end, name[1..]);
      ReadStep(packet, pos, name, end, end + |rest|);
    }
  }

  /** Whatever surrounds an encoded name, reading at its start gives the name and the offset past it. */
  lemma ReadEncoded(before: seq<Byte>, name: Name, after: seq<Byte>)
    requires WireName(name)
    ensures ReadName(before + Encode(name) + after, |before|) ==
            Some(NameAt(name, |before| + |Encode(name)|))
  {
    LiesBetween(before, Encode(name), after);
    ReadEncodedAt(before + Encode(name) + after, |before|, name);
  }

  lemma ReadLabel(packet: seq<Byte>, pos: nat, end: nat)
    requires pos < |packet| && 1 <= packet[pos] < 64 && end == pos + 1 + packet[pos] <= |packet|
    ensures ReadName(packet, pos) ==
            match ReadName(packet, end)
            case None => None
            case Some(rest) => Some(NameAt([packet[pos + 1..end]] + rest.name, rest.next))
  {
  }

  lemma EncodeFirst(part: seq<Byte>, rest: Name)
    requires 1 <= |part| <= 63 && WireName(rest)
    ensures WireName([part] + rest) && Encode([part] + rest) == [|part|] + part + Encode(rest)
  {
    assert ([part] + rest)[1..] == rest;
  }

  lemma ThreeSlices(packet: seq<Byte>, pos: nat, end: nat, next: nat)
    requires pos < end <= next <= |packet|
    ensures packet[pos..next] == [packet[pos]] + packet[pos + 1..end] + packet[end..next]
  {
  }

  /** Conversely, whatever is read was encoded there. */
  lemma {:induction false} ReadIsEncoded(packet: seq<Byte>, pos: nat)
    requires ReadName(packet, pos).Some?
    ensures var r := ReadName(packet, pos).value; packet[pos..r.next] == Encode(r.name)
    decreases |packet| - pos
  {
    if packet[pos] == 0 {
      assert packet[pos..pos + 1] == [0];
    } else {
      var end := pos + 1 + packet[pos];
      ReadLabel(packet, pos, end);
      ReadIsEncoded(packet, end);
      var rest := ReadName(packet, end).value;
      EncodeFirst(packet[pos + 1..end], rest.name);
      ThreeSlices(packet, pos, end, rest.next);
    }
  }

  /** Reading depends only on the octets of the name itself. */
  lemma {:induction false} ReadSameOctets(a: seq<Byte>, b: seq<Byte>, pos: nat)
    requires ReadName(a, pos).Some? && ReadName(a, pos).value.next <= |b|
    requires forall i | pos <= i < ReadName(a, pos).value.next :: a[i] == b[i]
    ensures ReadName(b, pos) == ReadName(a, pos)
    decreases |a| - pos
  {
    if a[pos] != 0 {
      var end := pos + 1 + a[pos];
      ReadSameOctets(a, b, end);
      assert a[pos + 1..end] == b[pos + 1..end];
    }
  }

  lemma NonEmptyJoin(name: Name)
    requires WireName(name)
    ensures Join(name) == "" <==> name == []
  {
  }

  /** The bit tests of the parser and the header bytes of the responder, as arithmetic. */
  lemma BitTestsAsArithmetic(b: bv8)
    ensures (b & 0xc0) != 0 <==> b >= 64
    ensures 0x80 | (b & 0x01) == 128 + b % 2
  {
  }

  function After(done: Name, rest: Option<NameAt>): (r: Option<NameAt>)
    ensures done == [] ==> r == rest
  {
    match rest
    case None => None
    case Some(n) => assert [] + n.name == n.name; Some(NameAt(done + n.name, n.next))
  }

  /** The labels in `done` have been read since `start`, the rest begins at `pos`. */
  ghost predicate Decoding(packet: seq<Byte>, start: nat, pos: nat, done: Name) {
    ReadName(packet, start) == After(done, ReadName(packet, pos))
  }

  lemma DecodingEnds(packet: seq<Byte>, start: nat, pos: nat, done: Name)
    requires Decoding(packet, start, pos, done)
    ensures pos < |packet| && packet[pos] == 0 ==> DecodedAs(ReadName(packet, start), Join(done), pos + 1)
    ensures pos >= |packet| || packet[pos] >= 64 || pos + 1 + packet[pos] > |packet| ==>
              forall offset :: DecodedAs(ReadName(packet, start), "", offset)
  {
    assert done + [] == done;
  }

  function Appended(name: string, part: seq<Byte>): string {
    (if name != "" then name + "." else name) + Text(part)
  }

  lemma AfterLabel(done: Name, part: seq<Byte>, rest: NameAt)
    ensures After(done, Some(NameAt([part] + rest.name, rest.next))) == After(done + [part], Some(rest))
  {
    Associative(done, [part], rest.name);
  }

  /** One label further: what is done grows by it, what is still to be read shrinks. */
  lemma LabelStep(packet: seq<Byte>, start: nat, pos: nat, done: Name, part: seq<Byte>)
    requires Decoding(packet, start, pos, done)
    requires pos < |packet| && 1 <= packet[pos] < 64 && pos + 1 + packet[pos] <= |packet|
    requires part == packet[pos + 1..pos + 1 + packet[pos]]
    ensures Decoding(packet, start, pos + 1 + packet[pos], done + [part])
  {
    var end := pos + 1 + packet[pos];
    ReadLabel(packet, pos, end);
    if ReadName(packet, end).Some? {
      AfterLabel(done, part, ReadName(packet, end).value);
    }
  }

  lemma JoinStep(done: Name, part: seq<Byte>)
    requires part != [] && (Join(done) == "" <==> done == [])
    ensures Join(done + [part]) == Appended(Join(done), part) != ""
  {
    assert (done + [part])[..|done|] == done;
  }

  method AppendLabel(name: string, part: seq<Byte>) returns (longer: string)
    ensures longer == Appended(name, part)
  {
    longer := name;
    if longer != "" {
      longer := longer + ".";
    }
    longer := longer + Text(part);
  }

  /** What the loop is to return. */
  predicate DecodedAs(r: Option<NameAt>, name: string, offset: nat) {
    match r
    case Some(n) => name == Join(n.name) && offset == n.next
    case None => name == ""
  }

  /** The decode loop: the dot-joined labels and the offset past the root octet, or the empty string. */
  method DecodeQuestionName(packet: seq<Byte>, start: nat) returns (name: string, offset: nat)
    ensures DecodedAs(ReadName(packet, start), name, offset)
  {
    name, offset := "", start;
    ghost var done: Name := [];
    while offset < |packet|
      invariant name == Join(done) && (name == "" <==> done == [])
      invariant Decoding(packet, start, offset, done)
      decreases |packet| - offset
    {
      ghost var at := offset;
      DecodingEnds(packet, start, at, done);
      var length := packet[offset];
      offset := offset + 1;
      if length == 0 {
        return;
      }
      if length >= 64 || offset + length > |packet| {
        return "", offset;
      }
      var part := packet[offset..offset + length];
      name := AppendLabel(name, part);
      offset := offset + length;
      LabelStep(packet, start, at, done, part);
      JoinStep(done, part);
      done := done + [part];
    }
    DecodingEnds(packet, start, offset, done);
    return "", offset;
  }

  // ----- The responder -----

  /** The big-endian 16-bit field at `p`, or 0 past the end. */
  function Read16(b: seq<Byte>, p: nat): int {
    if p + 1 < |b| then 256 * (b[p] as int) + b[p + 1] as int else 0
  }

  predicate EndsWithCi(value: string, suffix: string) {
    && |value| >= |suffix|
    && Labels.Lower(value)[|value| - |suffix|..] == Labels.Lower(suffix)
  }

  predicate Ours(name: Name) {
    EndsWithCi(Join(name), Labels.SITE_SUFFIX)
  }

  /** The question of a packet the responder is willing to answer. */
  function AnswerableQuestion(query: seq<Byte>): (r: Option<NameAt>)
    ensures r.Some? ==> ReadName(query, HEADER_SIZE) == r && r.value.next + 4 <= |query|
    ensures r.Some? ==> r.value.name != [] && |query| >= HEADER_SIZE
  {
    if |query| < HEADER_SIZE || Read16(query, 4) != 1 then None
    else
      match ReadName(query, HEADER_SIZE)
      case None => None
      case Some(q) => if q.name == [] || q.next + 4 > |query| then None else Some(q)
  }

  function Header(query: seq<Byte>, ours: bool, answered: bool): seq<Byte>
    requires |query| >= HEADER_SIZE
  {
    [query[0], query[1], 128 + query[2] % 2, if ours then 0x80 else 0x83, query[4], query[5],
     0, if answered then 1 else 0, 0, 0, 0, 0]
  }

  function Assemble(query: seq<Byte>, end: nat, ours: bool, answered: bool): seq<Byte>
    requires HEADER_SIZE <= end <= |query|
  {
    Header(query, ours, answered) + query[HEADER_SIZE..end] + (if answered then ANSWER else [])
  }

  function Response(query: seq<Byte>): seq<Byte> {
    match AnswerableQuestion(query)
    case None => []
    case Some(q) => Assemble(query, q.next + 4, Ours(q.name), Answered(query, q))
  }

  predicate Answered(query: seq<Byte>, q: NameAt) {
    Ours(q.name) && Read16(query, q.next) == TYPE_A
  }

  predicate HasHeader(r: seq<Byte>, query: seq<Byte>, ours: bool, answered: bool) {
    && |r| >= HEADER_SIZE && |query| >= HEADER_SIZE
    && r[0] == query[0] && r[1] == query[1]
    && r[2] == 128 + query[2] % 2 && r[3] == (if ours then 0x80 else 0x83)
    && r[4] == query[4] && r[5] == query[5]
    && r[6] == 0 && r[7] == (if answered then 1 else 0)
    && r[8] == 0 && r[9] == 0 && r[10] == 0 && r[11] == 0
  }

  lemma AssembledFromPatched(patched: seq<Byte>, query: seq<Byte>, ours: bool, answered: bool)
    requires HEADER_SIZE <= |patched| <= |query| && HasHeader(patched, query, ours, answered)
    requires forall i | HEADER_SIZE <= i < |patched| :: patched[i] == query[i]
    ensures patched + (if answered then ANSWER else []) == Assemble(query, |patched|, ours, answered)
  {
    assert patched[..HEADER_SIZE] == Header(query, ours, answered);
    assert patched[HEADER_SIZE..] == query[HEADER_SIZE..|patched|];
    assert patched == patched[..HEADER_SIZE] + patched[HEADER_SIZE..];
  }

  /** Copies the packet up to the end of the question, patches the header in place, appends the answer. */
  method PatchQuery(query: seq<Byte>, end: nat, ours: bool, answered: bool) returns (response: seq<Byte>)
    requires HEADER_SIZE <= end <= |query|
    ensures response == Assemble(query, end, ours, answered)
  {
    var out := new Byte[end](i requires 0 <= i < end => query[i]);
    out[2] := 128 + query[2] % 2;
    out[3] := if ours then 0x80 else 0x83;
    out[6] := 0;
    out[7] := if answered then 1 else 0;
    out[8], out[9], out[10], out[11] := 0, 0, 0, 0;
    response := out[..];
    AssembledFromPatched(response, query, ours, answered);
    if answered {
      response := response + ANSWER;
    }
  }

  /** The decoded name decides: it is empty exactly when there is no name to answer for. */
  lemma DecodedDecides(query: seq<Byte>, name: string, position: nat)
    requires |query| >= HEADER_SIZE && Read16(query, 4) == 1
    requires DecodedAs(ReadName(query, HEADER_SIZE), name, position)
    ensures name == "" || position + 4 > |query| ==> Response(query) == []
    ensures name != "" && position + 4 <= |query| ==>
              HEADER_SIZE < position &&
              var ours := EndsWithCi(name, Labels.SITE_SUFFIX);
              Response(query) == Assemble(query, position + 4, ours, ours && Read16(query, position) == TYPE_A)
  {
    match ReadName(query, HEADER_SIZE)
    case None =>
    case Some(q) =>
      NonEmptyJoin(q.name);
      assert AnswerableQuestion(query) == if name == "" || position + 4 > |query| then None else Some(q);
  }

  method MakeResponse(query: seq<Byte>) returns (response: seq<Byte>)
    ensures response == Response(query)
  {
    if |query| < HEADER_SIZE || Read16(query, 4) != 1 {
      assert AnswerableQuestion(query).None?;
      return [];
    }
    var name, position := DecodeQuestionName(query, HEADER_SIZE);
    DecodedDecides(query, name, position);
    if name == "" || position + 4 > |query| {
      return [];
    }
    var ours := EndsWithCi(name, Labels.SITE_SUFFIX);
    var answered := ours && Read16(query, position) == TYPE_A;
    assert Response(query) == Assemble(query, position + 4, ours, answered);
    response := PatchQuery(query, position + 4, ours, answered);
  }

  // ----- Which names the server takes for its own -----

  predicate DotFree(name: Name) {
    forall i | 0 <= i < |name| :: '.' !in Text(name[i])
  }

  lemma {:induction false} LastLabelOfJoin(name: Name)
    requires |name| >= 2
    ensures Join(name) == Join(name[..|name| - 1]) + "." + Text(name[|name| - 1])
  {
  }

  predicate EndsInDotTest(s: string) {
    |s| >= 5 && Labels.SameUpToCase(s[|s| - 5..], ".test")
  }

  lemma SuffixUpToCase(s: string)
    ensures EndsWithCi(s, Labels.SITE_SUFFIX) <==> EndsInDotTest(s)
  {
    if |s| >= 5 {
      var tail := s[|s| - 5..];
      assert Labels.Lower(s)[|s| - 5..] == Labels.Lower(tail);
      Labels.LowerFoldsCase(tail, ".test");
    }
  }

  lemma LongLabelDecides(front: string, last: string)
    requires |last| >= 5
    ensures EndsInDotTest(front + last) <==> EndsInDotTest(last)
  {
    assert (front + last)[|front + last| - 5..] == last[|last| - 5..];
  }

  lemma DotIsNoLetter(tail: string, k: nat)
    requires 1 <= k < 5 && |tail| == 5 && tail[k] == '.'
    ensures !Labels.SameUpToCase(tail, ".test")
  {
    assert !Labels.SameLetter(tail[k], ".test"[k]);
  }

  lemma ShortLabelDecides(front: string, last: string)
    requires |last| < 5
    ensures EndsInDotTest(front + "." + last) <==> Labels.SameUpToCase(last, "test")
  {
    var joined := front + "." + last;
    if |joined| >= 5 {
      var tail := joined[|joined| - 5..];
      assert tail[4 - |last|] == '.';
      if |last| == 4 {
        assert forall i | 0 <= i < 4 :: tail[i + 1] == last[i] && ".test"[i + 1] == "test"[i];
        assert forall i | 1 <= i < 5 :: tail[i] == last[i - 1] && ".test"[i] == "test"[i - 1];
      } else {
        DotIsNoLetter(tail, 4 - |last|);
      }
    }
  }

  /** The name lies under `test`, label by label, in any letter case. */
  predicate UnderTest(name: Name) {
    |name| >= 2 && Labels.SameUpToCase(Text(name[|name| - 1]), "test")
  }

  /** The text test of the server agrees with the labels exactly when the last label does not itself end in
      ".test"; what the other labels hold does not matter. */
  lemma OursExactlyUnderTest(name: Name)
    requires name != []
    ensures (Ours(name) <==> UnderTest(name)) <==> !EndsInDotTest(Text(name[|name| - 1]))
  {
    var last := Text(name[|name| - 1]);
    SuffixUpToCase(Join(name));
    if |name| >= 2 {
      var front := Join(name[..|name| - 1]);
      LastLabelOfJoin(name);
      if |last| >= 5 {
        LongLabelDecides(front + ".", last);
      } else {
        ShortLabelDecides(front, last);
      }
    }
  }

  /** So dot-free labels are always judged right. */
  lemma DotFreeIsOursUnderTest(name: Name)
    requires DotFree(name)
    ensures Ours(name) <==> UnderTest(name)
  {
    if name == [] {
      SuffixUpToCase("");
    } else {
      var last := Text(name[|name| - 1]);
      OursExactlyUnderTest(name);
      assert |last| >= 5 ==> last[|last| - 5] in last;
    }
  }
}
