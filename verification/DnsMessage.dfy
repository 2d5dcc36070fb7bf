// A strict reader of the message format of RFC 1035, sections 4.1.1 to 4.1.4, and what it finds in the
// responder's output.
module DnsMessage {
  import opened Options
  import Labels
  import opened Dns

  datatype Question = Question(name: Name, qtype: int, qclass: int)
  datatype Record = Record(name: Name, rtype: int, rclass: int, ttl: int, rdata: seq<Byte>)
  datatype Message = Message(id: int, flags: int, questions: seq<Question>,
                             answers: seq<Record>, authorities: seq<Record>, additionals: seq<Record>)
  datatype At<T> = At(value: T, next: nat)

  /** A name with the compression of section 4.1.4: a pointer must lead to before its own name. */
  function ResolveName(msg: seq<Byte>, start: nat, pos: nat): (r: Option<NameAt>)
    ensures r.Some? ==> pos < r.value.next <= |msg|
    decreases start, |msg| - pos
  {
    if pos >= |msg| then None
    else if msg[pos] == 0 then Some(NameAt([], pos + 1))
    else if msg[pos] >= 192 then
      if pos + 1 >= |msg| then None
      else
        var target := 256 * (msg[pos] as int - 192) + msg[pos + 1] as int;
        if target >= start then None
        else
          match ResolveName(msg, target, target)
          case None => None
          case Some(r) => Some(NameAt(r.name, pos + 2))
    else
      var end := pos + 1 + msg[pos];
      if msg[pos] >= 64 || end > |msg| then None
      else
        match ResolveName(msg, start, end)
        case None => None
        case Some(r) => Some(NameAt([msg[pos + 1..end]] + r.name, r.next))
  }

  /** Section 4.1.2. */
  function ReadQuestions(msg: seq<Byte>, pos: nat, count: nat): Option<At<seq<Question>>>
    decreases count
  {
    if count == 0 then Some(At([], pos))
    else
      match ResolveName(msg, pos, pos)
      case None => None
      case Some(n) =>
        if n.next + 4 > |msg| then None
        else
          match ReadQuestions(msg, n.next + 4, count - 1)
          case None => None
          case Some(rest) =>
            Some(At([Question(n.name, Read16(msg, n.next), Read16(msg, n.next + 2))] + rest.value, rest.next))
  }

  /** Section 4.1.3. */
  function ReadRecords(msg: seq<Byte>, pos: nat, count: nat): Option<At<seq<Record>>>
    decreases count
  {
    if count == 0 then Some(At([], pos))
    else
      match ResolveName(msg, pos, pos)
      case None => None
      case Some(n) =>
        if n.next + 10 > |msg| then None
        else
          var data := n.next + 10;
          var end := data + Read16(msg, n.next + 8);
          if end > |msg| then None
          else
            match ReadRecords(msg, end, count - 1)
            case None => None
            case Some(rest) =>
              var ttl := 65536 * Read16(msg, n.next + 4) + Read16(msg, n.next + 6);
              var record := Record(n.name, Read16(msg, n.next), Read16(msg, n.next + 2), ttl, msg[data..end]);
              Some(At([record] + rest.value, rest.next))
  }

  /** Section 4.1.1: the counts of the header must be met, and every octet must be consumed. */
  function ReadMessage(msg: seq<Byte>): Option<Message> {
    if |msg| < HEADER_SIZE then None
    else
      match ReadQuestions(msg, HEADER_SIZE, Read16(msg, 4))
      case None => None
      case Some(q) =>
        match ReadRecords(msg, q.next, Read16(msg, 6))
        case None => None
        case Some(an) =>
          match ReadRecords(msg, an.next, Read16(msg, 8))
          case None => None
          case Some(ns) =>
            match ReadRecords(msg, ns.next, Read16(msg, 10))
            case None => None
            case Some(ar) =>
              if ar.next != |msg| then None
              else Some(Message(Read16(msg, 0), Read16(msg, 2), q.value, an.value, ns.value, ar.value))
  }

  lemma {:induction false} UncompressedResolves(msg: seq<Byte>, start: nat, pos: nat)
    requires ReadName(msg, pos).Some?
    ensures ResolveName(msg, start, pos) == ReadName(msg, pos)
    decreases |msg| - pos
  {
    if msg[pos] != 0 {
      UncompressedResolves(msg, start, pos + 1 + msg[pos]);
    }
  }

  /** The octets of a response, one by one: patched header, copied question, fixed answer. */
  lemma AssembledOctets(query: seq<Byte>, end: nat, ours: bool, answered: bool)
    requires HEADER_SIZE <= end <= |query|
    ensures var r := Assemble(query, end, ours, answered);
            && |r| == end + (if answered then |ANSWER| else 0)
            && HasHeader(r, query, ours, answered)
            && (forall i | HEADER_SIZE <= i < end :: r[i] == query[i])
            && (answered ==> HasAnswerAt(r, end))
  {
    var r := Assemble(query, end, ours, answered);
    var header := Header(query, ours, answered);
    assert r[..HEADER_SIZE] == header;
    if answered {
      assert r[end..] == ANSWER;
    }
  }

  predicate HasAnswerAt(r: seq<Byte>, p: nat) {
    && |r| == p + |ANSWER|
    && r[p] == 0xc0 && r[p + 1] == 0x0c && r[p + 2] == 0 && r[p + 3] == 1 && r[p + 4] == 0 && r[p + 5] == 1
    && r[p + 6] == 0 && r[p + 7] == 0 && r[p + 8] == 0 && r[p + 9] == 5 && r[p + 10] == 0 && r[p + 11] == 4
    && r[p + 12..] == LOOPBACK
  }

  /** What the strict reader must find in the response to `query`. */
  function ExpectedMessage(query: seq<Byte>, q: NameAt): Message
    requires |query| >= HEADER_SIZE
  {
    Message(
      Read16(query, 0),
      0x8080 + 256 * (query[2] as int % 2) + (if Ours(q.name) then 0 else 3),
      [Question(q.name, Read16(query, q.next), Read16(query, q.next + 2))],
      if Answered(query, q) then [Record(q.name, TYPE_A, CLASS_IN, 5, LOOPBACK)] else [],
      [], [])
  }

  lemma OneQuestion(msg: seq<Byte>, q: NameAt)
    requires ResolveName(msg, HEADER_SIZE, HEADER_SIZE) == Some(q) && q.next + 4 <= |msg|
    ensures ReadQuestions(msg, HEADER_SIZE, 1) ==
            Some(At([Question(q.name, Read16(msg, q.next), Read16(msg, q.next + 2))], q.next + 4))
  {
    var question := Question(q.name, Read16(msg, q.next), Read16(msg, q.next + 2));
    assert [question] + [] == [question];
    assert ReadQuestions(msg, q.next + 4, 0) == Some(At([], q.next + 4));
  }

  /** The fixed sixteen octets, placed after the question, are one A record owned by its name. */
  lemma OneAnswer(msg: seq<Byte>, q: NameAt, pos: nat)
    requires HEADER_SIZE < pos && HasAnswerAt(msg, pos)
    requires ResolveName(msg, HEADER_SIZE, HEADER_SIZE) == Some(q)
    ensures ReadRecords(msg, pos, 1) == Some(At([Record(q.name, TYPE_A, CLASS_IN, 5, LOOPBACK)], |msg|))
  {
    assert ResolveName(msg, pos, pos) == Some(NameAt(q.name, pos + 2));
    assert msg[pos + 12..pos + 16] == msg[pos + 12..] == LOOPBACK;
    var record := Record(q.name, TYPE_A, CLASS_IN, 5, LOOPBACK);
    assert [record] + [] == [record];
    assert ReadRecords(msg, |msg|, 0) == Some(At([], |msg|));
  }

  lemma ResponseNamesTheQuestion(query: seq<Byte>, q: NameAt)
    requires AnswerableQuestion(query) == Some(q)
    ensures ResolveName(Response(query), HEADER_SIZE, HEADER_SIZE) == Some(q)
  {
    AssembledOctets(query, q.next + 4, Ours(q.name), Answered(query, q));
    ReadSameOctets(query, Response(query), HEADER_SIZE);
    UncompressedResolves(Response(query), HEADER_SIZE, HEADER_SIZE);
  }

  /** The header fields of a response, and the type and class of its question. */
  lemma ResponseFields(query: seq<Byte>, r: seq<Byte>, q: NameAt, ours: bool, answered: bool)
    requires HasHeader(r, query, ours, answered) && HEADER_SIZE < q.next <= |query| - 4 && q.next + 4 <= |r|
    requires forall i | HEADER_SIZE <= i < q.next + 4 :: r[i] == query[i]
    ensures Read16(r, 0) == Read16(query, 0) && Read16(r, 4) == Read16(query, 4)
    ensures Read16(r, 2) == 0x8080 + 256 * (query[2] as int % 2) + (if ours then 0 else 3)
    ensures Read16(r, 6) == (if answered then 1 else 0) && Read16(r, 8) == 0 && Read16(r, 10) == 0
    ensures Read16(r, q.next) == Read16(query, q.next) && Read16(r, q.next + 2) == Read16(query, q.next + 2)
  {
  }

  /** A message with one question and at most one answer, from its sections. */
  lemma SectionsMakeMessage(r: seq<Byte>, q: NameAt, answers: seq<Record>)
    requires |r| >= HEADER_SIZE && q.next + 4 <= |r|
    requires Read16(r, 4) == 1 && Read16(r, 6) == |answers| && Read16(r, 8) == 0 && Read16(r, 10) == 0
    requires ResolveName(r, HEADER_SIZE, HEADER_SIZE) == Some(q)
    requires ReadRecords(r, q.next + 4, |answers|) == Some(At(answers, |r|))
    ensures ReadMessage(r) ==
            Some(Message(Read16(r, 0), Read16(r, 2), [Question(q.name, Read16(r, q.next), Read16(r, q.next + 2))],
                         answers, [], []))
  {
    OneQuestion(r, q);
    assert ReadRecords(r, |r|, 0) == Some(At([], |r|));
  }

  predicate ResponseTo(r: seq<Byte>, query: seq<Byte>, q: NameAt) {
    && |query| >= HEADER_SIZE && HEADER_SIZE < q.next <= |query| - 4 && Read16(query, 4) == 1
    && |r| == q.next + 4 + (if Answered(query, q) then |ANSWER| else 0)
    && HasHeader(r, query, Ours(q.name), Answered(query, q))
    && (forall i | HEADER_SIZE <= i < q.next + 4 :: r[i] == query[i])
    && ResolveName(r, HEADER_SIZE, HEADER_SIZE) == Some(q)
  }

  lemma AnsweredMessageReads(query: seq<Byte>, r: seq<Byte>, q: NameAt)
    requires ResponseTo(r, query, q) && Answered(query, q) && HasAnswerAt(r, q.next + 4)
    ensures ReadMessage(r) == Some(ExpectedMessage(query, q))
  {
    ResponseFields(query, r, q, Ours(q.name), true);
    OneAnswer(r, q, q.next + 4);
    SectionsMakeMessage(r, q, [Record(q.name, TYPE_A, CLASS_IN, 5, LOOPBACK)]);
  }

  lemma UnansweredMessageReads(query: seq<Byte>, r: seq<Byte>, q: NameAt)
    requires ResponseTo(r, query, q) && !Answered(query, q)
    ensures ReadMessage(r) == Some(ExpectedMessage(query, q))
  {
    ResponseFields(query, r, q, Ours(q.name), false);
    assert ReadRecords(r, |r|, 0) == Some(At([], |r|));
    SectionsMakeMessage(r, q, []);
  }

  /** Every non-empty response is one complete message: same id and question, sections as counted, and
      the answer's compression pointer leads to the question name. */
  lemma ResponseIsCompleteMessage(query: seq<Byte>)
    requires Response(query) != []
    ensures AnswerableQuestion(query).Some?
    ensures ReadMessage(Response(query)) == Some(ExpectedMessage(query, AnswerableQuestion(query).value))
  {
    var q := AnswerableQuestion(query).value;
    AssembledOctets(query, q.next + 4, Ours(q.name), Answered(query, q));
    ResponseNamesTheQuestion(query, q);
    if Answered(query, q) {
      AnsweredMessageReads(query, Response(query), q);
    } else {
      UnansweredMessageReads(query, Response(query), q);
    }
  }

  /** A packet is answered exactly when it has one question, named by at least one well-formed label and
      complete with type and class. */
  lemma AnsweredExactlyWhenWellFormed(query: seq<Byte>)
    ensures Response(query) != [] <==>
            |query| >= HEADER_SIZE && Read16(query, 4) == 1 &&
            exists name: Name, tail: seq<Byte> ::
              WireName(name) && name != [] && |tail| >= 4 && query[HEADER_SIZE..] == Encode(name) + tail
  {
    AnswerableIsAnswered(query);
    if AnswerableQuestion(query).Some? {
      WellFormedIfAnswerable(query);
    }
    if |query| >= HEADER_SIZE && Read16(query, 4) == 1 {
      forall name: Name, tail: seq<Byte> |
        WireName(name) && name != [] && |tail| >= 4 && query[HEADER_SIZE..] == Encode(name) + tail
        ensures AnswerableQuestion(query).Some?
      {
        AnswerableIfWellFormed(query, name, tail);
      }
    }
  }

  lemma WellFormedIfAnswerable(query: seq<Byte>)
    requires AnswerableQuestion(query).Some?
    ensures exists name: Name, tail: seq<Byte> ::
              WireName(name) && name != [] && |tail| >= 4 && query[HEADER_SIZE..] == Encode(name) + tail
  {
    var q := AnswerableQuestion(query).value;
    ReadIsEncoded(query, HEADER_SIZE);
    assert query[HEADER_SIZE..] == query[HEADER_SIZE..q.next] + query[q.next..];
  }

  lemma AnswerableIfWellFormed(query: seq<Byte>, name: Name, tail: seq<Byte>)
    requires |query| >= HEADER_SIZE && Read16(query, 4) == 1
    requires WireName(name) && name != [] && |tail| >= 4 && query[HEADER_SIZE..] == Encode(name) + tail
    ensures AnswerableQuestion(query) == Some(NameAt(name, HEADER_SIZE + |Encode(name)|))
  {
    var n := |Encode(name)|;
    assert query[HEADER_SIZE..HEADER_SIZE + n] == query[HEADER_SIZE..][..n] == Encode(name);
    ReadEncodedAt(query, HEADER_SIZE, name);
  }

  lemma AnswerableIsAnswered(query: seq<Byte>)
    ensures Response(query) != [] <==> AnswerableQuestion(query).Some?
  {
  }

  /** Octets after the question never change the response. */
  lemma TrailingOctetsIgnored(query: seq<Byte>, extra: seq<Byte>)
    requires Response(query) != []
    ensures Response(query + extra) == Response(query)
  {
    var q, longer := AnswerableQuestion(query).value, query + extra;
    forall i | 0 <= i < |query| ensures longer[i] == query[i] {
    }
    ReadSameOctets(query, longer, HEADER_SIZE);
    assert AnswerableQuestion(longer) == Some(q);
    SameQuestionSameResponse(query, longer, q);
  }

  lemma SameQuestionSameResponse(a: seq<Byte>, b: seq<Byte>, q: NameAt)
    requires AnswerableQuestion(a) == AnswerableQuestion(b) == Some(q)
    requires forall i | 0 <= i < q.next + 4 :: a[i] == b[i]
    ensures Response(a) == Response(b)
  {
    assert Header(a, Ours(q.name), Answered(a, q)) == Header(b, Ours(q.name), Answered(b, q));
    assert a[HEADER_SIZE..q.next + 4] == b[HEADER_SIZE..q.next + 4];
  }

  /** An A query for a name the server takes for its own is answered with the loopback address. */
  lemma OwnNameResolvesToLoopback(query: seq<Byte>)
    requires AnswerableQuestion(query).Some? && Answered(query, AnswerableQuestion(query).value)
    ensures ReadMessage(Response(query)).Some?
    ensures ReadMessage(Response(query)).value.answers ==
            [Record(AnswerableQuestion(query).value.name, TYPE_A, CLASS_IN, 5, LOOPBACK)]
  {
    AnswerableIsAnswered(query);
    ResponseIsCompleteMessage(query);
  }

  lemma SiteNameIsOurs(name: Name, hostname: string)
    requires Labels.ValidHostname(hostname) && Labels.SameUpToCase(Join(name), hostname)
    ensures Ours(name)
  {
    var asked := Join(name);
    Labels.TailsSameUpToCase(asked, hostname, |asked| - 5);
    SuffixUpToCase(asked);
  }

  /** An A query for a site, in any letter case, is answered with the loopback address. */
  lemma SiteResolvesToLoopback(query: seq<Byte>, hostname: string)
    requires Labels.ValidHostname(hostname)
    requires AnswerableQuestion(query).Some?
    requires Labels.SameUpToCase(Join(AnswerableQuestion(query).value.name), hostname)
    requires Read16(query, AnswerableQuestion(query).value.next) == TYPE_A
    ensures ReadMessage(Response(query)).Some?
    ensures ReadMessage(Response(query)).value.answers ==
            [Record(AnswerableQuestion(query).value.name, TYPE_A, CLASS_IN, 5, LOOPBACK)]
  {
    SiteNameIsOurs(AnswerableQuestion(query).value.name, hostname);
    OwnNameResolvesToLoopback(query);
  }

  /** A query for the address of a name. */
  function AddressQuery(name: Name): seq<Byte>
    requires WireName(name)
  {
    [0, 1, 1, 0, 0, 1, 0, 0, 0, 0, 0, 0] + (Encode(name) + [0, 1, 0, 1])
  }

  lemma QuestionInPlace(header: seq<Byte>, name: Name, tail: seq<Byte>)
    requires |header| == HEADER_SIZE && WireName(name) && |tail| >= 4
    ensures var query := header + (Encode(name) + tail);
            && |query| == HEADER_SIZE + |Encode(name)| + |tail| && query[HEADER_SIZE..] == Encode(name) + tail
            && Read16(query, 4) == Read16(header, 4)
            && Read16(query, HEADER_SIZE + |Encode(name)|) == Read16(tail, 0)
  {
  }

  lemma AddressQueryAsks(name: Name)
    requires WireName(name) && name != []
    ensures AnswerableQuestion(AddressQuery(name)) == Some(NameAt(name, HEADER_SIZE + |Encode(name)|))
    ensures Read16(AddressQuery(name), HEADER_SIZE + |Encode(name)|) == TYPE_A
  {
    QuestionInPlace([0, 1, 1, 0, 0, 1, 0, 0, 0, 0, 0, 0], name, [0, 1, 0, 1]);
    AnswerableIfWellFormed(AddressQuery(name), name, [0, 1, 0, 1]);
  }

  lemma DottedName() returns (name: Name)
    ensures WireName(name) && |name| == 1 && Text(name[0]) == "x.test" && Ours(name) && !UnderTest(name)
  {
    name := [Octets("x.test")];
    SuffixUpToCase(Join(name));
  }

  /** A query whose only label is "x.test": it is answered like one for a site, although the name does not lie
      under `test`. */
  lemma DottedLabelIsOurs()
    ensures exists query ::
              AnswerableQuestion(query).Some? &&
              var q := AnswerableQuestion(query).value;
              !UnderTest(q.name) && ReadMessage(Response(query)).Some? &&
              ReadMessage(Response(query)).value.answers == [Record(q.name, TYPE_A, CLASS_IN, 5, LOOPBACK)]
  {
    var name := DottedName();
    AddressQueryAsks(name);
    OwnNameResolvesToLoopback(AddressQuery(name));
  }
}
