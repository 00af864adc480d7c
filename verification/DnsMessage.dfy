/** The fixture's DNS responses (ech-fixture/src/main/resources/ech-fixture/main.go) against the
    message format of section 4.1 of RFC 1035. */
module DnsMessage {
  import opened Wrappers
  import opened Bytes
  import opened DnsName
  import opened SvcParams
  import opened ServiceRecords
  import opened Attrleaf

  const A := 1
  const HTTPS_TYPE := 65

  // -- The responder ---------------------------------------------------------------------

  /** The HTTPS record published for a service, if there is one. */
  function ServiceRdata(serviceName: bytes, configs: map<bytes, bytes>, targetPort: int): Result<Option<bytes>> {
    match FixtureBinding(serviceName, targetPort)
    case Some(b) => Ok(Some(EncodeBinding(b)))
    case None =>
      if serviceName in configs then Ok(Some(EncodeBinding(HttpsBinding(configs[serviceName], targetPort))))
      else Err("no ECH fixture")
  }

  /** The RDATA to answer with, if any; no answer is not an error. */
  function RdataFor(qtype: int, name: bytes, configs: map<bytes, bytes>, targetPort: int): Result<Option<bytes>> {
    if qtype == A then Ok(Some(LOOPBACK))
    else if qtype == HTTPS_TYPE then ServiceRdata(StripAttrleafPort(name), configs, targetPort)
    else Ok(None)
  }

  /** Header, question as asked, and at most one answer owned by a pointer to the question. */
  function Assemble(id: bytes, question: bytes, qtype: int, rdata: Option<bytes>): bytes {
    id + U16(0x8180) + U16(1) + U16(if rdata.Some? then 1 else 0) + [0, 0, 0, 0] + question
    + match rdata
      case None => []
      case Some(data) => [0xc0, 0x0c] + U16(qtype) + U16(1) + U32(60) + U16Prefixed(data)
  }

  function Qtype(query: bytes, end: nat): int
    requires 4 <= end <= |query|
  {
    query[end - 4] as int * 256 + query[end - 3]
  }

  function ResponseTo(query: bytes, configs: map<bytes, bytes>, targetPort: int): Result<bytes> {
    if |query| < 17 then Err("short DNS query")
    else
      match QuestionOf(query)
      case Err(message) => Err(message)
      case Ok(question) =>
        var qtype := Qtype(query, question.end);
        match RdataFor(qtype, question.name, configs, targetPort)
        case Err(message) => Err(message)
        case Ok(rdata) => Ok(Assemble(query[..2], query[12..question.end], qtype, rdata))
  }

  method PutUint16(a: array<byte>, at: nat, value: int)
    requires at + 1 < a.Length
    modifies a
    ensures a[at] == U16(value)[0] && a[at + 1] == U16(value)[1]
    ensures forall i | 0 <= i < a.Length && i != at && i != at + 1 :: a[i] == old(a[i])
  {
    a[at] := U16(value)[0];
    a[at + 1] := U16(value)[1];
  }

  /** The fixed part of a response, filled in place. */
  method Header(query: bytes, answerCount: nat) returns (response: array<byte>)
    requires |query| >= 2
    ensures fresh(response)
    ensures response[..] == query[..2] + U16(0x8180) + U16(1) + U16(answerCount) + [0, 0, 0, 0]
  {
    response := new byte[12](_ => 0);
    response[0], response[1] := query[0], query[1];
    PutUint16(response, 2, 0x8180);
    PutUint16(response, 4, 1);
    PutUint16(response, 6, answerCount);
  }

  /** The switch over the query type. */
  method Rdata(qtype: int, name: bytes, configs: map<bytes, bytes>, targetPort: int) returns (r: Result<Option<bytes>>)
    ensures r == RdataFor(qtype, name, configs, targetPort)
  {
    if qtype == A {
      return Ok(Some([127, 0, 0, 1]));
    }
    if qtype == HTTPS_TYPE {
      var serviceName := StripAttrleafPort(name);
      var record := SvcParamFixture(serviceName, targetPort);
      if record.Some? {
        return Ok(record);
      }
      if serviceName !in configs {
        return Err("no ECH fixture");
      }
      var https := HttpsRecord(configs[serviceName], targetPort);
      return Ok(Some(https));
    }
    r := Ok(None);
  }

  method DnsResponse(query: bytes, configs: map<bytes, bytes>, targetPort: int) returns (r: Result<bytes>)
    ensures r == ResponseTo(query, configs, targetPort)
  {
    if |query| < 17 {
      return Err("short DNS query");
    }
    var parsed := DnsQuestion(query);
    if parsed.Err? {
      return Err(parsed.message);
    }
    var question := parsed.value;
    var qtype := Qtype(query, question.end);
    var answer := Rdata(qtype, question.name, configs, targetPort);
    if answer.Err? {
      return Err(answer.message);
    }
    var rdata := answer.value;
    var header := Header(query, if rdata.Some? then 1 else 0);
    var response := header[..] + query[12..question.end];
    if rdata.None? {
      assert response + [] == response;
      return Ok(response);
    }
    SixParts(response, [0xc0, 0x0c], U16(qtype), U16(1), U32(60), U16Prefixed(rdata.value));
    response := response + [0xc0, 0x0c];
    response := response + U16(qtype);
    response := response + U16(1);
    response := response + U32(60);
    response := response + U16Prefixed(rdata.value);
    r := Ok(response);
  }

  lemma SixParts(a: bytes, b: bytes, c: bytes, d: bytes, e: bytes, f: bytes)
    ensures a + b + c + d + e + f == a + (b + c + d + e + f)
  {
  }

  // -- A section 4.1 reader --------------------------------------------------------------

  datatype Asked = Asked(name: seq<bytes>, qtype: nat, qclass: nat)

  datatype Record = Record(name: seq<bytes>, rtype: nat, rclass: nat, ttl: nat, rdata: bytes)

  datatype Message = Message(
    id: nat,
    flags: nat,
    questions: seq<Asked>,
    answers: seq<Record>,
    authorities: seq<Record>,
    additionals: seq<Record>)

  /** Labels, ended by the root or by a pointer to an earlier position (section 4.1.4), and the
      position after them. */
  function ReadName(msg: bytes, at: nat, bound: nat): Option<(seq<bytes>, nat)>
    decreases bound, |msg| - at
  {
    if at >= |msg| then None
    else if msg[at] == 0 then Some(([], at + 1))
    else if msg[at] < 64 then
      var next := at + 1 + msg[at];
      if next > |msg| then None
      else
        var (labels, end) :- ReadName(msg, next, bound);
        Some(([msg[at + 1..next]] + labels, end))
    else if msg[at] >= 192 && at + 1 < |msg| then
      var target := (msg[at] as int - 192) * 256 + msg[at + 1];
      if target >= bound then None
      else
        var (labels, _) :- ReadName(msg, target, target);
        Some((labels, at + 2))
    else None
  }

  function ReadQuestion(msg: bytes, at: nat): Option<(Asked, nat)> {
    var (name, end) :- ReadName(msg, at, at);
    if end > |msg| then None
    else
      var (qtype, afterType) :- Take16(msg[end..]);
      var (qclass, rest) :- Take16(afterType);
      Some((Asked(name, qtype, qclass), |msg| - |rest|))
  }

  function ReadRecord(msg: bytes, at: nat): Option<(Record, nat)> {
    var (name, end) :- ReadName(msg, at, at);
    if end > |msg| then None
    else
      var (rtype, afterType) :- Take16(msg[end..]);
      var (rclass, afterClass) :- Take16(afterType);
      var (ttl, afterTtl) :- Take32(afterClass);
      var (rdata, rest) :- TakeVector16(afterTtl);
      Some((Record(name, rtype, rclass, ttl, rdata), |msg| - |rest|))
  }

  function ReadQuestions(msg: bytes, at: nat, count: nat): Option<(seq<Asked>, nat)>
    decreases count
  {
    if count == 0 then Some(([], at))
    else
      var (first, next) :- ReadQuestion(msg, at);
      var (more, end) :- ReadQuestions(msg, next, count - 1);
      Some(([first] + more, end))
  }

  function ReadRecords(msg: bytes, at: nat, count: nat): Option<(seq<Record>, nat)>
    decreases count
  {
    if count == 0 then Some(([], at))
    else
      var (first, next) :- ReadRecord(msg, at);
      var (more, end) :- ReadRecords(msg, next, count - 1);
      Some(([first] + more, end))
  }

  function U16At(msg: bytes, at: nat): nat
    requires at + 2 <= |msg|
  {
    msg[at] as int * 256 + msg[at + 1]
  }

  /** A message that is consumed exactly. */
  function Decode(msg: bytes): Option<Message> {
    if |msg| < 12 then None
    else
      var (questions, afterQuestions) :- ReadQuestions(msg, 12, U16At(msg, 4));
      var (answers, afterAnswers) :- ReadRecords(msg, afterQuestions, U16At(msg, 6));
      var (authorities, afterAuthorities) :- ReadRecords(msg, afterAnswers, U16At(msg, 8));
      var (additionals, end) :- ReadRecords(msg, afterAuthorities, U16At(msg, 10));
      if end != |msg| then None
      else Some(Message(U16At(msg, 0), U16At(msg, 2), questions, answers, authorities, additionals))
  }

  // -- Every response reads back ---------------------------------------------------------

  lemma {:induction false} NameInPlace(msg: bytes, at: nat, bound: nat)
    requires at <= |msg| && ParseLabels(msg[at..]).Ok?
    ensures var (labels, rest) := ParseLabels(msg[at..]).value;
            ReadName(msg, at, bound) == Some((labels, |msg| - |rest|))
    decreases |msg| - at
  {
    ParseAt(msg, at);
    if msg[at] != 0 {
      NameInPlace(msg, at + 1 + msg[at], bound);
    }
  }

  /** A response with its question's labels in view. */
  function Response(id: bytes, labels: seq<bytes>, typeAndClass: bytes, qtype: int, rdata: Option<bytes>): bytes {
    Assemble(id, EncodeLabels(labels) + typeAndClass, qtype, rdata)
  }

  function AnswerPart(qtype: int, rdata: Option<bytes>): bytes {
    match rdata
    case None => []
    case Some(data) => [0xc0, 0x0c] + (U16(qtype) + (U16(1) + (U32(60) + U16Prefixed(data))))
  }

  function HeaderOf(id: bytes, answers: nat): bytes {
    id + U16(0x8180) + U16(1) + U16(answers) + [0, 0, 0, 0]
  }

  lemma HeaderFields(id: bytes, answers: nat)
    requires |id| == 2 && answers < 0x1_0000
    ensures var header := HeaderOf(id, answers);
            && |header| == 12 && header[..2] == id
            && U16At(header, 2) == 0x8180 && U16At(header, 4) == 1 && U16At(header, 6) == answers
            && U16At(header, 8) == 0 && U16At(header, 10) == 0
  {
    var header := HeaderOf(id, answers);
    assert header[2..4] == U16(0x8180) && header[4..6] == U16(1) && header[6..8] == U16(answers);
  }

  /** The response is the header, then the name, then type and class, then the answer. */
  lemma ResponseShape(id: bytes, labels: seq<bytes>, typeAndClass: bytes, qtype: int, rdata: Option<bytes>)
    ensures Response(id, labels, typeAndClass, qtype, rdata) ==
            HeaderOf(id, if rdata.Some? then 1 else 0)
            + (EncodeLabels(labels) + (typeAndClass + AnswerPart(qtype, rdata)))
  {
    var question := EncodeLabels(labels) + typeAndClass;
    if rdata.Some? {
      var header := HeaderOf(id, 1);
      FiveParts([0xc0, 0x0c], U16(qtype), U16(1), U32(60), U16Prefixed(rdata.value));
      assert header + question + AnswerPart(qtype, rdata) ==
             header + (EncodeLabels(labels) + (typeAndClass + AnswerPart(qtype, rdata)));
    } else {
      assert typeAndClass + AnswerPart(qtype, rdata) == typeAndClass;
    }
  }

  lemma FiveParts(a: bytes, b: bytes, c: bytes, d: bytes, e: bytes)
    ensures a + b + c + d + e == a + (b + (c + (d + e)))
  {
  }

  /** Reading type and class after a name found at `at`. */
  lemma QuestionInPlace(msg: bytes, at: nat, labels: seq<bytes>, typeAndClass: bytes, after: bytes)
    requires at <= |msg| && |typeAndClass| == 4 && Encodable(labels)
    requires msg[at..] == EncodeLabels(labels) + (typeAndClass + after)
    ensures ReadQuestion(msg, at) ==
            Some((Asked(labels, U16At(typeAndClass, 0), U16At(typeAndClass, 2)), |msg| - |after|))
  {
    NameThen(msg, at, labels, typeAndClass + after);
    TypeAndClassRead(typeAndClass, after);
    QuestionFromParts(msg, at, labels, |msg| - |typeAndClass + after|, typeAndClass, after);
  }

  lemma NameThen(msg: bytes, at: nat, labels: seq<bytes>, back: bytes)
    requires at <= |msg| && Encodable(labels) && msg[at..] == EncodeLabels(labels) + back
    ensures |back| <= |msg| && msg[|msg| - |back|..] == back
    ensures ReadName(msg, at, at) == Some((labels, |msg| - |back|))
  {
    ParseOfEncoded(labels, back);
    NameInPlace(msg, at, at);
    SuffixOfSuffix(msg, at, EncodeLabels(labels), back);
  }

  lemma TypeAndClassRead(typeAndClass: bytes, after: bytes)
    requires |typeAndClass| == 4
    ensures Take16(typeAndClass + after) == Some((U16At(typeAndClass, 0), typeAndClass[2..] + after))
    ensures Take16(typeAndClass[2..] + after) == Some((U16At(typeAndClass, 2), after))
  {
    assert (typeAndClass + after)[2..] == typeAndClass[2..] + after;
    assert (typeAndClass[2..] + after)[2..] == after;
  }

  lemma QuestionFromParts(msg: bytes, at: nat, labels: seq<bytes>, end: nat, typeAndClass: bytes, after: bytes)
    requires |typeAndClass| == 4 && end <= |msg|
    requires ReadName(msg, at, at) == Some((labels, end))
    requires Take16(msg[end..]) == Some((U16At(typeAndClass, 0), typeAndClass[2..] + after))
    requires Take16(typeAndClass[2..] + after) == Some((U16At(typeAndClass, 2), after))
    ensures ReadQuestion(msg, at) ==
            Some((Asked(labels, U16At(typeAndClass, 0), U16At(typeAndClass, 2)), |msg| - |after|))
  {
  }

  lemma SuffixOfSuffix(msg: bytes, at: nat, front: bytes, back: bytes)
    requires at <= |msg| && msg[at..] == front + back
    ensures |msg| == at + |front| + |back| && msg[at + |front|..] == back
  {
    assert msg[at + |front|..] == msg[at..][|front|..];
  }

  /** A pointer to offset 12 is read as the name that stands there. */
  lemma PointerResolves(msg: bytes, at: nat)
    requires 12 < at && at + 2 <= |msg| && msg[at] == 0xc0 && msg[at + 1] == 0x0c && ParseLabels(msg[12..]).Ok?
    ensures ReadName(msg, at, at) == Some((ParseLabels(msg[12..]).value.0, at + 2))
  {
    NameInPlace(msg, 12, 12);
  }

  lemma PointerInFront(msg: bytes, at: nat, rest: bytes)
    requires at <= |msg| && msg[at..] == [0xc0, 0x0c] + rest
    ensures at + 2 <= |msg| && msg[at] == 0xc0 && msg[at + 1] == 0x0c && msg[at + 2..] == rest
  {
    SuffixOfSuffix(msg, at, [0xc0, 0x0c], rest);
    assert msg[at] == msg[at..][0] && msg[at + 1] == msg[at..][1];
  }

  /** Reading an answer whose owner is a pointer to position 12. */
  lemma AnswerInPlace(msg: bytes, at: nat, labels: seq<bytes>, qtype: nat, data: bytes)
    requires 12 < at <= |msg| && qtype < 0x1_0000
    requires ParseLabels(msg[12..]).Ok? && ParseLabels(msg[12..]).value.0 == labels
    requires msg[at..] == AnswerPart(qtype, Some(data))
    ensures ReadRecord(msg, at) == Some((Record(labels, qtype, 1, 60, data), |msg|)) <==> |data| < 0x1_0000
    ensures |data| >= 0x1_0000 && ReadRecord(msg, at).Some? ==> ReadRecord(msg, at).value.0.rdata != data
  {
    var afterType := U16(1) + (U32(60) + U16Prefixed(data));
    PointerInFront(msg, at, U16(qtype) + afterType);
    PointerResolves(msg, at);
    FieldsRead(qtype, U16Prefixed(data));
    RecordFromParts(msg, at, labels, qtype, afterType, data);
  }

  lemma FieldsRead(qtype: nat, rest: bytes)
    requires qtype < 0x1_0000
    ensures var afterType := U16(1) + (U32(60) + rest);
            && Take16(U16(qtype) + afterType) == Some((qtype, afterType))
            && Take16(afterType) == Some((1, U32(60) + rest))
            && Take32(U32(60) + rest) == Some((60, rest))
  {
    Take16Reads(qtype, U16(1) + (U32(60) + rest));
    Fits16(qtype);
    Take16Reads(1, U32(60) + rest);
    Take32Reads(60, rest);
  }

  lemma RecordFromParts(msg: bytes, at: nat, labels: seq<bytes>, qtype: nat, afterType: bytes, data: bytes)
    requires at + 2 <= |msg| && ReadName(msg, at, at) == Some((labels, at + 2))
    requires Take16(msg[at + 2..]) == Some((qtype, afterType))
    requires Take16(afterType) == Some((1, U32(60) + U16Prefixed(data)))
    requires Take32(U32(60) + U16Prefixed(data)) == Some((60, U16Prefixed(data)))
    ensures ReadRecord(msg, at) == Some((Record(labels, qtype, 1, 60, data), |msg|)) <==> |data| < 0x1_0000
    ensures |data| >= 0x1_0000 && ReadRecord(msg, at).Some? ==> ReadRecord(msg, at).value.0.rdata != data
  {
    assert U16Prefixed(data) + [] == U16Prefixed(data);
    TakeVector16Reads(data, []);
    if TakeVector16(U16Prefixed(data)).Some? {
      TakeVector16Inverts(U16Prefixed(data));
    }
  }

  function ExpectedMessage(id: bytes, labels: seq<bytes>, typeAndClass: bytes, rdata: Option<bytes>): Message
    requires |id| == 2 && |typeAndClass| == 4
  {
    var qtype := U16At(typeAndClass, 0);
    Message(
      U16At(id, 0),
      0x8180,
      [Asked(labels, qtype, U16At(typeAndClass, 2))],
      match rdata { case None => [] case Some(data) => [Record(labels, qtype, 1, 60, data)] },
      [],
      [])
  }

  /** A response decodes to its question, its identifier and its answer exactly when the RDATA
      fits RDLENGTH. */
  lemma ResponseDecodes(id: bytes, labels: seq<bytes>, typeAndClass: bytes, rdata: Option<bytes>)
    requires |id| == 2 && |typeAndClass| == 4 && Encodable(labels)
    ensures var msg := Response(id, labels, typeAndClass, U16At(typeAndClass, 0), rdata);
            Decode(msg) == Some(ExpectedMessage(id, labels, typeAndClass, rdata))
            <==> (rdata.Some? ==> |rdata.value| < 0x1_0000)
  {
    var qtype := U16At(typeAndClass, 0);
    ResponseHeader(id, labels, typeAndClass, qtype, rdata);
    MessageDecodes(Response(id, labels, typeAndClass, qtype, rdata), id, labels, typeAndClass, rdata);
  }

  /** The same of any message with that header and body. */
  lemma MessageDecodes(msg: bytes, id: bytes, labels: seq<bytes>, typeAndClass: bytes, rdata: Option<bytes>)
    requires |id| == 2 && |typeAndClass| == 4 && Encodable(labels) && |msg| >= 12
    requires msg[12..] == EncodeLabels(labels) + (typeAndClass + AnswerPart(U16At(typeAndClass, 0), rdata))
    requires U16At(msg, 0) == U16At(id, 0) && U16At(msg, 2) == 0x8180 && U16At(msg, 4) == 1
    requires U16At(msg, 6) == (if rdata.Some? then 1 else 0) && U16At(msg, 8) == 0 && U16At(msg, 10) == 0
    ensures Decode(msg) == Some(ExpectedMessage(id, labels, typeAndClass, rdata))
            <==> (rdata.Some? ==> |rdata.value| < 0x1_0000)
  {
    var qtype := U16At(typeAndClass, 0);
    var asked := Asked(labels, qtype, U16At(typeAndClass, 2));
    var answer := AnswerPart(qtype, rdata);
    QuestionInPlace(msg, 12, labels, typeAndClass, answer);
    match rdata {
      case None =>
        DecodesIff(msg, asked, |msg|, None);
      case Some(data) =>
        AnswerAfterQuestion(msg, labels, typeAndClass, qtype, data);
        DecodesIff(msg, asked, |msg| - |answer|, Some(Record(labels, qtype, 1, 60, data)));
    }
  }

  /** With one question and at most one answer announced, a message decodes to them exactly when
      the answer is read and nothing is left over. */
  lemma DecodesIff(msg: bytes, asked: Asked, at: nat, answer: Option<Record>)
    requires |msg| >= 12 && ReadQuestion(msg, 12) == Some((asked, at)) && U16At(msg, 4) == 1
    requires U16At(msg, 6) == (if answer.Some? then 1 else 0) && U16At(msg, 8) == 0 && U16At(msg, 10) == 0
    requires answer.None? ==> at == |msg|
    ensures var answers := match answer { case None => [] case Some(record) => [record] };
            Decode(msg) == Some(Message(U16At(msg, 0), U16At(msg, 2), [asked], answers, [], []))
            <==> (answer.Some? ==> ReadRecord(msg, at) == Some((answer.value, |msg|)))
  {
    OneQuestion(msg, asked, at);
    DecodeFrom(msg, [asked], at);
    OneRecord(msg, at);
  }

  lemma ResponseHeader(id: bytes, labels: seq<bytes>, typeAndClass: bytes, qtype: int, rdata: Option<bytes>)
    requires |id| == 2
    ensures var msg := Response(id, labels, typeAndClass, qtype, rdata);
            && |msg| >= 12 && msg[12..] == EncodeLabels(labels) + (typeAndClass + AnswerPart(qtype, rdata))
            && U16At(msg, 0) == U16At(id, 0) && U16At(msg, 2) == 0x8180 && U16At(msg, 4) == 1
            && U16At(msg, 6) == (if rdata.Some? then 1 else 0) && U16At(msg, 8) == 0 && U16At(msg, 10) == 0
  {
    var header := HeaderOf(id, if rdata.Some? then 1 else 0);
    var msg := Response(id, labels, typeAndClass, qtype, rdata);
    ResponseShape(id, labels, typeAndClass, qtype, rdata);
    HeaderFields(id, if rdata.Some? then 1 else 0);
    HeaderInFront(header, EncodeLabels(labels) + (typeAndClass + AnswerPart(qtype, rdata)), msg);
    SameStart(header, id);
  }

  lemma AnswerAfterQuestion(msg: bytes, labels: seq<bytes>, typeAndClass: bytes, qtype: nat, data: bytes)
    requires |typeAndClass| == 4 && Encodable(labels) && qtype < 0x1_0000 && |msg| >= 12
    requires msg[12..] == EncodeLabels(labels) + (typeAndClass + AnswerPart(qtype, Some(data)))
    ensures var at := |msg| - |AnswerPart(qtype, Some(data))|;
            && at >= 0
            && (ReadRecord(msg, at) == Some((Record(labels, qtype, 1, 60, data), |msg|)) <==> |data| < 0x1_0000)
  {
    var answer := AnswerPart(qtype, Some(data));
    assert msg[12..] == (EncodeLabels(labels) + typeAndClass) + answer;
    SuffixOfSuffix(msg, 12, EncodeLabels(labels) + typeAndClass, answer);
    ParseOfEncoded(labels, typeAndClass + answer);
    AnswerInPlace(msg, |msg| - |answer|, labels, qtype, data);
  }

  lemma SameStart(header: bytes, id: bytes)
    requires |id| == 2 && |header| >= 2 && header[..2] == id
    ensures U16At(header, 0) == U16At(id, 0)
  {
    assert header[0] == header[..2][0] && header[1] == header[..2][1];
  }

  lemma HeaderInFront(header: bytes, body: bytes, msg: bytes)
    requires |header| == 12 && msg == header + body
    ensures msg[12..] == body
    ensures forall at | 0 <= at <= 10 :: U16At(msg, at) == U16At(header, at)
  {
  }

  lemma OneQuestion(msg: bytes, asked: Asked, end: nat)
    requires ReadQuestion(msg, 12) == Some((asked, end))
    ensures ReadQuestions(msg, 12, 1) == Some(([asked], end))
  {
    assert ReadQuestions(msg, end, 0) == Some(([], end));
    assert [asked] + [] == [asked];
  }

  lemma OneRecord(msg: bytes, at: nat)
    ensures ReadRecords(msg, at, 1) ==
            match ReadRecord(msg, at) { case None => None case Some((first, end)) => Some(([first], end)) }
  {
    if ReadRecord(msg, at).Some? {
      var (first, end) := ReadRecord(msg, at).value;
      assert ReadRecords(msg, end, 0) == Some(([], end));
      assert [first] + [] == [first];
    }
  }

  lemma DecodeFrom(msg: bytes, questions: seq<Asked>, at: nat)
    requires |msg| >= 12 && ReadQuestions(msg, 12, U16At(msg, 4)) == Some((questions, at))
    requires U16At(msg, 8) == 0 && U16At(msg, 10) == 0
    ensures Decode(msg) ==
            match ReadRecords(msg, at, U16At(msg, 6))
            case None => None
            case Some((answers, end)) =>
              if end == |msg| then Some(Message(U16At(msg, 0), U16At(msg, 2), questions, answers, [], [])) else None
  {
    if ReadRecords(msg, at, U16At(msg, 6)).Some? {
      var (answers, end) := ReadRecords(msg, at, U16At(msg, 6)).value;
      assert ReadRecords(msg, end, 0) == Some(([], end));
    }
  }
}
