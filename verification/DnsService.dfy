/** What a DNS client gets from the fixture, for every query
    (ech-fixture/src/main/resources/ech-fixture/main.go). */
module DnsService {
  import opened Wrappers
  import opened Bytes
  import opened DnsName
  import opened SvcParams
  import opened ServiceRecords
  import opened Attrleaf
  import opened DnsMessage
  import Decimal

  /** The RDATA of an HTTPS answer comes from the config map, and its config list is too long. */
  predicate ConfigListTooLong(qtype: int, name: bytes, configs: map<bytes, bytes>, targetPort: int) {
    var service := StripAttrleafPort(name);
    && qtype == HTTPS_TYPE && FixtureBinding(service, targetPort).None?
    && service in configs && |configs[service]| > 65498
  }

  lemma RdataFits(qtype: int, name: bytes, configs: map<bytes, bytes>, targetPort: int)
    requires RdataFor(qtype, name, configs, targetPort).Ok?
    ensures var rdata := RdataFor(qtype, name, configs, targetPort).value;
            (rdata.Some? ==> |rdata.value| < 0x1_0000) <==> !ConfigListTooLong(qtype, name, configs, targetPort)
  {
    var service := StripAttrleafPort(name);
    if qtype == HTTPS_TYPE {
      if FixtureBinding(service, targetPort).Some? {
        FixturesReadBack(service, targetPort);
      } else {
        HttpsRecordReadsBack(configs[service], targetPort);
      }
    }
  }

  /** Every query is refused or answered with a message that a section 4.1 reader consumes
      exactly, with the query's identifier, the question as asked, and the answer owned by that
      question's name - unless the configured list is too long for RDLENGTH, and then not. */
  lemma ResponsesReadBack(query: bytes, configs: map<bytes, bytes>, targetPort: int)
    requires ResponseTo(query, configs, targetPort).Ok?
    ensures var (labels, end) := QuestionLabels(query).value;
            var question := QuestionOf(query).value;
            var qtype := Qtype(query, question.end);
            var rdata := RdataFor(qtype, question.name, configs, targetPort).value;
            && question.end == end + 4 <= |query|
            && (Decode(ResponseTo(query, configs, targetPort).value) ==
                  Some(ExpectedMessage(query[..2], labels, query[end..end + 4], rdata))
                <==> !ConfigListTooLong(qtype, question.name, configs, targetPort))
  {
    var (labels, end) := QuestionLabels(query).value;
    var question := QuestionOf(query).value;
    var qtype := Qtype(query, question.end);
    var rdata := RdataFor(qtype, question.name, configs, targetPort).value;
    AnswerParts(query, configs, targetPort);
    AnswerReadsBack(query, labels, end, question, rdata, configs, targetPort);
  }

  /** What an answered query had to have. */
  lemma AnswerParts(query: bytes, configs: map<bytes, bytes>, targetPort: int)
    requires ResponseTo(query, configs, targetPort).Ok?
    ensures |query| >= 17 && QuestionOf(query).Ok? && QuestionLabels(query).Ok?
    ensures QuestionOf(query).value.end == QuestionLabels(query).value.1 + 4 <= |query|
    ensures var question := QuestionOf(query).value;
            RdataFor(Qtype(query, question.end), question.name, configs, targetPort).Ok?
  {
  }

  lemma AnswerReadsBack(query: bytes, labels: seq<bytes>, end: nat, question: Question, rdata: Option<bytes>,
                        configs: map<bytes, bytes>, targetPort: int)
    requires |query| >= 17 && QuestionOf(query) == Ok(question) && QuestionLabels(query) == Ok((labels, end))
    requires question.end == end + 4 <= |query|
    requires RdataFor(Qtype(query, question.end), question.name, configs, targetPort) == Ok(rdata)
    ensures ResponseTo(query, configs, targetPort).Ok?
    ensures Decode(ResponseTo(query, configs, targetPort).value) ==
              Some(ExpectedMessage(query[..2], labels, query[end..end + 4], rdata))
            <==> !ConfigListTooLong(Qtype(query, question.end), question.name, configs, targetPort)
  {
    RdataFits(Qtype(query, question.end), question.name, configs, targetPort);
    ResponseIsAssembled(query, configs, targetPort, rdata);
    AssembledDecodes(query, labels, end, rdata);
  }

  lemma ResponseIsAssembled(query: bytes, configs: map<bytes, bytes>, targetPort: int, rdata: Option<bytes>)
    requires |query| >= 17 && QuestionOf(query).Ok?
    requires var question := QuestionOf(query).value;
             RdataFor(Qtype(query, question.end), question.name, configs, targetPort) == Ok(rdata)
    ensures var question := QuestionOf(query).value;
            ResponseTo(query, configs, targetPort) ==
            Ok(Assemble(query[..2], query[12..question.end], Qtype(query, question.end), rdata))
  {
  }

  lemma AssembledDecodes(query: bytes, labels: seq<bytes>, end: nat, rdata: Option<bytes>)
    requires QuestionLabels(query) == Ok((labels, end)) && end + 4 <= |query|
    ensures Decode(Assemble(query[..2], query[12..end + 4], Qtype(query, end + 4), rdata)) ==
              Some(ExpectedMessage(query[..2], labels, query[end..end + 4], rdata))
            <==> (rdata.Some? ==> |rdata.value| < 0x1_0000)
  {
    NameOctets(query, labels, end);
    QuestionParts(query, end);
    ResponseDecodes(query[..2], labels, query[end..end + 4], rdata);
  }

  lemma QuestionParts(query: bytes, end: nat)
    requires 12 <= end && end + 4 <= |query|
    ensures query[12..end + 4] == query[12..end] + query[end..end + 4]
    ensures Qtype(query, end + 4) == U16At(query[end..end + 4], 0)
  {
  }

  /** The octets of a question's name are its labels, written. */
  lemma NameOctets(query: bytes, labels: seq<bytes>, end: nat)
    requires QuestionLabels(query) == Ok((labels, end))
    ensures Encodable(labels) && 12 <= end <= |query| && query[12..end] == EncodeLabels(labels)
  {
    var rest := ParseLabels(query[12..]).value.1;
    ConsumedIsEncoded(query[12..]);
    SuffixOfSuffix(query, 12, EncodeLabels(labels), rest);
    Cut(EncodeLabels(labels), rest);
    assert query[12..end] == query[12..][..end - 12];
  }

  /** With config lists of at most 65498 octets no response is malformed. */
  lemma ShortConfigsAlwaysReadBack(query: bytes, configs: map<bytes, bytes>, targetPort: int)
    requires forall name | name in configs :: |configs[name]| <= 65498
    ensures ResponseTo(query, configs, targetPort).Ok? ==> Decode(ResponseTo(query, configs, targetPort).value).Some?
  {
    if ResponseTo(query, configs, targetPort).Ok? {
      ResponsesReadBack(query, configs, targetPort);
    }
  }

  // -- The port-prefixed name ------------------------------------------------------------

  lemma {:induction false} LowerKeepsDigits(s: bytes)
    requires forall i | 0 <= i < |s| :: !(65 <= s[i] <= 90)
    ensures ToLower(s) == s
  {
  }

  lemma LowerOfPrefixed(port: nat, name: bytes)
    ensures ToLower(Prefixed(Decimal.OfNat(port), name)) == Prefixed(Decimal.OfNat(port), ToLower(name))
  {
    var front := [UNDERSCORE] + Decimal.OfNat(port) + [DOT];
    LowerKeepsDigits(front);
    LowerKeepsDigits(HTTPS + [DOT]);
    LowerOfConcat(front, HTTPS + [DOT] + name);
    LowerOfConcat(HTTPS + [DOT], name);
  }

  lemma FiveDigits(n: nat)
    requires n <= 65535
    ensures |Decimal.Digits(n)| <= 5
  {
    assert |Decimal.Digits(n / 10000)| == 1;
    TenfoldDigits(n / 1000);
    TenfoldDigits(n / 100);
    TenfoldDigits(n / 10);
    TenfoldDigits(n);
  }

  lemma TenfoldDigits(n: nat)
    ensures |Decimal.Digits(n)| <= |Decimal.Digits(n / 10)| + 1
  {
  }

  lemma PrefixedIsEncodable(port: nat, name: bytes)
    requires port <= 65535 && Encodable(Split(name))
    ensures Encodable(Split(Prefixed(Decimal.OfNat(port), name)))
  {
    DecimalParses(port);
    ParsedHasNoDot(Decimal.OfNat(port), 0);
    SplitOfPrefixed(Decimal.OfNat(port), name);
    FiveDigits(port);
  }

  function HttpsQuery(header: bytes, name: bytes): bytes {
    header + EncodeName(name) + (U16(HTTPS_TYPE) + U16(1))
  }

  /** What the responder makes of a written HTTPS query. */
  lemma HttpsQueryParses(header: bytes, name: bytes)
    requires |header| == 12 && Encodable(Split(name))
    ensures var query := HttpsQuery(header, name);
            && |query| >= 17
            && QuestionOf(query) == Ok(Question(|query|, ToLower(name)))
            && Qtype(query, |query|) == HTTPS_TYPE
  {
    WrittenNameReadsBack(header, name, U16(HTTPS_TYPE) + U16(1));
  }

  /** The response that carries a given record, or the refusal for want of one. */
  function Carrying(header: bytes, name: bytes, record: Result<Option<bytes>>): Result<bytes>
    requires |header| == 12
  {
    match record
    case Err(message) => Err(message)
    case Ok(rdata) => Ok(Assemble(header[..2], EncodeName(name) + (U16(HTTPS_TYPE) + U16(1)), HTTPS_TYPE, rdata))
  }

  lemma HttpsQueryAnswered(header: bytes, name: bytes, configs: map<bytes, bytes>, targetPort: int)
    requires |header| == 12 && Encodable(Split(name))
    ensures ResponseTo(HttpsQuery(header, name), configs, targetPort) ==
            Carrying(header, name, RdataFor(HTTPS_TYPE, ToLower(name), configs, targetPort))
  {
    var query := HttpsQuery(header, name);
    HttpsQueryParses(header, name);
    assert query[..2] == header[..2];
    assert query[12..|query|] == EncodeName(name) + (U16(HTTPS_TYPE) + U16(1));
  }

  /** The response to a query that carries a given record, or the refusal for want of one. */
  function Answered(header: bytes, name: bytes, suffix: bytes, record: Result<Option<bytes>>): Result<bytes>
    requires |header| == 12 && |suffix| >= 4
  {
    match record
    case Err(message) => Err(message)
    case Ok(rdata) => Ok(Assemble(header[..2], EncodeName(name) + suffix[..4], U16At(suffix, 0), rdata))
  }

  lemma QueryAnswered(header: bytes, name: bytes, suffix: bytes, configs: map<bytes, bytes>, targetPort: int)
    requires |header| == 12 && |suffix| >= 4 && Encodable(Split(name))
    ensures ResponseTo(header + EncodeName(name) + suffix, configs, targetPort) ==
            Answered(header, name, suffix, RdataFor(U16At(suffix, 0), ToLower(name), configs, targetPort))
  {
    var encoded := EncodeName(name);
    WrittenNameReadsBack(header, name, suffix);
    EncodedHasRoot(Split(name)[1..]);
    QuerySlices(header, encoded, suffix);
  }

  lemma QuerySlices(header: bytes, encoded: bytes, suffix: bytes)
    requires |header| == 12 && |suffix| >= 4
    ensures var query, end := header + encoded + suffix, 12 + |encoded| + 4;
            && end <= |query| && query[..2] == header[..2] && query[12..end] == encoded + suffix[..4]
            && Qtype(query, end) == U16At(suffix, 0)
  {
    var query, end := header + encoded + suffix, 12 + |encoded| + 4;
    assert query[end - 4] == suffix[0] && query[end - 3] == suffix[1];
  }

  /** Whatever is asked, and with whatever configs, two spellings of a name that differ in letter case
      alone are answered with the same record or both refused. */
  lemma SpellingsAnswerTheSame(header: bytes, x: bytes, y: bytes, suffix: bytes,
                               configs: map<bytes, bytes>, targetPort: int) returns (record: Result<Option<bytes>>)
    requires |header| == 12 && |suffix| >= 4 && SpellSame(x, y)
    requires Encodable(Split(x)) && Encodable(Split(y))
    ensures ResponseTo(header + EncodeName(x) + suffix, configs, targetPort) == Answered(header, x, suffix, record)
    ensures ResponseTo(header + EncodeName(y) + suffix, configs, targetPort) == Answered(header, y, suffix, record)
  {
    record := RdataFor(U16At(suffix, 0), ToLower(x), configs, targetPort);
    SpellingsLower(x, y);
    QueryAnswered(header, x, suffix, configs, targetPort);
    QueryAnswered(header, y, suffix, configs, targetPort);
  }

  // -- What is published -----------------------------------------------------------------

  /** Under a special name its own record, else one that announces the origin, for any config list a
      parameter can hold; and nothing for a name that is neither special nor configured. */
  lemma PublishedRecords(serviceName: bytes, configs: map<bytes, bytes>, targetPort: int)
    ensures var published := ServiceRdata(serviceName, configs, targetPort);
            if IsSpecial(serviceName) then
              published.Ok? && published.value.Some? && PublishesSpecial(serviceName, published.value, targetPort)
            else if serviceName in configs then
              && published.Ok? && published.value.Some?
              && (|configs[serviceName]| < 0x1_0000 ==>
                    AnnouncesOrigin(published.value.value, configs[serviceName], targetPort))
            else published.Err?
  {
    FixturesPublish(serviceName, targetPort);
    if serviceName in configs && |configs[serviceName]| < 0x1_0000 {
      HttpsBindingAnnounces(configs[serviceName], targetPort);
    }
  }

  /** An address query is answered with the loopback address, and a query of any other type than that
      and the HTTPS one with no answer at all. */
  lemma OtherTypes(query: bytes, configs: map<bytes, bytes>, targetPort: int)
    requires |query| >= 17 && QuestionOf(query).Ok?
    requires Qtype(query, QuestionOf(query).value.end) != 65
    ensures ResponseTo(query, configs, targetPort).Ok?
    ensures var answered := Decode(ResponseTo(query, configs, targetPort).value);
            && answered.Some?
            && if Qtype(query, QuestionOf(query).value.end) == 1
               then |answered.value.answers| == 1 && answered.value.answers[0].rdata == [127, 0, 0, 1]
               else answered.value.answers == []
  {
    ResponsesReadBack(query, configs, targetPort);
  }

  /** Asking at `_port._https.name` gets the record published for the name, for every port, every
      config map and every name; asking at the name itself gets that of the name without its prefix. */
  lemma PortNameGetsRecord(header: bytes, name: bytes, port: nat, configs: map<bytes, bytes>, targetPort: int)
    requires |header| == 12 && Encodable(Split(name)) && port <= 65535
    ensures var long := Prefixed(Decimal.OfNat(port), name);
            var lower := ToLower(name);
            && ResponseTo(HttpsQuery(header, long), configs, targetPort) ==
               Carrying(header, long, ServiceRdata(lower, configs, targetPort))
            && ResponseTo(HttpsQuery(header, name), configs, targetPort) ==
               Carrying(header, name, ServiceRdata(StripAttrleafPort(lower), configs, targetPort))
  {
    var long := Prefixed(Decimal.OfNat(port), name);
    HttpsQueryAnswered(header, name, configs, targetPort);
    PrefixedIsEncodable(port, name);
    HttpsQueryAnswered(header, long, configs, targetPort);
    LowerOfPrefixed(port, name);
    StripOfPort(port, ToLower(name));
  }

  /** The two names carry the same record, or are both refused, in every config map if and only if
      the name is not itself prefixed: one prefix is stripped and no more. */
  lemma RecordSharedIff(name: bytes, targetPort: int)
    ensures (forall configs :: ServiceRdata(name, configs, targetPort) ==
                               ServiceRdata(StripAttrleafPort(name), configs, targetPort))
            <==> !IsPrefixed(name)
  {
    StripLeavesUnprefixed(name);
    if IsPrefixed(name) {
      var service := StripAttrleafPort(name);
      var configs: map<bytes, bytes> := map[service := []];
      NoPrefixedFixture(name, targetPort);
      assert ServiceRdata(name, configs, targetPort).Err? && ServiceRdata(service, configs, targetPort).Ok?;
    }
  }

  lemma NoPrefixedFixture(name: bytes, targetPort: int)
    requires name != [] && name[0] == UNDERSCORE
    ensures FixtureBinding(name, targetPort).None?
  {
    assert ALIAS[0] != UNDERSCORE && NO_DEFAULT[0] != UNDERSCORE && MANDATORY[0] != UNDERSCORE;
    assert H3_ONLY[0] != UNDERSCORE && UNKNOWN_PARAM[0] != UNDERSCORE;
  }

  // -- A list that is too long -----------------------------------------------------------

  /** One octet too many: a list of 65499 octets configured for the name the fixture publishes one
      for is answered with a message that does not decode to its record. */
  lemma LongConfigListMisreads(header: bytes, list: bytes, targetPort: int)
    requires |header| == 12 && |list| == 65499
    ensures var query := HttpsQuery(header, GREEN_NAME);
            var response := ResponseTo(query, map[GREEN_NAME := list], targetPort);
            var record := EncodeBinding(HttpsBinding(list, targetPort));
            && response.Ok?
            && Decode(response.value) !=
               Some(ExpectedMessage(header[..2], GREEN_LABELS, U16(HTTPS_TYPE) + U16(1), Some(record)))
  {
    var configs := map[GREEN_NAME := list];
    var record := EncodeBinding(HttpsBinding(list, targetPort));
    GreenNameIsPlain();
    GreenIsNoFixture(targetPort);
    HttpsQueryAnswered(header, GREEN_NAME, configs, targetPort);
    HttpsRecordReadsBack(list, targetPort);
    WireTypeReads();
    ResponseDecodes(header[..2], GREEN_LABELS, U16(HTTPS_TYPE) + U16(1), Some(record));
  }

  const GREEN_LABELS: seq<bytes> := [GREEN, SECRET, TEST]

  lemma GreenNameIsPlain()
    ensures Split(GREEN_NAME) == GREEN_LABELS && Encodable(Split(GREEN_NAME)) && ToLower(GREEN_NAME) == GREEN_NAME
    ensures StripAttrleafPort(GREEN_NAME) == GREEN_NAME
  {
    AliasTarget();
    GreenIsLower();
    assert SECRET[0] != HTTPS[0];
  }

  lemma GreenIsLower()
    ensures ToLower(GREEN + [DOT] + (SECRET + [DOT] + TEST)) == GREEN + [DOT] + (SECRET + [DOT] + TEST)
  {
    LowerKeepsDigits(GREEN + [DOT]);
    LowerKeepsDigits(SECRET + [DOT]);
    LowerKeepsDigits(TEST);
    LowerOfConcat(SECRET + [DOT], TEST);
    LowerOfConcat(GREEN + [DOT], SECRET + [DOT] + TEST);
  }

  lemma GreenIsNoFixture(targetPort: int)
    ensures FixtureBinding(GREEN_NAME, targetPort).None?
  {
    assert GREEN_NAME[0] == 103;
    assert ALIAS[0] == 97 && NO_DEFAULT[0] == 110 && MANDATORY[0] == 109;
    assert H3_ONLY[0] == 104 && UNKNOWN_PARAM[0] == 117;
  }

  lemma WireTypeReads()
    ensures U16At(U16(HTTPS_TYPE) + U16(1), 0) == HTTPS_TYPE
  {
  }
}
