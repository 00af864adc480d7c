/** The records the fixture publishes, and the names it publishes them at
    (ech-fixture/src/main/resources/ech-fixture/main.go). */
module ServiceRecords {
  import opened Wrappers
  import opened Bytes
  import opened DnsName
  import opened SvcParams

  method AppendSvcParam(dst: bytes, key: int, value: bytes) returns (out: bytes)
    requires 0 <= key
    ensures out == dst + EncodeParam(SvcParam(key, value))
  {
    out := dst + U16(key);
    out := out + U16Prefixed(value);
  }

  lemma AppendParam(front: bytes, ps: seq<SvcParam>, p: SvcParam)
    ensures front + EncodeParams(ps) + EncodeParam(p) == front + EncodeParams(ps + [p])
  {
    EncodeOfSnoc(ps, p);
  }

  lemma {:induction false} EncodeOfSnoc(ps: seq<SvcParam>, p: SvcParam)
    ensures EncodeParams(ps + [p]) == EncodeParams(ps) + EncodeParam(p)
  {
    if ps == [] {
      assert [p][1..] == [];
    } else {
      assert (ps + [p])[1..] == ps[1..] + [p];
      EncodeOfSnoc(ps[1..], p);
    }
  }

  // -- The ordinary record ---------------------------------------------------------------

  const ALPN := 1
  const NO_DEFAULT_ALPN := 2
  const PORT := 3
  const IPV4HINT := 4
  const ECH := 5

  const ID_H2: bytes := Ascii("h2")
  const ID_H3: bytes := Ascii("h3")
  const ID_HTTP11: bytes := Ascii("http/1.1")

  const H2_AND_HTTP11: bytes := [2, 104, 50, 8, 104, 116, 116, 112, 47, 49, 46, 49]
  const H2: bytes := [2, 104, 50]
  const H3: bytes := [2, 104, 51]
  const LOOPBACK: bytes := [127, 0, 0, 1]

  function HttpsBinding(echConfigList: bytes, targetPort: int): Binding {
    Binding(1, [], [
      SvcParam(ALPN, H2_AND_HTTP11),
      SvcParam(PORT, U16(targetPort)),
      SvcParam(IPV4HINT, LOOPBACK),
      SvcParam(ECH, echConfigList)])
  }

  /** A reader finds the origin: no other name, HTTP/2 and HTTP/1.1, the port, the loopback address,
      the config list, and nothing else. */
  ghost predicate AnnouncesOrigin(record: bytes, echConfigList: bytes, targetPort: int) {
    var b := DecodeBinding(record);
    && b.Some? && b.value.priority == 1 && b.value.target == []
    && KeysOf(b.value.params) == {1, 3, 4, 5}
    && IdsOf(b.value.params) == Some([ID_H2, ID_HTTP11])
    && PortOf(b.value.params) == Some(targetPort % 0x1_0000)
    && ValueAt(b.value.params, 4) == Some([127, 0, 0, 1])
    && ValueAt(b.value.params, 5) == Some(echConfigList)
  }

  method HttpsRecord(echConfigList: bytes, targetPort: int) returns (result: bytes)
    ensures result == EncodeBinding(HttpsBinding(echConfigList, targetPort))
    ensures |echConfigList| < 0x1_0000 ==> AnnouncesOrigin(result, echConfigList, targetPort)
  {
    if |echConfigList| < 0x1_0000 {
      HttpsBindingAnnounces(echConfigList, targetPort);
    }
    var ps := HttpsBinding(echConfigList, targetPort).params;
    result := U16(1);
    result := result + [0];
    ghost var front := result;
    assert front == U16(1) + EncodeLabels([]);
    assert front + EncodeParams([]) == front;
    result := AppendSvcParam(result, 1, [2, 104, 50, 8, 104, 116, 116, 112, 47, 49, 46, 49]);
    AppendParam(front, [], ps[0]);
    assert [] + [ps[0]] == ps[..1];
    result := AppendSvcParam(result, 3, U16(targetPort));
    AppendParam(front, ps[..1], ps[1]);
    assert ps[..1] + [ps[1]] == ps[..2];
    result := AppendSvcParam(result, 4, [127, 0, 0, 1]);
    AppendParam(front, ps[..2], ps[2]);
    assert ps[..2] + [ps[2]] == ps[..3];
    result := AppendSvcParam(result, 5, echConfigList);
    AppendParam(front, ps[..3], ps[3]);
    assert ps[..3] + [ps[3]] == ps;
  }

  lemma EncodedParamSize(p: SvcParam)
    ensures |EncodeParam(p)| == 4 + |p.value|
  {
  }

  lemma HttpsParamsUnfold(echConfigList: bytes, targetPort: int)
    ensures var ps := HttpsBinding(echConfigList, targetPort).params;
            && |EncodeParams(ps)| == 34 + |echConfigList|
            && (WellFormed(ps, -1) <==> |echConfigList| < 0x1_0000)
  {
    var ps := HttpsBinding(echConfigList, targetPort).params;
    var a, b, c, d := ps[0], ps[1], ps[2], ps[3];
    assert ps[1..] == [b, c, d] && [b, c, d][1..] == [c, d] && [c, d][1..] == [d] && [d][1..] == [];
    assert WellFormed([d], IPV4HINT) <==> |echConfigList| < 0x1_0000;
    assert WellFormed([c, d], PORT) <==> |echConfigList| < 0x1_0000;
    assert WellFormed([b, c, d], ALPN) <==> |echConfigList| < 0x1_0000;
    EncodedParamSize(a);
    EncodedParamSize(b);
    EncodedParamSize(c);
    EncodedParamSize(d);
    assert |EncodeParams([d])| == 4 + |echConfigList|;
    assert |EncodeParams([c, d])| == 12 + |echConfigList|;
    assert |EncodeParams([b, c, d])| == 18 + |echConfigList|;
  }

  /** The ordinary record reads back with every parameter, whatever the port, as long as the ECH
      config list fits a parameter; and it fits the RDLENGTH of a resource record exactly when
      the list has at most 65498 octets. */
  lemma HttpsRecordReadsBack(echConfigList: bytes, targetPort: int)
    ensures var b := HttpsBinding(echConfigList, targetPort);
            && (DecodeBinding(EncodeBinding(b)) == Some(b) <==> |echConfigList| < 0x1_0000)
            && |EncodeBinding(b)| == 37 + |echConfigList|
            && (|EncodeBinding(b)| < 0x1_0000 <==> |echConfigList| <= 65498)
  {
    var b := HttpsBinding(echConfigList, targetPort);
    HttpsParamsUnfold(echConfigList, targetPort);
    BindingRoundTrip(b);
  }

  lemma HttpsBindingAnnounces(echConfigList: bytes, targetPort: int)
    requires |echConfigList| < 0x1_0000
    ensures AnnouncesOrigin(EncodeBinding(HttpsBinding(echConfigList, targetPort)), echConfigList, targetPort)
  {
    var b := HttpsBinding(echConfigList, targetPort);
    HttpsRecordReadsBack(echConfigList, targetPort);
    var ps := b.params;
    ValuesOf4(ps[0], ps[1], ps[2], ps[3]);
    assert ps == [ps[0], ps[1], ps[2], ps[3]];
    BothIdsRead();
    PortReads(targetPort);
  }

  lemma ValuesOf4(a: SvcParam, b: SvcParam, c: SvcParam, d: SvcParam)
    requires a.key < b.key < c.key < d.key
    ensures var ps := [a, b, c, d];
            && KeysOf(ps) == {a.key, b.key, c.key, d.key}
            && ValueAt(ps, a.key) == Some(a.value) && ValueAt(ps, b.key) == Some(b.value)
            && ValueAt(ps, c.key) == Some(c.value) && ValueAt(ps, d.key) == Some(d.value)
  {
    var ps := [a, b, c, d];
    assert ps[1..] == [b, c, d] && [b, c, d][1..] == [c, d] && [c, d][1..] == [d];
    ValuesOf3(b, c, d);
    KeysOfCons(a, [b, c, d]);
    assert [a] + [b, c, d] == ps;
  }

  lemma ValuesOf3(a: SvcParam, b: SvcParam, c: SvcParam)
    requires a.key < b.key < c.key
    ensures var ps := [a, b, c];
            && KeysOf(ps) == {a.key, b.key, c.key}
            && ValueAt(ps, a.key) == Some(a.value) && ValueAt(ps, b.key) == Some(b.value)
            && ValueAt(ps, c.key) == Some(c.value)
  {
    var ps := [a, b, c];
    assert ps[1..] == [b, c] && [b, c][1..] == [c];
    ValuesOf2(b, c);
    KeysOfCons(a, [b, c]);
    assert [a] + [b, c] == ps;
  }

  lemma ValuesOf2(a: SvcParam, b: SvcParam)
    requires a.key < b.key
    ensures var ps := [a, b];
            KeysOf(ps) == {a.key, b.key} && ValueAt(ps, a.key) == Some(a.value) && ValueAt(ps, b.key) == Some(b.value)
  {
    assert [a, b][1..] == [b];
    assert a in [a, b] && b in [a, b];
  }

  lemma KeysOfCons(a: SvcParam, ps: seq<SvcParam>)
    ensures KeysOf([a] + ps) == {a.key} + KeysOf(ps)
  {
    assert a in [a] + ps;
    assert forall p | p in ps :: p in [a] + ps;
  }

  lemma OneIdReads(id: bytes, rest: bytes)
    requires 0 < |id| < 256 && ReadIds(rest).Some?
    ensures ReadIds([|id|] + id + rest) == Some([id] + ReadIds(rest).value)
  {
    IdInFront(id, rest);
    TakeNReads(id, rest);
    IdFromParts([|id|] + id + rest, id, rest);
  }

  lemma IdInFront(id: bytes, rest: bytes)
    requires |id| < 256
    ensures var v := [|id|] + id + rest;
            |v| == 1 + |id| + |rest| && v[0] == |id| && v[1..] == id + rest
  {
  }

  lemma IdFromParts(v: bytes, id: bytes, rest: bytes)
    requires v != [] && id != [] && TakeN(v[1..], v[0]) == Some((id, rest)) && |rest| < |v| && ReadIds(rest).Some?
    ensures ReadIds(v) == Some([id] + ReadIds(rest).value)
  {
  }

  lemma BothIdsRead()
    ensures ReadIds(H2_AND_HTTP11) == Some([ID_H2, ID_HTTP11])
  {
    var one, two := ID_H2, ID_HTTP11;
    OneIdReads(two, []);
    OneIdReads(one, [8] + two + []);
    assert H2_AND_HTTP11 == [2] + one + ([8] + two + []);
    assert [one] + ([two] + []) == [one, two];
  }

  lemma OnlyIdReads(id: bytes)
    requires 0 < |id| < 256
    ensures ReadIds([|id|] + id) == Some([id])
  {
    OneIdReads(id, []);
    assert [|id|] + id + [] == [|id|] + id && [id] + [] == [id];
  }

  lemma PortReads(targetPort: int)
    ensures Take16(U16(targetPort)) == Some((targetPort % 0x1_0000, []))
  {
    assert U16(targetPort)[2..] == [];
  }

  // -- The unusual records ---------------------------------------------------------------

  const GREEN: bytes := Ascii("green")
  const SECRET: bytes := Ascii("secret")
  const TEST: bytes := Ascii("test")

  const ALIAS: bytes := Ascii("alias.svcb.test")
  const NO_DEFAULT: bytes := Ascii("nodefaultalpn.svcb.test")
  const MANDATORY: bytes := Ascii("mandatory.svcb.test")
  const H3_ONLY: bytes := Ascii("h3only.svcb.test")
  const UNKNOWN_PARAM: bytes := Ascii("unknownparam.svcb.test")
  const UNDEFINED: bytes := Ascii("nothing here is defined")
  const GREEN_NAME: bytes := Ascii("green.secret.test")

  /** What is published at each of the five special names. */
  function FixtureBinding(name: bytes, targetPort: int): Option<Binding> {
    var port := SvcParam(PORT, U16(targetPort));
    if name == ALIAS then
      Some(Binding(0, [GREEN, SECRET, TEST], []))
    else if name == NO_DEFAULT then
      Some(Binding(1, [], [SvcParam(ALPN, H2), SvcParam(NO_DEFAULT_ALPN, []), port]))
    else if name == MANDATORY then
      Some(Binding(1, [], [SvcParam(0, U16(1)), SvcParam(ALPN, H2), port]))
    else if name == H3_ONLY then
      Some(Binding(1, [], [SvcParam(ALPN, H3), port]))
    else if name == UNKNOWN_PARAM then
      Some(Binding(1, [], [SvcParam(ALPN, H2), port, SvcParam(31337, UNDEFINED)]))
    else None
  }

  /** What a reader finds in the record of a special name, name by name. */
  ghost predicate SpecialSays(name: bytes, b: Binding, targetPort: int) {
    if name == ALIAS then
      b.priority == 0 && Join(b.target) == GREEN_NAME && b.params == []
    else
      && b.priority == 1 && b.target == [] && PortOf(b.params) == Some(targetPort % 0x1_0000)
      && SpecialParams(name, b.params)
  }

  ghost predicate SpecialParams(name: bytes, ps: seq<SvcParam>) {
    if name == NO_DEFAULT then
      KeysOf(ps) == {1, 2, 3} && IdsOf(ps) == Some([ID_H2]) && ValueAt(ps, 2) == Some([])
    else if name == MANDATORY then
      KeysOf(ps) == {0, 1, 3} && IdsOf(ps) == Some([ID_H2]) && ValueAt(ps, 0) == Some([0, 1])
    else if name == H3_ONLY then
      KeysOf(ps) == {1, 3} && IdsOf(ps) == Some([ID_H3])
    else
      && name == UNKNOWN_PARAM
      && KeysOf(ps) == {1, 3, 31337} && IdsOf(ps) == Some([ID_H2]) && ValueAt(ps, 31337) == Some(UNDEFINED)
  }

  predicate IsSpecial(name: bytes) {
    name == ALIAS || name == NO_DEFAULT || name == MANDATORY || name == H3_ONLY || name == UNKNOWN_PARAM
  }

  /** The five special names have a record a reader finds that in, and no other name has one. */
  ghost predicate PublishesSpecial(name: bytes, rdata: Option<bytes>, targetPort: int) {
    if rdata.None? then !IsSpecial(name)
    else
      && IsSpecial(name) && DecodeBinding(rdata.value).Some?
      && SpecialSays(name, DecodeBinding(rdata.value).value, targetPort)
  }

  function FixtureRdata(name: bytes, targetPort: int): Option<bytes> {
    match FixtureBinding(name, targetPort)
    case None => None
    case Some(b) => Some(EncodeBinding(b))
  }

  lemma FixturesPublish(name: bytes, targetPort: int)
    ensures PublishesSpecial(name, FixtureRdata(name, targetPort), targetPort)
  {
    if FixtureBinding(name, targetPort).Some? {
      FixturesReadBack(name, targetPort);
      FixturesSay(name, targetPort);
    }
  }

  lemma FixturesSay(name: bytes, targetPort: int)
    requires FixtureBinding(name, targetPort).Some?
    ensures IsSpecial(name) && SpecialSays(name, FixtureBinding(name, targetPort).value, targetPort)
  {
    if name == ALIAS {
      AliasTarget();
      JoinOfSplit(GREEN_NAME);
    } else {
      PortReads(targetPort);
      ParamsSay(name, SvcParam(3, U16(targetPort)), FixtureBinding(name, targetPort).value.params);
    }
  }

  lemma ParamsSay(name: bytes, port: SvcParam, ps: seq<SvcParam>)
    requires port.key == 3 && IsSpecial(name) && name != ALIAS
    requires ps == if name == NO_DEFAULT then [SvcParam(1, H2), SvcParam(2, []), port]
                   else if name == MANDATORY then [SvcParam(0, U16(1)), SvcParam(1, H2), port]
                   else if name == H3_ONLY then [SvcParam(1, H3), port]
                   else [SvcParam(1, H2), port, SvcParam(31337, UNDEFINED)]
    ensures SpecialParams(name, ps) && ValueAt(ps, 3) == Some(port.value)
  {
    OneIdEach();
    if name == H3_ONLY {
      ValuesOf2(ps[0], ps[1]);
    } else {
      ValuesOf3(ps[0], ps[1], ps[2]);
    }
  }

  lemma OneIdEach()
    ensures ReadIds(H2) == Some([ID_H2]) && ReadIds(H3) == Some([ID_H3])
  {
    OnlyIdReads(ID_H2);
    OnlyIdReads(ID_H3);
    assert H2 == [2] + ID_H2 && H3 == [2] + ID_H3;
  }

  method SvcParamFixture(name: bytes, targetPort: int) returns (rdata: Option<bytes>)
    ensures rdata == match FixtureBinding(name, targetPort) { case None => None case Some(b) => Some(EncodeBinding(b)) }
    ensures PublishesSpecial(name, rdata, targetPort)
  {
    FixturesPublish(name, targetPort);
    var port := U16(targetPort);
    var result := U16(1);
    result := result + [0];
    if name == ALIAS {
      result := U16(0);
      result := AppendDnsName(result, GREEN_NAME);
      AliasTarget();
      assert result == EncodeBinding(Binding(0, [GREEN, SECRET, TEST], []));
    } else if name == NO_DEFAULT {
      result := Append3(result, SvcParam(1, [2, 104, 50]), SvcParam(2, []), SvcParam(3, port));
    } else if name == MANDATORY {
      result := Append3(result, SvcParam(0, U16(1)), SvcParam(1, [2, 104, 50]), SvcParam(3, port));
    } else if name == H3_ONLY {
      result := Append2(result, SvcParam(1, [2, 104, 51]), SvcParam(3, port));
    } else if name == UNKNOWN_PARAM {
      result := Append3(result, SvcParam(1, [2, 104, 50]), SvcParam(3, port),
                        SvcParam(31337, UNDEFINED));
    } else {
      return None;
    }
    rdata := Some(result);
  }

  method Append2(dst: bytes, a: SvcParam, b: SvcParam) returns (out: bytes)
    ensures out == dst + EncodeParams([a, b])
  {
    out := AppendSvcParam(dst, a.key, a.value);
    out := AppendSvcParam(out, b.key, b.value);
    assert [a, b][1..] == [b] && [b][1..] == [];
    assert EncodeParams([b]) == EncodeParam(b);
    assert EncodeParams([a, b]) == EncodeParam(a) + EncodeParam(b);
  }

  method Append3(dst: bytes, a: SvcParam, b: SvcParam, c: SvcParam) returns (out: bytes)
    ensures out == dst + EncodeParams([a, b, c])
  {
    out := Append2(dst, a, b);
    out := AppendSvcParam(out, c.key, c.value);
    AppendParam(dst, [a, b], c);
    assert [a, b] + [c] == [a, b, c];
  }

  lemma AliasTarget()
    ensures GREEN_NAME == GREEN + [DOT] + (SECRET + [DOT] + TEST)
    ensures Split(GREEN_NAME) == [GREEN, SECRET, TEST]
    ensures EncodeName(GREEN_NAME) == EncodeLabels([GREEN, SECRET, TEST])
  {
    var labels := [GREEN, SECRET, TEST];
    assert labels[1..] == [SECRET, TEST] && [SECRET, TEST][1..] == [TEST];
    assert Join([TEST]) == TEST;
    assert Join([SECRET, TEST]) == SECRET + [DOT] + TEST;
    assert Join(labels) == GREEN + [DOT] + (SECRET + [DOT] + TEST);
    assert GREEN_NAME == Join(labels);
    SplitOfJoin(labels);
  }

  /** Every special record is one a section 2.2 decoder reads back, for every port, and it is
      small enough for any RDLENGTH. */
  lemma FixturesReadBack(name: bytes, targetPort: int)
    requires FixtureBinding(name, targetPort).Some?
    ensures var b := FixtureBinding(name, targetPort).value;
            DecodeBinding(EncodeBinding(b)) == Some(b) && |EncodeBinding(b)| <= 43
  {
    var b := FixtureBinding(name, targetPort).value;
    FixtureShape(name, targetPort);
    if b.params == [] {
      EncodedLabelsSize();
    } else if |b.params| == 2 {
      WellFormed2(b.params[0], b.params[1]);
    } else {
      WellFormed3(b.params[0], b.params[1], b.params[2]);
    }
    BindingRoundTrip(b);
  }

  lemma EncodedLabelsSize()
    ensures |EncodeLabels([GREEN, SECRET, TEST])| == 19
  {
    var labels := [GREEN, SECRET, TEST];
    assert labels[1..] == [SECRET, TEST] && [SECRET, TEST][1..] == [TEST] && [TEST][1..] == [];
    assert |EncodeLabels([TEST])| == 6;
    assert |EncodeLabels([SECRET, TEST])| == 13;
  }

  lemma FixtureShape(name: bytes, targetPort: int)
    requires FixtureBinding(name, targetPort).Some?
    ensures var b := FixtureBinding(name, targetPort).value;
            var ps := b.params;
            || (b == Binding(0, [GREEN, SECRET, TEST], []))
            || (b.priority == 1 && b.target == [] && |ps| == 2 && ps == [ps[0], ps[1]]
                && ps[0].key < ps[1].key < 0x1_0000 && |ps[0].value| + |ps[1].value| <= 28)
            || (b.priority == 1 && b.target == [] && |ps| == 3 && ps == [ps[0], ps[1], ps[2]]
                && ps[0].key < ps[1].key < ps[2].key < 0x1_0000
                && |ps[0].value| + |ps[1].value| + |ps[2].value| <= 28)
  {
  }

  lemma WellFormed2(a: SvcParam, b: SvcParam)
    requires a.key < b.key < 0x1_0000 && |a.value| < 0x1_0000 && |b.value| < 0x1_0000
    ensures WellFormed([a, b], -1)
    ensures |EncodeParams([a, b])| == 8 + |a.value| + |b.value|
  {
    assert [a, b][1..] == [b] && [b][1..] == [];
    assert WellFormed([b], a.key);
    assert |EncodeParams([b])| == 4 + |b.value|;
  }

  lemma WellFormed3(a: SvcParam, b: SvcParam, c: SvcParam)
    requires a.key < b.key < c.key < 0x1_0000
    requires |a.value| < 0x1_0000 && |b.value| < 0x1_0000 && |c.value| < 0x1_0000
    ensures WellFormed([a, b, c], -1)
    ensures |EncodeParams([a, b, c])| == 12 + |a.value| + |b.value| + |c.value|
  {
    assert [a, b, c][1..] == [b, c] && [b, c][1..] == [c] && [c][1..] == [];
    assert WellFormed([c], b.key);
    assert WellFormed([b, c], a.key);
    assert |EncodeParams([c])| == 4 + |c.value|;
    assert |EncodeParams([b, c])| == 8 + |b.value| + |c.value|;
  }
}
