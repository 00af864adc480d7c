/** Service binding records (ech-fixture/src/main/resources/ech-fixture/main.go) against the wire
    format of section 2.2 of RFC 9460. */
module SvcParams {
  import opened Wrappers
  import opened Bytes
  import opened DnsName

  datatype SvcParam = SvcParam(key: nat, value: bytes)

  datatype Binding = Binding(priority: nat, target: seq<bytes>, params: seq<SvcParam>)

  // -- The wire format -------------------------------------------------------------------

  function EncodeParam(p: SvcParam): bytes {
    U16(p.key) + U16Prefixed(p.value)
  }

  function EncodeParams(ps: seq<SvcParam>): bytes {
    if ps == [] then [] else EncodeParam(ps[0]) + EncodeParams(ps[1..])
  }

  function EncodeBinding(b: Binding): bytes {
    U16(b.priority) + EncodeLabels(b.target) + EncodeParams(b.params)
  }

  /** Keys must rise strictly; `previous` is the last key seen, -1 before the first. */
  function DecodeParams(b: bytes, previous: int): Option<seq<SvcParam>>
    decreases |b|
  {
    if b == [] then Some([])
    else
      var (key, afterKey) :- Take16(b);
      var (value, rest) :- TakeVector16(afterKey);
      if key <= previous then None
      else
        var more :- DecodeParams(rest, key);
        Some([SvcParam(key, value)] + more)
  }

  function DecodeBinding(b: bytes): Option<Binding> {
    var (priority, afterPriority) :- Take16(b);
    match ParseLabels(afterPriority)
    case Err(_) => None
    case Ok((target, afterTarget)) =>
      var params :- DecodeParams(afterTarget, -1);
      Some(Binding(priority, target, params))
  }

  // -- What a record says ----------------------------------------------------------------

  /** The value of a key. */
  function ValueAt(ps: seq<SvcParam>, key: nat): Option<bytes> {
    if ps == [] then None
    else if ps[0].key == key then Some(ps[0].value)
    else ValueAt(ps[1..], key)
  }

  function KeysOf(ps: seq<SvcParam>): set<nat> {
    set p | p in ps :: p.key
  }

  /** The identifiers of an alpn value, each behind its length octet (section 7.1.1). */
  function ReadIds(v: bytes): Option<seq<bytes>>
    decreases |v|
  {
    if v == [] then Some([])
    else
      var (id, rest) :- TakeN(v[1..], v[0]);
      if id == [] then None
      else
        var more :- ReadIds(rest);
        Some([id] + more)
  }

  function IdsOf(ps: seq<SvcParam>): Option<seq<bytes>> {
    var v :- ValueAt(ps, 1);
    ReadIds(v)
  }

  /** The port, if its value is two octets (section 7.2). */
  function PortOf(ps: seq<SvcParam>): Option<nat> {
    var v :- ValueAt(ps, 3);
    var (port, rest) :- Take16(v);
    if rest == [] then Some(port) else None
  }

  ghost predicate WellFormed(ps: seq<SvcParam>, previous: int) {
    ps != [] ==>
      && previous < ps[0].key < 0x1_0000
      && |ps[0].value| < 0x1_0000
      && WellFormed(ps[1..], ps[0].key)
  }

  // -- Round trips -----------------------------------------------------------------------

  lemma DecodeOfParam(p: SvcParam, rest: bytes, previous: int)
    requires previous < p.key < 0x1_0000 && |p.value| < 0x1_0000
    ensures DecodeParams(EncodeParam(p) + rest, previous) ==
            match DecodeParams(rest, p.key) { case None => None case Some(more) => Some([p] + more) }
  {
    var b, afterKey := EncodeParam(p) + rest, U16Prefixed(p.value) + rest;
    Assoc(U16(p.key), U16Prefixed(p.value), rest);
    Take16Reads(p.key, afterKey);
    Fits16(p.key);
    TakeVector16Reads(p.value, rest);
    ParamFromParts(b, p, afterKey, rest, previous);
  }

  lemma ParamFromParts(b: bytes, p: SvcParam, afterKey: bytes, rest: bytes, previous: int)
    requires b != [] && previous < p.key
    requires Take16(b) == Some((p.key, afterKey)) && TakeVector16(afterKey) == Some((p.value, rest))
    ensures DecodeParams(b, previous) ==
            match DecodeParams(rest, p.key) { case None => None case Some(more) => Some([p] + more) }
  {
  }

  lemma {:induction false} WellFormedReadsBack(ps: seq<SvcParam>, previous: int)
    requires WellFormed(ps, previous)
    ensures DecodeParams(EncodeParams(ps), previous) == Some(ps)
  {
    if ps != [] {
      var first, rest := ps[0], ps[1..];
      WellFormedReadsBack(rest, first.key);
      DecodeOfParam(first, EncodeParams(rest), previous);
      assert EncodeParams(ps) == EncodeParam(first) + EncodeParams(rest);
      assert [first] + rest == ps;
    }
  }

  /** The decoder accepts nothing malformed, and loses nothing of what it accepts. */
  lemma {:induction false} DecodedIsWellFormed(b: bytes, previous: int)
    requires DecodeParams(b, previous).Some?
    ensures WellFormed(DecodeParams(b, previous).value, previous)
    ensures EncodeParams(DecodeParams(b, previous).value) == b
    decreases |b|
  {
    if b != [] {
      var (key, afterKey) := Take16(b).value;
      var (value, rest) := TakeVector16(afterKey).value;
      DecodedIsWellFormed(rest, key);
      TakeVector16Inverts(afterKey);
      U16OfPair(b[0], b[1]);
      var ps := DecodeParams(b, previous).value;
      assert ps[0] == SvcParam(key, value) && ps[1..] == DecodeParams(rest, key).value;
      assert b == U16(key) + afterKey;
      Assoc(U16(key), U16Prefixed(value), rest);
      assert EncodeParams(ps) == EncodeParam(ps[0]) + rest;
    }
  }

  /** Parameters round-trip exactly when their keys rise strictly and fit 16 bits and their
      values' lengths do too. */
  lemma ParamsRoundTrip(ps: seq<SvcParam>)
    ensures DecodeParams(EncodeParams(ps), -1) == Some(ps) <==> WellFormed(ps, -1)
  {
    if WellFormed(ps, -1) {
      WellFormedReadsBack(ps, -1);
    }
    if DecodeParams(EncodeParams(ps), -1) == Some(ps) {
      DecodedIsWellFormed(EncodeParams(ps), -1);
    }
  }

  ghost predicate WellFormedBinding(b: Binding) {
    b.priority < 0x1_0000 && Encodable(b.target) && WellFormed(b.params, -1)
  }

  /** A whole record round-trips exactly when its priority fits 16 bits, its target's labels fit
      a name, and its parameters round-trip. */
  lemma BindingRoundTrip(b: Binding)
    ensures DecodeBinding(EncodeBinding(b)) == Some(b) <==> WellFormedBinding(b)
  {
    if WellFormedBinding(b) {
      BindingReadsBack(b);
    }
    if DecodeBinding(EncodeBinding(b)) == Some(b) {
      DecodedBindingIsWellFormed(EncodeBinding(b));
    }
  }

  lemma BindingReadsBack(b: Binding)
    requires WellFormedBinding(b)
    ensures DecodeBinding(EncodeBinding(b)) == Some(b)
  {
    var afterPriority := EncodeLabels(b.target) + EncodeParams(b.params);
    Assoc(U16(b.priority), EncodeLabels(b.target), EncodeParams(b.params));
    Take16Reads(b.priority, afterPriority);
    Fits16(b.priority);
    ParseOfEncoded(b.target, EncodeParams(b.params));
    WellFormedReadsBack(b.params, -1);
    BindingFromParts(U16(b.priority) + afterPriority, b, afterPriority, EncodeParams(b.params));
  }

  lemma BindingFromParts(wire: bytes, b: Binding, afterPriority: bytes, afterTarget: bytes)
    requires Take16(wire) == Some((b.priority, afterPriority))
    requires ParseLabels(afterPriority) == Ok((b.target, afterTarget))
    requires DecodeParams(afterTarget, -1) == Some(b.params)
    ensures DecodeBinding(wire) == Some(b)
  {
  }

  lemma DecodedBindingIsWellFormed(wire: bytes)
    requires DecodeBinding(wire).Some?
    ensures WellFormedBinding(DecodeBinding(wire).value)
  {
    var (priority, afterPriority) := Take16(wire).value;
    DecodedIsWellFormed(ParseLabels(afterPriority).value.1, -1);
  }
}
