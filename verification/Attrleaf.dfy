/** The port-prefixed query names of section 2.3 of RFC 9460
    (ech-fixture/src/main/resources/ech-fixture/main.go). */
module Attrleaf {
  import opened Wrappers
  import opened Bytes
  import opened DnsName
  import Decimal

  const UNDERSCORE: byte := 95
  const HTTPS: bytes := Ascii("_https")

  predicate IsDigit(b: byte) {
    48 <= b <= 57
  }

  /** An unsigned decimal of at most 65535, with at least one digit and nothing else. */
  function ParseUint16(s: bytes): Option<nat> {
    if s == [] then None else ParseDigits(s, 0)
  }

  function ParseDigits(s: bytes, acc: nat): Option<nat>
    decreases |s|
  {
    if s == [] then Some(acc)
    else if !IsDigit(s[0]) || acc * 10 + (s[0] - 48) > 65535 then None
    else ParseDigits(s[1..], acc * 10 + (s[0] - 48))
  }

  lemma {:induction false} HornerGrows(acc: nat, ds: seq<nat>)
    ensures acc <= Decimal.Horner(acc, ds)
    decreases |ds|
  {
    if ds != [] {
      HornerGrows(acc * 10 + ds[0], ds[1..]);
    }
  }

  lemma {:induction false} ParseOfDigits(s: bytes, ds: seq<nat>, acc: nat)
    requires |s| == |ds| && forall i | 0 <= i < |s| :: ds[i] < 10 && s[i] == 48 + ds[i]
    requires Decimal.Horner(acc, ds) <= 65535
    ensures ParseDigits(s, acc) == Some(Decimal.Horner(acc, ds))
    decreases |s|
  {
    if s != [] {
      var next := acc * 10 + ds[0];
      HornerGrows(next, ds[1..]);
      ParseOfDigits(s[1..], ds[1..], next);
    }
  }

  /** The digits a decimal is made of. */
  function DigitsOf(s: bytes): (ds: seq<nat>)
    requires forall i | 0 <= i < |s| :: 48 <= s[i] <= 57
    ensures |ds| == |s| && forall i | 0 <= i < |s| :: ds[i] == s[i] - 48
  {
    seq(|s|, i requires 0 <= i < |s| => s[i] - 48)
  }

  /** Exactly the decimals of at least one digit and of at most 65535 are recognised, leading zeros
      included, and at their value. */
  lemma ParsesExactlyPorts(s: bytes, value: nat)
    ensures ParseUint16(s) == Some(value) <==>
            && s != [] && (forall i | 0 <= i < |s| :: 48 <= s[i] <= 57)
            && Decimal.Horner(0, DigitsOf(s)) == value <= 65535
  {
    if ParseUint16(s).Some? {
      ParsedIsDecimal(s, 0);
    }
    if s != [] && forall i | 0 <= i < |s| :: 48 <= s[i] <= 57 {
      if Decimal.Horner(0, DigitsOf(s)) <= 65535 {
        ParseOfDigits(s, DigitsOf(s), 0);
      }
    }
  }

  lemma {:induction false} ParsedIsDecimal(s: bytes, acc: nat)
    requires ParseDigits(s, acc).Some? && acc <= 65535
    ensures forall i | 0 <= i < |s| :: 48 <= s[i] <= 57
    ensures Decimal.Horner(acc, DigitsOf(s)) == ParseDigits(s, acc).value <= 65535
    decreases |s|
  {
    if s != [] {
      var next := acc * 10 + (s[0] - 48);
      ParsedIsDecimal(s[1..], next);
      assert s == [s[0]] + s[1..];
      assert DigitsOf(s)[1..] == DigitsOf(s[1..]);
    }
  }

  lemma DecimalParses(port: nat)
    requires port <= 65535
    ensures ParseUint16(Decimal.OfNat(port)) == Some(port)
  {
    Decimal.DigitsReadBack(port);
    ParseOfDigits(Decimal.OfNat(port), Decimal.Digits(port), 0);
  }

  /** The name without a leading port and protocol label, or the name unchanged. */
  function StripAttrleafPort(name: bytes): bytes {
    var labels := Split(name);
    if |labels| < 3 || labels[1] != HTTPS || |labels[0]| < 2 || labels[0][0] != UNDERSCORE then name
    else if ParseUint16(labels[0][1..]).None? then name
    else Join(labels[2..])
  }

  /** name is `_<digits>._https.<rest>` with digits a 16-bit decimal. */
  ghost predicate HasPrefix(name: bytes, digits: bytes, rest: bytes) {
    && ParseUint16(digits).Some?
    && name == Prefixed(digits, rest)
  }

  function Prefixed(digits: bytes, rest: bytes): bytes {
    [UNDERSCORE] + digits + [DOT] + (HTTPS + [DOT] + rest)
  }

  /** As it is asked for the origin's port. */
  lemma PrefixSpelled()
    ensures Prefixed(Decimal.OfNat(8443), Ascii("a.test")) == Ascii("_8443._https.a.test")
  {
    OriginPort();
    assert Prefixed([56, 52, 52, 51], Ascii("a.test")) == Ascii("_8443._https.a.test");
  }

  lemma OriginPort()
    ensures Decimal.OfNat(8443) == [56, 52, 52, 51]
  {
    assert Decimal.Digits(84) == [8, 4];
    assert Decimal.Digits(844) == [8, 4] + [4];
    assert Decimal.Digits(8443) == [8, 4, 4] + [3];
  }

  lemma {:induction false} ParsedHasNoDot(s: bytes, acc: nat)
    requires ParseDigits(s, acc).Some?
    ensures DotFree(s)
    decreases |s|
  {
    if s != [] {
      ParsedHasNoDot(s[1..], acc * 10 + (s[0] - 48));
      assert s == [s[0]] + s[1..];
    }
  }

  lemma SplitOfPrefixed(digits: bytes, rest: bytes)
    requires DotFree(digits)
    ensures Split(Prefixed(digits, rest)) == [[UNDERSCORE] + digits] + ([HTTPS] + Split(rest))
  {
    SplitAtDot([UNDERSCORE] + digits, HTTPS + [DOT] + rest);
    SplitAtDot(HTTPS, rest);
  }

  /** A prefixed name loses exactly its prefix. */
  lemma StripRemovesPrefix(name: bytes, digits: bytes, rest: bytes)
    requires HasPrefix(name, digits, rest)
    ensures StripAttrleafPort(name) == rest
  {
    ParsedHasNoDot(digits, 0);
    SplitOfPrefixed(digits, rest);
    var labels := Split(name);
    assert labels[0][1..] == digits && labels[2..] == Split(rest);
    JoinOfSplit(rest);
  }

  /** Every other name is left alone. */
  lemma StripKeepsOthers(name: bytes)
    requires forall digits, rest :: !HasPrefix(name, digits, rest)
    ensures StripAttrleafPort(name) == name
  {
    var labels := Split(name);
    if |labels| >= 3 && labels[1] == HTTPS && |labels[0]| >= 2 && labels[0][0] == UNDERSCORE
       && ParseUint16(labels[0][1..]).Some? {
      JoinOfSplit(name);
      var digits, rest := labels[0][1..], Join(labels[2..]);
      assert labels[1..][1..] == labels[2..];
      assert Join(labels[1..]) == HTTPS + [DOT] + rest;
      assert labels[0] == [UNDERSCORE] + digits;
      assert HasPrefix(name, digits, rest);
    }
  }

  ghost predicate IsPrefixed(name: bytes) {
    exists digits, rest :: HasPrefix(name, digits, rest)
  }

  /** So stripping leaves alone exactly the names without a prefix. */
  lemma StripLeavesUnprefixed(name: bytes)
    ensures StripAttrleafPort(name) == name <==> !IsPrefixed(name)
    ensures IsPrefixed(name) ==> name[0] == UNDERSCORE
  {
    if IsPrefixed(name) {
      var digits, rest :| HasPrefix(name, digits, rest);
      StripRemovesPrefix(name, digits, rest);
      assert |rest| < |name|;
    } else {
      StripKeepsOthers(name);
    }
  }

  /** For every port in decimal and every name, the prefixed name strips to the name. */
  lemma StripOfPort(port: nat, name: bytes)
    requires port <= 65535
    ensures StripAttrleafPort(Prefixed(Decimal.OfNat(port), name)) == name
  {
    DecimalParses(port);
    StripRemovesPrefix(Prefixed(Decimal.OfNat(port), name), Decimal.OfNat(port), name);
  }
}
