/** Octets in network order: the appending helpers of the fixture
    (ech-fixture/src/main/resources/ech-fixture/main.go) and the matching reads. */
module Bytes {
  import opened Wrappers

  type byte = b: int | 0 <= b < 256

  type bytes = seq<byte>

  /** The octets of an ASCII literal. */
  function Ascii(s: string): (b: bytes)
    requires forall i | 0 <= i < |s| :: s[i] < 128 as char
    ensures |b| == |s| && forall i | 0 <= i < |s| :: b[i] == s[i] as int
  {
    seq(|s|, i requires 0 <= i < |s| => s[i] as int)
  }

  /** A 16-bit value in network order, after the conversion to uint16. */
  function U16(value: int): (b: bytes)
    ensures |b| == 2 && b[0] as int * 256 + b[1] == value % 0x1_0000
  {
    var v := value % 0x1_0000;
    [v / 256, v % 256]
  }

  function U32(value: int): (b: bytes)
    ensures |b| == 4
  {
    var v := value % 0x1_0000_0000;
    U16(v / 0x1_0000) + U16(v % 0x1_0000)
  }

  /** A value behind its 16-bit length; the length wraps like any uint16. */
  function U16Prefixed(value: bytes): bytes {
    U16(|value|) + value
  }

  // Facts about joining, stated apart so that no proof has to find them among larger terms.

  lemma Assoc(a: bytes, b: bytes, c: bytes)
    ensures a + b + c == a + (b + c)
  {
  }

  lemma Cut(a: bytes, b: bytes)
    ensures (a + b)[..|a|] == a && (a + b)[|a|..] == b
  {
  }

  // -- Reading from the front ------------------------------------------------------------

  function Take8(b: bytes): Option<(byte, bytes)> {
    if |b| < 1 then None else Some((b[0], b[1..]))
  }

  function Take16(b: bytes): Option<(nat, bytes)> {
    if |b| < 2 then None else Some((b[0] as int * 256 + b[1], b[2..]))
  }

  function Take32(b: bytes): Option<(nat, bytes)> {
    var (high, afterHigh) :- Take16(b);
    var (low, rest) :- Take16(afterHigh);
    Some((high * 0x1_0000 + low, rest))
  }

  function TakeN(b: bytes, n: nat): Option<(bytes, bytes)> {
    if |b| < n then None else Some((b[..n], b[n..]))
  }

  /** opaque value<0..2^16-1> in the notation of section 3.4 of RFC 8446. */
  function TakeVector16(b: bytes): Option<(bytes, bytes)> {
    var (n, rest) :- Take16(b);
    TakeN(rest, n)
  }

  lemma Fits16(n: nat)
    ensures n % 0x1_0000 == n <==> n < 0x1_0000
  {
  }

  lemma Take16Reads(value: int, rest: bytes)
    ensures Take16(U16(value) + rest) == Some((value % 0x1_0000, rest))
  {
    assert (U16(value) + rest)[2..] == rest;
  }

  lemma Take32Reads(value: int, rest: bytes)
    ensures Take32(U32(value) + rest) == Some((value % 0x1_0000_0000, rest))
  {
    var v := value % 0x1_0000_0000;
    var high, low := v / 0x1_0000, v % 0x1_0000;
    Assoc(U16(high), U16(low), rest);
    Take16Reads(high, U16(low) + rest);
    Take16Reads(low, rest);
    Fits16(high);
    Fits16(low);
    Halves(v);
  }

  lemma Halves(v: nat)
    requires v < 0x1_0000_0000
    ensures v / 0x1_0000 < 0x1_0000 && v % 0x1_0000 < 0x1_0000
    ensures (v / 0x1_0000) * 0x1_0000 + v % 0x1_0000 == v
  {
  }

  lemma TakeNReads(value: bytes, rest: bytes)
    ensures TakeN(value + rest, |value|) == Some((value, rest))
  {
    assert (value + rest)[..|value|] == value && (value + rest)[|value|..] == rest;
  }

  /** A prefixed value reads back exactly when its length fits the prefix. */
  lemma TakeVector16Reads(value: bytes, rest: bytes)
    ensures TakeVector16(U16Prefixed(value) + rest) == Some((value, rest)) <==> |value| < 0x1_0000
  {
    assert U16Prefixed(value) + rest == U16(|value|) + (value + rest);
    Take16Reads(|value|, value + rest);
    if |value| < 0x1_0000 {
      TakeNReads(value, rest);
    }
  }

  lemma U16OfPair(high: byte, low: byte)
    ensures U16(high as int * 256 + low) == [high, low]
  {
    var v: int := high as int * 256 + low;
    assert 0 <= v < 0x1_0000;
    DivideOut(high, low);
  }

  lemma DivideOut(high: int, low: int)
    requires 0 <= low < 256
    ensures (high * 256 + low) / 256 == high && (high * 256 + low) % 256 == low
  {
  }

  /** Whatever was read is what prefixing writes. */
  lemma TakeVector16Inverts(b: bytes)
    requires TakeVector16(b).Some?
    ensures var (value, rest) := TakeVector16(b).value;
            |value| < 0x1_0000 && b == U16Prefixed(value) + rest
  {
    var (n, rest) := Take16(b).value;
    U16OfPair(b[0], b[1]);
    assert b == U16(n) + rest;
    assert rest == rest[..n] + rest[n..];
  }
}
