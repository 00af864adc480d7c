/** ECH configuration lists (ech-fixture/src/main/resources/ech-fixture/main.go and
    network/src/test/kotlin/okhttp/testbed/network/EchClientHelloTest.kt) against section 4 of
    RFC 9849. */
module EchConfig {
  import opened Wrappers
  import opened Bytes

  const VERSION := 0xfe0d
  const X25519 := 0x0020
  const HKDF_SHA256 := 0x0001
  const AES_128_GCM := 0x0001

  // -- The fixture's writer --------------------------------------------------------------

  /** HpkeKeyConfig. */
  function KeyConfig(id: byte, publicKey: bytes): bytes {
    [id] + (U16(X25519) + (U16Prefixed(publicKey) + U16Prefixed(SUITES)))
  }

  const SUITES := U16(HKDF_SHA256) + U16(AES_128_GCM)

  /** What follows it in ECHConfigContents. */
  function NamePart(publicName: bytes, maxNameLength: byte): bytes {
    [maxNameLength] + ([|publicName| % 256] + (publicName + U16Prefixed([])))
  }

  function Contents(id: byte, publicKey: bytes, publicName: bytes, maxNameLength: byte): bytes {
    KeyConfig(id, publicKey) + NamePart(publicName, maxNameLength)
  }

  function Config(id: byte, publicKey: bytes, publicName: bytes, maxNameLength: byte): bytes {
    U16(VERSION) + U16Prefixed(Contents(id, publicKey, publicName, maxNameLength))
  }

  function ConfigList(config: bytes): bytes {
    U16Prefixed(config)
  }

  method MarshalEchConfig(id: byte, publicKey: bytes, publicName: bytes, maxNameLength: byte)
    returns (config: bytes)
    ensures config == Config(id, publicKey, publicName, maxNameLength)
  {
    var contents := [id];
    contents := contents + U16(0x0020);
    contents := contents + U16Prefixed(publicKey);
    var cipherSuites := U16(0x0001);
    cipherSuites := cipherSuites + U16(0x0001);
    contents := contents + U16Prefixed(cipherSuites);
    assert contents == KeyConfig(id, publicKey);
    contents := contents + [maxNameLength, |publicName| % 256];
    contents := contents + publicName;
    contents := contents + U16(0);
    NameInOrder(KeyConfig(id, publicKey), publicName, maxNameLength);
    config := U16(0xfe0d);
    config := config + U16Prefixed(contents);
  }

  lemma NameInOrder(front: bytes, publicName: bytes, maxNameLength: byte)
    ensures front + [maxNameLength, |publicName| % 256] + publicName + U16(0) ==
            front + NamePart(publicName, maxNameLength)
  {
    assert U16Prefixed([]) == U16(0);
    assert [maxNameLength] + [|publicName| % 256] == [maxNameLength, |publicName| % 256];
  }

  // -- The test's writer -----------------------------------------------------------------

  /** The byte-array stream the Kotlin encoder writes into. */
  class ByteSink {
    var written: bytes

    constructor ()
      ensures written == []
    {
      written := [];
    }

    /** The low eight bits of a value. */
    method Write(value: int)
      modifies this
      ensures written == old(written) + [value % 256]
    {
      written := written + [value % 256];
    }

    method WriteAll(value: bytes)
      modifies this
      ensures written == old(written) + value
    {
      written := written + value;
    }

    method WriteShort(value: int)
      modifies this
      ensures written == old(written) + U16(value)
    {
      ShortBytes(value);
      Write(value / 256);
      Write(value);
    }
  }

  lemma ShortBytes(value: int)
    ensures U16(value) == [(value / 256) % 256, value % 256]
  {
    var v := value % 0x1_0000;
    assert value == (value / 0x1_0000) * 256 * 256 + v;
    assert value / 256 == (value / 0x1_0000) * 256 + v / 256;
  }

  /** The second, independent encoder writes the very octets of the first. */
  method EchConfigList(publicKey: bytes, publicName: bytes) returns (list: bytes)
    ensures list == ConfigList(Config(42, publicKey, publicName, 64))
  {
    var contents := WriteContents(publicKey, publicName);

    var config := new ByteSink();
    config.WriteShort(0xfe0d);
    config.WriteShort(|contents.written|);
    config.WriteAll(contents.written);
    assert config.written == U16(VERSION) + U16Prefixed(contents.written);

    var out := new ByteSink();
    out.WriteShort(|config.written|);
    out.WriteAll(config.written);
    list := out.written;
  }

  method WriteContents(publicKey: bytes, publicName: bytes) returns (contents: ByteSink)
    ensures fresh(contents) && contents.written == Contents(42, publicKey, publicName, 64)
  {
    contents := new ByteSink();
    contents.Write(42);
    contents.WriteShort(0x0020);
    contents.WriteShort(|publicKey|);
    contents.WriteAll(publicKey);
    contents.WriteShort(4);
    contents.WriteShort(0x0001);
    contents.WriteShort(0x0001);
    KeyInOrder(42, publicKey);
    contents.Write(64);
    contents.Write(|publicName|);
    assert contents.written == KeyConfig(42, publicKey) + [64, |publicName| % 256];
    contents.WriteAll(publicName);
    contents.WriteShort(0);
    NameInOrder(KeyConfig(42, publicKey), publicName, 64);
  }

  lemma KeyInOrder(id: byte, publicKey: bytes)
    ensures [] + [id] + U16(X25519) + U16(|publicKey|) + publicKey + U16(4) + U16(HKDF_SHA256) + U16(AES_128_GCM) ==
            KeyConfig(id, publicKey)
  {
    assert U16Prefixed(SUITES) == U16(4) + (U16(HKDF_SHA256) + U16(AES_128_GCM));
    EightParts([id], U16(X25519), U16(|publicKey|), publicKey, U16(4), U16(HKDF_SHA256), U16(AES_128_GCM));
  }

  lemma EightParts(a: bytes, b: bytes, c: bytes, d: bytes, e: bytes, f: bytes, g: bytes)
    ensures [] + a + b + c + d + e + f + g == a + (b + (c + d + (e + (f + g))))
  {
  }

  // -- A section 4 reader ----------------------------------------------------------------

  datatype Decoded =
    | Unsupported(version: nat, contents: bytes)
    | Supported(key: HpkeKeyConfig, maxNameLength: byte, publicName: bytes, extensions: bytes)

  /** Whole (KDF, AEAD) pairs, at least one. */
  function DecodeSuites(b: bytes): Option<seq<(nat, nat)>>
    decreases |b|
  {
    var (kdf, afterKdf) :- Take16(b);
    var (aead, rest) :- Take16(afterKdf);
    if rest == [] then Some([(kdf, aead)])
    else
      var more :- DecodeSuites(rest);
      Some([(kdf, aead)] + more)
  }

  datatype HpkeKeyConfig = HpkeKeyConfig(id: byte, kem: nat, publicKey: bytes, suites: seq<(nat, nat)>)

  function DecodeKeyConfig(b: bytes): Option<(HpkeKeyConfig, bytes)> {
    var (id, afterId) :- Take8(b);
    var (kem, afterKem) :- Take16(afterId);
    var (publicKey, afterKey) :- TakeVector16(afterKem);
    var (cipherSuites, rest) :- TakeVector16(afterKey);
    var suites :- DecodeSuites(cipherSuites);
    if publicKey == [] then None else Some((HpkeKeyConfig(id, kem, publicKey, suites), rest))
  }

  /** maximum_name_length, public_name and extensions, and nothing after them. */
  function DecodeNamePart(b: bytes): Option<(byte, bytes, bytes)> {
    var (maxNameLength, afterMax) :- Take8(b);
    var (nameLength, afterLength) :- Take8(afterMax);
    var (publicName, afterName) :- TakeN(afterLength, nameLength);
    var (extensions, rest) :- TakeVector16(afterName);
    if publicName == [] || rest != [] then None else Some((maxNameLength, publicName, extensions))
  }

  function DecodeContents(b: bytes): Option<Decoded> {
    var (key, rest) :- DecodeKeyConfig(b);
    var (maxNameLength, publicName, extensions) :- DecodeNamePart(rest);
    Some(Supported(key, maxNameLength, publicName, extensions))
  }

  function DecodeConfigs(b: bytes): Option<seq<Decoded>>
    decreases |b|
  {
    if b == [] then Some([])
    else
      var (version, afterVersion) :- Take16(b);
      var (contents, rest) :- TakeVector16(afterVersion);
      var first :- if version == VERSION then DecodeContents(contents) else Some(Unsupported(version, contents));
      var more :- DecodeConfigs(rest);
      Some([first] + more)
  }

  /** A list of at least four octets and nothing after it. */
  function DecodeConfigList(b: bytes): Option<seq<Decoded>> {
    var (configs, rest) :- TakeVector16(b);
    if rest != [] || |configs| < 4 then None else DecodeConfigs(configs)
  }

  // -- The round trip --------------------------------------------------------------------

  lemma Take8Reads(value: byte, rest: bytes)
    ensures Take8([value] + rest) == Some((value, rest))
  {
    assert ([value] + rest)[1..] == rest;
  }

  lemma SuitesRead()
    ensures DecodeSuites(SUITES) == Some([(HKDF_SHA256, AES_128_GCM)])
  {
    Take16Reads(HKDF_SHA256, U16(AES_128_GCM));
    assert U16(AES_128_GCM) + [] == U16(AES_128_GCM);
    Take16Reads(AES_128_GCM, []);
  }

  function Written(id: byte, publicKey: bytes, publicName: bytes, maxNameLength: byte): Decoded {
    Supported(WrittenKey(id, publicKey), maxNameLength, publicName, [])
  }

  function WrittenKey(id: byte, publicKey: bytes): HpkeKeyConfig {
    HpkeKeyConfig(id, X25519, publicKey, [(HKDF_SHA256, AES_128_GCM)])
  }

  lemma KeyConfigReadsBack(id: byte, publicKey: bytes, rest: bytes)
    requires 1 <= |publicKey| < 0x1_0000
    ensures DecodeKeyConfig(KeyConfig(id, publicKey) + rest) == Some((WrittenKey(id, publicKey), rest))
  {
    var afterKey := U16Prefixed(SUITES) + rest;
    var afterKem := U16Prefixed(publicKey) + afterKey;
    assert KeyConfig(id, publicKey) + rest == [id] + (U16(X25519) + afterKem);
    Take8Reads(id, U16(X25519) + afterKem);
    Take16Reads(X25519, afterKem);
    TakeVector16Reads(publicKey, afterKey);
    TakeVector16Reads(SUITES, rest);
    SuitesRead();
    KeyFromParts([id] + (U16(X25519) + afterKem), id, U16(X25519) + afterKem, afterKem, publicKey, afterKey, rest);
  }

  lemma KeyFromParts(b: bytes, id: byte, afterId: bytes, afterKem: bytes, publicKey: bytes,
                     afterKey: bytes, rest: bytes)
    requires publicKey != []
    requires Take8(b) == Some((id, afterId)) && Take16(afterId) == Some((X25519, afterKem))
    requires TakeVector16(afterKem) == Some((publicKey, afterKey)) && TakeVector16(afterKey) == Some((SUITES, rest))
    requires DecodeSuites(SUITES) == Some([(HKDF_SHA256, AES_128_GCM)])
    ensures DecodeKeyConfig(b) == Some((WrittenKey(id, publicKey), rest))
  {
  }

  lemma NamePartReadsBack(publicName: bytes, maxNameLength: byte)
    requires 1 <= |publicName| <= 255
    ensures DecodeNamePart(NamePart(publicName, maxNameLength)) == Some((maxNameLength, publicName, []))
  {
    var afterLength := publicName + U16Prefixed([]);
    Take8Reads(maxNameLength, [|publicName| % 256] + afterLength);
    Take8Reads(|publicName| % 256, afterLength);
    TakeNReads(publicName, U16Prefixed([]));
    assert U16Prefixed([]) + [] == U16Prefixed([]);
    TakeVector16Reads([], []);
    NameLength(|publicName|);
    NameFromParts(NamePart(publicName, maxNameLength), maxNameLength, [|publicName| % 256] + afterLength,
                  afterLength, publicName);
  }

  lemma NameLength(n: nat)
    ensures n <= 255 ==> n % 256 == n
  {
  }

  lemma NameFromParts(b: bytes, maxNameLength: byte, afterMax: bytes, afterLength: bytes, publicName: bytes)
    requires 1 <= |publicName| <= 255
    requires Take8(b) == Some((maxNameLength, afterMax)) && Take8(afterMax) == Some((|publicName|, afterLength))
    requires TakeN(afterLength, |publicName|) == Some((publicName, U16Prefixed([])))
    requires TakeVector16(U16Prefixed([])) == Some(([], []))
    ensures DecodeNamePart(b) == Some((maxNameLength, publicName, []))
  {
  }

  lemma ContentsReadBack(id: byte, publicKey: bytes, publicName: bytes, maxNameLength: byte)
    requires 1 <= |publicKey| < 0x1_0000 && 1 <= |publicName| <= 255
    ensures DecodeContents(Contents(id, publicKey, publicName, maxNameLength)) ==
            Some(Written(id, publicKey, publicName, maxNameLength))
  {
    KeyConfigReadsBack(id, publicKey, NamePart(publicName, maxNameLength));
    NamePartReadsBack(publicName, maxNameLength);
  }

  /** What a decoded configuration always satisfies. */
  lemma DecodedHasKeyAndName(b: bytes)
    requires DecodeContents(b).Some?
    ensures DecodeContents(b).value.Supported?
    ensures 1 <= |DecodeContents(b).value.key.publicKey| && 1 <= |DecodeContents(b).value.publicName| <= 255
  {
    DecodedKeyIsThere(b);
    DecodedNameFits(DecodeKeyConfig(b).value.1);
  }

  lemma DecodedKeyIsThere(b: bytes)
    requires DecodeKeyConfig(b).Some?
    ensures 1 <= |DecodeKeyConfig(b).value.0.publicKey|
  {
  }

  lemma DecodedNameFits(b: bytes)
    requires DecodeNamePart(b).Some?
    ensures 1 <= |DecodeNamePart(b).value.1| <= 255
  {
  }

  lemma {:induction false} DecodedConfigsHaveKeyAndName(b: bytes)
    requires DecodeConfigs(b).Some?
    ensures forall d | d in DecodeConfigs(b).value && d.Supported? ::
              1 <= |d.key.publicKey| && 1 <= |d.publicName| <= 255
    decreases |b|
  {
    if b != [] {
      var (version, afterVersion) := Take16(b).value;
      var (contents, rest) := TakeVector16(afterVersion).value;
      DecodedConfigsHaveKeyAndName(rest);
      if version == VERSION {
        DecodedHasKeyAndName(contents);
      }
    }
  }

  ghost predicate Listable(publicKey: bytes, publicName: bytes) {
    1 <= |publicKey| && 1 <= |publicName| <= 255 && |publicKey| + |publicName| <= 65516
  }

  lemma ConfigSize(id: byte, publicKey: bytes, publicName: bytes, maxNameLength: byte)
    ensures |Contents(id, publicKey, publicName, maxNameLength)| == 15 + |publicKey| + |publicName|
    ensures |Config(id, publicKey, publicName, maxNameLength)| == 19 + |publicKey| + |publicName|
  {
  }

  lemma ListableReadsBack(id: byte, publicKey: bytes, publicName: bytes, maxNameLength: byte)
    requires Listable(publicKey, publicName)
    ensures DecodeConfigList(ConfigList(Config(id, publicKey, publicName, maxNameLength))) ==
            Some([Written(id, publicKey, publicName, maxNameLength)])
  {
    var config := Config(id, publicKey, publicName, maxNameLength);
    ConfigSize(id, publicKey, publicName, maxNameLength);
    ContentsReadBack(id, publicKey, publicName, maxNameLength);
    OneConfig(Contents(id, publicKey, publicName, maxNameLength));
    assert ConfigList(config) + [] == ConfigList(config);
    TakeVector16Reads(config, []);
  }

  lemma OneConfig(contents: bytes)
    requires |contents| < 0x1_0000
    ensures DecodeConfigs(U16(VERSION) + U16Prefixed(contents)) ==
            match DecodeContents(contents) { case None => None case Some(first) => Some([first]) }
  {
    var b := U16(VERSION) + U16Prefixed(contents);
    Take16Reads(VERSION, U16Prefixed(contents));
    assert U16Prefixed(contents) + [] == U16Prefixed(contents);
    TakeVector16Reads(contents, []);
    LastConfig(b, U16Prefixed(contents), contents);
  }

  lemma LastConfig(b: bytes, afterVersion: bytes, contents: bytes)
    requires Take16(b) == Some((VERSION, afterVersion)) && TakeVector16(afterVersion) == Some((contents, []))
    ensures DecodeConfigs(b) ==
            match DecodeContents(contents) { case None => None case Some(first) => Some([first]) }
  {
    if DecodeContents(contents).Some? {
      var first := DecodeContents(contents).value;
      assert [first] + [] == [first];
    }
  }

  /** A published list decodes to exactly the one configuration that was written if and only if
      the key and the name are non-empty, the name has at most 255 octets, and together they have
      at most 65516. */
  lemma ConfigListRoundTrip(id: byte, publicKey: bytes, publicName: bytes, maxNameLength: byte)
    ensures DecodeConfigList(ConfigList(Config(id, publicKey, publicName, maxNameLength))) ==
              Some([Written(id, publicKey, publicName, maxNameLength)])
            <==> Listable(publicKey, publicName)
  {
    var written := Written(id, publicKey, publicName, maxNameLength);
    var list := ConfigList(Config(id, publicKey, publicName, maxNameLength));
    if Listable(publicKey, publicName) {
      ListableReadsBack(id, publicKey, publicName, maxNameLength);
    }
    if DecodeConfigList(list) == Some([written]) {
      var (configs, rest) := TakeVector16(list).value;
      TakeVector16Inverts(list);
      ConfigSize(id, publicKey, publicName, maxNameLength);
      DecodedConfigsHaveKeyAndName(configs);
      assert written in [written];
    }
  }

  /** An empty public name is written, and refused by the reader; so is one of 256 octets, whose
      length octet is zero. */
  lemma PublicNamesThatMisread(id: byte, publicKey: bytes, publicName: bytes, maxNameLength: byte)
    requires |publicKey| == 32 && (publicName == [] || |publicName| == 256)
    ensures DecodeConfigList(ConfigList(Config(id, publicKey, publicName, maxNameLength))) !=
            Some([Written(id, publicKey, publicName, maxNameLength)])
  {
    ConfigListRoundTrip(id, publicKey, publicName, maxNameLength);
  }
}
