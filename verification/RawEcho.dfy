/** The raw request echo (test-server/hostile.go): what it reads, and the framed response a client
    takes it back out of. */
module RawEcho {
  import opened Wrappers
  import opened Bytes
  import Decimal

  const CR: byte := 13
  const LF: byte := 10
  const CRLF: bytes := [CR, LF]

  const READ_LIMIT := 65536

  // -- Reading the request head ----------------------------------------------------------

  /** What the limited reader can deliver of a connection's input. */
  function Limited(input: bytes): bytes {
    if |input| <= READ_LIMIT then input else input[..READ_LIMIT]
  }

  /** A line up to and including its line feed, or everything that is left. */
  function ReadLine(s: bytes): (line: bytes)
    ensures |line| <= |s| && line == s[..|line|]
    ensures s != [] ==> line != []
    ensures forall i | 0 <= i < |line| - 1 :: line[i] != LF
    ensures |line| < |s| ==> line != [] && line[|line| - 1] == LF
  {
    if s == [] then []
    else if s[0] == LF then [LF]
    else [s[0]] + ReadLine(s[1..])
  }

  predicate EndsInLF(line: bytes) {
    line != [] && line[|line| - 1] == LF
  }

  predicate Blank(line: bytes) {
    line == [LF] || line == CRLF
  }

  /** s[..end] ends with an empty line: a line feed that begins a line, bare or after a CR. */
  predicate EmptyLineEnds(s: bytes, end: nat)
    requires end <= |s|
  {
    || (end >= 1 && s[end - 1] == LF && (end == 1 || s[end - 2] == LF))
    || (end >= 2 && s[end - 2] == CR && s[end - 1] == LF && (end == 2 || s[end - 3] == LF))
  }

  /** head is the shortest prefix of s that ends with an empty line, or all of s if none does. */
  ghost predicate IsHead(s: bytes, head: bytes) {
    && |head| <= |s| && head == s[..|head|]
    && (forall end | 0 <= end < |head| :: !EmptyLineEnds(s, end))
    && (EmptyLineEnds(s, |head|) || |head| == |s|)
  }

  /** The same in terms of all the input: the shortest prefix that ends with an empty line, or all of
      the input, or the first 65536 octets. */
  ghost predicate IsEchoed(input: bytes, head: bytes) {
    && |head| <= |input| && head == input[..|head|] && |head| <= 65536
    && (forall end | 0 <= end < |head| :: !EmptyLineEnds(input, end))
    && (EmptyLineEnds(input, |head|) || |head| == |input| || |head| == 65536)
  }

  lemma HeadIsEchoed(input: bytes, head: bytes)
    requires IsHead(Limited(input), head)
    ensures IsEchoed(input, head)
  {
    var s := Limited(input);
    forall end | 0 <= end <= |head| ensures EmptyLineEnds(s, end) == EmptyLineEnds(input, end) {
      assert forall i | 0 <= i < |s| :: s[i] == input[i];
    }
  }

  lemma HeadIsUnique(s: bytes, a: bytes, b: bytes)
    requires IsHead(s, a) && IsHead(s, b)
    ensures a == b
  {
  }

  ghost predicate AtLineStart(s: bytes, at: nat)
    requires at <= |s|
  {
    at == 0 || s[at - 1] == LF
  }

  /** Within the line that starts at `at`, only its end can end an empty line, and it does
      exactly when the line is blank. */
  lemma LineDecides(s: bytes, at: nat, line: bytes)
    requires at <= |s| && AtLineStart(s, at) && line == ReadLine(s[at..])
    ensures forall end | at < end < at + |line| :: !EmptyLineEnds(s, end)
    ensures line != [] ==> (EmptyLineEnds(s, at + |line|) <==> Blank(line))
  {
    assert forall i | 0 <= i < |line| :: s[at + i] == line[i];
    forall end | at < end < at + |line| ensures !EmptyLineEnds(s, end) {
      assert s[end - 1] == line[end - 1 - at];
    }
  }

  /** The reading loop. */
  method ReadHead(input: bytes) returns (head: bytes)
    ensures IsHead(Limited(input), head) && IsEchoed(input, head)
  {
    var s := Limited(input);
    head := [];
    while true
      invariant |head| <= |s| && head == s[..|head|] && AtLineStart(s, |head|)
      invariant forall end | 0 <= end < |head| :: !EmptyLineEnds(s, end)
      invariant !EmptyLineEnds(s, |head|)
      decreases |s| - |head|
    {
      var line := ReadLine(s[|head|..]);
      var failed := !EndsInLF(line);
      LineDecides(s, |head|, line);
      assert s[..|head| + |line|] == head + line;
      head := head + line;
      if failed || Blank(line) {
        break;
      }
    }
    HeadIsEchoed(input, head);
  }

  // -- The response ----------------------------------------------------------------------

  const STATUS: bytes := Ascii("HTTP/1.1 200 OK")
  const TYPE_FIELD: bytes := Ascii("Content-Type: text/plain; charset=utf-8")
  const LENGTH_NAME: bytes := Ascii("Content-Length: ")
  const CLOSE_FIELD: bytes := Ascii("Connection: close")

  function ResponseFor(body: bytes): bytes {
    STATUS + CRLF + (TYPE_FIELD + CRLF + (LENGTH_NAME + Decimal.OfNat(|body|) + CRLF
      + (CLOSE_FIELD + CRLF + (CRLF + body))))
  }

  /** The connection as seen by the handler: what is read from it and what is written to it. */
  class Connection {
    const input: bytes
    var output: bytes
    var isClosed: bool

    constructor (input: bytes)
      ensures this.input == input && output == [] && !isClosed
    {
      this.input := input;
      output := [];
      isClosed := false;
    }

    method Write(text: bytes)
      modifies this`output
      ensures output == old(output) + text
    {
      output := output + text;
    }
  }

  method EchoRequestHead(conn: Connection)
    requires conn.output == []
    modifies conn
    ensures conn.isClosed
    ensures exists body :: IsEchoed(conn.input, body) && conn.output == ResponseFor(body)
  {
    var body := ReadHead(conn.input);
    conn.Write(STATUS + CRLF);
    conn.Write(TYPE_FIELD + CRLF);
    conn.Write(LENGTH_NAME + Decimal.OfNat(|body|) + CRLF);
    conn.Write(CLOSE_FIELD + CRLF + CRLF);
    conn.Write(body);
    InOrder(STATUS + CRLF, TYPE_FIELD + CRLF, LENGTH_NAME + Decimal.OfNat(|body|) + CRLF, CLOSE_FIELD + CRLF,
            CRLF, body);
    conn.isClosed := true;
  }

  lemma InOrder(a: bytes, b: bytes, c: bytes, d: bytes, e: bytes, f: bytes)
    ensures [] + a + b + c + (d + e) + f == a + (b + (c + (d + (e + f))))
  {
  }

  // -- A section 6.3 reader --------------------------------------------------------------

  /** The octets before the first CRLF, and those after it. */
  function TakeLine(s: bytes): Option<(bytes, bytes)> {
    if |s| < 2 then None
    else if s[0] == CR && s[1] == LF then Some(([], s[2..]))
    else
      var (line, rest) :- TakeLine(s[1..]);
      Some(([s[0]] + line, rest))
  }

  /** Field lines up to the empty line, and the octets after it. */
  function TakeFields(s: bytes): Option<(seq<bytes>, bytes)>
    decreases |s|
  {
    TakeLineShrinks(s);
    var (line, rest) :- TakeLine(s);
    if line == [] then Some(([], rest))
    else
      var (more, body) :- TakeFields(rest);
      Some(([line] + more, body))
  }

  lemma {:induction false} TakeLineShrinks(s: bytes)
    ensures TakeLine(s).Some? ==> |TakeLine(s).value.1| < |s|
  {
    if |s| >= 2 && !(s[0] == CR && s[1] == LF) {
      TakeLineShrinks(s[1..]);
    }
  }

  function DigitsOnly(s: bytes, acc: nat): Option<nat>
    decreases |s|
  {
    if s == [] then Some(acc)
    else if !(48 <= s[0] <= 57) then None
    else DigitsOnly(s[1..], acc * 10 + (s[0] - 48))
  }

  /** The value of the first Content-Length field. */
  function ContentLength(fields: seq<bytes>): Option<nat> {
    if fields == [] then None
    else if LENGTH_NAME < fields[0] then DigitsOnly(fields[0][|LENGTH_NAME|..], 0)
    else ContentLength(fields[1..])
  }

  /** A response read by its Content-Length: exactly that many octets after the header section. */
  function ReadBody(response: bytes): Option<bytes> {
    var (status, afterStatus) :- TakeLine(response);
    var (fields, rest) :- TakeFields(afterStatus);
    var length :- ContentLength(fields);
    if |rest| < length then None else Some(rest[..length])
  }

  ghost predicate NoCR(line: bytes) {
    forall i | 0 <= i < |line| :: line[i] != CR
  }

  lemma {:induction false} TakeLineReads(line: bytes, rest: bytes)
    requires NoCR(line)
    ensures TakeLine(line + CRLF + rest) == Some((line, rest))
  {
    var s := line + CRLF + rest;
    if line == [] {
      assert s[2..] == rest;
    } else {
      assert s[1..] == line[1..] + CRLF + rest;
      TakeLineReads(line[1..], rest);
      assert [line[0]] + line[1..] == line;
    }
  }

  lemma TakeFieldReads(line: bytes, rest: bytes)
    requires NoCR(line) && line != [] && TakeFields(rest).Some?
    ensures TakeFields(line + CRLF + rest) == Some(([line] + TakeFields(rest).value.0, TakeFields(rest).value.1))
  {
    TakeLineReads(line, rest);
  }

  lemma {:induction false} DigitsOnlyReads(s: bytes, ds: seq<nat>, acc: nat)
    requires |s| == |ds| && forall i | 0 <= i < |s| :: ds[i] < 10 && s[i] == 48 + ds[i]
    ensures DigitsOnly(s, acc) == Some(Decimal.Horner(acc, ds))
    decreases |s|
  {
    if s != [] {
      DigitsOnlyReads(s[1..], ds[1..], acc * 10 + ds[0]);
    }
  }

  function FieldsOf(body: bytes): seq<bytes> {
    [TYPE_FIELD, LENGTH_NAME + Decimal.OfNat(|body|), CLOSE_FIELD]
  }

  lemma LastFieldsRead(lengthField: bytes, body: bytes)
    requires NoCR(lengthField) && lengthField != []
    ensures TakeFields(lengthField + CRLF + (CLOSE_FIELD + CRLF + (CRLF + body)))
            == Some(([lengthField, CLOSE_FIELD], body))
  {
    EmptyLineReads(body);
    TakeFieldReads(CLOSE_FIELD, CRLF + body);
    TakeFieldReads(lengthField, CLOSE_FIELD + CRLF + (CRLF + body));
    assert [lengthField] + ([CLOSE_FIELD] + []) == [lengthField, CLOSE_FIELD];
  }

  lemma HeaderReads(body: bytes)
    ensures TakeLine(ResponseFor(body)).Some?
    ensures TakeLine(ResponseFor(body)).value.0 == STATUS
    ensures TakeFields(TakeLine(ResponseFor(body)).value.1) == Some((FieldsOf(body), body))
  {
    var lengthField := LENGTH_NAME + Decimal.OfNat(|body|);
    var lengths := lengthField + CRLF + (CLOSE_FIELD + CRLF + (CRLF + body));
    TakeLineReads(STATUS, TYPE_FIELD + CRLF + lengths);
    LastFieldsRead(lengthField, body);
    TakeFieldReads(TYPE_FIELD, lengths);
    assert [TYPE_FIELD] + [lengthField, CLOSE_FIELD] == FieldsOf(body);
  }

  /** The response starts as a plain text that is the last one on its connection. */
  lemma HeaderSays(body: bytes)
    ensures TakeLine(ResponseFor(body)).Some?
    ensures var (status, rest) := TakeLine(ResponseFor(body)).value;
            && status == Ascii("HTTP/1.1 200 OK") && TakeFields(rest).Some?
            && Ascii("Content-Type: text/plain; charset=utf-8") in TakeFields(rest).value.0
            && Ascii("Connection: close") in TakeFields(rest).value.0
  {
    HeaderReads(body);
    assert FieldsOf(body)[0] == TYPE_FIELD && FieldsOf(body)[2] == CLOSE_FIELD;
  }

  /** A reader that takes as many octets as Content-Length says recovers the body exactly,
      whatever the body is. */
  lemma BodyReadsBack(body: bytes)
    ensures ReadBody(ResponseFor(body)) == Some(body)
  {
    HeaderReads(body);
    LengthIsFound(|body|);
    BodyFrom(ResponseFor(body), TakeLine(ResponseFor(body)).value.1, FieldsOf(body), body);
  }

  lemma EmptyLineReads(body: bytes)
    ensures TakeFields(CRLF + body) == Some(([], body))
  {
    TakeLineReads([], body);
    assert [] + CRLF + body == CRLF + body;
  }

  lemma BodyFrom(response: bytes, afterStatus: bytes, fields: seq<bytes>, body: bytes)
    requires TakeLine(response).Some? && TakeLine(response).value.1 == afterStatus
    requires TakeFields(afterStatus) == Some((fields, body)) && ContentLength(fields) == Some(|body|)
    ensures ReadBody(response) == Some(body)
  {
    assert body[..|body|] == body;
  }

  lemma LengthIsFound(n: nat)
    ensures ContentLength([TYPE_FIELD, LENGTH_NAME + Decimal.OfNat(n), CLOSE_FIELD]) == Some(n)
  {
    var field := LENGTH_NAME + Decimal.OfNat(n);
    assert [TYPE_FIELD, field, CLOSE_FIELD][1..] == [field, CLOSE_FIELD];
    assert TYPE_FIELD[8] != LENGTH_NAME[8];
    assert field[|LENGTH_NAME|..] == Decimal.OfNat(n);
    DigitsOnlyReads(Decimal.OfNat(n), Decimal.Digits(n), 0);
    Decimal.DigitsReadBack(n);
  }
}
