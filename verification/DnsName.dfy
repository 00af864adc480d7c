/** Domain names in the fixture's DNS server (ech-fixture/src/main/resources/ech-fixture/main.go):
    the question parser and the name writer. */
module DnsName {
  import opened Wrappers
  import opened Bytes

  const DOT: byte := 46

  function ToLowerByte(b: byte): byte {
    if 65 <= b <= 90 then b + 32 else b
  }

  function ToLower(s: bytes): (r: bytes)
    ensures |r| == |s| && forall i | 0 <= i < |s| :: r[i] == ToLowerByte(s[i])
  {
    seq(|s|, i requires 0 <= i < |s| => ToLowerByte(s[i]))
  }

  /** Everything between the dots; a name without dots is one label. */
  function Split(s: bytes): (labels: seq<bytes>)
    ensures |labels| > 0
  {
    if s == [] then [[]]
    else
      var rest := Split(s[1..]);
      if s[0] == DOT then [[]] + rest else [[s[0]] + rest[0]] + rest[1..]
  }

  function Join(labels: seq<bytes>): bytes {
    if labels == [] then []
    else if |labels| == 1 then labels[0]
    else labels[0] + [DOT] + Join(labels[1..])
  }

  /** One length octet and the label; the length wraps like any byte. */
  function EncodeLabel(part: bytes): bytes {
    [|part| % 256] + part
  }

  function EncodeLabels(labels: seq<bytes>): bytes {
    if labels == [] then [0] else EncodeLabel(labels[0]) + EncodeLabels(labels[1..])
  }

  /** The name writer: a loop over the labels, then the root. */
  method AppendDnsName(dst: bytes, name: bytes) returns (out: bytes)
    ensures out == dst + EncodeName(name)
  {
    var labels := Split(name);
    out := dst;
    for i := 0 to |labels|
      invariant out + EncodeLabels(labels[i..]) == dst + EncodeLabels(labels)
    {
      assert labels[i..][1..] == labels[i + 1..];
      ghost var before := out;
      out := out + [|labels[i]| % 256];
      out := out + labels[i];
      assert out + EncodeLabels(labels[i + 1..]) == before + (EncodeLabel(labels[i]) + EncodeLabels(labels[i + 1..]));
    }
    assert labels[|labels|..] == [];
    out := out + [0];
  }

  function EncodeName(name: bytes): bytes {
    EncodeLabels(Split(name))
  }

  // -- The question parser ---------------------------------------------------------------

  /** The labels up to the root, and the octets after it. */
  function ParseLabels(s: bytes): (r: Result<(seq<bytes>, bytes)>)
    ensures r.Ok? ==> |r.value.1| < |s|
    ensures r.Ok? ==> Encodable(r.value.0)
    decreases |s|
  {
    if s == [] then Err("invalid DNS name")
    else
      var length := s[0];
      if length == 0 then Ok(([], s[1..]))
      else if length > 63 || 1 + length > |s| then Err("invalid DNS label")
      else Prepend([s[1..1 + length]], ParseLabels(s[1 + length..]))
  }

  /** Labels already read, put in front of those still to come. */
  function Prepend(labels: seq<bytes>, r: Result<(seq<bytes>, bytes)>): Result<(seq<bytes>, bytes)> {
    match r
    case Err(message) => Err(message)
    case Ok((more, rest)) => Ok((labels + more, rest))
  }

  predicate Encodable(labels: seq<bytes>) {
    forall k | 0 <= k < |labels| :: 1 <= |labels[k]| <= 63
  }

  datatype Question = Question(end: nat, name: bytes)

  /** The labels of the question of a query and the position after its name. */
  function QuestionLabels(query: bytes): (r: Result<(seq<bytes>, nat)>)
    ensures r.Ok? ==> 12 < r.value.1 <= |query| && Encodable(r.value.0)
  {
    if |query| <= 12 then Err("invalid DNS name")
    else
      match ParseLabels(query[12..])
      case Err(message) => Err(message)
      case Ok((labels, rest)) => Ok((labels, |query| - |rest|))
  }

  function QuestionOf(query: bytes): (r: Result<Question>)
    ensures r.Ok? ==> 17 <= r.value.end <= |query|
  {
    match QuestionLabels(query)
    case Err(message) => Err(message)
    case Ok((labels, end)) =>
      if end + 4 > |query| then Err("short DNS question") else Ok(Question(end + 4, ToLower(Join(labels))))
  }

  method DnsQuestion(query: bytes) returns (r: Result<Question>)
    ensures r == QuestionOf(query)
  {
    var read := ReadLabels(query);
    if read.Err? {
      return Err(read.message);
    }
    var (labels, position) := read.value;
    if position + 4 > |query| {
      return Err("short DNS question");
    }
    r := Ok(Question(position + 4, ToLower(Join(labels))));
  }

  /** The loop over the labels of the question. */
  method ReadLabels(query: bytes) returns (r: Result<(seq<bytes>, nat)>)
    ensures r == QuestionLabels(query)
  {
    var position := 12;
    if position >= |query| {
      return Err("invalid DNS name");
    }
    var labels: seq<bytes> := [];
    ghost var whole := ParseLabels(query[12..]);
    PrependNothing(whole);
    while true
      invariant 12 <= position <= |query|
      invariant Prepend(labels, ParseLabels(query[position..])) == whole
      decreases |query| - position
    {
      Turn(query, position, labels);
      if position >= |query| {
        return Err("invalid DNS name");
      }
      var length := query[position];
      position := position + 1;
      if length == 0 {
        break;
      }
      if length > 63 || position + length > |query| {
        return Err("invalid DNS label");
      }
      labels := labels + [query[position..position + length]];
      position := position + length;
    }
    r := Ok((labels, position));
  }

  /** One turn of the loop: the root ends the name, a good length octet adds a label and moves
      on, and anything else is refused. */
  lemma ParseAt(query: bytes, position: nat)
    requires position <= |query|
    ensures ParseLabels(query[position..]) ==
            if position == |query| then Err("invalid DNS name")
            else if query[position] == 0 then Ok(([], query[position + 1..]))
            else if query[position] > 63 || position + 1 + query[position] > |query| then Err("invalid DNS label")
            else
              var next := position + 1 + query[position];
              Prepend([query[position + 1..next]], ParseLabels(query[next..]))
  {
    var s := query[position..];
    if s != [] && s[0] != 0 && s[0] <= 63 && 1 + s[0] <= |s| {
      var next := position + 1 + s[0];
      assert s[1..1 + s[0]] == query[position + 1..next] && s[1 + s[0]..] == query[next..];
    }
  }

  /** The same with the labels already read in front. */
  lemma Turn(query: bytes, position: nat, labels: seq<bytes>)
    requires position <= |query|
    ensures Prepend(labels, ParseLabels(query[position..])) ==
            if position == |query| then Err("invalid DNS name")
            else if query[position] == 0 then Ok((labels, query[position + 1..]))
            else if query[position] > 63 || position + 1 + query[position] > |query| then Err("invalid DNS label")
            else
              var next := position + 1 + query[position];
              Prepend(labels + [query[position + 1..next]], ParseLabels(query[next..]))
  {
    ParseAt(query, position);
    assert labels + [] == labels;
    if position < |query| && 0 < query[position] <= 63 && position + 1 + query[position] <= |query| {
      var next := position + 1 + query[position];
      PrependTwice(labels, [query[position + 1..next]], ParseLabels(query[next..]));
    }
  }

  lemma PrependNothing(r: Result<(seq<bytes>, bytes)>)
    ensures Prepend([], r) == r
  {
    if r.Ok? {
      assert [] + r.value.0 == r.value.0;
    }
  }

  lemma PrependTwice(a: seq<bytes>, b: seq<bytes>, r: Result<(seq<bytes>, bytes)>)
    ensures Prepend(a, Prepend(b, r)) == Prepend(a + b, r)
  {
    if r.Ok? {
      assert a + (b + r.value.0) == (a + b) + r.value.0;
    }
  }

  // -- Names and their labels ------------------------------------------------------------

  ghost predicate DotFree(part: bytes) {
    forall i | 0 <= i < |part| :: part[i] != DOT
  }

  ghost predicate AllDotFree(labels: seq<bytes>) {
    forall k | 0 <= k < |labels| :: DotFree(labels[k])
  }

  lemma {:induction false} JoinOfSplit(s: bytes)
    ensures Join(Split(s)) == s
  {
    if s != [] {
      JoinOfSplit(s[1..]);
      var rest := Split(s[1..]);
      assert [s[0]] + s[1..] == s;
      if s[0] == DOT {
        assert ([[]] + rest)[1..] == rest;
        assert [] + [DOT] + Join(rest) == [DOT] + Join(rest);
      } else {
        JoinLonger(s[0], rest);
      }
    }
  }

  lemma JoinLonger(b: byte, labels: seq<bytes>)
    requires labels != []
    ensures Join([[b] + labels[0]] + labels[1..]) == [b] + Join(labels)
  {
    var longer := [[b] + labels[0]] + labels[1..];
    assert longer[1..] == labels[1..];
    if |labels| > 1 {
      Assoc([b], labels[0], [DOT]);
      Assoc([b], labels[0] + [DOT], Join(labels[1..]));
    }
  }

  lemma {:induction false} SplitsAtDots(s: bytes)
    ensures AllDotFree(Split(s))
  {
    if s != [] {
      SplitsAtDots(s[1..]);
      var rest := Split(s[1..]);
      if s[0] != DOT {
        assert DotFree([s[0]] + rest[0]);
      }
    }
  }

  lemma {:induction false} SplitDotFree(part: bytes)
    requires DotFree(part)
    ensures Split(part) == [part]
  {
    if part != [] {
      assert part == [part[0]] + part[1..];
      SplitDotFree(part[1..]);
    }
  }

  lemma {:induction false} SplitAtDot(part: bytes, rest: bytes)
    requires DotFree(part)
    ensures Split(part + [DOT] + rest) == [part] + Split(rest)
  {
    var s := part + [DOT] + rest;
    if part == [] {
      assert s[1..] == rest;
    } else {
      assert s[1..] == part[1..] + [DOT] + rest;
      SplitAtDot(part[1..], rest);
      assert [part[0]] + part[1..] == part;
    }
  }

  lemma {:induction false} SplitShortens(part: bytes, rest: bytes)
    requires !DotFree(part)
    ensures |Split(part + rest)[0]| < |part|
  {
    if part[0] != DOT {
      assert (part + rest)[1..] == part[1..] + rest;
      SplitShortens(part[1..], rest);
    }
  }

  lemma {:induction false} SplitOfJoin(labels: seq<bytes>)
    requires labels != [] && AllDotFree(labels)
    ensures Split(Join(labels)) == labels
  {
    if |labels| == 1 {
      SplitDotFree(labels[0]);
    } else {
      SplitOfJoin(labels[1..]);
      SplitAtDot(labels[0], Join(labels[1..]));
    }
  }

  // -- Writing, then parsing -------------------------------------------------------------

  /** The parser recovers encodable labels and stops where they end. */
  lemma {:induction false} ParseOfEncoded(labels: seq<bytes>, after: bytes)
    requires Encodable(labels)
    ensures ParseLabels(EncodeLabels(labels) + after) == Ok((labels, after))
  {
    if labels == [] {
      Cut([0], after);
    } else {
      var first, rest := labels[0], labels[1..];
      ParseOfEncoded(rest, after);
      ParseOfLabel(first, EncodeLabels(rest) + after);
      Assoc(EncodeLabel(first), EncodeLabels(rest), after);
      assert [first] + rest == labels;
    }
  }

  lemma ParseOfLabel(first: bytes, after: bytes)
    requires 1 <= |first| <= 63
    ensures ParseLabels(EncodeLabel(first) + after) == Prepend([first], ParseLabels(after))
  {
    var s := EncodeLabel(first) + after;
    EncodedFront(first, after, s);
    ByteOfLength(|first|);
    ParseStep(s, first, after);
  }

  lemma ParseStep(s: bytes, first: bytes, after: bytes)
    requires 1 <= |first| <= 63 && 1 + |first| <= |s| && s[0] == |first|
    requires s[1..1 + |first|] == first && s[1 + |first|..] == after
    ensures ParseLabels(s) == Prepend([first], ParseLabels(after))
  {
  }

  lemma EncodedFront(first: bytes, after: bytes, s: bytes)
    requires s == EncodeLabel(first) + after
    ensures s[0] == |first| % 256
    ensures s[1..1 + |first|] == first && s[1 + |first|..] == after
  {
  }

  /** If parsing written labels stops where writing stopped and gives the same name, every label
      had 1 to 63 octets. */
  lemma {:induction false} ExactParseMeansEncodable(labels: seq<bytes>, after: bytes, parsed: seq<bytes>, rest: bytes)
    requires labels != [] && AllDotFree(labels)
    requires ParseLabels(EncodeLabels(labels) + after) == Ok((parsed, rest)) && |rest| == |after|
    requires ToLower(Join(parsed)) == ToLower(Join(labels))
    ensures Encodable(labels)
    decreases |labels|
  {
    var first, more := labels[0], labels[1..];
    Assoc(EncodeLabel(first), EncodeLabels(more), after);
    SameLength(Join(parsed), Join(labels));
    if 1 <= |first| <= 63 {
      GoodFirstLabel(first, EncodeLabels(more) + after, parsed, rest);
      if more != [] {
        var tail := parsed[1..];
        TailsAgree(first, Join(tail), Join(more));
        ExactParseMeansEncodable(more, after, tail, rest);
      }
    } else {
      BadFirstLabel(EncodeLabel(first) + (EncodeLabels(more) + after), |first|, parsed, rest);
      EncodedHasRoot(more);
      if parsed != [] {
        CutLabelShows(parsed, labels);
      }
    }
  }

  lemma GoodFirstLabel(first: bytes, follow: bytes, parsed: seq<bytes>, rest: bytes)
    requires 1 <= |first| <= 63 && ParseLabels(EncodeLabel(first) + follow) == Ok((parsed, rest))
    ensures parsed != [] && parsed[0] == first && ParseLabels(follow) == Ok((parsed[1..], rest))
  {
    ParseOfLabel(first, follow);
    var (tail, end) := ParseLabels(follow).value;
    assert parsed == [first] + tail && parsed[1..] == tail;
  }

  /** A name whose first label was cut short is another name. */
  lemma CutLabelShows(parsed: seq<bytes>, labels: seq<bytes>)
    requires parsed != [] && labels != [] && DotFree(labels[0])
    requires |parsed[0]| < |labels[0]|
    ensures ToLower(Join(parsed)) != ToLower(Join(labels))
  {
    var n := |parsed[0]|;
    if |parsed| == 1 {
      assert |ToLower(Join(parsed))| == n;
    } else {
      assert Join(parsed)[n] == DOT && Join(labels)[n] == labels[0][n];
      assert ToLower(Join(parsed))[n] == DOT && ToLower(Join(labels))[n] == ToLowerByte(labels[0][n]);
    }
  }

  /** A label of another length is cut short or not there at all. */
  lemma BadFirstLabel(s: bytes, length: nat, parsed: seq<bytes>, rest: bytes)
    requires !(1 <= length <= 63) && |s| > 0 && s[0] == length % 256 && ParseLabels(s) == Ok((parsed, rest))
    ensures if parsed == [] then |rest| == |s| - 1 else |parsed[0]| < length
  {
    ByteOfLength(length);
    FirstOfParse(s);
  }

  lemma ByteOfLength(n: nat)
    ensures n % 256 <= n && (n < 256 ==> n % 256 == n)
  {
  }

  lemma FirstOfParse(s: bytes)
    requires ParseLabels(s).Ok?
    ensures s != []
    ensures var (parsed, rest) := ParseLabels(s).value;
            if s[0] == 0 then parsed == [] && |rest| == |s| - 1 else parsed != [] && |parsed[0]| == s[0] <= 63
  {
    if s[0] != 0 {
      assert ParseLabels(s) == Prepend([s[1..1 + s[0]]], ParseLabels(s[1 + s[0]..]));
    }
  }

  lemma SameLength(a: bytes, b: bytes)
    requires ToLower(a) == ToLower(b)
    ensures |a| == |b|
  {
    assert |a| == |ToLower(a)| == |ToLower(b)| == |b|;
  }

  lemma EncodedHasRoot(labels: seq<bytes>)
    ensures |EncodeLabels(labels)| >= 1
  {
  }

  lemma TailsAgree(first: bytes, a: bytes, b: bytes)
    requires ToLower(first + [DOT] + a) == ToLower(first + [DOT] + b)
    ensures ToLower(a) == ToLower(b)
  {
    var x, y := first + [DOT] + a, first + [DOT] + b;
    assert |x| == |ToLower(x)| == |ToLower(y)| == |y|;
    forall i | 0 <= i < |a| ensures ToLower(a)[i] == ToLower(b)[i] {
      assert ToLower(x)[|first| + 1 + i] == ToLower(y)[|first| + 1 + i];
    }
  }

  /** A written name reads back, lower-cased and ending where it was written, if and only if all
      of its labels have 1 to 63 octets. */
  lemma WrittenNameReadsBack(header: bytes, name: bytes, suffix: bytes)
    requires |header| == 12 && |suffix| >= 4
    ensures QuestionOf(header + EncodeName(name) + suffix) ==
              Ok(Question(12 + |EncodeName(name)| + 4, ToLower(name)))
            <==> Encodable(Split(name))
  {
    JoinOfSplit(name);
    SplitsAtDots(name);
    ReadsBehind(header, EncodeName(name), suffix, ToLower(name));
    ParsesExactly(Split(name), suffix);
  }

  lemma ReadsBehind(header: bytes, encoded: bytes, suffix: bytes, name: bytes)
    requires |header| == 12 && |suffix| >= 4
    ensures QuestionOf(header + encoded + suffix) == Ok(Question(12 + |encoded| + 4, name)) <==>
            ParsesTo(encoded + suffix, |suffix|, name)
  {
    AfterHeader(header, encoded, suffix);
    ReadsUpTo(header + encoded + suffix, encoded + suffix, |suffix|, 12 + |encoded| + 4, name);
  }

  lemma AfterHeader(header: bytes, name: bytes, suffix: bytes)
    ensures (header + name + suffix)[|header|..] == name + suffix
    ensures |header + name + suffix| == |header| + |name| + |suffix|
  {
    Assoc(header, name, suffix);
    Cut(header, name + suffix);
  }

  /** The parse of tail gives the name, up to letter case, and leaves so many octets. */
  predicate ParsesTo(tail: bytes, left: nat, name: bytes) {
    var r := ParseLabels(tail);
    r.Ok? && |r.value.1| == left && ToLower(Join(r.value.0)) == name
  }

  /** A question ends four octets into what follows its name. */
  lemma ReadsUpTo(query: bytes, tail: bytes, left: nat, end: nat, name: bytes)
    requires |query| >= 12 && query[12..] == tail && 4 <= left <= |tail| && end == |query| - left + 4
    ensures QuestionOf(query) == Ok(Question(end, name)) <==> ParsesTo(tail, left, name)
  {
    QuestionIs(query, end, name);
  }

  /** Parsing written labels stops where writing stopped and gives the same name if and only if
      every label has 1 to 63 octets. */
  lemma ParsesExactly(labels: seq<bytes>, suffix: bytes)
    requires labels != [] && AllDotFree(labels)
    ensures ParsesTo(EncodeLabels(labels) + suffix, |suffix|, ToLower(Join(labels))) <==> Encodable(labels)
  {
    var r := ParseLabels(EncodeLabels(labels) + suffix);
    if Encodable(labels) {
      ParseOfEncoded(labels, suffix);
    } else if ParsesTo(EncodeLabels(labels) + suffix, |suffix|, ToLower(Join(labels))) {
      ExactParseMeansEncodable(labels, suffix, r.value.0, r.value.1);
    }
  }

  lemma QuestionIs(query: bytes, end: nat, name: bytes)
    requires |query| >= 12
    ensures QuestionOf(query) == Ok(Question(end, name)) <==>
            && ParseLabels(query[12..]).Ok?
            && |ParseLabels(query[12..]).value.1| >= 4
            && |query| - |ParseLabels(query[12..]).value.1| + 4 == end
            && ToLower(Join(ParseLabels(query[12..]).value.0)) == name
  {
  }

  // -- Parsing, then writing -------------------------------------------------------------

  function LowerAll(labels: seq<bytes>): (lowered: seq<bytes>)
    ensures |lowered| == |labels| && forall k | 0 <= k < |labels| :: lowered[k] == ToLower(labels[k])
  {
    seq(|labels|, k requires 0 <= k < |labels| => ToLower(labels[k]))
  }

  lemma {:induction false} LowerOfJoin(labels: seq<bytes>)
    ensures ToLower(Join(labels)) == Join(LowerAll(labels))
  {
    if |labels| > 1 {
      LowerOfJoin(labels[1..]);
      assert LowerAll(labels)[1..] == LowerAll(labels[1..]);
    }
  }

  /** The octets a parse consumed are its labels, written. */
  lemma {:induction false} ConsumedIsEncoded(s: bytes)
    requires ParseLabels(s).Ok?
    ensures s == EncodeLabels(ParseLabels(s).value.0) + ParseLabels(s).value.1
    decreases |s|
  {
    var length := s[0];
    if length == 0 {
      assert s == [0] + s[1..];
    } else {
      var first, tail := s[1..1 + length], s[1 + length..];
      ConsumedIsEncoded(tail);
      var (more, rest) := ParseLabels(tail).value;
      assert ParseLabels(s) == Ok(([first] + more, rest));
      assert s == EncodeLabel(first) + tail;
      EncodeOfCons(first, more);
      Assoc(EncodeLabel(first), EncodeLabels(more), rest);
    }
  }

  lemma EncodeOfCons(first: bytes, more: seq<bytes>)
    ensures EncodeLabels([first] + more) == EncodeLabel(first) + EncodeLabels(more)
  {
    assert ([first] + more)[1..] == more;
  }

  lemma {:induction false} LowerOfEncoded(labels: seq<bytes>)
    requires Encodable(labels)
    ensures ToLower(EncodeLabels(labels)) == EncodeLabels(LowerAll(labels))
  {
    if labels != [] {
      LowerOfEncoded(labels[1..]);
      assert LowerAll(labels)[1..] == LowerAll(labels[1..]);
      assert ToLower(EncodeLabel(labels[0])) == EncodeLabel(ToLower(labels[0]));
      LowerOfConcat(EncodeLabel(labels[0]), EncodeLabels(labels[1..]));
    }
  }

  lemma LowerOfConcat(a: bytes, b: bytes)
    ensures ToLower(a + b) == ToLower(a) + ToLower(b)
  {
  }

  /** Writing the joined labels gives them back unless a label holds a dot or there is none. */
  lemma {:induction false} RewritesItself(labels: seq<bytes>)
    requires Encodable(labels)
    ensures EncodeName(Join(labels)) == EncodeLabels(labels) <==> labels != [] && AllDotFree(labels)
  {
    if labels != [] && AllDotFree(labels) {
      SplitOfJoin(labels);
    } else if labels == [] {
      assert EncodeLabels([[]][1..]) == [0];
      assert |EncodeName([])| == 2;
    } else if !DotFree(labels[0]) {
      var rest := if |labels| == 1 then [] else [DOT] + Join(labels[1..]);
      assert Join(labels) == labels[0] + rest;
      SplitShortens(labels[0], rest);
      assert EncodeName(Join(labels))[0] < |labels[0]| == EncodeLabels(labels)[0];
    } else if |labels| > 1 {
      RewritesItself(labels[1..]);
      SplitAtDot(labels[0], Join(labels[1..]));
      assert EncodeName(Join(labels)) == EncodeLabel(labels[0]) + EncodeName(Join(labels[1..]));
      if EncodeName(Join(labels)) == EncodeLabels(labels) {
        SameTail(EncodeLabel(labels[0]), EncodeName(Join(labels[1..])), EncodeLabels(labels[1..]));
      }
    }
  }

  lemma SameTail(front: bytes, a: bytes, b: bytes)
    requires front + a == front + b
    ensures a == b
  {
    assert a == (front + a)[|front|..] && b == (front + b)[|front|..];
  }

  /** An accepted question writes back, up to letter case, to the octets it was parsed from if
      and only if it has a label and none of its labels holds a dot. */
  lemma ParsedNameWritesBack(query: bytes)
    requires QuestionOf(query).Ok?
    ensures var (labels, end) := QuestionLabels(query).value;
            EncodeName(QuestionOf(query).value.name) == ToLower(query[12..end])
            <==> labels != [] && AllDotFree(labels)
  {
    var (labels, end) := QuestionLabels(query).value;
    ConsumedIsEncoded(query[12..]);
    assert query[12..end] == EncodeLabels(labels);
    LowerOfEncoded(labels);
    LowerOfJoin(labels);
    RewritesItself(LowerAll(labels));
    forall k | 0 <= k < |labels| ensures DotFree(LowerAll(labels)[k]) <==> DotFree(labels[k]) {
      LowerKeepsDots(labels[k]);
    }
  }

  lemma LowerKeepsDots(part: bytes)
    ensures DotFree(ToLower(part)) <==> DotFree(part)
  {
    forall i | 0 <= i < |part| ensures part[i] == DOT <==> ToLower(part)[i] == DOT {
    }
  }

  // -- Letter case -----------------------------------------------------------------------

  /** The same octet, or the two cases of one ASCII letter. */
  predicate SameLetter(a: byte, b: byte) {
    a == b || (65 <= a <= 90 && b == a + 32) || (65 <= b <= 90 && a == b + 32)
  }

  predicate SpellSame(x: bytes, y: bytes) {
    |x| == |y| && forall i | 0 <= i < |x| :: SameLetter(x[i], y[i])
  }

  predicate NoCapitals(x: bytes) {
    forall i | 0 <= i < |x| :: !(65 <= x[i] <= 90)
  }

  /** Two spellings of a name that differ in letter case alone are the same question, and it is asked
      without capitals: for all names, headers and suffixes. */
  lemma SpellingsAskTheSame(header: bytes, x: bytes, y: bytes, suffix: bytes)
    requires |header| == 12 && |suffix| >= 4 && SpellSame(x, y)
    requires Encodable(Split(x)) && Encodable(Split(y))
    ensures var first := QuestionOf(header + EncodeName(x) + suffix);
            var second := QuestionOf(header + EncodeName(y) + suffix);
            && first.Ok? && second.Ok? && first.value.name == second.value.name
            && NoCapitals(first.value.name) && SpellSame(first.value.name, x)
  {
    WrittenNameReadsBack(header, x, suffix);
    WrittenNameReadsBack(header, y, suffix);
    LowerSpells(x);
    SpellingsLower(x, y);
  }

  lemma LowerSpells(x: bytes)
    ensures NoCapitals(ToLower(x)) && SpellSame(ToLower(x), x)
  {
  }

  lemma SpellingsLower(x: bytes, y: bytes)
    requires SpellSame(x, y)
    ensures ToLower(x) == ToLower(y)
  {
    forall i | 0 <= i < |x| ensures ToLower(x)[i] == ToLower(y)[i] {
      assert SameLetter(x[i], y[i]);
    }
  }

  // -- Names that do not read back -------------------------------------------------------

  /** The empty name is written as an empty label and the root, and read as the root alone. */
  lemma EmptyNameMisreads(header: bytes, suffix: bytes)
    requires |header| == 12 && |suffix| >= 4
    ensures QuestionOf(header + EncodeName([]) + suffix) == Ok(Question(12 + 1 + 4, []))
    ensures |EncodeName([])| == 2
  {
    assert EncodeLabels([[]]) == [0, 0];
    Assoc(header, [0, 0], suffix);
    Cut(header, [0, 0] + suffix);
    assert ([0, 0] + suffix)[1..] == [0] + suffix;
    var query := header + EncodeName([]) + suffix;
    assert query[12..] == [0, 0] + suffix;
    QuestionIs(query, 17, []);
  }

  /** A label of 64 octets is written under a length the parser refuses. */
  lemma LongLabelMisreads(header: bytes, name: bytes, suffix: bytes)
    requires |header| == 12 && |name| == 64 && DotFree(name)
    ensures QuestionOf(header + EncodeName(name) + suffix) == Err("invalid DNS label")
  {
    SplitDotFree(name);
    var wire := EncodeLabel(name) + [0];
    assert EncodeLabels([name][1..]) == [0];
    assert EncodeName(name) == wire;
    Assoc(header, wire, suffix);
    Cut(header, wire + suffix);
    assert (wire + suffix)[0] == 64;
  }

  /** The query for the one label "a.b" is accepted as the question for two labels. */
  lemma DottedLabelRewrites(header: bytes, suffix: bytes)
    requires |header| == 12 && |suffix| >= 4
    ensures var query := header + [3, 97, DOT, 98, 0] + suffix;
            && QuestionOf(query) == Ok(Question(21, [97, DOT, 98]))
            && EncodeName([97, DOT, 98]) == [1, 97, 1, 98, 0]
  {
    var wire := [3, 97, DOT, 98, 0];
    AfterHeader(header, wire, suffix);
    DottedLabelParses(suffix);
    QuestionIs(header + wire + suffix, 21, [97, DOT, 98]);
    DottedNameWrites();
  }

  lemma DottedLabelParses(suffix: bytes)
    ensures ParseLabels([3, 97, DOT, 98, 0] + suffix) == Ok(([[97, DOT, 98]], suffix))
    ensures ToLower(Join([[97, DOT, 98]])) == [97, DOT, 98]
  {
    var part := [97, DOT, 98];
    assert EncodeLabels([part][1..]) == [0];
    assert EncodeLabels([part]) == [3, 97, DOT, 98, 0];
    ParseOfEncoded([part], suffix);
  }

  lemma DottedNameWrites()
    ensures EncodeName([97, DOT, 98]) == [1, 97, 1, 98, 0]
  {
    assert [97] + [DOT] + [98] == [97, DOT, 98];
    SplitAtDot([97], [98]);
    SplitDotFree([98]);
    assert [[97]] + [[98]] == [[97], [98]];
    assert [[97], [98]][1..] == [[98]] && [[98]][1..] == [];
    assert EncodeLabels([[98]]) == [1, 98, 0];
  }
}
