/** The JSON texts the report writers produce, and a reader for them: the strings, arrays and
    objects of RFC 8259. */
module Json {
  import opened Wrappers

  datatype Json =
    | Text(text: string)
    | Array(elements: seq<Json>)
    | Object(members: seq<(string, Json)>)

  // -- The writers' escaping -------------------------------------------------------------

  function HexDigit(n: nat): char
    requires n < 16
  {
    if n < 10 then '0' + n as char else 'a' + (n - 10) as char
  }

  /** `\u%04x` of a control character. */
  function UnicodeEscape(c: char): string
    requires c < ' '
  {
    ['\\', 'u', '0', '0', HexDigit(c as nat / 16), HexDigit(c as nat % 16)]
  }

  function EscapeChar(c: char): string {
    if c == '"' then ['\\', '"']
    else if c == '\\' then ['\\', '\\']
    else if c == '\n' then ['\\', 'n']
    else if c == '\r' then ['\\', 'r']
    else if c == '\t' then ['\\', 't']
    else if c < ' ' then UnicodeEscape(c)
    else [c]
  }

  function Escape(s: string): string {
    if s == "" then "" else EscapeChar(s[0]) + Escape(s[1..])
  }

  const QUOTE := "\""

  function Quote(s: string): string {
    QUOTE + Escape(s) + QUOTE
  }

  lemma {:induction false} EscapeOfSnoc(s: string, c: char)
    ensures Escape(s + [c]) == Escape(s) + EscapeChar(c)
  {
    if s == "" {
      assert ([] + [c])[1..] == [];
    } else {
      assert (s + [c])[1..] == s[1..] + [c];
      EscapeOfSnoc(s[1..], c);
    }
  }

  /** The builder loop of `String.json`. */
  method ToJson(s: string) returns (quoted: string)
    ensures quoted == Quote(s)
  {
    var escaped := "";
    for i := 0 to |s|
      invariant escaped == Escape(s[..i])
    {
      EscapeOfSnoc(s[..i], s[i]);
      assert s[..i + 1] == s[..i] + [s[i]];
      if s[i] == '"' {
        escaped := escaped + "\\\"";
      } else if s[i] == '\\' {
        escaped := escaped + "\\\\";
      } else if s[i] == '\n' {
        escaped := escaped + "\\n";
      } else if s[i] == '\r' {
        escaped := escaped + "\\r";
      } else if s[i] == '\t' {
        escaped := escaped + "\\t";
      } else if s[i] < ' ' {
        escaped := escaped + UnicodeEscape(s[i]);
      } else {
        escaped := escaped + [s[i]];
      }
    }
    assert s[..|s|] == s;
    quoted := QUOTE + escaped + QUOTE;
  }

  // -- Reading strings (section 7) -------------------------------------------------------

  function HexValue(c: char): Option<nat> {
    if '0' <= c <= '9' then Some((c - '0') as nat)
    else if 'a' <= c <= 'f' then Some((c - 'a') as nat + 10)
    else if 'A' <= c <= 'F' then Some((c - 'A') as nat + 10)
    else None
  }

  /** Four hexadecimal digits; code units that are halves of surrogate pairs are refused. */
  function ReadHex(s: string): Option<char>
    requires |s| >= 4
  {
    var a :- HexValue(s[0]);
    var b :- HexValue(s[1]);
    var c :- HexValue(s[2]);
    var d :- HexValue(s[3]);
    var code := a * 4096 + b * 256 + c * 16 + d;
    if code < 0xD800 || 0xE000 <= code < 0x1_0000 then Some(code as char) else None
  }

  /** One character of a string, escaped or not, and how much text it took. */
  function ReadChar(s: string): (r: Option<(char, nat)>)
    ensures r.Some? ==> 1 <= r.value.1 <= |s|
  {
    if s == "" || s[0] < ' ' || s[0] == '"' then None
    else if s[0] != '\\' then Some((s[0], 1))
    else if |s| < 2 then None
    else
      match s[1]
      case '"' => Some(('"', 2))
      case '\\' => Some(('\\', 2))
      case '/' => Some(('/', 2))
      case 'b' => Some((8 as char, 2))
      case 'f' => Some((12 as char, 2))
      case 'n' => Some(('\n', 2))
      case 'r' => Some(('\r', 2))
      case 't' => Some(('\t', 2))
      case 'u' =>
        if |s| < 6 then None
        else
          var c :- ReadHex(s[2..6]);
          Some((c, 6))
      case _ => None
  }

  /** The characters up to the closing quotation mark, and the text after it. */
  function ReadChars(s: string): (r: Option<(string, string)>)
    ensures r.Some? ==> |r.value.1| < |s|
    decreases |s|
  {
    if s == "" then None
    else if s[0] == '"' then Some(("", s[1..]))
    else
      var (c, n) :- ReadChar(s);
      var (more, rest) :- ReadChars(s[n..]);
      Some(([c] + more, rest))
  }

  function ReadString(s: string): (r: Option<(string, string)>)
    ensures r.Some? ==> |r.value.1| < |s|
  {
    if s == "" || s[0] != '"' then None else ReadChars(s[1..])
  }

  lemma HexReads(n: nat)
    requires n < 16
    ensures HexValue(HexDigit(n)) == Some(n)
  {
  }

  /** A control character's escape reads back. */
  lemma UnicodeEscapeReads(c: char, rest: string)
    requires c < ' '
    ensures ReadChar(UnicodeEscape(c) + rest) == Some((c, 6))
  {
    var s := UnicodeEscape(c) + rest;
    var high, low := c as nat / 16, c as nat % 16;
    HexReads(high);
    HexReads(low);
    assert s[2..6] == ['0', '0', HexDigit(high), HexDigit(low)];
    assert ReadHex(s[2..6]) == Some((high * 16 + low) as char);
  }

  lemma EscapeCharReads(c: char, rest: string)
    ensures EscapeChar(c) != "" && (EscapeChar(c) + rest)[0] != '"'
    ensures ReadChar(EscapeChar(c) + rest) == Some((c, |EscapeChar(c)|))
  {
    if c < ' ' && c != '\n' && c != '\r' && c != '\t' {
      UnicodeEscapeReads(c, rest);
    }
  }

  lemma {:induction false} EscapedReads(s: string, rest: string)
    ensures ReadChars(Escape(s) + QUOTE + rest) == Some((s, rest))
  {
    var text := Escape(s) + QUOTE + rest;
    if s == "" {
      assert text == QUOTE + rest && text[1..] == rest;
    } else {
      var more := Escape(s[1..]) + QUOTE + rest;
      assert text == EscapeChar(s[0]) + more;
      EscapeCharReads(s[0], more);
      EscapedReads(s[1..], rest);
      assert text[|EscapeChar(s[0])|..] == more;
      assert [s[0]] + s[1..] == s;
    }
  }

  lemma QuotedTail(escaped: string, rest: string)
    ensures (QUOTE + escaped + QUOTE + rest)[1..] == escaped + QUOTE + rest
  {
  }

  /** Any string, quoted, reads back as itself. */
  lemma QuotedReads(s: string, rest: string)
    ensures ReadString(Quote(s) + rest) == Some((s, rest))
  {
    EscapedReads(s, rest);
    QuotedTail(Escape(s), rest);
  }

  // -- Reading values --------------------------------------------------------------------

  predicate IsWs(c: char) {
    c == ' ' || c == '\t' || c == '\n' || c == '\r'
  }

  function SkipWs(s: string): (rest: string)
    ensures |rest| <= |s|
  {
    if s != "" && IsWs(s[0]) then SkipWs(s[1..]) else s
  }

  predicate StartsWith(s: string, c: char) {
    s != "" && s[0] == c
  }

  function ReadValue(s: string): (r: Option<(Json, string)>)
    ensures r.Some? ==> |r.value.1| < |s|
    decreases |s|, 0
  {
    var t := SkipWs(s);
    if StartsWith(t, '"') then
      var (text, rest) :- ReadString(t);
      Some((Text(text), rest))
    else if StartsWith(t, '[') then
      if StartsWith(SkipWs(t[1..]), ']') then Some((Array([]), SkipWs(t[1..])[1..]))
      else
        var (elements, rest) :- ReadElements(t[1..]);
        Some((Array(elements), rest))
    else if StartsWith(t, '{') then
      if StartsWith(SkipWs(t[1..]), '}') then Some((Object([]), SkipWs(t[1..])[1..]))
      else
        var (members, rest) :- ReadMembers(t[1..]);
        Some((Object(members), rest))
    else None
  }

  function ReadElements(s: string): (r: Option<(seq<Json>, string)>)
    ensures r.Some? ==> |r.value.1| < |s|
    decreases |s|, 1
  {
    var (first, afterFirst) :- ReadValue(s);
    var t := SkipWs(afterFirst);
    if StartsWith(t, ']') then Some(([first], t[1..]))
    else if StartsWith(t, ',') then
      var (more, rest) :- ReadElements(t[1..]);
      Some(([first] + more, rest))
    else None
  }

  function ReadMember(s: string): (r: Option<((string, Json), string)>)
    ensures r.Some? ==> |r.value.1| < |s|
    decreases |s|, 1
  {
    var (key, afterKey) :- ReadString(SkipWs(s));
    if !StartsWith(SkipWs(afterKey), ':') then None
    else
      var (value, rest) :- ReadValue(SkipWs(afterKey)[1..]);
      Some(((key, value), rest))
  }

  function ReadMembers(s: string): (r: Option<(seq<(string, Json)>, string)>)
    ensures r.Some? ==> |r.value.1| < |s|
    decreases |s|, 2
  {
    var (first, afterFirst) :- ReadMember(s);
    var t := SkipWs(afterFirst);
    if StartsWith(t, '}') then Some(([first], t[1..]))
    else if StartsWith(t, ',') then
      var (more, rest) :- ReadMembers(t[1..]);
      Some(([first] + more, rest))
    else None
  }

  /** One value and nothing but whitespace after it. */
  function Read(s: string): Option<Json> {
    var (value, rest) :- ReadValue(s);
    if SkipWs(rest) == "" then Some(value) else None
  }

  // -- Layouts: a value with its whitespace ----------------------------------------------

  datatype Layout =
    | TextLayout(text: string)
    | ArrayLayout(elements: seq<Element>)
    | ObjectLayout(members: seq<Member>)

  datatype Element = Element(before: string, layout: Layout, after: string)

  /** `<before>"key":<space>value<after>` */
  datatype Member = Member(before: string, key: string, space: string, layout: Layout, after: string)

  function Print(l: Layout): string
    decreases l, 1
  {
    match l
    case TextLayout(text) => Quote(text)
    case ArrayLayout(elements) => "[" + PrintElements(elements) + "]"
    case ObjectLayout(members) => "{" + PrintMembers(members) + "}"
  }

  function PrintElement(e: Element): string
    decreases e, 2
  {
    e.before + Print(e.layout) + e.after
  }

  function PrintElements(es: seq<Element>): string
    decreases es, 0
  {
    if es == [] then ""
    else if |es| == 1 then PrintElement(es[0])
    else PrintElement(es[0]) + "," + PrintElements(es[1..])
  }

  function PrintMember(m: Member): string
    decreases m, 2
  {
    m.before + Quote(m.key) + ":" + m.space + Print(m.layout) + m.after
  }

  function PrintMembers(ms: seq<Member>): string
    decreases ms, 0
  {
    if ms == [] then ""
    else if |ms| == 1 then PrintMember(ms[0])
    else PrintMember(ms[0]) + "," + PrintMembers(ms[1..])
  }

  function Value(l: Layout): Json
    decreases l, 1
  {
    match l
    case TextLayout(text) => Text(text)
    case ArrayLayout(elements) => Array(Values(elements))
    case ObjectLayout(members) => Object(Pairs(members))
  }

  function Values(es: seq<Element>): (vs: seq<Json>)
    ensures |vs| == |es|
    decreases es, 0
  {
    if es == [] then [] else [Value(es[0].layout)] + Values(es[1..])
  }

  function Pairs(ms: seq<Member>): (ps: seq<(string, Json)>)
    ensures |ps| == |ms|
    decreases ms, 0
  {
    if ms == [] then [] else [(ms[0].key, Value(ms[0].layout))] + Pairs(ms[1..])
  }

  predicate Blank(s: string) {
    forall i | 0 <= i < |s| :: IsWs(s[i])
  }

  predicate WellSpaced(l: Layout)
    decreases l, 1
  {
    match l
    case TextLayout(_) => true
    case ArrayLayout(elements) => AllElementsSpaced(elements)
    case ObjectLayout(members) => AllMembersSpaced(members)
  }

  predicate AllElementsSpaced(es: seq<Element>)
    decreases es, 0
  {
    es == [] || (Blank(es[0].before) && Blank(es[0].after) && WellSpaced(es[0].layout) && AllElementsSpaced(es[1..]))
  }

  predicate AllMembersSpaced(ms: seq<Member>)
    decreases ms, 0
  {
    ms == [] ||
    (Blank(ms[0].before) && Blank(ms[0].space) && Blank(ms[0].after)
     && WellSpaced(ms[0].layout) && AllMembersSpaced(ms[1..]))
  }

  lemma ElementsCons(e: Element, es: seq<Element>)
    ensures Values([e] + es) == [Value(e.layout)] + Values(es)
    ensures AllElementsSpaced([e] + es) <==>
            Blank(e.before) && Blank(e.after) && WellSpaced(e.layout) && AllElementsSpaced(es)
    ensures PrintElements([e] + es) == PrintElement(e) + if es == [] then "" else "," + PrintElements(es)
  {
    assert ([e] + es)[1..] == es;
    if es == [] {
      assert PrintElement(e) + "" == PrintElement(e);
    } else {
      assert PrintElement(e) + "," + PrintElements(es) == PrintElement(e) + ("," + PrintElements(es));
    }
  }

  lemma MembersCons(m: Member, ms: seq<Member>)
    ensures Pairs([m] + ms) == [(m.key, Value(m.layout))] + Pairs(ms)
    ensures AllMembersSpaced([m] + ms) <==>
            Blank(m.before) && Blank(m.space) && Blank(m.after) && WellSpaced(m.layout) && AllMembersSpaced(ms)
    ensures PrintMembers([m] + ms) == PrintMember(m) + if ms == [] then "" else "," + PrintMembers(ms)
  {
    assert ([m] + ms)[1..] == ms;
    if ms == [] {
      assert PrintMember(m) + "" == PrintMember(m);
    } else {
      assert PrintMember(m) + "," + PrintMembers(ms) == PrintMember(m) + ("," + PrintMembers(ms));
    }
  }

  // Facts about joining, stated apart so that no proof has to find them among larger terms.

  lemma Assoc(a: string, b: string, c: string)
    ensures a + b + c == a + (b + c)
  {
  }

  lemma Nothing(a: string)
    ensures "" + a == a && a + "" == a
  {
  }

  // -- Every layout reads back -----------------------------------------------------------

  predicate Solid(t: string) {
    t == "" || !IsWs(t[0])
  }

  lemma {:induction false} SkipBlank(w: string, t: string)
    requires Blank(w) && Solid(t)
    ensures SkipWs(w + t) == t
  {
    if w == "" {
      assert w + t == t;
    } else {
      assert (w + t)[1..] == w[1..] + t;
      SkipBlank(w[1..], t);
    }
  }

  lemma PrintStarts(l: Layout, rest: string)
    ensures var t := Print(l) + rest;
            && t != ""
            && t[0] == (match l case TextLayout(_) => '"' case ArrayLayout(_) => '[' case ObjectLayout(_) => '{')
  {
  }

  /** Whitespace in front of a value does not matter. */
  lemma ReadSpaced(w: string, l: Layout, rest: string)
    requires Blank(w)
    ensures ReadValue(w + (Print(l) + rest)) == ReadValue(Print(l) + rest)
    ensures SkipWs(w + (Print(l) + rest)) == Print(l) + rest
  {
    PrintStarts(l, rest);
    SkipBlank(w, Print(l) + rest);
    SkipBlank("", Print(l) + rest);
    assert "" + (Print(l) + rest) == Print(l) + rest;
    SameValue(w + (Print(l) + rest), Print(l) + rest);
  }

  lemma SameValue(a: string, b: string)
    requires SkipWs(a) == SkipWs(b)
    ensures ReadValue(a) == ReadValue(b)
  {
  }

  lemma ArrayReads(inner: string, vs: seq<Json>, rest: string)
    requires if vs == [] then inner == "]" + rest
             else ReadElements(inner) == Some((vs, rest)) && !StartsWith(SkipWs(inner), ']')
    ensures ReadValue("[" + inner) == Some((Array(vs), rest))
  {
    var s := "[" + inner;
    assert SkipWs(s) == s && s[1..] == inner;
    if vs == [] {
      assert SkipWs(inner) == inner && inner[1..] == rest;
    }
  }

  lemma ObjectReads(inner: string, ps: seq<(string, Json)>, rest: string)
    requires if ps == [] then inner == "}" + rest
             else ReadMembers(inner) == Some((ps, rest)) && !StartsWith(SkipWs(inner), '}')
    ensures ReadValue("{" + inner) == Some((Object(ps), rest))
  {
    var s := "{" + inner;
    assert SkipWs(s) == s && s[1..] == inner;
    if ps == [] {
      assert SkipWs(inner) == inner && inner[1..] == rest;
    }
  }

  lemma TextReads(text: string, rest: string)
    ensures ReadValue(Quote(text) + rest) == Some((Text(text), rest))
  {
    var s := Quote(text) + rest;
    assert SkipWs(s) == s;
    QuotedReads(text, rest);
  }

  lemma {:induction false} LayoutReads(l: Layout, rest: string)
    requires WellSpaced(l)
    ensures ReadValue(Print(l) + rest) == Some((Value(l), rest))
    decreases l, 1
  {
    match l {
      case TextLayout(text) =>
        TextReads(text, rest);
      case ArrayLayout(elements) =>
        var inner := PrintElements(elements) + ("]" + rest);
        if elements != [] {
          ElementsRead(elements, rest);
          ElementsStart(elements, "]" + rest);
        }
        ArrayReads(inner, Values(elements), rest);
        Bracketed("[", PrintElements(elements), "]", rest);
      case ObjectLayout(members) =>
        var inner := PrintMembers(members) + ("}" + rest);
        if members != [] {
          MembersRead(members, rest);
          MembersStart(members, "}" + rest);
        }
        ObjectReads(inner, Pairs(members), rest);
        Bracketed("{", PrintMembers(members), "}", rest);
    }
  }

  lemma Bracketed(a: string, b: string, c: string, d: string)
    ensures a + b + c + d == a + (b + (c + d))
    ensures "" + (c + d) == c + d
  {
  }

  /** The first thing in a list of elements is a value, not the closing bracket. */
  lemma ElementsStart(es: seq<Element>, rest: string)
    requires es != [] && AllElementsSpaced(es)
    ensures !StartsWith(SkipWs(PrintElements(es) + rest), ']')
  {
    var e := es[0];
    var tail := e.after + ((if |es| == 1 then "" else "," + PrintElements(es[1..])) + rest);
    ElementsSplit(es, rest);
    ReadSpaced(e.before, e.layout, tail);
    PrintStarts(e.layout, tail);
  }

  /** A list of elements is its first element, a comma if there are more, and the others. */
  lemma ElementsSplit(es: seq<Element>, rest: string)
    requires es != []
    ensures var e := es[0];
            PrintElements(es) + rest ==
            e.before + (Print(e.layout) + (e.after + ((if |es| == 1 then "" else "," + PrintElements(es[1..])) + rest)))
  {
    var e := es[0];
    var more := if |es| == 1 then "" else "," + PrintElements(es[1..]);
    assert es == [e] + es[1..] && (|es| == 1 <==> es[1..] == []);
    ElementsCons(e, es[1..]);
    Regroup(e.before, Print(e.layout), e.after, more, rest);
  }

  lemma Regroup(a: string, b: string, c: string, d: string, e: string)
    ensures a + b + c + d + e == a + (b + (c + (d + e)))
  {
  }

  /** One element reads back, whitespace and all. */
  lemma {:induction false} ElementReads(e: Element, follow: string)
    requires Blank(e.before) && Blank(e.after) && WellSpaced(e.layout) && Solid(follow)
    ensures ReadValue(e.before + (Print(e.layout) + (e.after + follow))) == Some((Value(e.layout), e.after + follow))
    ensures SkipWs(e.after + follow) == follow
    decreases e, 0
  {
    ReadSpaced(e.before, e.layout, e.after + follow);
    LayoutReads(e.layout, e.after + follow);
    SkipBlank(e.after, follow);
  }

  lemma {:induction false} ElementsRead(es: seq<Element>, rest: string)
    requires es != [] && AllElementsSpaced(es)
    ensures ReadElements(PrintElements(es) + ("]" + rest)) == Some((Values(es), rest))
    decreases es, 0
  {
    var text := PrintElements(es) + ("]" + rest);
    var e := es[0];
    ElementsSplit(es, "]" + rest);
    if |es| == 1 {
      Nothing("]" + rest);
      ElementReads(e, "]" + rest);
      ElementsLast(text, Value(e.layout), e.after + ("]" + rest), rest);
      assert Values(es) == [Value(e.layout)];
    } else {
      var tail := PrintElements(es[1..]) + ("]" + rest);
      Assoc(",", PrintElements(es[1..]), "]" + rest);
      ElementReads(e, "," + tail);
      ElementsRead(es[1..], rest);
      ElementsMore(text, Value(e.layout), e.after + ("," + tail), tail);
    }
  }

  lemma ElementsLast(s: string, first: Json, afterFirst: string, rest: string)
    requires ReadValue(s) == Some((first, afterFirst)) && SkipWs(afterFirst) == "]" + rest
    ensures ReadElements(s) == Some(([first], rest))
  {
    assert ("]" + rest)[1..] == rest;
  }

  lemma ElementsMore(s: string, first: Json, afterFirst: string, tail: string)
    requires ReadValue(s) == Some((first, afterFirst)) && SkipWs(afterFirst) == "," + tail
    requires ReadElements(tail).Some?
    ensures ReadElements(s) == Some(([first] + ReadElements(tail).value.0, ReadElements(tail).value.1))
  {
    assert ("," + tail)[1..] == tail;
  }

  lemma MembersStart(ms: seq<Member>, rest: string)
    requires ms != [] && AllMembersSpaced(ms)
    ensures !StartsWith(SkipWs(PrintMembers(ms) + rest), '}')
  {
    var m := ms[0];
    var tail := ":" + (m.space + (Print(m.layout) + (m.after
                + ((if |ms| == 1 then "" else "," + PrintMembers(ms[1..])) + rest))));
    MembersSplit(ms, rest);
    SkipBlank(m.before, Quote(m.key) + tail);
  }

  lemma MembersSplit(ms: seq<Member>, rest: string)
    requires ms != []
    ensures var m := ms[0];
            PrintMembers(ms) + rest ==
            m.before + (Quote(m.key) + (":" + (m.space + (Print(m.layout) + (m.after
              + ((if |ms| == 1 then "" else "," + PrintMembers(ms[1..])) + rest))))))
  {
    var m := ms[0];
    var more := if |ms| == 1 then "" else "," + PrintMembers(ms[1..]);
    assert ms == [m] + ms[1..] && (|ms| == 1 <==> ms[1..] == []);
    MembersCons(m, ms[1..]);
    RegroupMore(m.before, Quote(m.key), ":", m.space, Print(m.layout), m.after, more, rest);
  }

  lemma RegroupMore(a: string, b: string, c: string, d: string, e: string, f: string, g: string, h: string)
    ensures a + b + c + d + e + f + g + h == a + (b + (c + (d + (e + (f + (g + h))))))
  {
  }

  /** One member reads back, whitespace and all. */
  lemma {:induction false} MemberReads(m: Member, rest: string)
    requires Blank(m.before) && Blank(m.space) && WellSpaced(m.layout)
    ensures ReadMember(m.before + (Quote(m.key) + (":" + (m.space + (Print(m.layout) + rest))))) ==
            Some(((m.key, Value(m.layout)), rest))
    decreases m, 0
  {
    var value := m.space + (Print(m.layout) + rest);
    SkipBlank(m.before, Quote(m.key) + (":" + value));
    QuotedReads(m.key, ":" + value);
    assert SkipWs(":" + value) == ":" + value && (":" + value)[1..] == value;
    ReadSpaced(m.space, m.layout, rest);
    LayoutReads(m.layout, rest);
  }

  lemma {:induction false} MembersRead(ms: seq<Member>, rest: string)
    requires ms != [] && AllMembersSpaced(ms)
    ensures ReadMembers(PrintMembers(ms) + ("}" + rest)) == Some((Pairs(ms), rest))
    decreases ms, 0
  {
    var text := PrintMembers(ms) + ("}" + rest);
    var m := ms[0];
    var pair := (m.key, Value(m.layout));
    MembersSplit(ms, "}" + rest);
    if |ms| == 1 {
      Nothing("}" + rest);
      MemberReads(m, m.after + ("}" + rest));
      SkipBlank(m.after, "}" + rest);
      MembersLast(text, pair, m.after + ("}" + rest), rest);
      assert Pairs(ms) == [pair];
    } else {
      var tail := PrintMembers(ms[1..]) + ("}" + rest);
      Assoc(",", PrintMembers(ms[1..]), "}" + rest);
      MemberReads(m, m.after + ("," + tail));
      SkipBlank(m.after, "," + tail);
      MembersRead(ms[1..], rest);
      MembersMore(text, pair, m.after + ("," + tail), tail);
    }
  }

  lemma MembersLast(s: string, first: (string, Json), afterFirst: string, rest: string)
    requires ReadMember(s) == Some((first, afterFirst)) && SkipWs(afterFirst) == "}" + rest
    ensures ReadMembers(s) == Some(([first], rest))
  {
    assert ("}" + rest)[1..] == rest;
  }

  lemma MembersMore(s: string, first: (string, Json), afterFirst: string, tail: string)
    requires ReadMember(s) == Some((first, afterFirst)) && SkipWs(afterFirst) == "," + tail
    requires ReadMembers(tail).Some?
    ensures ReadMembers(s) == Some(([first] + ReadMembers(tail).value.0, ReadMembers(tail).value.1))
  {
    assert ("," + tail)[1..] == tail;
  }

  /** Every well-spaced layout is a text that reads back as the value laid out, and nothing but
      whitespace may follow it. */
  lemma DocumentReads(l: Layout, after: string)
    requires WellSpaced(l) && Blank(after)
    ensures Read(Print(l) + after) == Some(Value(l))
  {
    LayoutReads(l, after);
    SkipBlank(after, "");
    assert after + "" == after;
  }
}
