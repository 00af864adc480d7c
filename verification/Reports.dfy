/** What the two report writers share: texts assembled line by line, and the layouts they print
    (network/src/test/kotlin/okhttp/testbed/network/Preflight.kt and DohMatrixReport.kt). */
module Reports {
  import opened Json
  import opened Margin

  /** `joinToString(separator)` */
  function JoinWith(parts: seq<string>, separator: string): string {
    if parts == [] then ""
    else if |parts| == 1 then parts[0]
    else parts[0] + separator + JoinWith(parts[1..], separator)
  }

  function JoinAll(blocks: seq<seq<string>>): (texts: seq<string>)
    ensures |texts| == |blocks| && forall i | 0 <= i < |blocks| :: texts[i] == JoinLines(blocks[i])
  {
    seq(|blocks|, i requires 0 <= i < |blocks| => JoinLines(blocks[i]))
  }

  /** The last line of a block, followed by a comma. */
  function WithComma(block: seq<string>): seq<string>
    requires block != []
  {
    block[..|block| - 1] + [block[|block| - 1] + ","]
  }

  ghost predicate NonEmptyBlocks(blocks: seq<seq<string>>) {
    forall i | 0 <= i < |blocks| :: blocks[i] != []
  }

  /** The lines of blocks joined with a comma and a line break. */
  function BlockLines(blocks: seq<seq<string>>): seq<string>
    requires NonEmptyBlocks(blocks)
  {
    if blocks == [] then []
    else if |blocks| == 1 then blocks[0]
    else WithComma(blocks[0]) + BlockLines(blocks[1..])
  }

  lemma JoinWithComma(block: seq<string>)
    requires block != []
    ensures JoinLines(WithComma(block)) == JoinLines(block) + ","
  {
    var front, last := block[..|block| - 1], block[|block| - 1];
    assert block == front + [last];
    if front != [] {
      JoinedConcat(front, [last]);
      JoinedConcat(front, [last + ","]);
      assert JoinLines(front) + "\n" + (last + ",") == JoinLines(front) + "\n" + last + ",";
    } else {
      assert WithComma(block) == [last + ","];
    }
  }

  /** Joining texts of several lines with a comma and a break is joining all their lines. */
  lemma {:induction false} JoinedBlocks(blocks: seq<seq<string>>)
    requires blocks != [] && NonEmptyBlocks(blocks)
    ensures BlockLines(blocks) != []
    ensures JoinWith(JoinAll(blocks), ",\n") == JoinLines(BlockLines(blocks))
  {
    if |blocks| > 1 {
      JoinedBlocks(blocks[1..]);
      assert JoinAll(blocks)[1..] == JoinAll(blocks[1..]);
      JoinWithComma(blocks[0]);
      JoinedConcat(WithComma(blocks[0]), BlockLines(blocks[1..]));
      CommaBreak(JoinLines(blocks[0]), JoinLines(BlockLines(blocks[1..])));
    }
  }

  lemma CommaBreak(a: string, b: string)
    ensures a + ",\n" + b == a + "," + "\n" + b
  {
  }

  ghost predicate AllPlain(lines: seq<string>) {
    forall i | 0 <= i < |lines| :: Plain(lines[i])
  }

  lemma PlainWithComma(line: string)
    requires Plain(line)
    ensures Plain(line + ",")
  {
    var i := FirstSolid(line);
    SolidStays(line, ",");
  }

  lemma {:induction false} SolidStays(line: string, more: string)
    ensures FirstSolid(line) < |line| ==> FirstSolid(line + more) == FirstSolid(line)
    ensures FirstSolid(line) == |line| ==> FirstSolid(line + more) == |line| + FirstSolid(more)
  {
    if line == "" {
      assert line + more == more;
    } else {
      assert (line + more)[1..] == line[1..] + more;
      SolidStays(line[1..], more);
    }
  }

  lemma {:induction false} PlainBlocks(blocks: seq<seq<string>>)
    requires NonEmptyBlocks(blocks) && forall i | 0 <= i < |blocks| :: AllPlain(blocks[i])
    ensures AllPlain(BlockLines(blocks))
  {
    if blocks != [] {
      assert AllPlain(blocks[0]);
      if |blocks| > 1 {
        PlainBlocks(blocks[1..]);
        PlainWithComma(blocks[0][|blocks[0]| - 1]);
      }
    }
  }

  // -- Lines of the reports --------------------------------------------------------------

  /** Quoting leaves no line break for trimMargin to act on. */
  lemma {:induction false} EscapeUnbroken(s: string)
    ensures Unbroken(Escape(s))
  {
    if s != "" {
      EscapeUnbroken(s[1..]);
      assert Unbroken(EscapeChar(s[0]));
    }
  }

  lemma QuoteUnbroken(s: string)
    ensures Unbroken(Quote(s))
  {
    EscapeUnbroken(s);
  }

  lemma UnbrokenConcat(a: string, b: string)
    requires Unbroken(a) && Unbroken(b)
    ensures Unbroken(a + b)
  {
  }

  lemma FourUnbroken(a: string, b: string, c: string, d: string)
    requires Unbroken(a) && Unbroken(b) && Unbroken(c) && Unbroken(d)
    ensures AllUnbroken([a, b, c, d])
  {
  }

  predicate AllSpaces(s: string) {
    forall i | 0 <= i < |s| :: s[i] == ' '
  }

  /** An indented line that starts with anything but a margin is left alone. */
  lemma IndentedIsPlain(indent: string, rest: string)
    requires AllSpaces(indent) && Unbroken(rest) && rest != "" && !IsSpace(rest[0]) && rest[0] != '|'
    ensures Plain(indent + rest)
  {
    assert FirstSolid(rest) == 0;
    SpacesFirst(indent);
    SolidStays(indent, rest);
    assert (indent + rest)[|indent|] == rest[0];
  }

  lemma {:induction false} SpacesFirst(indent: string)
    requires AllSpaces(indent)
    ensures FirstSolid(indent) == |indent|
  {
    if indent != "" {
      SpacesFirst(indent[1..]);
    }
  }

  /** A key that needs no escaping, as the writers' literal keys do not. */
  predicate PlainKey(key: string) {
    forall i | 0 <= i < |key| :: 'a' <= key[i] <= 'z' || 'A' <= key[i] <= 'Z'
  }

  /** A literal key between its quotation marks. */
  function Key(key: string): string {
    QUOTE + key + QUOTE
  }

  lemma PlainKeyQuotes(key: string)
    requires PlainKey(key)
    ensures Quote(key) == Key(key) && Unbroken(Key(key))
  {
    PlainKeyEscapes(key);
  }

  lemma {:induction false} PlainKeyEscapes(key: string)
    requires PlainKey(key)
    ensures Escape(key) == key
  {
    if key != "" {
      PlainKeyEscapes(key[1..]);
      assert [key[0]] + key[1..] == key;
    }
  }

  /** `<indent>"key": "value"` */
  function FieldLine(indent: string, key: string, value: string): string {
    indent + (Key(key) + ": " + Quote(value))
  }

  type Fields = seq<(string, string)>

  ghost predicate PlainKeys(fields: Fields) {
    forall i | 0 <= i < |fields| :: PlainKey(fields[i].0)
  }

  /** One field a line, with a comma after every one but the last. */
  function FieldLines(indent: string, fields: Fields): seq<string> {
    if fields == [] then []
    else if |fields| == 1 then [FieldLine(indent, fields[0].0, fields[0].1)]
    else [FieldLine(indent, fields[0].0, fields[0].1) + ","] + FieldLines(indent, fields[1..])
  }

  function FieldMembers(indent: string, fields: Fields, close: string): seq<Member> {
    if fields == [] then []
    else if |fields| == 1 then [Member("\n" + indent, fields[0].0, " ", TextLayout(fields[0].1), close)]
    else
      [Member("\n" + indent, fields[0].0, " ", TextLayout(fields[0].1), "")] + FieldMembers(indent, fields[1..], close)
  }

  lemma MemberIsFieldLine(indent: string, key: string, value: string, close: string)
    requires PlainKey(key)
    ensures PrintMember(Member("\n" + indent, key, " ", TextLayout(value), close)) ==
            "\n" + FieldLine(indent, key, value) + close
  {
    PlainKeyQuotes(key);
    var q := Quote(value);
    ColonSpace(Key(key), q);
    FieldRegroups("\n", indent, Key(key), ":", " ", q, close);
  }

  lemma ColonSpace(key: string, value: string)
    ensures key + ":" + " " + value == key + ": " + value
  {
  }

  lemma FieldRegroups(a: string, b: string, c: string, d: string, e: string, f: string, g: string)
    ensures a + b + c + d + e + f + g == a + (b + (c + d + e + f)) + g
  {
  }

  /** The members of an object of fields print as its lines. */
  lemma {:induction false} FieldsPrint(indent: string, fields: Fields, close: string)
    requires fields != [] && PlainKeys(fields)
    ensures PrintMembers(FieldMembers(indent, fields, close)) == "\n" + JoinLines(FieldLines(indent, fields)) + close
  {
    var key, value := fields[0].0, fields[0].1;
    if |fields| == 1 {
      MemberIsFieldLine(indent, key, value, close);
    } else {
      var ms := FieldMembers(indent, fields, close);
      var more := JoinLines(FieldLines(indent, fields[1..]));
      MemberIsFieldLine(indent, key, value, "");
      FieldsPrint(indent, fields[1..], close);
      assert ms[1..] == FieldMembers(indent, fields[1..], close);
      assert FieldLines(indent, fields)[1..] == FieldLines(indent, fields[1..]);
      var line := FieldLine(indent, key, value);
      assert PrintMembers(ms) == ("\n" + line + "") + "," + ("\n" + more + close);
      NextField(line, more, close);
    }
  }

  lemma NextField(line: string, more: string, close: string)
    ensures ("\n" + line + "") + "," + ("\n" + more + close) == "\n" + (line + "," + "\n" + more) + close
  {
  }

  lemma {:induction false} FieldsSpaced(indent: string, fields: Fields, close: string)
    requires AllSpaces(indent) && Blank(close)
    ensures AllMembersSpaced(FieldMembers(indent, fields, close))
  {
    assert Blank("\n" + indent) && Blank(" ") && Blank("");
    if |fields| > 1 {
      FieldsSpaced(indent, fields[1..], close);
      assert FieldMembers(indent, fields, close)[1..] == FieldMembers(indent, fields[1..], close);
    } else if |fields| == 1 {
      assert FieldMembers(indent, fields, close)[1..] == [] && AllMembersSpaced([]);
    }
  }

  function FieldPairs(fields: Fields): (pairs: seq<(string, Json)>)
    ensures |pairs| == |fields| && forall i | 0 <= i < |fields| :: pairs[i] == (fields[i].0, Text(fields[i].1))
  {
    seq(|fields|, i requires 0 <= i < |fields| => (fields[i].0, Text(fields[i].1)))
  }

  lemma {:induction false} FieldsHold(indent: string, fields: Fields, close: string)
    ensures Pairs(FieldMembers(indent, fields, close)) == FieldPairs(fields)
  {
    if fields != [] {
      FieldsHold(indent, fields[1..], close);
      var ms := FieldMembers(indent, fields, close);
      assert ms[1..] == FieldMembers(indent, fields[1..], close);
      assert FieldPairs(fields) == [(fields[0].0, Text(fields[0].1))] + FieldPairs(fields[1..]);
    }
  }

  lemma {:induction false} FieldLinesPlain(indent: string, fields: Fields)
    requires AllSpaces(indent) && PlainKeys(fields)
    ensures AllPlain(FieldLines(indent, fields))
  {
    if fields != [] {
      FieldLinePlain(indent, fields[0].0, fields[0].1);
      FieldLinesPlain(indent, fields[1..]);
      PlainWithComma(FieldLine(indent, fields[0].0, fields[0].1));
    }
  }

  lemma FieldLinePlain(indent: string, key: string, value: string)
    requires AllSpaces(indent) && PlainKey(key)
    ensures Plain(FieldLine(indent, key, value))
  {
    PlainKeyQuotes(key);
    QuoteUnbroken(value);
    UnbrokenConcat(Key(key) + ": ", Quote(value));
    IndentedIsPlain(indent, Key(key) + ": " + Quote(value));
  }

  lemma TopLineUnbroken(key: string, value: string)
    requires PlainKey(key)
    ensures Unbroken(FieldLine("  ", key, value) + ",")
  {
    FieldLinePlain("  ", key, value);
    UnbrokenConcat(FieldLine("  ", key, value), ",");
  }

  // -- Objects of a few members ----------------------------------------------------------

  lemma ThreePrint(a: Member, b: Member, c: Member)
    ensures Print(ObjectLayout([a, b, c])) ==
            "{" + (PrintMember(a) + "," + (PrintMember(b) + "," + PrintMember(c))) + "}"
  {
    assert [a, b, c][1..] == [b, c] && [b, c][1..] == [c];
    assert PrintMembers([b, c]) == PrintMember(b) + "," + PrintMembers([c]);
  }

  lemma ThreeHold(a: Member, b: Member, c: Member)
    requires Blank(a.before) && Blank(a.space) && Blank(a.after) && WellSpaced(a.layout)
    requires Blank(b.before) && Blank(b.space) && Blank(b.after) && WellSpaced(b.layout)
    requires Blank(c.before) && Blank(c.space) && Blank(c.after) && WellSpaced(c.layout)
    ensures WellSpaced(ObjectLayout([a, b, c]))
    ensures Value(ObjectLayout([a, b, c])) ==
            Object([(a.key, Value(a.layout)), (b.key, Value(b.layout)), (c.key, Value(c.layout))])
  {
    assert [a, b, c][1..] == [b, c] && [b, c][1..] == [c] && [c][1..] == [];
    assert AllMembersSpaced([]);
    assert AllMembersSpaced([c]);
    assert AllMembersSpaced([b, c]);
    assert Pairs([c]) == [(c.key, Value(c.layout))];
    assert Pairs([b, c]) == [(b.key, Value(b.layout))] + Pairs([c]);
    assert Pairs([a, b, c]) == [(a.key, Value(a.layout))] + Pairs([b, c]);
  }

  lemma PlainMember(before: string, key: string, l: Layout, after: string)
    ensures PrintMember(Member(before, key, " ", l, after)) == before + Quote(key) + ":" + " " + Print(l) + after
  {
  }
}
