/** The resolver matrix (network/src/test/kotlin/okhttp/testbed/network/DohMatrixReport.kt): a
    nested, insertion-ordered map, rewritten to disk after every row. */
module DohMatrix {
  import opened Wrappers
  import opened LinkedMap
  import opened Json
  import opened Margin
  import opened ReportFrame
  import opened Reports

  datatype Outcome = Resolved | Sinkholed | Unresolved | Errored | Unavailable {
    function Id(): string {
      match this
      case Resolved => "resolved"
      case Sinkholed => "sinkholed"
      case Unresolved => "unresolved"
      case Errored => "errored"
      case Unavailable => "unavailable"
    }
  }

  /** The outcome a name stands for on the page. */
  function OutcomeOf(id: string): Option<Outcome> {
    if id == "resolved" then Some(Resolved)
    else if id == "sinkholed" then Some(Sinkholed)
    else if id == "unresolved" then Some(Unresolved)
    else if id == "errored" then Some(Errored)
    else if id == "unavailable" then Some(Unavailable)
    else None
  }

  /** Every outcome is written as its own name. */
  lemma OutcomesRead(outcome: Outcome)
    ensures OutcomeOf(outcome.Id()) == Some(outcome)
  {
  }

  datatype Answer = Answer(outcome: Outcome, addresses: seq<string>, detail: string)

  type Answers = Entries<string, Answer>

  type Rows = Entries<string, Answers>

  // -- The report text -------------------------------------------------------------------

  function QuoteAll(ss: seq<string>): (quoted: seq<string>)
    ensures |quoted| == |ss| && forall i | 0 <= i < |ss| :: quoted[i] == Quote(ss[i])
  {
    seq(|ss|, i requires 0 <= i < |ss| => Quote(ss[i]))
  }

  function AnswerText(a: Answer): string {
    "{" + (Key("outcome") + ": " + Quote(a.outcome.Id()) + ", ")
    + (Key("addresses") + ": [" + JoinWith(QuoteAll(a.addresses), ", ") + "], ")
    + (Key("detail") + ": " + Quote(a.detail) + "}")
  }

  function ResolverLine(resolver: string, a: Answer): string {
    "      " + (Quote(resolver) + ": " + AnswerText(a))
  }

  function ResolverLines(answers: Answers): (lines: seq<string>)
    ensures |lines| == |answers|
    ensures forall i | 0 <= i < |answers| :: lines[i] == ResolverLine(answers[i].0, answers[i].1)
  {
    seq(|answers|, i requires 0 <= i < |answers| => ResolverLine(answers[i].0, answers[i].1))
  }

  function HostText(hostname: string, answers: Answers): string {
    "    " + (Quote(hostname) + ": {") + "\n" + JoinWith(ResolverLines(answers), ",\n") + "\n" + "    }"
  }

  function HostTexts(rows: Rows): (texts: seq<string>)
    ensures |texts| == |rows| && forall i | 0 <= i < |rows| :: texts[i] == HostText(rows[i].0, rows[i].1)
  {
    seq(|rows|, i requires 0 <= i < |rows| => HostText(rows[i].0, rows[i].1))
  }

  function FrameOf(task: string, recordedAt: string): Frame {
    Frame(task, "recordedAt", recordedAt, "names", "{", "}")
  }

  function ReportText(task: string, recordedAt: string, rows: Rows): string {
    FrameOf(task, recordedAt).Text(JoinWith(HostTexts(rows), ",\n"))
  }

  // -- The matrix ------------------------------------------------------------------------

  function AnswersFor(rows: Rows, hostname: string): Answers {
    var found := Find(rows, hostname);
    if found.Some? then found.value else []
  }

  function Recorded(rows: Rows, hostname: string, resolver: string, answer: Answer): Rows {
    Put(rows, hostname, Put(AnswersFor(rows, hostname), resolver, answer))
  }

  function Lookup(rows: Rows, hostname: string, resolver: string): Option<Answer> {
    Find(AnswersFor(rows, hostname), resolver)
  }

  ghost predicate Filled(rows: Rows) {
    && DistinctKeys(rows)
    && (forall i | 0 <= i < |rows| :: rows[i].1 != [] && DistinctKeys(rows[i].1))
  }

  class Matrix {
    const reporting: bool
    const task: string
    var rows: Rows
    var report: Option<string>

    ghost predicate Valid()
      reads this
    {
      Filled(rows)
    }

    constructor (reporting: bool, task: string)
      ensures Valid() && rows == [] && report == None
      ensures this.reporting == reporting && this.task == task
    {
      this.reporting := reporting;
      this.task := task;
      rows := [];
      report := None;
    }

    method Record(hostname: string, resolver: string, answer: Answer, now: string)
      requires Valid()
      modifies this
      ensures Valid()
      ensures State(rows, report) ==
              Stepped(State(old(rows), old(report)), Call(hostname, resolver, answer, now), reporting, task)
    {
      RecordKeeps(rows, hostname, resolver, answer);
      var answers := AnswersFor(rows, hostname);
      answers := Put(answers, resolver, answer);
      rows := Put(rows, hostname, answers);
      if reporting {
        report := Some(ReportText(task, now, rows));
      }
    }
  }

  lemma AnswersDistinct(rows: Rows, hostname: string)
    requires Filled(rows)
    ensures DistinctKeys(AnswersFor(rows, hostname))
  {
    FindIsMember(rows, hostname);
    if Find(rows, hostname).Some? {
      var i :| 0 <= i < |rows| && Keys(rows)[i] == hostname;
      FindFinds(rows, i);
    }
  }

  /** Recording changes one cell and no other, and adds new names and resolvers at the end. */
  lemma RecordKeeps(rows: Rows, hostname: string, resolver: string, answer: Answer)
    requires Filled(rows)
    ensures Filled(Recorded(rows, hostname, resolver, answer))
    ensures forall h, r :: Lookup(Recorded(rows, hostname, resolver, answer), h, r) ==
                           if h == hostname && r == resolver then Some(answer) else Lookup(rows, h, r)
    ensures Keys(Recorded(rows, hostname, resolver, answer)) ==
            if Find(rows, hostname).Some? then Keys(rows) else Keys(rows) + [hostname]
    ensures forall h :: Keys(AnswersFor(Recorded(rows, hostname, resolver, answer), h)) ==
                        if h != hostname || Lookup(rows, h, resolver).Some? then Keys(AnswersFor(rows, h))
                        else Keys(AnswersFor(rows, h)) + [resolver]
  {
    var answers := AnswersFor(rows, hostname);
    var after := Recorded(rows, hostname, resolver, answer);
    AnswersDistinct(rows, hostname);
    PutUpdates(answers, resolver, answer);
    PutUpdates(rows, hostname, Put(answers, resolver, answer));
    assert Find(Put(answers, resolver, answer), resolver) == Some(answer);
    forall i | 0 <= i < |after| ensures after[i].1 != [] && DistinctKeys(after[i].1) {
      PutKeepsRows(rows, hostname, Put(answers, resolver, answer), i);
    }
  }

  lemma PutKeepsRows(rows: Rows, hostname: string, answers: Answers, i: nat)
    requires Filled(rows) && answers != [] && DistinctKeys(answers)
    requires DistinctKeys(Put(rows, hostname, answers)) && i < |Put(rows, hostname, answers)|
    ensures Put(rows, hostname, answers)[i].1 != [] && DistinctKeys(Put(rows, hostname, answers)[i].1)
  {
    var after := Put(rows, hostname, answers);
    PutUpdates(rows, hostname, answers);
    FindFinds(after, i);
    if after[i].0 != hostname {
      FindIsMember(rows, after[i].0);
      var j :| 0 <= j < |rows| && Keys(rows)[j] == after[i].0;
      FindFinds(rows, j);
    }
  }

  // -- The report reads back -------------------------------------------------------------

  function AnswerValue(a: Answer): Json {
    Object([
      ("outcome", Text(a.outcome.Id())),
      ("addresses", Array(TextValues(a.addresses))),
      ("detail", Text(a.detail))])
  }

  function TextValues(ss: seq<string>): (values: seq<Json>)
    ensures |values| == |ss| && forall i | 0 <= i < |ss| :: values[i] == Text(ss[i])
  {
    seq(|ss|, i requires 0 <= i < |ss| => Text(ss[i]))
  }

  function AnswersValue(answers: Answers): (pairs: seq<(string, Json)>)
    ensures |pairs| == |answers|
    ensures forall i | 0 <= i < |answers| :: pairs[i] == (answers[i].0, AnswerValue(answers[i].1))
  {
    seq(|answers|, i requires 0 <= i < |answers| => (answers[i].0, AnswerValue(answers[i].1)))
  }

  function RowsValue(rows: Rows): (pairs: seq<(string, Json)>)
    ensures |pairs| == |rows|
    ensures forall i | 0 <= i < |rows| :: pairs[i] == (rows[i].0, Object(AnswersValue(rows[i].1)))
  {
    seq(|rows|, i requires 0 <= i < |rows| => (rows[i].0, Object(AnswersValue(rows[i].1))))
  }

  function ReportValue(task: string, recordedAt: string, rows: Rows): Json {
    Object([("task", Text(task)), ("recordedAt", Text(recordedAt)), ("names", Object(RowsValue(rows)))])
  }

  function AddressElements(ss: seq<string>, before: string): seq<Element> {
    if ss == [] then [] else [Element(before, TextLayout(ss[0]), "")] + AddressElements(ss[1..], " ")
  }

  function AnswerLayout(a: Answer): Layout {
    ObjectLayout([
      Member("", "outcome", " ", TextLayout(a.outcome.Id()), ""),
      Member(" ", "addresses", " ", ArrayLayout(AddressElements(a.addresses, "")), ""),
      Member(" ", "detail", " ", TextLayout(a.detail), "")])
  }

  function ResolverMembers(answers: Answers): seq<Member> {
    if answers == [] then []
    else
      [Member("\n" + "      ", answers[0].0, " ", AnswerLayout(answers[0].1), if |answers| == 1 then "\n    " else "")]
      + ResolverMembers(answers[1..])
  }

  function HostMembers(rows: Rows): seq<Member> {
    if rows == [] then []
    else
      [Member("\n" + "    ", rows[0].0, " ", ObjectLayout(ResolverMembers(rows[0].1)),
              if |rows| == 1 then "\n  " else "")]
      + HostMembers(rows[1..])
  }

  // -- Addresses and answers -------------------------------------------------------------

  lemma {:induction false} AddressesPrint(ss: seq<string>, before: string)
    ensures PrintElements(AddressElements(ss, before)) == if ss == [] then "" else before + JoinWith(QuoteAll(ss), ", ")
  {
    if ss != [] {
      var es := AddressElements(ss, before);
      AddressesPrint(ss[1..], " ");
      assert es[1..] == AddressElements(ss[1..], " ");
      assert QuoteAll(ss)[1..] == QuoteAll(ss[1..]);
      var q := Quote(ss[0]);
      if |ss| == 1 {
        assert |es| == 1 && PrintElement(es[0]) == before + q + "";
        assert QuoteAll(ss)[0] == q;
      } else {
        assert |es| > 1 && PrintElement(es[0]) == before + q + "";
        NextAddress(before, q, JoinWith(QuoteAll(ss[1..]), ", "));
      }
    }
  }

  lemma NextAddress(before: string, q: string, more: string)
    ensures (before + q + "") + "," + (" " + more) == before + (q + ", " + more)
  {
  }

  lemma {:induction false} AddressesHold(ss: seq<string>, before: string)
    requires Blank(before)
    ensures AllElementsSpaced(AddressElements(ss, before))
    ensures Values(AddressElements(ss, before)) == TextValues(ss)
  {
    if ss != [] {
      AddressesHold(ss[1..], " ");
      assert AddressElements(ss, before)[1..] == AddressElements(ss[1..], " ");
      assert TextValues(ss) == [Text(ss[0])] + TextValues(ss[1..]);
    }
  }

  lemma OutcomeKey()
    ensures Quote("outcome") == Key("outcome") && Unbroken(Key("outcome"))
  {
    PlainKeyQuotes("outcome");
  }

  lemma AddressesKey()
    ensures Quote("addresses") == Key("addresses") && Unbroken(Key("addresses"))
  {
    PlainKeyQuotes("addresses");
  }

  lemma DetailKey()
    ensures Quote("detail") == Key("detail") && Unbroken(Key("detail"))
  {
    PlainKeyQuotes("detail");
  }

  lemma AddressList(ss: seq<string>)
    ensures Print(ArrayLayout(AddressElements(ss, ""))) == "[" + JoinWith(QuoteAll(ss), ", ") + "]"
  {
    AddressesPrint(ss, "");
    var list := JoinWith(QuoteAll(ss), ", ");
    assert "" + list == list;
  }

  lemma AnswerPrints(a: Answer)
    ensures Print(AnswerLayout(a)) == AnswerText(a)
  {
    var outcome := Member("", "outcome", " ", TextLayout(a.outcome.Id()), "");
    var addresses := Member(" ", "addresses", " ", ArrayLayout(AddressElements(a.addresses, "")), "");
    var detail := Member(" ", "detail", " ", TextLayout(a.detail), "");
    OutcomeKey();
    AddressesKey();
    DetailKey();
    AddressList(a.addresses);
    PlainMember("", "outcome", outcome.layout, "");
    PlainMember(" ", "addresses", addresses.layout, "");
    PlainMember(" ", "detail", detail.layout, "");
    ThreePrint(outcome, addresses, detail);
    AnswerParts(Key("outcome"), Quote(a.outcome.Id()), Key("addresses"), JoinWith(QuoteAll(a.addresses), ", "),
                Key("detail"), Quote(a.detail));
  }

  lemma AnswerParts(k1: string, outcome: string, k2: string, list: string, k3: string, detail: string)
    ensures "{" + (("" + k1 + ":" + " " + outcome + "") + "," + ((" " + k2 + ":" + " " + ("[" + list + "]") + "") + ","
              + (" " + k3 + ":" + " " + detail + ""))) + "}"
         == "{" + (k1 + ": " + outcome + ", ") + (k2 + ": [" + list + "], ") + (k3 + ": " + detail + "}")
  {
  }

  lemma AnswerHolds(a: Answer)
    ensures WellSpaced(AnswerLayout(a)) && Value(AnswerLayout(a)) == AnswerValue(a)
  {
    AddressesHold(a.addresses, "");
    ThreeHold(
      Member("", "outcome", " ", TextLayout(a.outcome.Id()), ""),
      Member(" ", "addresses", " ", ArrayLayout(AddressElements(a.addresses, "")), ""),
      Member(" ", "detail", " ", TextLayout(a.detail), ""));
  }

  // -- Rows ------------------------------------------------------------------------------

  lemma ResolverPrints(resolver: string, a: Answer, after: string)
    ensures PrintMember(Member("\n" + "      ", resolver, " ", AnswerLayout(a), after)) ==
            "\n" + ResolverLine(resolver, a) + after
  {
    AnswerPrints(a);
    PlainMember("\n" + "      ", resolver, AnswerLayout(a), after);
    ResolverParts("      ", Quote(resolver), AnswerText(a), after);
  }

  lemma ResolverParts(indent: string, key: string, value: string, after: string)
    ensures ("\n" + indent) + key + ":" + " " + value + after == "\n" + (indent + (key + ": " + value)) + after
  {
  }

  lemma {:induction false} ResolversPrint(answers: Answers)
    requires answers != []
    ensures PrintMembers(ResolverMembers(answers)) == "\n" + JoinWith(ResolverLines(answers), ",\n") + "\n    "
  {
    var ms := ResolverMembers(answers);
    var line := ResolverLine(answers[0].0, answers[0].1);
    assert ms[1..] == ResolverMembers(answers[1..]);
    if |answers| == 1 {
      ResolverPrints(answers[0].0, answers[0].1, "\n    ");
    } else {
      ResolverPrints(answers[0].0, answers[0].1, "");
      ResolversPrint(answers[1..]);
      assert ResolverLines(answers)[1..] == ResolverLines(answers[1..]);
      assert |ms| > 1 && PrintMember(ms[0]) == "\n" + line + "";
      NextLine(line, JoinWith(ResolverLines(answers[1..]), ",\n"), "\n    ");
    }
  }

  lemma NextLine(line: string, more: string, close: string)
    ensures ("\n" + line + "") + "," + ("\n" + more + close) == "\n" + (line + ",\n" + more) + close
  {
  }

  lemma HostPrints(hostname: string, answers: Answers, after: string)
    requires answers != []
    ensures PrintMember(Member("\n" + "    ", hostname, " ", ObjectLayout(ResolverMembers(answers)), after)) ==
            "\n" + HostText(hostname, answers) + after
  {
    ResolversPrint(answers);
    PlainMember("\n" + "    ", hostname, ObjectLayout(ResolverMembers(answers)), after);
    HostParts(Quote(hostname), JoinWith(ResolverLines(answers), ",\n"), after);
  }

  lemma HostParts(key: string, lines: string, after: string)
    ensures ("\n" + "    ") + key + ":" + " " + ("{" + ("\n" + lines + "\n    ") + "}") + after ==
            "\n" + ("    " + (key + ": {") + "\n" + lines + "\n" + "    }") + after
  {
  }

  lemma {:induction false} HostsPrint(rows: Rows)
    requires rows != [] && Filled(rows)
    ensures PrintMembers(HostMembers(rows)) == "\n" + JoinWith(HostTexts(rows), ",\n") + "\n  "
  {
    var ms := HostMembers(rows);
    var text := HostText(rows[0].0, rows[0].1);
    assert ms[1..] == HostMembers(rows[1..]);
    if |rows| == 1 {
      HostPrints(rows[0].0, rows[0].1, "\n  ");
    } else {
      HostPrints(rows[0].0, rows[0].1, "");
      HostsPrint(rows[1..]);
      assert HostTexts(rows)[1..] == HostTexts(rows[1..]);
      assert |ms| > 1 && PrintMember(ms[0]) == "\n" + text + "";
      NextLine(text, JoinWith(HostTexts(rows[1..]), ",\n"), "\n  ");
    }
  }

  lemma {:induction false} ResolversHold(answers: Answers)
    ensures AllMembersSpaced(ResolverMembers(answers))
    ensures Pairs(ResolverMembers(answers)) == AnswersValue(answers)
  {
    if answers != [] {
      AnswerHolds(answers[0].1);
      ResolversHold(answers[1..]);
      MembersCons(ResolverMembers(answers)[0], ResolverMembers(answers[1..]));
      AnswersValueCons(answers);
    }
  }

  lemma AnswersValueCons(answers: Answers)
    requires answers != []
    ensures AnswersValue(answers) == [(answers[0].0, AnswerValue(answers[0].1))] + AnswersValue(answers[1..])
  {
  }

  lemma {:induction false} HostsHold(rows: Rows)
    ensures AllMembersSpaced(HostMembers(rows))
    ensures Pairs(HostMembers(rows)) == RowsValue(rows)
  {
    if rows != [] {
      ResolversHold(rows[0].1);
      HostsHold(rows[1..]);
      MembersCons(HostMembers(rows)[0], HostMembers(rows[1..]));
      RowsValueCons(rows);
    }
  }

  lemma RowsValueCons(rows: Rows)
    requires rows != []
    ensures RowsValue(rows) == [(rows[0].0, Object(AnswersValue(rows[0].1)))] + RowsValue(rows[1..])
  {
  }

  // -- Trimming --------------------------------------------------------------------------

  /** The lines of one name: its key, one line a resolver, and the closing brace. */
  function HostLines(hostname: string, answers: Answers): seq<string>
    requires answers != []
  {
    ["    " + (Quote(hostname) + ": {")] + BlockLines(Singles(ResolverLines(answers))) + ["    }"]
  }

  function Singles(lines: seq<string>): (blocks: seq<seq<string>>)
    ensures |blocks| == |lines| && forall i | 0 <= i < |lines| :: blocks[i] == [lines[i]]
  {
    seq(|lines|, i requires 0 <= i < |lines| => [lines[i]])
  }

  lemma SinglesJoin(lines: seq<string>)
    requires lines != []
    ensures BlockLines(Singles(lines)) != []
    ensures JoinLines(BlockLines(Singles(lines))) == JoinWith(lines, ",\n")
  {
    JoinedBlocks(Singles(lines));
    assert JoinAll(Singles(lines)) == lines;
  }

  lemma HostLinesJoin(hostname: string, answers: Answers)
    requires answers != []
    ensures JoinLines(HostLines(hostname, answers)) == HostText(hostname, answers)
  {
    var inner := BlockLines(Singles(ResolverLines(answers)));
    SinglesJoin(ResolverLines(answers));
    var head := "    " + (Quote(hostname) + ": {");
    JoinedConcat([head] + inner, ["    }"]);
    JoinedConcat([head], inner);
  }

  lemma TextUnbroken(a: Answer)
    ensures Unbroken(AnswerText(a))
  {
    OutcomeKey();
    AddressesKey();
    DetailKey();
    QuoteUnbroken(a.outcome.Id());
    QuoteUnbroken(a.detail);
    ListUnbroken(a.addresses);
    PartsUnbroken(Key("outcome"), Quote(a.outcome.Id()), Key("addresses"), JoinWith(QuoteAll(a.addresses), ", "),
                  Key("detail"), Quote(a.detail));
  }

  lemma PartsUnbroken(k1: string, outcome: string, k2: string, list: string, k3: string, detail: string)
    requires Unbroken(k1) && Unbroken(outcome) && Unbroken(k2) && Unbroken(list) && Unbroken(k3) && Unbroken(detail)
    ensures Unbroken("{" + (k1 + ": " + outcome + ", ") + (k2 + ": [" + list + "], ") + (k3 + ": " + detail + "}"))
  {
    assert Unbroken(k1 + ": " + outcome + ", ");
    assert Unbroken(k2 + ": [" + list + "], ");
    assert Unbroken(k3 + ": " + detail + "}");
  }

  lemma {:induction false} ListUnbroken(ss: seq<string>)
    ensures Unbroken(JoinWith(QuoteAll(ss), ", "))
  {
    if ss != [] {
      QuoteUnbroken(ss[0]);
      assert QuoteAll(ss)[1..] == QuoteAll(ss[1..]);
      ListUnbroken(ss[1..]);
    }
  }

  lemma ResolverLinePlain(resolver: string, a: Answer)
    ensures Plain(ResolverLine(resolver, a))
  {
    QuoteUnbroken(resolver);
    TextUnbroken(a);
    UnbrokenConcat(Quote(resolver) + ": ", AnswerText(a));
    IndentedIsPlain("      ", Quote(resolver) + ": " + AnswerText(a));
  }

  lemma HostLinesPlain(hostname: string, answers: Answers)
    requires answers != []
    ensures AllPlain(HostLines(hostname, answers))
  {
    HeadPlain(hostname);
    ClosingPlain();
    ResolverBlocksPlain(answers);
  }

  lemma HeadPlain(hostname: string)
    ensures Plain("    " + (Quote(hostname) + ": {"))
  {
    QuoteUnbroken(hostname);
    UnbrokenConcat(Quote(hostname), ": {");
    IndentedIsPlain("    ", Quote(hostname) + ": {");
  }

  lemma ClosingPlain()
    ensures Plain("    }")
  {
    IndentedIsPlain("    ", "}");
    assert "    " + "}" == "    }";
  }

  lemma ResolverBlocksPlain(answers: Answers)
    ensures AllPlain(BlockLines(Singles(ResolverLines(answers))))
  {
    var blocks := Singles(ResolverLines(answers));
    forall i | 0 <= i < |blocks| ensures AllPlain(blocks[i]) {
      ResolverLinePlain(answers[i].0, answers[i].1);
    }
    PlainBlocks(blocks);
  }

  function Blocks(rows: Rows): (blocks: seq<seq<string>>)
    requires Filled(rows)
    ensures |blocks| == |rows| && NonEmptyBlocks(blocks)
    ensures forall i | 0 <= i < |rows| :: blocks[i] == HostLines(rows[i].0, rows[i].1)
  {
    seq(|rows|, i requires 0 <= i < |rows| => HostLines(rows[i].0, rows[i].1))
  }

  /** The lines of all the names. */
  lemma LinesOfRows(rows: Rows)
    requires rows != [] && Filled(rows)
    ensures BlockLines(Blocks(rows)) != [] && AllPlain(BlockLines(Blocks(rows)))
    ensures JoinLines(BlockLines(Blocks(rows))) == JoinWith(HostTexts(rows), ",\n")
  {
    var blocks := Blocks(rows);
    forall i | 0 <= i < |rows| ensures AllPlain(blocks[i]) && HostTexts(rows)[i] == JoinLines(blocks[i]) {
      HostLinesPlain(rows[i].0, rows[i].1);
      HostLinesJoin(rows[i].0, rows[i].1);
    }
    assert HostTexts(rows) == JoinAll(blocks);
    JoinedBlocks(blocks);
    PlainBlocks(blocks);
  }

  lemma FrameIsValid(task: string, recordedAt: string)
    ensures FrameOf(task, recordedAt).Valid()
  {
  }

  /** The written report reads back as exactly the task name, the time and every recorded answer, name
      by name and resolver by resolver in the order they were first recorded. */
  lemma ReportReadsBack(task: string, recordedAt: string, rows: Rows)
    requires rows != [] && Filled(rows)
    ensures Read(ReportText(task, recordedAt, rows)) == Some(ReportValue(task, recordedAt, rows))
  {
    FrameIsValid(task, recordedAt);
    LinesOfRows(rows);
    RowsPrint(rows);
    FrameReads(FrameOf(task, recordedAt), BlockLines(Blocks(rows)), JoinWith(HostTexts(rows), ",\n"),
               ObjectLayout(HostMembers(rows)), Object(RowsValue(rows)));
  }

  lemma RowsPrint(rows: Rows)
    requires rows != [] && Filled(rows)
    ensures Print(ObjectLayout(HostMembers(rows))) == "{" + ("\n" + JoinWith(HostTexts(rows), ",\n") + "\n  ") + "}"
    ensures WellSpaced(ObjectLayout(HostMembers(rows)))
    ensures Value(ObjectLayout(HostMembers(rows))) == Object(RowsValue(rows))
  {
    HostsPrint(rows);
    HostsHold(rows);
  }

  // -- Any sequence of records -----------------------------------------------------------

  datatype Call = Call(hostname: string, resolver: string, answer: Answer, now: string)

  function RowsAfter(calls: seq<Call>): Rows {
    if calls == [] then []
    else
      var last := calls[|calls| - 1];
      Recorded(RowsAfter(calls[..|calls| - 1]), last.hostname, last.resolver, last.answer)
  }

  /** The answer of the last call about a name and a resolver. */
  function LatestAnswer(calls: seq<Call>, hostname: string, resolver: string): Option<Answer> {
    if calls == [] then None
    else
      var last := calls[|calls| - 1];
      if last.hostname == hostname && last.resolver == resolver then Some(last.answer)
      else LatestAnswer(calls[..|calls| - 1], hostname, resolver)
  }

  /** The names in the order in which they were first recorded. */
  function FirstRecorded(calls: seq<Call>): seq<string> {
    if calls == [] then []
    else
      var earlier, hostname := FirstRecorded(calls[..|calls| - 1]), calls[|calls| - 1].hostname;
      if hostname in earlier then earlier else earlier + [hostname]
  }

  /** The resolvers of a name in the order in which they were first recorded for it. */
  function ResolversOf(calls: seq<Call>, hostname: string): seq<string> {
    if calls == [] then []
    else
      var earlier, last := ResolversOf(calls[..|calls| - 1], hostname), calls[|calls| - 1];
      if last.hostname != hostname || last.resolver in earlier then earlier else earlier + [last.resolver]
  }

  /** After any calls the matrix holds the latest answer of every name and resolver, its names and
      every name's resolvers in first-recorded order. */
  lemma {:induction false} MatrixHoldsLatest(calls: seq<Call>)
    ensures Filled(RowsAfter(calls)) && Keys(RowsAfter(calls)) == FirstRecorded(calls)
    ensures forall h :: Keys(AnswersFor(RowsAfter(calls), h)) == ResolversOf(calls, h)
    ensures forall h, r :: Lookup(RowsAfter(calls), h, r) == LatestAnswer(calls, h, r)
  {
    if calls != [] {
      var front, last := calls[..|calls| - 1], calls[|calls| - 1];
      MatrixHoldsLatest(front);
      RecordKeeps(RowsAfter(front), last.hostname, last.resolver, last.answer);
      FindIsMember(RowsAfter(front), last.hostname);
      FindIsMember(AnswersFor(RowsAfter(front), last.hostname), last.resolver);
    }
  }

  // -- What is on disk -------------------------------------------------------------------

  datatype State = State(rows: Rows, report: Option<string>)

  /** What one call makes of the object's fields. */
  function Stepped(s: State, call: Call, reporting: bool, task: string): State {
    var rows := Recorded(s.rows, call.hostname, call.resolver, call.answer);
    State(rows, if reporting then Some(ReportText(task, call.now, rows)) else s.report)
  }

  function After(calls: seq<Call>, reporting: bool, task: string): State {
    if calls == [] then State([], None)
    else Stepped(After(calls[..|calls| - 1], reporting, task), calls[|calls| - 1], reporting, task)
  }

  lemma {:induction false} AfterHoldsRows(calls: seq<Call>, reporting: bool, task: string)
    ensures After(calls, reporting, task).rows == RowsAfter(calls)
  {
    if calls != [] {
      AfterHoldsRows(calls[..|calls| - 1], reporting, task);
    }
  }

  /** After any calls, with a report path set, the file on disk reads back as the whole matrix and
      the time of the last call; without one there is no file. */
  lemma FileReadsBack(calls: seq<Call>, reporting: bool, task: string)
    requires calls != []
    ensures var s := After(calls, reporting, task);
            if reporting then
              && s.report.Some?
              && Read(s.report.value) == Some(ReportValue(task, calls[|calls| - 1].now, RowsAfter(calls)))
            else s.report.None?
  {
    AfterHoldsRows(calls, reporting, task);
    if reporting {
      MatrixHoldsLatest(calls);
      NothingUnrecorded(calls);
      ReportReadsBack(task, calls[|calls| - 1].now, RowsAfter(calls));
    } else {
      NoReport(calls, task);
    }
  }

  lemma NothingUnrecorded(calls: seq<Call>)
    requires calls != []
    ensures RowsAfter(calls) != []
  {
  }

  lemma {:induction false} NoReport(calls: seq<Call>, task: string)
    ensures After(calls, false, task).report.None?
  {
    if calls != [] {
      NoReport(calls[..|calls| - 1], task);
    }
  }
}
