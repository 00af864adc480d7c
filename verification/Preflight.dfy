/** The endpoint preflight (network/src/test/kotlin/okhttp/testbed/network/Preflight.kt): probe
    once, remember the answer, and rewrite the report after every new one. */
module Preflight {
  import opened Wrappers
  import opened LinkedMap
  import opened Json
  import opened Margin
  import opened ReportFrame
  import opened Reports

  datatype Endpoint = Endpoint(id: string, server: string, operator: string, target: string)

  datatype Verdict = Verdict(up: bool, detail: string)

  type Results = Entries<Endpoint, Verdict>

  // -- The report text -------------------------------------------------------------------

  function EntryFields(e: Endpoint, v: Verdict): Fields {
    [("id", e.id), ("server", e.server), ("operator", e.operator), ("target", e.target),
     ("state", if v.up then "up" else "down"), ("detail", v.detail)]
  }

  const ENTRY_INDENT := "      "

  function EntryLines(e: Endpoint, v: Verdict): seq<string> {
    ["    {"] + FieldLines(ENTRY_INDENT, EntryFields(e, v)) + ["    }"]
  }

  function FrameOf(task: string, probedAt: string): Frame {
    Frame(task, "probedAt", probedAt, "endpoints", "[", "]")
  }

  /** Every entry's template is trimmed, the entries are joined, and the text they make is
      interpolated into a template that is trimmed again. */
  function ReportText(task: string, probedAt: string, results: Results): string {
    FrameOf(task, probedAt).Text(JoinWith(EntryTexts(results), ",\n"))
  }

  function EntryTexts(results: Results): (entries: seq<string>)
    ensures |entries| == |results|
    ensures forall i | 0 <= i < |results| ::
              entries[i] == TrimMargin(Template(EntryLines(results[i].0, results[i].1)))
  {
    seq(|results|, i requires 0 <= i < |results| => TrimMargin(Template(EntryLines(results[i].0, results[i].1))))
  }

  // -- The cache -------------------------------------------------------------------------

  class Cache {
    const reporting: bool
    const task: string
    var results: Results
    var report: Option<string>
    /** Every probe ever run, in order. */
    ghost var probes: seq<Endpoint>

    ghost predicate Valid()
      reads this
    {
      DistinctKeys(results) && probes == Keys(results)
    }

    constructor (reporting: bool, task: string)
      ensures Valid() && results == [] && report == None
      ensures this.reporting == reporting && this.task == task
    {
      this.reporting := reporting;
      this.task := task;
      results := [];
      report := None;
      probes := [];
    }

    /** `answer` is what the probe would say if it ran now, `now` the time it would be written
        down with. */
    method Check(endpoint: Endpoint, answer: Verdict, now: string) returns (verdict: Verdict)
      requires Valid()
      modifies this
      ensures Valid()
      ensures State(results, report) ==
              Checked(State(old(results), old(report)), Call(endpoint, answer, now), reporting, task)
      ensures Find(results, endpoint) == Some(verdict)
      ensures probes == if Find(old(results), endpoint).Some? then old(probes) else old(probes) + [endpoint]
    {
      var known := Find(results, endpoint);
      if known.Some? {
        return known.value;
      }
      verdict := answer;
      probes := probes + [endpoint];
      PutUpdates(results, endpoint, answer);
      results := Put(results, endpoint, answer);
      if reporting {
        report := Some(ReportText(task, now, results));
      }
    }
  }

  // -- Any sequence of calls -------------------------------------------------------------

  datatype Call = Call(endpoint: Endpoint, answer: Verdict, now: string)

  datatype State = State(results: Results, report: Option<string>)

  function Checked(s: State, call: Call, reporting: bool, task: string): State {
    var results := Learned(s.results, call.endpoint, call.answer);
    State(results,
          if Find(s.results, call.endpoint).Some? || !reporting then s.report
          else Some(ReportText(task, call.now, results)))
  }

  /** A first answer is kept, a later one is not asked for. */
  function Learned(results: Results, endpoint: Endpoint, answer: Verdict): Results {
    if Find(results, endpoint).Some? then results else Put(results, endpoint, answer)
  }

  function After(calls: seq<Call>, reporting: bool, task: string): State {
    if calls == [] then State([], None)
    else Checked(After(calls[..|calls| - 1], reporting, task), calls[|calls| - 1], reporting, task)
  }

  /** The endpoints asked about, each once, in the order in which they first were. */
  function FirstAsked(calls: seq<Call>): seq<Endpoint> {
    if calls == [] then []
    else
      var earlier, endpoint := FirstAsked(calls[..|calls| - 1]), calls[|calls| - 1].endpoint;
      if endpoint in earlier then earlier else earlier + [endpoint]
  }

  /** The answer of the first call about an endpoint. */
  function FirstAnswer(calls: seq<Call>, endpoint: Endpoint): Option<Verdict> {
    if calls == [] then None
    else if calls[0].endpoint == endpoint then Some(calls[0].answer)
    else FirstAnswer(calls[1..], endpoint)
  }

  lemma {:induction false} FirstAnswerOfSnoc(calls: seq<Call>, call: Call, endpoint: Endpoint)
    ensures FirstAnswer(calls + [call], endpoint) ==
            if FirstAnswer(calls, endpoint).Some? then FirstAnswer(calls, endpoint)
            else if call.endpoint == endpoint then Some(call.answer) else None
  {
    if calls == [] {
      assert ([] + [call])[1..] == [];
    } else {
      assert (calls + [call])[1..] == calls[1..] + [call];
      FirstAnswerOfSnoc(calls[1..], call, endpoint);
    }
  }

  function ResultsAfter(calls: seq<Call>): Results {
    if calls == [] then []
    else
      var last := calls[|calls| - 1];
      Learned(ResultsAfter(calls[..|calls| - 1]), last.endpoint, last.answer)
  }

  lemma {:induction false} AfterHoldsResults(calls: seq<Call>, reporting: bool, task: string)
    ensures After(calls, reporting, task).results == ResultsAfter(calls)
  {
    if calls != [] {
      AfterHoldsResults(calls[..|calls| - 1], reporting, task);
    }
  }

  lemma LearnedKeys(results: Results, endpoint: Endpoint, answer: Verdict)
    requires DistinctKeys(results)
    ensures DistinctKeys(Learned(results, endpoint, answer))
    ensures Keys(Learned(results, endpoint, answer)) ==
            if endpoint in Keys(results) then Keys(results) else Keys(results) + [endpoint]
  {
    FindIsMember(results, endpoint);
    PutUpdates(results, endpoint, answer);
  }

  lemma LearnedFinds(results: Results, endpoint: Endpoint, answer: Verdict, e: Endpoint)
    ensures Find(Learned(results, endpoint, answer), e) ==
            if Find(results, e).Some? then Find(results, e)
            else if e == endpoint then Some(answer) else None
  {
    PutFinds(results, endpoint, answer, e);
  }

  lemma {:induction false} ResultsHoldFirstAnswer(calls: seq<Call>, e: Endpoint)
    ensures Find(ResultsAfter(calls), e) == FirstAnswer(calls, e)
  {
    if calls != [] {
      var front, last := calls[..|calls| - 1], calls[|calls| - 1];
      ResultsHoldFirstAnswer(front, e);
      LearnedFinds(ResultsAfter(front), last.endpoint, last.answer, e);
      assert calls == front + [last];
      FirstAnswerOfSnoc(front, last, e);
    }
  }

  lemma {:induction false} ResultsKeepOrder(calls: seq<Call>)
    ensures DistinctKeys(ResultsAfter(calls))
    ensures Keys(ResultsAfter(calls)) == FirstAsked(calls)
  {
    if calls != [] {
      var front, last := calls[..|calls| - 1], calls[|calls| - 1];
      ResultsKeepOrder(front);
      LearnedKeys(ResultsAfter(front), last.endpoint, last.answer);
    }
  }

  /** After any calls the results are the first answers in first-asked order: nothing is probed
      twice and no answer ever changes. */
  lemma ResultsAreFirstAnswers(calls: seq<Call>)
    ensures DistinctKeys(ResultsAfter(calls))
    ensures Keys(ResultsAfter(calls)) == FirstAsked(calls)
    ensures forall e :: Find(ResultsAfter(calls), e) == FirstAnswer(calls, e)
  {
    ResultsKeepOrder(calls);
    forall e ensures Find(ResultsAfter(calls), e) == FirstAnswer(calls, e) {
      ResultsHoldFirstAnswer(calls, e);
    }
  }

  // -- The report reads back -------------------------------------------------------------

  function EntryValue(e: Endpoint, v: Verdict): Json {
    Object([
      ("id", Text(e.id)),
      ("server", Text(e.server)),
      ("operator", Text(e.operator)),
      ("target", Text(e.target)),
      ("state", Text(if v.up then "up" else "down")),
      ("detail", Text(v.detail))])
  }

  lemma EntryFieldsSay(e: Endpoint, v: Verdict)
    ensures Object(FieldPairs(EntryFields(e, v))) == EntryValue(e, v)
  {
    assert FieldPairs(EntryFields(e, v)) == EntryValue(e, v).members;
  }

  function EntryValues(results: Results): (values: seq<Json>)
    ensures |values| == |results|
    ensures forall i | 0 <= i < |results| :: values[i] == EntryValue(results[i].0, results[i].1)
  {
    seq(|results|, i requires 0 <= i < |results| => EntryValue(results[i].0, results[i].1))
  }

  /** What the report is meant to say: the task name, the time, and every result in order. */
  function ReportValue(task: string, probedAt: string, results: Results): Json {
    Object([("task", Text(task)), ("probedAt", Text(probedAt)), ("endpoints", Array(EntryValues(results)))])
  }

  function EntryLayout(e: Endpoint, v: Verdict): Layout {
    ObjectLayout(FieldMembers(ENTRY_INDENT, EntryFields(e, v), "\n    "))
  }

  lemma EntryKeysPlain(e: Endpoint, v: Verdict)
    ensures PlainKeys(EntryFields(e, v))
  {
  }

  lemma EntryPrints(e: Endpoint, v: Verdict)
    ensures JoinLines(EntryLines(e, v)) == "    " + Print(EntryLayout(e, v))
  {
    var lines := FieldLines(ENTRY_INDENT, EntryFields(e, v));
    EntryKeysPlain(e, v);
    FieldsPrint(ENTRY_INDENT, EntryFields(e, v), "\n    ");
    assert ["    {"] + lines + ["    }"] == ["    {"] + (lines + ["    }"]);
    JoinedConcat(["    {"], lines + ["    }"]);
    JoinedConcat(lines, ["    }"]);
    Braces(JoinLines(lines));
  }

  lemma Braces(inner: string)
    ensures "    {" + "\n" + (inner + "\n" + "    }") == "    " + ("{" + ("\n" + inner + "\n    ") + "}")
  {
  }

  lemma EntryLinesPlain(e: Endpoint, v: Verdict)
    ensures AllPlain(EntryLines(e, v))
  {
    EntryKeysPlain(e, v);
    FieldLinesPlain(ENTRY_INDENT, EntryFields(e, v));
    BracesPlain();
    EnclosedPlain("    {", FieldLines(ENTRY_INDENT, EntryFields(e, v)), "    }");
  }

  lemma BracesPlain()
    ensures Plain("    {") && Plain("    }")
  {
    IndentedIsPlain("    ", "{");
    IndentedIsPlain("    ", "}");
    assert "    " + "{" == "    {" && "    " + "}" == "    }";
  }

  lemma EnclosedPlain(first: string, lines: seq<string>, last: string)
    requires Plain(first) && AllPlain(lines) && Plain(last)
    ensures AllPlain([first] + lines + [last])
  {
  }

  // -- The whole report ------------------------------------------------------------------

  function Blocks(results: Results): (blocks: seq<seq<string>>)
    ensures |blocks| == |results| && NonEmptyBlocks(blocks)
    ensures forall i | 0 <= i < |results| :: blocks[i] == EntryLines(results[i].0, results[i].1)
  {
    seq(|results|, i requires 0 <= i < |results| => EntryLines(results[i].0, results[i].1))
  }

  /** The lines of all the entries, each trimmed on its own first. */
  lemma LinesOfEntries(results: Results)
    requires results != []
    ensures BlockLines(Blocks(results)) != [] && AllPlain(BlockLines(Blocks(results)))
    ensures JoinLines(BlockLines(Blocks(results))) == JoinWith(EntryTexts(results), ",\n") == EntriesText(results)
  {
    var blocks := Blocks(results);
    forall i | 0 <= i < |results| ensures AllPlain(blocks[i]) && EntryTexts(results)[i] == JoinLines(blocks[i]) {
      EntryLinesPlain(results[i].0, results[i].1);
      TrimOfTemplate(blocks[i]);
    }
    assert EntryTexts(results) == JoinAll(blocks);
    JoinedBlocks(blocks);
    PlainBlocks(blocks);
  }

  function EntryElements(results: Results): seq<Element> {
    if results == [] then [] else [EntryElement(results)] + EntryElements(results[1..])
  }

  function EntryElement(results: Results): (e: Element)
    requires results != []
    ensures Blank(e.before) && Blank(e.after) && e.layout == EntryLayout(results[0].0, results[0].1)
  {
    Element("\n    ", EntryLayout(results[0].0, results[0].1), if |results| == 1 then "\n  " else "")
  }

  function EntriesText(results: Results): string {
    JoinWith(JoinAll(Blocks(results)), ",\n")
  }

  lemma EntriesTextSteps(results: Results)
    requires results != []
    ensures EntriesText(results) ==
            JoinLines(EntryLines(results[0].0, results[0].1))
            + if |results| == 1 then "" else ",\n" + EntriesText(results[1..])
  {
    var first := JoinLines(EntryLines(results[0].0, results[0].1));
    assert JoinAll(Blocks(results))[0] == first;
    assert JoinAll(Blocks(results))[1..] == JoinAll(Blocks(results[1..]));
    if |results| == 1 {
      assert first + "" == first;
    } else {
      assert first + ",\n" + EntriesText(results[1..]) == first + (",\n" + EntriesText(results[1..]));
    }
  }

  lemma {:induction false} EntriesPrint(results: Results)
    requires results != []
    ensures PrintElements(EntryElements(results)) == "\n" + EntriesText(results) + "\n  "
  {
    var entry := Print(EntryLayout(results[0].0, results[0].1));
    var es := EntryElements(results);
    EntryPrints(results[0].0, results[0].1);
    EntriesTextSteps(results);
    assert es[1..] == EntryElements(results[1..]);
    if |results| == 1 {
      OneEntry(entry);
    } else {
      EntriesPrint(results[1..]);
      assert |es| > 1;
      NextEntry(entry, EntriesText(results[1..]));
    }
  }

  lemma OneEntry(entry: string)
    ensures "\n    " + entry + "\n  " == "\n" + ("    " + entry + "") + "\n  "
  {
  }

  lemma {:induction false} EntriesSpaced(results: Results)
    ensures AllElementsSpaced(EntryElements(results))
    ensures Values(EntryElements(results)) == EntryValues(results)
  {
    if results != [] {
      EntryHolds(results[0].0, results[0].1);
      EntriesSpaced(results[1..]);
      ElementsCons(EntryElement(results), EntryElements(results[1..]));
      assert EntryValues(results) == [EntryValue(results[0].0, results[0].1)] + EntryValues(results[1..]);
    }
  }

  lemma NextEntry(entry: string, more: string)
    ensures ("\n    " + entry + "") + "," + ("\n" + more + "\n  ") == "\n" + ("    " + entry + (",\n" + more)) + "\n  "
  {
  }

  lemma EntryHolds(e: Endpoint, v: Verdict)
    ensures WellSpaced(EntryLayout(e, v)) && Value(EntryLayout(e, v)) == EntryValue(e, v)
  {
    FieldsSpaced(ENTRY_INDENT, EntryFields(e, v), "\n    ");
    FieldsHold(ENTRY_INDENT, EntryFields(e, v), "\n    ");
    EntryFieldsSay(e, v);
  }

  lemma FrameIsValid(task: string, probedAt: string)
    ensures FrameOf(task, probedAt).Valid()
  {
  }

  /** The written report reads back as exactly the task name, the time and the results so far, whatever
      the strings in them hold. */
  lemma ReportReadsBack(task: string, probedAt: string, results: Results)
    requires results != []
    ensures Read(ReportText(task, probedAt, results)) == Some(ReportValue(task, probedAt, results))
  {
    FrameIsValid(task, probedAt);
    LinesOfEntries(results);
    ListPrints(results);
    FrameReads(FrameOf(task, probedAt), BlockLines(Blocks(results)), JoinWith(EntryTexts(results), ",\n"),
               ArrayLayout(EntryElements(results)), Array(EntryValues(results)));
  }

  lemma ListPrints(results: Results)
    requires results != []
    ensures Print(ArrayLayout(EntryElements(results))) == "[" + ("\n" + EntriesText(results) + "\n  ") + "]"
    ensures WellSpaced(ArrayLayout(EntryElements(results)))
    ensures Value(ArrayLayout(EntryElements(results))) == Array(EntryValues(results))
  {
    EntriesPrint(results);
    EntriesSpaced(results);
  }

  /** Call k asks about an endpoint for the first time. */
  predicate AsksNew(calls: seq<Call>, k: nat)
    requires k < |calls|
  {
    calls[k].endpoint !in FirstAsked(calls[..k])
  }

  /** When the last new endpoint was probed. */
  function LastProbed(calls: seq<Call>): string {
    if calls == [] then ""
    else if AsksNew(calls, |calls| - 1) then calls[|calls| - 1].now
    else LastProbed(calls[..|calls| - 1])
  }

  /** It is the time of a call that asked about something new, and no later call did. */
  lemma {:induction false} LastProbedIsLast(calls: seq<Call>) returns (k: nat)
    requires calls != []
    ensures k < |calls| && AsksNew(calls, k) && LastProbed(calls) == calls[k].now
    ensures forall m | k < m < |calls| :: !AsksNew(calls, m)
  {
    k := |calls| - 1;
    if !AsksNew(calls, k) {
      var front := calls[..k];
      k := LastProbedIsLast(front);
      forall m | 0 <= m < |front| ensures AsksNew(front, m) == AsksNew(calls, m) {
        assert front[..m] == calls[..m];
      }
    }
  }

  /** After any calls that asked about anything, with a report path set, the file on disk reads
      back as all the first answers, in first-asked order, and the time of the last new probe. */
  lemma {:induction false} FileReadsBack(calls: seq<Call>, task: string)
    requires calls != []
    ensures var s := After(calls, true, task);
            && s.report.Some?
            && Read(s.report.value) == Some(ReportValue(task, LastProbed(calls), ResultsAfter(calls)))
  {
    var front, last := calls[..|calls| - 1], calls[|calls| - 1];
    var before := After(front, true, task);
    AfterHoldsResults(front, true, task);
    AfterHoldsResults(calls, true, task);
    ResultsKeepOrder(front);
    FindIsMember(before.results, last.endpoint);
    if Find(before.results, last.endpoint).Some? {
      assert front != [];
      FileReadsBack(front, task);
    } else {
      PutKeys(before.results, last.endpoint, last.answer);
      ReportReadsBack(task, last.now, ResultsAfter(calls));
    }
  }

  /** Without a report path nothing is ever written. */
  lemma {:induction false} NoPathNoReport(calls: seq<Call>, task: string)
    ensures After(calls, false, task).report.None?
  {
    if calls != [] {
      NoPathNoReport(calls[..|calls| - 1], task);
    }
  }
}
