/** The template both report writers end with: the task name, the time, and one nested value whose lines
    are interpolated before the whole is trimmed
    (network/src/test/kotlin/okhttp/testbed/network/Preflight.kt and DohMatrixReport.kt). */
module ReportFrame {
  import opened Wrappers
  import opened Json
  import opened Margin
  import opened Reports

  /** `timeKey` names the time, `key` the nested value, which stands between `start` and `end`. */
  datatype Frame = Frame(task: string, timeKey: string, time: string, key: string, start: string, end: string) {
    ghost predicate Valid() {
      && PlainKey(timeKey) && PlainKey(key)
      && ((start == "{" && end == "}") || (start == "[" && end == "]"))
    }

    function Head(): seq<string> {
      ["{", FieldLine("  ", "task", task) + ",", FieldLine("  ", timeKey, time) + ",", NestedLine(Key(key), start)]
    }

    function Foot(): seq<string> {
      ["  " + end, "}"]
    }

    /** The written text around the lines of the nested value. */
    function Text(body: string): string {
      TrimMargin(TemplateAround(Head(), body, Foot())) + "\n"
    }

    function Around(inner: Layout): Layout {
      ObjectLayout([
        Member("\n" + "  ", "task", " ", TextLayout(task), ""),
        Member("\n" + "  ", timeKey, " ", TextLayout(time), ""),
        Member("\n" + "  ", key, " ", inner, "\n")])
    }

    function Meaning(inner: Json): Json {
      Object([("task", Json.Text(task)), (timeKey, Json.Text(time)), (key, inner)])
    }
  }

  function NestedLine(key: string, start: string): string {
    "  " + (key + (": " + start))
  }

  /** The interpolated lines come through the trimming as they are. */
  lemma FrameTrims(f: Frame, lines: seq<string>)
    requires f.Valid() && lines != [] && AllPlain(lines)
    ensures f.Text(JoinLines(lines)) ==
            JoinLines(f.Head()) + "\n" + JoinLines(lines) + "\n" + JoinLines(f.Foot()) + "\n"
  {
    HeadUnbroken(f);
    FootUnbroken(f);
    TrimKeepsInterpolated(f.Head(), lines, f.Foot());
  }

  lemma HeadUnbroken(f: Frame)
    requires f.Valid()
    ensures AllUnbroken(f.Head())
  {
    TopLineUnbroken("task", f.task);
    TopLineUnbroken(f.timeKey, f.time);
    PlainKeyQuotes(f.key);
    NestedUnbroken(Key(f.key), f.start);
    FourUnbroken("{", FieldLine("  ", "task", f.task) + ",", FieldLine("  ", f.timeKey, f.time) + ",",
                 NestedLine(Key(f.key), f.start));
  }

  lemma NestedUnbroken(key: string, start: string)
    requires Unbroken(key) && Unbroken(start)
    ensures Unbroken(NestedLine(key, start))
  {
  }

  lemma FootUnbroken(f: Frame)
    requires f.Valid()
    ensures AllUnbroken(f.Foot())
  {
    assert Unbroken("  " + f.end) && Unbroken("}");
  }

  /** A text framed this way reads back as the task name, the time and whatever its lines print. */
  lemma FrameReads(f: Frame, lines: seq<string>, body: string, inner: Layout, value: Json)
    requires f.Valid() && lines != [] && AllPlain(lines) && JoinLines(lines) == body
    requires Print(inner) == f.start + ("\n" + body + "\n  ") + f.end
    requires WellSpaced(inner) && Value(inner) == value
    ensures Read(f.Text(body)) == Some(f.Meaning(value))
  {
    FrameTrims(f, lines);
    FramePrints(f, body, inner);
    FrameHolds(f, inner);
    DocumentReads(f.Around(inner), "\n");
  }

  lemma FrameHolds(f: Frame, inner: Layout)
    requires WellSpaced(inner)
    ensures WellSpaced(f.Around(inner)) && Value(f.Around(inner)) == f.Meaning(Value(inner))
  {
    ThreeHold(Member("\n" + "  ", "task", " ", TextLayout(f.task), ""),
              Member("\n" + "  ", f.timeKey, " ", TextLayout(f.time), ""),
              Member("\n" + "  ", f.key, " ", inner, "\n"));
  }

  lemma FramePrints(f: Frame, body: string, inner: Layout)
    requires f.Valid() && Print(inner) == f.start + ("\n" + body + "\n  ") + f.end
    ensures Print(f.Around(inner)) == JoinLines(f.Head()) + "\n" + body + "\n" + JoinLines(f.Foot())
  {
    var one, two := FieldLine("  ", "task", f.task), FieldLine("  ", f.timeKey, f.time);
    MemberIsFieldLine("  ", "task", f.task, "");
    MemberIsFieldLine("  ", f.timeKey, f.time, "");
    PlainKeyQuotes(f.key);
    PlainMember("\n" + "  ", f.key, inner, "\n");
    HeadJoined(one + ",", two + ",", NestedLine(Key(f.key), f.start));
    FootJoined("  " + f.end);
    PrintsFromParts(Member("\n" + "  ", "task", " ", TextLayout(f.task), ""),
                    Member("\n" + "  ", f.timeKey, " ", TextLayout(f.time), ""),
                    Member("\n" + "  ", f.key, " ", inner, "\n"),
                    one, two, Key(f.key), f.start, body, f.end, JoinLines(f.Head()), JoinLines(f.Foot()));
  }

  lemma HeadJoined(one: string, two: string, last: string)
    ensures JoinLines(["{", one, two, last]) == "{" + "\n" + (one + "\n" + (two + "\n" + last))
  {
    assert ["{", one, two, last][1..] == [one, two, last];
    assert [one, two, last][1..] == [two, last] && [two, last][1..] == [last];
    assert JoinLines([two, last]) == two + "\n" + JoinLines([last]);
    assert JoinLines([one, two, last]) == one + "\n" + JoinLines([two, last]);
  }

  lemma FootJoined(line: string)
    ensures JoinLines([line, "}"]) == line + "\n" + "}"
  {
    assert [line, "}"][1..] == ["}"];
  }

  lemma PrintsFromParts(a: Member, b: Member, c: Member, one: string, two: string, key: string, start: string,
                        body: string, end: string, head: string, foot: string)
    requires PrintMember(a) == "\n" + one + "" && PrintMember(b) == "\n" + two + ""
    requires PrintMember(c) == "\n" + "  " + key + ":" + " " + (start + ("\n" + body + "\n  ") + end) + "\n"
    requires head == "{" + "\n" + (one + "," + "\n" + (two + "," + "\n" + NestedLine(key, start)))
    requires foot == "  " + end + "\n" + "}"
    ensures Print(ObjectLayout([a, b, c])) == head + "\n" + body + "\n" + foot
  {
    ThreePrint(a, b, c);
    Assembled(one, two, key, start, body, end);
  }

  /** The two ways of putting a report together are the same text. */
  lemma Assembled(one: string, two: string, key: string, start: string, body: string, end: string)
    ensures "{" + (("\n" + one + "") + "," + (("\n" + two + "") + ","
              + ("\n" + "  " + key + ":" + " " + (start + ("\n" + body + "\n  ") + end) + "\n"))) + "}"
         == ("{" + "\n" + (one + "," + "\n" + (two + "," + "\n" + NestedLine(key, start))))
              + "\n" + body + "\n" + ("  " + end + "\n" + "}")
  {
  }
}
