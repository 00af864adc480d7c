/** Kotlin's trimMargin, which the report writers apply after interpolating values into their
    templates (network/src/test/kotlin/okhttp/testbed/network/Preflight.kt). */
module Margin {

  /** Lines as `lines()` splits them: at CR LF, at LF and at CR. */
  function Lines(s: string): (lines: seq<string>)
    ensures lines != []
  {
    if s == "" then [""]
    else if s[0] == '\n' then [""] + Lines(s[1..])
    else if s[0] == '\r' then [""] + (if |s| > 1 && s[1] == '\n' then Lines(s[2..]) else Lines(s[1..]))
    else
      var rest := Lines(s[1..]);
      [[s[0]] + rest[0]] + rest[1..]
  }

  function JoinLines(lines: seq<string>): string {
    if lines == [] then ""
    else if |lines| == 1 then lines[0]
    else lines[0] + "\n" + JoinLines(lines[1..])
  }

  /** Whitespace as Char.isWhitespace has it, below U+0100. */
  predicate IsSpace(c: char) {
    '\t' <= c <= '\r' || '\U{001C}' <= c <= ' ' || c == '\U{00A0}'
  }

  /** The position of the first character that is not whitespace. */
  function FirstSolid(line: string): (i: nat)
    ensures i <= |line| && (i < |line| ==> !IsSpace(line[i]))
    ensures forall k | 0 <= k < i :: IsSpace(line[k])
  {
    if line == "" || !IsSpace(line[0]) then 0 else 1 + FirstSolid(line[1..])
  }

  predicate IsBlank(line: string) {
    FirstSolid(line) == |line|
  }

  /** A line without its margin, if it has one. */
  function CutMargin(line: string): string {
    var i := FirstSolid(line);
    if i < |line| && line[i] == '|' then line[i + 1..] else line
  }

  function CutAll(lines: seq<string>): (cut: seq<string>)
    ensures |cut| == |lines| && forall i | 0 <= i < |lines| :: cut[i] == CutMargin(lines[i])
  {
    seq(|lines|, i requires 0 <= i < |lines| => CutMargin(lines[i]))
  }

  /** A blank first and a blank last line go, every other line loses its margin. */
  function TrimMargin(s: string): string {
    var lines := Lines(s);
    var tail := if IsBlank(lines[0]) then lines[1..] else lines;
    var body := if tail != [] && IsBlank(lines[|lines| - 1]) then tail[..|tail| - 1] else tail;
    JoinLines(CutAll(body))
  }

  // -- Splitting what was joined ---------------------------------------------------------

  predicate Unbroken(line: string) {
    forall i | 0 <= i < |line| :: line[i] != '\n' && line[i] != '\r'
  }

  ghost predicate AllUnbroken(lines: seq<string>) {
    forall i | 0 <= i < |lines| :: Unbroken(lines[i])
  }

  lemma {:induction false} LinesOfLine(line: string)
    requires Unbroken(line)
    ensures Lines(line) == [line]
  {
    if line != "" {
      LinesOfLine(line[1..]);
      assert [line[0]] + line[1..] == line;
    }
  }

  lemma {:induction false} LinesAtBreak(line: string, rest: string)
    requires Unbroken(line)
    ensures Lines(line + "\n" + rest) == [line] + Lines(rest)
  {
    var s := line + "\n" + rest;
    if line == "" {
      assert s[1..] == rest;
    } else {
      assert s[1..] == line[1..] + "\n" + rest;
      LinesAtBreak(line[1..], rest);
      assert [line[0]] + line[1..] == line;
    }
  }

  lemma {:induction false} LinesOfJoined(lines: seq<string>)
    requires lines != [] && AllUnbroken(lines)
    ensures Lines(JoinLines(lines)) == lines
  {
    if |lines| == 1 {
      LinesOfLine(lines[0]);
    } else {
      LinesOfJoined(lines[1..]);
      LinesAtBreak(lines[0], JoinLines(lines[1..]));
    }
  }

  lemma {:induction false} JoinedConcat(a: seq<string>, b: seq<string>)
    requires a != [] && b != []
    ensures JoinLines(a + b) == JoinLines(a) + "\n" + JoinLines(b)
  {
    if |a| == 1 {
      assert (a + b)[1..] == b;
    } else {
      assert (a + b)[1..] == a[1..] + b;
      JoinedConcat(a[1..], b);
      BreakRegroups(a[0], JoinLines(a[1..]), JoinLines(b));
    }
  }

  lemma BreakRegroups(a: string, b: string, c: string)
    ensures a + "\n" + (b + "\n" + c) == a + "\n" + b + "\n" + c
  {
  }

  // -- Templates -------------------------------------------------------------------------

  /** The indentation of a raw template line in the source. */
  const INDENT := "        "

  const MARGIN := "        |"

  /** A template as it is written: an empty first line, a margin on every line, and the
      indentation of the closing quotes last. */
  function Template(lines: seq<string>): string {
    JoinLines([""] + WithMargin(lines) + [INDENT])
  }

  function WithMargin(lines: seq<string>): (indented: seq<string>)
    ensures |indented| == |lines| && forall i | 0 <= i < |lines| :: indented[i] == MARGIN + lines[i]
  {
    seq(|lines|, i requires 0 <= i < |lines| => MARGIN + lines[i])
  }

  /** A line that trimming leaves alone: unbroken, and its first solid character no margin. */
  predicate Plain(line: string) {
    Unbroken(line) && (FirstSolid(line) < |line| ==> line[FirstSolid(line)] != '|')
  }

  lemma MarginCuts(line: string)
    ensures CutMargin(MARGIN + line) == line
    ensures Unbroken(line) ==> Unbroken(MARGIN + line)
    ensures !IsBlank(MARGIN + line)
  {
    var s := MARGIN + line;
    assert s[8] == '|' && forall k | 0 <= k < 8 :: s[k] == ' ';
    assert FirstSolid(s) == 8;
    assert s[9..] == line;
  }

  /** Trimming takes exactly the first and last line of a template and every margin. */
  lemma TrimOfLines(lines: seq<string>, trimmed: seq<string>)
    requires AllUnbroken(lines) && |trimmed| == |lines|
    requires forall i | 0 <= i < |lines| :: CutMargin(lines[i]) == trimmed[i]
    ensures TrimMargin(JoinLines([""] + lines + [INDENT])) == JoinLines(trimmed)
  {
    var all := [""] + lines + [INDENT];
    IndentIsBlank();
    LinesOfJoined(all);
    Middle("", lines, INDENT);
    assert CutAll(lines) == trimmed;
  }

  lemma IndentIsBlank()
    ensures IsBlank(INDENT) && IsBlank("") && Unbroken(INDENT) && Unbroken("")
  {
    assert forall i | 0 <= i < 8 :: INDENT[i] == ' ';
  }

  lemma Middle(first: string, lines: seq<string>, last: string)
    ensures var all := [first] + lines + [last];
            all[0] == first && all[|all| - 1] == last
            && all[1..] == lines + [last] && all[1..][..|all[1..]| - 1] == lines
  {
  }

  lemma TrimOfTemplate(lines: seq<string>)
    requires AllUnbroken(lines)
    ensures TrimMargin(Template(lines)) == JoinLines(lines)
  {
    var indented := WithMargin(lines);
    forall i | 0 <= i < |lines| ensures Unbroken(indented[i]) && CutMargin(indented[i]) == lines[i] {
      MarginCuts(lines[i]);
    }
    TrimOfLines(indented, lines);
  }

  /** A template one of whose lines interpolates a text of several lines; only the first of those
      follows a margin. */
  function TemplateAround(before: seq<string>, text: string, after: seq<string>): string {
    JoinLines([""] + WithMargin(before) + [MARGIN + text] + WithMargin(after) + [INDENT])
  }

  /** Interpolating a text whose lines are all plain leaves it as it is. */
  lemma TrimKeepsInterpolated(before: seq<string>, text: seq<string>, after: seq<string>)
    requires AllUnbroken(before) && AllUnbroken(after) && before != [] && after != []
    requires text != [] && forall i | 0 <= i < |text| :: Plain(text[i])
    ensures TrimMargin(TemplateAround(before, JoinLines(text), after)) ==
            JoinLines(before) + "\n" + JoinLines(text) + "\n" + JoinLines(after)
  {
    TemplateSpreads(before, text, after);
    CutInterpolated(before, text, after);
    TrimOfLines(SpreadLines(before, text, after), before + text + after);
    JoinedConcat(before + text, after);
    JoinedConcat(before, text);
  }

  /** The lines of the template once its interpolated text is counted line by line. */
  function SpreadLines(before: seq<string>, text: seq<string>, after: seq<string>): seq<string>
    requires text != []
  {
    WithMargin(before) + ([MARGIN + text[0]] + text[1..]) + WithMargin(after)
  }

  lemma TemplateSpreads(before: seq<string>, text: seq<string>, after: seq<string>)
    requires text != []
    ensures TemplateAround(before, JoinLines(text), after) ==
            JoinLines([""] + SpreadLines(before, text, after) + [INDENT])
  {
    var spread := [MARGIN + text[0]] + text[1..];
    var front, back := [""] + WithMargin(before), WithMargin(after) + [INDENT];
    SpreadJoined(MARGIN, text);
    SpreadInside(front, MARGIN + JoinLines(text), spread, back);
    FourParts([""], WithMargin(before), [MARGIN + JoinLines(text)], WithMargin(after), [INDENT]);
    FourParts([""], WithMargin(before), spread, WithMargin(after), [INDENT]);
    assert [""] + SpreadLines(before, text, after) == [""] + WithMargin(before) + spread + WithMargin(after);
  }

  lemma FourParts(a: seq<string>, b: seq<string>, c: seq<string>, d: seq<string>, e: seq<string>)
    ensures a + b + c + d + e == (a + b) + c + (d + e)
  {
  }

  lemma CutInterpolated(before: seq<string>, text: seq<string>, after: seq<string>)
    requires AllUnbroken(before) && AllUnbroken(after)
    requires text != [] && forall i | 0 <= i < |text| :: Plain(text[i])
    ensures var lines := SpreadLines(before, text, after);
            var trimmed := before + text + after;
            && |lines| == |trimmed| && AllUnbroken(lines)
            && forall i | 0 <= i < |lines| :: CutMargin(lines[i]) == trimmed[i]
  {
    var lines := SpreadLines(before, text, after);
    var trimmed := before + text + after;
    forall i | 0 <= i < |lines| ensures Unbroken(lines[i]) && CutMargin(lines[i]) == trimmed[i] {
      MarginCuts(trimmed[i]);
    }
  }

  lemma SpreadJoined(front: string, text: seq<string>)
    requires text != []
    ensures JoinLines([front + text[0]] + text[1..]) == front + JoinLines(text)
  {
    if |text| > 1 {
      var spread := [front + text[0]] + text[1..];
      assert spread[1..] == text[1..];
      FrontFirst(front, text[0], JoinLines(text[1..]));
    }
  }

  lemma FrontFirst(front: string, line: string, more: string)
    ensures front + line + "\n" + more == front + (line + "\n" + more)
  {
  }

  /** A line that holds breaks is the same text as its lines. */
  lemma SpreadInside(a: seq<string>, whole: string, spread: seq<string>, b: seq<string>)
    requires a != [] && b != [] && spread != [] && JoinLines(spread) == whole
    ensures JoinLines(a + [whole] + b) == JoinLines(a + spread + b)
  {
    JoinedConcat(a + [whole], b);
    JoinedConcat(a, [whole]);
    JoinedConcat(a + spread, b);
    JoinedConcat(a, spread);
  }
}
