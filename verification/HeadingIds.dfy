/** Ids for headings that have none (site/assets/navigation.js). */
module HeadingIds {
  import Decimal
  import opened Sets

  // -- The base of an id -----------------------------------------------------------------

  function Lower(c: char): char {
    if 'A' <= c <= 'Z' then c + 32 as char else c
  }

  predicate Alphanumeric(c: char) {
    'a' <= c <= 'z' || '0' <= c <= '9'
  }

  /** Every run of other characters becomes one hyphen. */
  function Collapse(text: string): string {
    if text == "" then ""
    else
      var c, rest := Lower(text[0]), Collapse(text[1..]);
      if Alphanumeric(c) then [c] + rest
      else if rest != "" && rest[0] == '-' then rest
      else ['-'] + rest
  }

  /** Without a leading and a trailing hyphen. */
  function Trim(s: string): string {
    var front := if s != "" && s[0] == '-' then s[1..] else s;
    if front != "" && front[|front| - 1] == '-' then front[..|front| - 1] else front
  }

  function Slug(text: string): string {
    var s := Trim(Collapse(text));
    if s == "" then "section" else s
  }

  // -- What a base is --------------------------------------------------------------------

  predicate StartsWord(text: string) {
    text != "" && Alphanumeric(Lower(text[0]))
  }

  predicate EndsWord(text: string) {
    text != "" && Alphanumeric(Lower(text[|text| - 1]))
  }

  predicate IsWord(word: string) {
    word != "" && forall i | 0 <= i < |word| :: Alphanumeric(word[i])
  }

  /** The longest runs of letters and digits, in lower case. */
  function Words(text: string): (words: seq<string>)
    ensures StartsWord(text) ==> words != []
    ensures forall k | 0 <= k < |words| :: IsWord(words[k])
  {
    if text == "" then []
    else
      var c, more := Lower(text[0]), Words(text[1..]);
      if !Alphanumeric(c) then more
      else if StartsWord(text[1..]) then
        Longer(c, more[0]);
        [[c] + more[0]] + more[1..]
      else
        assert IsWord([c]);
        [[c]] + more
  }

  lemma Longer(c: char, word: string)
    requires Alphanumeric(c) && IsWord(word)
    ensures IsWord([c] + word)
  {
  }

  function Hyphenated(words: seq<string>): string {
    if words == [] then ""
    else if |words| == 1 then words[0]
    else words[0] + "-" + Hyphenated(words[1..])
  }

  function Open(text: string): string {
    if StartsWord(text) then "" else "-"
  }

  function Close(text: string): string {
    if EndsWord(text) then "" else "-"
  }

  /** What is collapsed are the words with a hyphen in every gap, before the first and after the last. */
  lemma {:induction false} CollapseShowsWords(text: string)
    requires text != ""
    ensures Collapse(text) ==
            if Words(text) == [] then "-" else Open(text) + Hyphenated(Words(text)) + Close(text)
  {
    var c, more := Lower(text[0]), text[1..];
    if more == "" {
      assert [c] + "" == [c] && Words(text) == if Alphanumeric(c) then [[c]] else [];
      OneWord([c]);
    } else {
      CollapseShowsWords(more);
      LastStays(text);
      var words := Words(more);
      if !Alphanumeric(c) {
        if StartsWord(more) {
          HyphenatedEnds(words);
          OpenFirst(Hyphenated(words), Close(more));
        }
      } else if StartsWord(more) {
        LongerFirst(c, words, Close(more));
      } else if words != [] {
        NewFirst(c, words, Close(more));
      } else {
        NoWordAtEnd(more);
        OneWord([c]);
      }
    }
  }

  lemma OneWord(word: string)
    ensures "" + Hyphenated([word]) + "" == word
    ensures "" + Hyphenated([word]) + "-" == word + "-"
  {
  }

  lemma OpenFirst(s: string, close: string)
    ensures "-" + ("" + s + close) == "-" + s + close
  {
  }

  lemma LastStays(text: string)
    requires |text| > 1
    ensures Close(text) == Close(text[1..])
  {
  }

  lemma {:induction false} NoWordAtEnd(text: string)
    requires text != "" && Words(text) == []
    ensures !EndsWord(text)
  {
    if |text| > 1 {
      NoWordAtEnd(text[1..]);
    }
  }

  lemma LongerFirst(c: char, words: seq<string>, close: string)
    requires words != []
    ensures [c] + ("" + Hyphenated(words) + close) == "" + Hyphenated([[c] + words[0]] + words[1..]) + close
  {
    var longer := [[c] + words[0]] + words[1..];
    assert longer[1..] == words[1..];
    if |words| > 1 {
      FirstGrows(c, words[0], Hyphenated(words[1..]), close);
    }
  }

  lemma FirstGrows(c: char, first: string, more: string, close: string)
    ensures [c] + ("" + (first + "-" + more) + close) == "" + ([c] + first + "-" + more) + close
  {
  }

  lemma NewFirst(c: char, words: seq<string>, close: string)
    requires words != []
    ensures [c] + ("-" + Hyphenated(words) + close) == "" + Hyphenated([[c]] + words) + close
  {
    assert ([[c]] + words)[1..] == words;
  }

  lemma {:induction false} HyphenatedEnds(words: seq<string>)
    requires words != []
    requires forall k | 0 <= k < |words| :: IsWord(words[k])
    ensures var s := Hyphenated(words);
            s != "" && Alphanumeric(s[0]) && Alphanumeric(s[|s| - 1])
  {
    assert IsWord(words[0]);
    if |words| > 1 {
      HyphenatedEnds(words[1..]);
    }
  }

  /** A base is the words of the heading joined by single hyphens, or "section" if it has none. */
  lemma SlugIsWords(text: string)
    ensures Slug(text) == if Words(text) == [] then "section" else Hyphenated(Words(text))
  {
    if text != "" {
      CollapseShowsWords(text);
      if Words(text) != [] {
        HyphenatedEnds(Words(text));
        TrimEnds(Open(text), Hyphenated(Words(text)), Close(text));
      }
    }
  }

  lemma TrimEnds(before: string, s: string, after: string)
    requires (before == "" || before == "-") && (after == "" || after == "-")
    requires s != "" && Alphanumeric(s[0]) && Alphanumeric(s[|s| - 1])
    ensures Trim(before + s + after) == s
  {
  }

  // -- What the words are ----------------------------------------------------------------

  predicate LetterOrDigit(c: char) {
    'a' <= c <= 'z' || 'A' <= c <= 'Z' || '0' <= c <= '9'
  }

  /** The same character, or the two cases of one ASCII letter. */
  predicate SameLetter(a: char, b: char) {
    || a == b
    || ('A' <= a <= 'Z' && b as int == a as int + 32)
    || ('A' <= b <= 'Z' && a as int == b as int + 32)
  }

  /** Small letters and digits alone are one word, as they stand. */
  lemma {:induction false} WordsOfRun(word: string)
    requires word != "" && forall i | 0 <= i < |word| :: 'a' <= word[i] <= 'z' || '0' <= word[i] <= '9'
    ensures Words(word) == [word]
  {
    assert word == [word[0]] + word[1..];
    if |word| > 1 {
      WordsOfRun(word[1..]);
      assert [word[1..]][1..] == [];
    } else {
      assert Words(word[1..]) == [] && Lower(word[0]) == word[0] && [word[0]] == word;
      assert [[word[0]]] + Words(word[1..]) == [word];
    }
  }

  /** Any other character than a letter or a digit parts words, and is in none. */
  lemma {:induction false} WordsAtGap(before: string, gap: char, after: string)
    requires !LetterOrDigit(gap)
    ensures Words(before + [gap] + after) == Words(before) + Words(after)
  {
    var text := before + [gap] + after;
    if before == "" {
      assert text[1..] == after;
    } else {
      assert text[1..] == before[1..] + [gap] + after;
      WordsAtGap(before[1..], gap, after);
      assert StartsWord(text[1..]) == StartsWord(before[1..]);
    }
  }

  /** Letter case makes no difference. */
  lemma {:induction false} WordsIgnoreCase(x: string, y: string)
    requires |x| == |y| && forall i | 0 <= i < |x| :: SameLetter(x[i], y[i])
    ensures Words(x) == Words(y)
  {
    if x != "" {
      WordsIgnoreCase(x[1..], y[1..]);
      assert SameLetter(x[0], y[0]);
      assert |x| > 1 ==> SameLetter(x[1], y[1]);
    }
  }

  predicate Sparse(s: string) {
    && (forall i | 0 <= i < |s| :: Alphanumeric(s[i]) || s[i] == '-')
    && (forall i | 0 <= i < |s| - 1 :: s[i] != '-' || s[i + 1] != '-')
  }

  lemma {:induction false} CollapseIsSparse(text: string)
    ensures Sparse(Collapse(text))
  {
    if text != "" {
      CollapseIsSparse(text[1..]);
    }
  }

  /** A base is a non-empty chain of alphanumeric words joined by single hyphens. */
  lemma SlugIsClean(text: string)
    ensures var s := Slug(text);
            s != "" && Sparse(s) && Alphanumeric(s[0]) && Alphanumeric(s[|s| - 1])
  {
    CollapseIsSparse(text);
  }

  // -- The candidates --------------------------------------------------------------------

  /** base, base-2, base-3, ... */
  function Candidate(base: string, k: nat): string {
    if k == 0 then base else base + "-" + Decimal.Text(k + 1)
  }

  /** The second candidate ends in -2, and so on. */
  lemma CandidatesCount(base: string)
    ensures Candidate(base, 0) == base && Candidate(base, 1) == base + "-2"
    ensures Candidate(base, 2) == base + "-3" && Candidate(base, 9) == base + "-10"
  {
    assert Decimal.Text(2) == "2" && Decimal.Text(3) == "3";
    assert Decimal.Digits(10) == [1, 0];
    assert Decimal.Text(10) == "10";
    assert base + "-" + "2" == base + "-2" && base + "-" + "3" == base + "-3" && base + "-" + "10" == base + "-10";
  }

  /** No candidate comes up twice. */
  lemma CandidatesDiffer(base: string, j: nat, k: nat)
    requires Candidate(base, j) == Candidate(base, k)
    ensures j == k
  {
    var front := |base| + 1;
    if j != 0 && k != 0 {
      assert Decimal.Text(j + 1) == Candidate(base, j)[front..];
      assert Decimal.Text(k + 1) == Candidate(base, k)[front..];
      Decimal.TextIsInjective(j + 1, k + 1);
    }
  }

  /** The first candidate not in use. */
  ghost predicate FirstFree(base: string, used: set<string>, id: string) {
    exists k: nat :: id == Candidate(base, k) && id !in used && forall j: nat | j < k :: Candidate(base, j) in used
  }

  /** The rejection loop: it ends after at most as many rejections as there are ids in use. */
  method UniqueId(base: string, used: set<string>) returns (candidate: string, rejections: nat)
    ensures FirstFree(base, used, candidate)
    ensures candidate == Candidate(base, rejections) && rejections <= |used|
  {
    candidate := base;
    var suffix := 2;
    ghost var tried: set<string> := {};
    rejections := 0;
    while candidate in used
      invariant suffix == rejections + 2 && candidate == Candidate(base, rejections)
      invariant forall j: nat | j < rejections :: Candidate(base, j) in used
      invariant forall c | c in tried :: exists j: nat :: j < rejections && c == Candidate(base, j)
      invariant tried <= used && |tried| == rejections
      decreases used - tried
    {
      forall j: nat | j < rejections ensures Candidate(base, j) != candidate {
        if Candidate(base, j) == candidate {
          CandidatesDiffer(base, j, rejections);
        }
      }
      assert candidate !in tried;
      tried := tried + {candidate};
      candidate := base + "-" + Decimal.Text(suffix);
      suffix := suffix + 1;
      rejections := rejections + 1;
    }
    SubsetSize(tried, used);
  }

  // -- A whole page ----------------------------------------------------------------------

  /** The ids given to the first n headings. */
  ghost function Given(before: seq<string>, after: seq<string>, n: nat): set<string>
    requires n <= |before| == |after|
  {
    set h | 0 <= h < n && before[h] == "" :: after[h]
  }

  /** Every heading without an id gets the first free candidate of its text, counting the ids
      given to the headings before it; the others keep theirs. */
  ghost predicate Assigned(before: seq<string>, texts: seq<string>, used: set<string>, after: seq<string>, n: nat) {
    && n <= |before| == |after| == |texts|
    && (forall h | 0 <= h < n && before[h] == "" ::
          FirstFree(Slug(texts[h]), used + Given(before, after, h), after[h]))
    && (forall h | 0 <= h < |before| && (n <= h || before[h] != "") :: after[h] == before[h])
  }

  method AssignIds(ids: array<string>, texts: seq<string>, usedIds: set<string>) returns (nowUsed: set<string>)
    requires |texts| == ids.Length
    requires forall h | 0 <= h < ids.Length :: ids[h] in usedIds || ids[h] == ""
    modifies ids
    ensures Assigned(old(ids[..]), texts, usedIds, ids[..], ids.Length)
    ensures nowUsed == usedIds + Given(old(ids[..]), ids[..], ids.Length)
  {
    nowUsed := usedIds;
    ghost var before := ids[..];
    assert Given(before, ids[..], 0) == {};
    for h := 0 to ids.Length
      invariant Assigned(before, texts, usedIds, ids[..], h)
      invariant nowUsed == usedIds + Given(before, ids[..], h)
    {
      label Turn:
      nowUsed := AssignOne(ids, h, texts[h], nowUsed);
      AssignedStep(before, texts, usedIds, old@Turn(ids[..]), ids[..], h);
    }
  }

  /** One turn of the loop over the headings. */
  method AssignOne(ids: array<string>, h: nat, text: string, used: set<string>) returns (nowUsed: set<string>)
    requires h < ids.Length
    modifies ids
    ensures ids[..] == old(ids[..])[h := ids[h]]
    ensures if old(ids[h]) == "" then FirstFree(Slug(text), used, ids[h]) && nowUsed == used + {ids[h]}
            else ids[h] == old(ids[h]) && nowUsed == used
  {
    nowUsed := used;
    if ids[h] == "" {
      var candidate, _ := UniqueId(Slug(text), used);
      ids[h] := candidate;
      nowUsed := used + {candidate};
    }
  }

  lemma GivenAgrees(before: seq<string>, a: seq<string>, b: seq<string>, n: nat)
    requires n <= |before| == |a| == |b| && forall h | 0 <= h < n :: a[h] == b[h]
    ensures Given(before, a, n) == Given(before, b, n)
  {
    assert forall h | 0 <= h < n && before[h] == "" :: a[h] in Given(before, b, n) && b[h] in Given(before, a, n);
  }

  lemma AssignedStep(before: seq<string>, texts: seq<string>, used: set<string>, was: seq<string>,
                     now: seq<string>, h: nat)
    requires h < |before| && Assigned(before, texts, used, was, h) && |now| == |was| && now == was[h := now[h]]
    requires if before[h] == "" then FirstFree(Slug(texts[h]), used + Given(before, was, h), now[h])
             else now[h] == was[h]
    ensures Assigned(before, texts, used, now, h + 1)
    ensures Given(before, now, h + 1) == Given(before, was, h) + if before[h] == "" then {now[h]} else {}
  {
    forall g | 0 <= g <= h ensures Given(before, was, g) == Given(before, now, g) {
      GivenAgrees(before, was, now, g);
    }
  }

  /** Every id given is new to the page and unlike every other id on it. */
  lemma GivenIdsAreFresh(before: seq<string>, texts: seq<string>, used: set<string>, after: seq<string>, g: nat, h: nat)
    requires Assigned(before, texts, used, after, |before|)
    requires forall k | 0 <= k < |before| :: before[k] in used || before[k] == ""
    requires g < |before| && h < |before| && g != h && before[h] == ""
    ensures after[h] != "" && after[h] !in used && after[g] != after[h]
  {
    SlugIsClean(texts[h]);
    if before[g] != "" {
      assert after[g] in used;
    } else {
      var low, high := if g < h then g else h, if g < h then h else g;
      assert FirstFree(Slug(texts[high]), used + Given(before, after, high), after[high]);
      assert after[low] in Given(before, after, high);
    }
  }
}
