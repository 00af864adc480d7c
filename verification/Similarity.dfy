/** The pairwise score behind failure grouping (site/assets/finding-groups.js). */
module Similarity {
  import opened Sets

  /** What the scorer reads of a finding. The results of the regular-expression helpers
      (method words, exception name, message words, stack frames) are inputs of the model. */
  datatype Item = Item(
    caseClass: string,
    suiteClass: string,
    suiteName: string,
    methodWords: set<string>,
    exception: string,
    messageWords: set<string>,
    frames: set<string>)

  datatype Components = Components(
    testClass: real,
    testMethod: real,
    exception: real,
    message: real,
    stacktrace: real)

  datatype Match = Match(score: int, components: Components)

  const DEFAULT_THRESHOLD := 65.0

  const SUITE_SEPARATOR := " \U{00B7} "

  /** The part of a suite's name before the first separator. */
  function BaseSuiteName(name: string): (base: string)
    ensures base <= name && (base == name || SUITE_SEPARATOR <= name[|base|..])
    ensures forall i | 0 <= i < |base| :: !(SUITE_SEPARATOR <= name[i..])
  {
    if name == [] || SUITE_SEPARATOR <= name then []
    else
      var rest := BaseSuiteName(name[1..]);
      assert forall i | 0 < i <= |name| :: name[1..][i - 1..] == name[i..];
      [name[0]] + rest
  }

  function TestClass(item: Item): (name: string)
    ensures item.caseClass != "" ==> name == item.caseClass
    ensures item.caseClass == "" && item.suiteClass != "" ==> name == item.suiteClass
    ensures item.caseClass == item.suiteClass == "" ==> name == BaseSuiteName(item.suiteName)
  {
    if item.caseClass != "" then item.caseClass
    else if item.suiteClass != "" then item.suiteClass
    else BaseSuiteName(item.suiteName)
  }

  /** Intersection over union, with two empty sets sharing nothing. */
  function JaccardIndex<T>(left: set<T>, right: set<T>): (index: real)
    ensures 0.0 <= index <= 1.0
    ensures index == 1.0 <==> left == right != {}
    ensures index == 0.0 <==> left * right == {}
  {
    if left + right == {} then 0.0
    else
      IntersectionInUnion(left, right);
      FractionBounds(|left * right| as real, |left + right| as real);
      |left * right| as real / |left + right| as real
  }

  lemma IntersectionInUnion<T>(left: set<T>, right: set<T>)
    ensures |left * right| <= |left + right|
    ensures |left * right| == |left + right| <==> left == right
  {
    var outside := (left + right) - (left * right);
    assert left + right == (left * right) + outside;
    assert outside == {} <==> left == right;
  }

  lemma FractionBounds(part: real, whole: real)
    requires 0.0 <= part <= whole && 0.0 < whole
    ensures 0.0 <= part / whole <= 1.0
    ensures part / whole == 1.0 <==> part == whole
    ensures part / whole == 0.0 <==> part == 0.0
  {
    var q := part / whole;
    assert q * whole == part;
  }

  /** The loop of the source: count the shared elements, divide by the size of the union. */
  method Jaccard(left: set<string>, right: set<string>) returns (index: real)
    ensures index == JaccardIndex(left, right)
  {
    if left == {} && right == {} {
      return 0.0;
    }
    var intersection := 0;
    var rest := left;
    while rest != {}
      invariant rest <= left
      invariant intersection == |(left - rest) * right|
      decreases |rest|
    {
      var value :| value in rest;
      ghost var seen := (left - rest) * right;
      rest := rest - {value};
      if value in right {
        assert (left - rest) * right == seen + {value};
        intersection := intersection + 1;
      } else {
        assert (left - rest) * right == seen;
      }
    }
    assert (left - rest) * right == left * right;
    index := intersection as real / (|left| + |right| - intersection) as real;
  }

  function Agree(left: string, right: string): (r: real) {
    if left != "" && left == right then 1.0 else 0.0
  }

  function Compare(left: Item, right: Item): Components {
    Components(
      Agree(TestClass(left), TestClass(right)),
      JaccardIndex(left.methodWords, right.methodWords),
      Agree(left.exception, right.exception),
      JaccardIndex(left.messageWords, right.messageWords),
      JaccardIndex(left.frames, right.frames))
  }

  function Weighted(c: Components): real {
    25.0 * c.testClass + 15.0 * c.testMethod + 15.0 * c.exception + 20.0 * c.message + 25.0 * c.stacktrace
  }

  /** The weighted agreement before rounding. */
  function Raw(left: Item, right: Item): real {
    Weighted(Compare(left, right))
  }

  function Score(left: Item, right: Item): int {
    (Raw(left, right) + 0.5).Floor
  }

  function SimilarityOf(left: Item, right: Item): Match {
    Match(Score(left, right), Compare(left, right))
  }

  // -- The set metric --------------------------------------------------------------------

  function SymmetricDifference<T>(a: set<T>, b: set<T>): set<T> {
    (a - b) + (b - a)
  }

  /** The symmetric difference is a metric, and together with what a and c share it covers
      either union with b. */
  lemma DifferenceTriangle<T>(a: set<T>, b: set<T>, c: set<T>)
    ensures |SymmetricDifference(a, c)| <= |SymmetricDifference(a, b)| + |SymmetricDifference(b, c)|
    ensures |a + b| <= |SymmetricDifference(a, b)| + |SymmetricDifference(b, c)| + |a * c|
    ensures |b + c| <= |SymmetricDifference(a, b)| + |SymmetricDifference(b, c)| + |a * c|
  {
    var ab, bc := SymmetricDifference(a, b), SymmetricDifference(b, c);
    SubsetSize(SymmetricDifference(a, c), ab + bc);
    SubsetSize(a + b, ab + bc + a * c);
    SubsetSize(b + c, ab + bc + a * c);
  }

  /** One minus the index is the symmetric difference over the union. */
  lemma JaccardDistance<T>(a: set<T>, b: set<T>)
    requires a + b != {}
    ensures |a + b| == |SymmetricDifference(a, b)| + |a * b|
    ensures 1.0 - JaccardIndex(a, b) == |SymmetricDifference(a, b)| as real / |a + b| as real
  {
    assert a + b == SymmetricDifference(a, b) + a * b;
    assert SymmetricDifference(a, b) * (a * b) == {};
    SplitFraction(|SymmetricDifference(a, b)| as real, |a * b| as real, |a + b| as real);
  }

  lemma SplitFraction(x: real, y: real, whole: real)
    requires whole != 0.0
    ensures (x + y) / whole == x / whole + y / whole
    ensures whole / whole == 1.0
  {
  }

  lemma DivideByLarger(x: real, small: real, large: real)
    requires 0.0 <= x && 0.0 < small <= large
    ensures x / large <= x / small
  {
    var q := x / large;
    assert q * large == x;
    assert q * small <= q * large;
    assert (q * small) / small <= x / small;
  }

  lemma FractionGrows(p: real, q: real, s: real)
    requires 0.0 <= p <= q && 0.0 <= s && 0.0 < p + s
    ensures p / (p + s) <= q / (q + s)
  {
    DivideByLarger(s, p + s, q + s);
    SplitFraction(p, s, p + s);
    SplitFraction(q, s, q + s);
  }

  /** The Jaccard distance obeys the triangle inequality, empty sets included. */
  lemma JaccardTriangle<T>(a: set<T>, b: set<T>, c: set<T>)
    ensures JaccardIndex(a, b) + JaccardIndex(b, c) <= 1.0 + JaccardIndex(a, c)
  {
    if a * b == {} || b * c == {} {
    } else {
      var ab, bc, ac := SymmetricDifference(a, b), SymmetricDifference(b, c), SymmetricDifference(a, c);
      DifferenceTriangle(a, b, c);
      JaccardDistance(a, b);
      JaccardDistance(b, c);
      JaccardDistance(a, c);
      FractionTriangle(|ab| as real, |bc| as real, |ac| as real, |a * c| as real, |a + b| as real, |b + c| as real);
    }
  }

  lemma FractionTriangle(ab: real, bc: real, ac: real, shared: real, left: real, right: real)
    requires 0.0 <= ab && 0.0 <= bc && 0.0 <= ac <= ab + bc && 0.0 <= shared && 0.0 < ac + shared
    requires 0.0 < left <= ab + bc + shared && 0.0 < right <= ab + bc + shared
    ensures ac / (ac + shared) <= ab / left + bc / right
  {
    var whole := ab + bc + shared;
    FractionGrows(ac, ab + bc, shared);
    SplitFraction(ab, bc, whole);
    DivideByLarger(ab, left, whole);
    DivideByLarger(bc, right, whole);
  }

  // -- The weighted score ----------------------------------------------------------------

  lemma ScoreSymmetric(x: Item, y: Item)
    ensures Compare(x, y) == Compare(y, x)
    ensures Score(x, y) == Score(y, x)
  {
    JaccardSymmetric(x.methodWords, y.methodWords);
    JaccardSymmetric(x.messageWords, y.messageWords);
    JaccardSymmetric(x.frames, y.frames);
  }

  lemma JaccardSymmetric<T>(a: set<T>, b: set<T>)
    ensures JaccardIndex(a, b) == JaccardIndex(b, a)
  {
    assert a + b == b + a && a * b == b * a;
  }

  lemma ScoreBounds(x: Item, y: Item)
    ensures 0.0 <= Raw(x, y) <= 100.0
    ensures 0 <= Score(x, y) <= 100
  {
  }

  /** The dissimilarity 100 - Raw obeys the triangle inequality. */
  lemma RawTriangle(x: Item, y: Item, z: Item)
    ensures 100.0 - Raw(x, z) <= (100.0 - Raw(x, y)) + (100.0 - Raw(y, z))
  {
    JaccardTriangle(x.methodWords, y.methodWords, z.methodWords);
    JaccardTriangle(x.messageWords, y.messageWords, z.messageWords);
    JaccardTriangle(x.frames, y.frames, z.frames);
  }

  /** After rounding, two results that match a third well must match each other: at most one
      point is lost on top of the exact triangle inequality. */
  lemma ScoreTriangle(x: Item, y: Item, z: Item)
    ensures Score(x, z) >= Score(x, y) + Score(y, z) - 101
  {
    RawTriangle(x, y, z);
  }

  /** What each kind of evidence is worth: a complete finding scores 100 against itself, and loses
      the weight of whatever a second finding does not share. */
  lemma WeightsShow(x: Item, y: Item)
    requires TestClass(x) != "" && x.exception != "" && x.methodWords != {} && x.messageWords != {} && x.frames != {}
    requires x.methodWords == y.methodWords || x.methodWords !! y.methodWords
    requires x.messageWords == y.messageWords || x.messageWords !! y.messageWords
    requires x.frames == y.frames || x.frames !! y.frames
    ensures Score(x, y) == 100
            - (if TestClass(x) == TestClass(y) then 0 else 25)
            - (if x.methodWords == y.methodWords then 0 else 15)
            - (if x.exception == y.exception then 0 else 15)
            - (if x.messageWords == y.messageWords then 0 else 20)
            - (if x.frames == y.frames then 0 else 25)
  {
    SharedOrNot(x.methodWords, y.methodWords);
    SharedOrNot(x.messageWords, y.messageWords);
    SharedOrNot(x.frames, y.frames);
  }

  /** Findings of no known class share none: 75 points are left at most. */
  lemma NoClassScoresLow(x: Item, y: Item)
    requires TestClass(x) == ""
    ensures Score(x, y) <= 75
  {
  }

  lemma SharedOrNot<T>(a: set<T>, b: set<T>)
    requires a != {} && (a == b || a !! b)
    ensures JaccardIndex(a, b) == if a == b then 1.0 else 0.0
  {
    assert a != b ==> a * b == {};
  }

  /** Nothing matches an item better than the item matches itself. */
  lemma SelfScoreIsLargest(x: Item, y: Item)
    ensures Score(x, y) <= Score(x, x)
    ensures Score(x, y) <= Score(y, y)
  {
    SelfIndexIsLargest(x.methodWords, y.methodWords);
    SelfIndexIsLargest(x.messageWords, y.messageWords);
    SelfIndexIsLargest(x.frames, y.frames);
    WeightedMonotone(Compare(x, y), Compare(x, x));
    WeightedMonotone(Compare(x, y), Compare(y, y));
  }

  lemma WeightedMonotone(c: Components, d: Components)
    requires c.testClass <= d.testClass && c.testMethod <= d.testMethod && c.exception <= d.exception
    requires c.message <= d.message && c.stacktrace <= d.stacktrace
    ensures Weighted(c) <= Weighted(d)
    ensures (Weighted(c) + 0.5).Floor <= (Weighted(d) + 0.5).Floor
  {
  }

  lemma SelfIndexIsLargest<T>(a: set<T>, b: set<T>)
    ensures JaccardIndex(a, b) <= JaccardIndex(a, a)
    ensures JaccardIndex(a, b) <= JaccardIndex(b, b)
  {
    if a == {} || b == {} {
      assert a * b == {};
    }
  }

  /** Without an exception name or a stack trace an item can reach 60 points at most. */
  lemma NoTraceScoresLow(x: Item, y: Item)
    requires x.exception == "" && x.frames == {}
    ensures Score(x, y) <= 60
  {
    assert x.frames * y.frames == {};
  }
}
