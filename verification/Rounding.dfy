/** When the rounded scores (site/assets/finding-groups.js) obey the triangle inequality itself, and
    when rounding costs it a point. */
module Rounding {
  import opened Similarity
  import Decimal

  function Rounded(raw: real): int {
    (raw + 0.5).Floor
  }

  /** How much rounding adds to a score. */
  function Excess(x: Item, y: Item): real {
    Score(x, y) as real - Raw(x, y)
  }

  predicate KeepsPoint(x: Item, y: Item, z: Item) {
    Score(x, z) >= Score(x, y) + Score(y, z) - 100
  }

  /** What the two unrounded scores through a finding tell: the rounded ones total at most 100, or
      rounding adds at most half a point to them together. */
  predicate PairTest(first: real, second: real) {
    || Rounded(first) + Rounded(second) <= 100
    || Rounded(first) as real - first + Rounded(second) as real - second <= 0.5
  }

  /** That is enough, whatever the third score is. */
  lemma ExactTriangle(x: Item, y: Item, z: Item)
    requires PairTest(Raw(x, y), Raw(y, z))
    ensures KeepsPoint(x, y, z)
  {
    RawTriangle(x, y, z);
    ScoreBounds(x, z);
  }

  /** Of three numbers from 0 to 100, as raw scores are, the first two pass the test if and only if
      every third one the exact triangle inequality allows keeps the point. */
  lemma PairTestIsSharp(first: real, second: real)
    requires 0.0 <= first <= 100.0 && 0.0 <= second <= 100.0
    ensures PairTest(first, second) <==>
            forall third: real | 0.0 <= third <= 100.0 && third >= first + second - 100.0 ::
              Rounded(third) >= Rounded(first) + Rounded(second) - 100
  {
    if !PairTest(first, second) {
      FailedTestIsTight(first, second);
      var third := first + second - 100.0;
      assert Rounded(third) < Rounded(first) + Rounded(second) - 100;
    }
  }

  /** If the test fails the exact inequality allows a third score that loses the point. */
  lemma FailedTestIsTight(first: real, second: real)
    requires first <= 100.0 && second <= 100.0 && !PairTest(first, second)
    ensures 0.0 <= first + second - 100.0 <= 100.0
    ensures Rounded(first + second - 100.0) < Rounded(first) + Rounded(second) - 100
  {
  }

  // -- Findings for any two scores -------------------------------------------------------

  /** For any two scores of findings the test is exact: it passes if and only if no three findings
      with these two scores through the second lose the point. */
  lemma PairTestIsExact(x: Item, y: Item, u: Item, v: Item)
    ensures PairTest(Raw(x, y), Raw(u, v)) <==>
            forall p, q, r | Raw(p, q) == Raw(x, y) && Raw(q, r) == Raw(u, v) :: KeepsPoint(p, q, r)
  {
    if PairTest(Raw(x, y), Raw(u, v)) {
      forall p, q, r | Raw(p, q) == Raw(x, y) && Raw(q, r) == Raw(u, v) ensures KeepsPoint(p, q, r) {
        ExactTriangle(p, q, r);
      }
    } else {
      ScoreBounds(x, y);
      ScoreBounds(u, v);
      FailedTestIsTight(Raw(x, y), Raw(u, v));
      var p, q, r := TightFindings(x, y, u, v);
      LosesPoint(p, q, r);
    }
  }

  lemma LosesPoint(x: Item, y: Item, z: Item)
    requires Raw(x, z) == Raw(x, y) + Raw(y, z) - 100.0
    requires Rounded(Raw(x, z)) < Rounded(Raw(x, y)) + Rounded(Raw(y, z)) - 100
    ensures !KeepsPoint(x, y, z)
  {
  }

  /** Findings for any two scores, with nothing left over: the third score is the least the exact
      triangle inequality allows. */
  lemma TightFindings(x: Item, y: Item, u: Item, v: Item) returns (p: Item, q: Item, r: Item)
    requires Raw(x, y) + Raw(u, v) >= 100.0
    ensures Raw(p, q) == Raw(x, y) && Raw(q, r) == Raw(u, v) && Raw(p, r) == Raw(x, y) + Raw(u, v) - 100.0
  {
    var n1, n2, m := CommonFraction(x, y, u, v);
    var k1, k2 := Shares(n1, n2, m);
    p, q, r := Build(n1 - k1 * m, n2 - k2 * m, m, k1, k2);
    SameFraction(Raw(x, y), Raw(p, q), n1, m);
    SameFraction(Raw(u, v), Raw(q, r), n2, m);
  }

  // -- Scores are fractions --------------------------------------------------------------

  /** What is missing to 100 is n / m. */
  predicate Missing(raw: real, n: nat, m: nat) {
    m > 0 && (100.0 - raw) * m as real == n as real
  }

  lemma SameFraction(a: real, b: real, n: nat, m: nat)
    requires Missing(a, n, m) && Missing(b, n, m)
    ensures a == b
  {
    var w := m as real;
    assert (a - b) * w == 0.0;
  }

  lemma TimesReal(a: nat, b: nat)
    ensures (a * b) as real == a as real * b as real
  {
  }

  lemma Scale(d: real, u: nat, k: nat, v: nat)
    requires d * u as real == k as real
    ensures d * (u * v) as real == (k * v) as real
  {
    TimesReal(u, v);
    TimesReal(k, v);
    Exchange(d, u as real, k as real, v as real);
  }

  lemma Exchange(d: real, u: real, k: real, v: real)
    requires d * u == k
    ensures d * (u * v) == k * v
  {
    assert d * (u * v) == (d * u) * v;
  }

  lemma IndexIsFraction<T>(a: set<T>, b: set<T>) returns (k: nat, u: nat)
    ensures u > 0 && (1.0 - JaccardIndex(a, b)) * u as real == k as real
  {
    if a + b == {} {
      k, u := 1, 1;
    } else {
      IntersectionInUnion(a, b);
      k, u := |a + b| - |a * b|, |a + b|;
      Whole(|a * b| as real, u as real);
    }
  }

  lemma Whole(part: real, whole: real)
    requires whole != 0.0
    ensures (1.0 - part / whole) * whole == whole - part
  {
    assert part / whole * whole == part;
  }

  lemma RawIsFraction(x: Item, y: Item) returns (n: nat, m: nat)
    ensures Missing(Raw(x, y), n, m)
  {
    var c := Compare(x, y);
    var k1, u1 := IndexIsFraction(x.methodWords, y.methodWords);
    var k2, u2 := IndexIsFraction(x.messageWords, y.messageWords);
    var k3, u3 := IndexIsFraction(x.frames, y.frames);
    var lost := (if c.testClass == 1.0 then 0 else 25) + (if c.exception == 1.0 then 0 else 15);
    n, m := AddUp(1.0 - c.testMethod, k1, u1, 1.0 - c.message, k2, u2, 1.0 - c.stacktrace, k3, u3, lost);
  }

  /** A weighted sum of three fractions and a whole number is a fraction. */
  lemma AddUp(d1: real, k1: nat, u1: nat, d2: real, k2: nat, u2: nat, d3: real, k3: nat, u3: nat, lost: nat)
    returns (n: nat, m: nat)
    requires u1 > 0 && u2 > 0 && u3 > 0
    requires d1 * u1 as real == k1 as real && d2 * u2 as real == k2 as real && d3 * u3 as real == k3 as real
    ensures Missing(100.0 - (lost as real + 15.0 * d1 + 20.0 * d2 + 25.0 * d3), n, m)
  {
    m := u1 * u2 * u3;
    ProductPositive(u1, u2);
    ProductPositive(u1 * u2, u3);
    Rearranged(u1, u2, u3);
    var n1 := Over(d1, u1, k1, u2 * u3, m);
    var n2 := Over(d2, u2, k2, u1 * u3, m);
    var n3 := Over(d3, u3, k3, u1 * u2, m);
    n := Summed(d1, n1, d2, n2, d3, n3, lost, m);
  }

  lemma Over(d: real, u: nat, k: nat, v: nat, m: nat) returns (n: nat)
    requires d * u as real == k as real && m == u * v
    ensures d * m as real == n as real
  {
    n := k * v;
    Scale(d, u, k, v);
  }

  lemma Summed(d1: real, n1: nat, d2: real, n2: nat, d3: real, n3: nat, lost: nat, m: nat) returns (n: nat)
    requires m > 0
    requires d1 * m as real == n1 as real && d2 * m as real == n2 as real && d3 * m as real == n3 as real
    ensures Missing(100.0 - (lost as real + 15.0 * d1 + 20.0 * d2 + 25.0 * d3), n, m)
  {
    n := lost * m + 15 * n1 + 20 * n2 + 25 * n3;
    TimesReal(lost, m);
    Distribute(lost as real, d1, d2, d3, m as real, n1 as real, n2 as real, n3 as real);
  }

  lemma ProductPositive(a: nat, b: nat)
    requires a > 0 && b > 0
    ensures a * b > 0
  {
  }

  lemma Rearranged(a: nat, b: nat, c: nat)
    ensures a * (b * c) == a * b * c == b * (a * c) == c * (a * b)
  {
  }

  lemma Distribute(lost: real, d1: real, d2: real, d3: real, m: real, n1: real, n2: real, n3: real)
    requires d1 * m == n1 && d2 * m == n2 && d3 * m == n3
    ensures (lost + 15.0 * d1 + 20.0 * d2 + 25.0 * d3) * m == lost * m + 15.0 * n1 + 20.0 * n2 + 25.0 * n3
  {
  }

  lemma CommonFraction(x: Item, y: Item, u: Item, v: Item) returns (n1: nat, n2: nat, m: nat)
    requires Raw(x, y) + Raw(u, v) >= 100.0
    ensures Missing(Raw(x, y), n1, m) && Missing(Raw(u, v), n2, m) && n1 + n2 <= 100 * m
  {
    var k1, m1 := RawIsFraction(x, y);
    var k2, m2 := RawIsFraction(u, v);
    n1, n2, m := k1 * m2, k2 * m1, m1 * m2;
    Expanded(Raw(x, y), k1, m1, m2);
    Expanded(Raw(u, v), k2, m2, m1);
    Commutes(m1, m2);
    SumBounded(Raw(x, y), Raw(u, v), n1, n2, m);
  }

  lemma Expanded(raw: real, k: nat, u: nat, v: nat)
    requires Missing(raw, k, u) && v > 0
    ensures Missing(raw, k * v, u * v)
  {
    Scale(100.0 - raw, u, k, v);
    ProductPositive(u, v);
  }

  lemma Commutes(a: nat, b: nat)
    ensures a * b == b * a
  {
  }

  lemma SumBounded(first: real, second: real, n1: nat, n2: nat, m: nat)
    requires Missing(first, n1, m) && Missing(second, n2, m) && first + second >= 100.0
    ensures n1 + n2 <= 100 * m
  {
    ProductsBounded(100.0 - first, 100.0 - second, m as real);
    assert (n1 + n2) as real <= (100 * m) as real;
  }

  lemma ProductsBounded(a: real, b: real, w: real)
    requires a + b <= 100.0 && w > 0.0
    ensures a * w + b * w <= 100.0 * w
  {
    assert (a + b) * w <= 100.0 * w;
    assert (a + b) * w == a * w + b * w;
  }

  // -- Building the findings -------------------------------------------------------------

  /** How many of the points that are missing the test class and the exception account for, on
      either leg, so that at most 60 are left for the sets. */
  lemma Shares(n1: nat, n2: nat, m: nat) returns (k1: nat, k2: nat)
    requires n1 + n2 <= 100 * m
    ensures k1 in {0, 25, 40} && k2 in {0, 25, 40} && (k1 == 0 || k2 == 0)
    ensures k1 * m <= n1 && k2 * m <= n2 && (n1 - k1 * m) + (n2 - k2 * m) <= 60 * m
  {
    var k := if n1 + n2 <= 60 * m then 0 else if n1 + n2 <= 85 * m then 25 else 40;
    k1, k2 := if n1 >= n2 then k else 0, if n1 >= n2 then 0 else k;
    if k == 25 {
      assert 25 * m <= 30 * m;
    }
  }

  const SAME := "same"
  const OTHER := "other"

  /** A finding whose words and frames are all the same set, and which differs from the rest in test
      class or exception as the share of the leg wants it. */
  function Finding(share: nat, evidence: set<string>): Item {
    Item(if share >= 25 then OTHER else SAME, "", "", evidence, if share >= 40 then OTHER else SAME, evidence, evidence)
  }

  lemma RawOfFindings(s: nat, a: set<string>, t: nat, b: set<string>)
    requires s in {0, 25, 40} && t in {0, 25, 40} && (s == 0 || t == 0)
    ensures Raw(Finding(s, a), Finding(t, b)) == 40.0 - (s + t) as real + 60.0 * JaccardIndex(a, b)
  {
    assert SAME[0] != OTHER[0];
  }

  lemma Build(p1: nat, p2: nat, m: nat, k1: nat, k2: nat) returns (x: Item, y: Item, z: Item)
    requires m > 0 && p1 + p2 <= 60 * m
    requires k1 in {0, 25, 40} && k2 in {0, 25, 40} && (k1 == 0 || k2 == 0)
    ensures Missing(Raw(x, y), p1 + k1 * m, m) && Missing(Raw(y, z), p2 + k2 * m, m)
    ensures Raw(x, z) == Raw(x, y) + Raw(y, z) - 100.0
  {
    var q := 60 * m;
    var ab, bc, ac;
    x, y, z, ab, bc, ac := SpanFindings(p1, q - p2, q, k1, k2);
    LegMisses(ab, p1, k1, m);
    LegMisses(bc, p2, k2, m);
  }

  /** Three findings on the names from lo on, all names, and the names up to hi, and the indexes
      their scores come from. */
  lemma SpanFindings(lo: nat, hi: nat, q: nat, k1: nat, k2: nat)
    returns (x: Item, y: Item, z: Item, ab: real, bc: real, ac: real)
    requires 0 < q && lo <= hi <= q
    requires k1 in {0, 25, 40} && k2 in {0, 25, 40} && (k1 == 0 || k2 == 0)
    ensures Raw(x, y) == 40.0 - k1 as real + 60.0 * ab && Raw(y, z) == 40.0 - k2 as real + 60.0 * bc
    ensures Raw(x, z) == 40.0 - (k1 + k2) as real + 60.0 * ac
    ensures ab == (q - lo) as real / q as real && bc == hi as real / q as real && ab + bc == 1.0 + ac
  {
    var a, b, c := Span(lo, q), Span(0, q), Span(0, hi);
    x, y, z := Finding(k1, a), Finding(0, b), Finding(k2, c);
    RawOfFindings(k1, a, 0, b);
    RawOfFindings(0, b, k2, c);
    RawOfFindings(k1, a, k2, c);
    ab, bc, ac := Indexes(lo, hi, q);
  }

  lemma Indexes(lo: nat, hi: nat, q: nat) returns (ab: real, bc: real, ac: real)
    requires 0 < q && lo <= hi <= q
    ensures ab == JaccardIndex(Span(lo, q), Span(0, q)) && bc == JaccardIndex(Span(0, q), Span(0, hi))
    ensures ac == JaccardIndex(Span(lo, q), Span(0, hi)) && ab + bc == 1.0 + ac
    ensures ab == (q - lo) as real / q as real && bc == hi as real / q as real
  {
    ab, bc := JaccardIndex(Span(lo, q), Span(0, q)), JaccardIndex(Span(0, q), Span(0, hi));
    ac := JaccardIndex(Span(lo, q), Span(0, hi));
    SpanIndex(lo, q, q);
    WholeToFront(hi, q);
    NoDetour(lo, hi, q);
  }

  lemma WholeToFront(hi: nat, q: nat)
    requires 0 < q && hi <= q
    ensures JaccardIndex(Span(0, q), Span(0, hi)) == hi as real / q as real
  {
    SpanIndex(0, hi, q);
    JaccardSymmetric(Span(0, q), Span(0, hi));
  }

  /** Dropping names at the front and then others at the back loses nothing through the whole. */
  lemma NoDetour(lo: nat, hi: nat, q: nat)
    requires 0 < q && lo <= hi <= q
    ensures JaccardIndex(Span(lo, q), Span(0, q)) + JaccardIndex(Span(0, q), Span(0, hi)) ==
            1.0 + JaccardIndex(Span(lo, q), Span(0, hi))
  {
    SpansMeet(lo, hi, q);
    JaccardThroughUnion(Span(lo, q), Span(0, hi));
  }

  lemma SpansMeet(lo: nat, hi: nat, q: nat)
    requires 0 < q && lo <= hi <= q
    ensures Span(lo, q) + Span(0, hi) == Span(0, q) != {}
  {
    assert Decimal.Text(0) in Span(0, q);
  }

  lemma SpanIndex(lo: nat, hi: nat, q: nat)
    requires 0 < q && lo <= hi <= q
    ensures JaccardIndex(Span(lo, hi), Span(0, q)) == (hi - lo) as real / q as real
  {
    SpanSize(0, q);
    SpanSize(lo, hi);
    assert Span(lo, hi) <= Span(0, q);
    assert Decimal.Text(0) in Span(0, q);
    PartIndex(Span(lo, hi), Span(0, q));
  }

  lemma PartIndex<T>(part: set<T>, whole: set<T>)
    requires part <= whole != {}
    ensures JaccardIndex(part, whole) == |part| as real / |whole| as real
  {
    assert part + whole == whole && part * whole == part;
  }

  lemma LegMisses(index: real, p: nat, k: nat, m: nat)
    requires m > 0 && k in {0, 25, 40} && p <= 60 * m
    requires index == (60 * m - p) as real / (60 * m) as real
    ensures Missing(40.0 - k as real + 60.0 * index, p + k * m, m)
  {
    var whole := (60 * m) as real;
    assert index * whole == (60 * m - p) as real;
    assert whole == 60.0 * m as real;
    LegSum(index, m as real, p as real, k as real);
    TimesReal(k, m);
  }

  lemma LegSum(index: real, m: real, p: real, k: real)
    requires index * (60.0 * m) == 60.0 * m - p
    ensures (100.0 - (40.0 - k + 60.0 * index)) * m == p + k * m
  {
    assert index * (60.0 * m) == 60.0 * index * m;
  }

  /** The names of the numbers from lo up to hi. */
  function Span(lo: nat, hi: nat): set<string> {
    set i | lo <= i < hi :: Decimal.Text(i)
  }

  lemma {:induction false} SpanSize(lo: nat, hi: nat)
    requires lo <= hi
    ensures |Span(lo, hi)| == hi - lo
  {
    if lo < hi {
      SpanSize(lo, hi - 1);
      var last := Decimal.Text(hi - 1);
      if last in Span(lo, hi - 1) {
        var i :| lo <= i < hi - 1 && Decimal.Text(i) == last;
        Decimal.TextIsInjective(i, hi - 1);
      }
      assert Span(lo, hi) == Span(lo, hi - 1) + {last};
    }
  }

  /** Going through the union is no detour. */
  lemma JaccardThroughUnion<T>(a: set<T>, c: set<T>)
    requires a + c != {}
    ensures JaccardIndex(a, a + c) + JaccardIndex(a + c, c) == 1.0 + JaccardIndex(a, c)
  {
    var b := a + c;
    assert a + b == b && b + c == b && a * b == a && b * c == c;
    assert |a| + |c| == |b| + |a * c|;
    SplitFraction(|a| as real, |c| as real, |b| as real);
    SplitFraction(|b| as real, |a * c| as real, |b| as real);
  }

  // -- Given findings --------------------------------------------------------------------

  /** The evidence of the second finding is exactly that of the other two together. */
  predicate Unites(x: Item, y: Item, z: Item) {
    && Agreed(TestClass(x), TestClass(y), TestClass(z)) && Agreed(x.exception, y.exception, z.exception)
    && y.methodWords == x.methodWords + z.methodWords != {}
    && y.messageWords == x.messageWords + z.messageWords != {}
    && y.frames == x.frames + z.frames != {}
  }

  predicate Agreed(a: string, b: string, c: string) {
    a == b == c != ""
  }

  /** What the exact triangle inequality leaves over. */
  function Slack(x: Item, y: Item, z: Item): (slack: real)
    ensures slack >= 0.0
  {
    RawTriangle(x, y, z);
    100.0 - Raw(x, y) - Raw(y, z) + Raw(x, z)
  }

  /** The inequality with its floor opened. */
  lemma ExactTriangleIff(x: Item, y: Item, z: Item)
    ensures KeepsPoint(x, y, z) <==> Excess(x, y) + Excess(y, z) <= 0.5 + Slack(x, y, z)
  {
  }

  /** Where the second finding unites the other two, the excess of rounding decides alone. */
  lemma ExactTriangleThroughUnion(x: Item, y: Item, z: Item)
    requires Unites(x, y, z)
    ensures KeepsPoint(x, y, z) <==> Excess(x, y) + Excess(y, z) <= 0.5
  {
    JaccardThroughUnion(x.methodWords, z.methodWords);
    JaccardThroughUnion(x.messageWords, z.messageWords);
    JaccardThroughUnion(x.frames, z.frames);
    RawThroughUnion(Compare(x, y), Compare(y, z), Compare(x, z));
    ExactTriangleIff(x, y, z);
  }

  lemma RawThroughUnion(xy: Components, yz: Components, xz: Components)
    requires xy.testClass == yz.testClass == xz.testClass == 1.0 && xy.exception == yz.exception == xz.exception == 1.0
    requires xy.testMethod + yz.testMethod == 1.0 + xz.testMethod && xy.message + yz.message == 1.0 + xz.message
    requires xy.stacktrace + yz.stacktrace == 1.0 + xz.stacktrace
    ensures Weighted(xy) + Weighted(yz) == 100.0 + Weighted(xz)
  {
  }

  /** The lost point is real: sharing one of two method words on either side loses it. */
  lemma RoundingLosesAPoint(x: Item, y: Item, z: Item, a: string, b: string)
    requires a != b && x.exception != "" && TestClass(x) != "" && x.messageWords != {} && x.frames != {}
    requires x.methodWords == {a} && y == x.(methodWords := {a, b}) && z == x.(methodWords := {b})
    ensures Score(x, z) == Score(x, y) + Score(y, z) - 101
    ensures Excess(x, y) + Excess(y, z) == 1.0
  {
    assert {a} + {a, b} == {a, b} == {a, b} + {b};
    assert {a} * {a, b} == {a} && {a, b} * {b} == {b} && {a} * {b} == {};
    assert Raw(x, y) == Raw(y, z) == 92.5;
  }

  /** With no other evidence the same method words score 8 on either side, rounded up as far, and
      nothing can be lost: a test of the excess alone would refuse these findings for no reason. */
  lemma LowScoresLoseNothing(x: Item, y: Item, z: Item, a: string, b: string)
    requires a != b && x == Item("", "", "", {a}, "", {}, {})
    requires y == x.(methodWords := {a, b}) && z == x.(methodWords := {b})
    ensures Score(x, y) == Score(y, z) == 8 && Excess(x, y) + Excess(y, z) == 1.0
    ensures PairTest(Raw(x, y), Raw(y, z))
  {
    assert {a} + {a, b} == {a, b} == {a, b} + {b};
    assert {a} * {a, b} == {a} && {a, b} * {b} == {b};
    assert Raw(x, y) == Raw(y, z) == 7.5;
  }
}
