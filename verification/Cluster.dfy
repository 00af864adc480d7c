/** Complete-link grouping of findings (site/assets/finding-groups.js, site/assets/status.js).
    A finding is named by its position in the input list, which stands for object identity.
    The run of the algorithm is described over any score of two positions; `Clustered` is the
    source's function, where that score is the similarity of the two findings. */
module Cluster {
  import opened Wrappers
  import opened Similarity

  type Scorer = (nat, nat) -> int

  type Members = seq<nat>

  /** What a group says at one moment. */
  datatype Summary = Summary(items: Members, representative: nat, matches: map<nat, Match>)

  /** The scores of i against every member, in member order. */
  function Scores(score: Scorer, g: Members, i: nat): seq<int> {
    seq(|g|, k requires 0 <= k < |g| => score(i, g[k]))
  }

  function Sum(xs: seq<int>): int {
    if xs == [] then 0 else Sum(xs[..|xs| - 1]) + xs[|xs| - 1]
  }

  function Minimum(xs: seq<int>): (m: int)
    requires xs != []
    ensures exists k :: 0 <= k < |xs| && xs[k] == m
    ensures forall k | 0 <= k < |xs| :: m <= xs[k]
  {
    var last := |xs| - 1;
    if last == 0 then xs[0]
    else
      var m := Minimum(xs[..last]);
      if xs[last] < m then xs[last] else m
  }

  function Maximum(xs: seq<int>): (m: int)
    requires xs != []
    ensures exists k :: 0 <= k < |xs| && xs[k] == m
    ensures forall k | 0 <= k < |xs| :: xs[k] <= m
  {
    var last := |xs| - 1;
    if last == 0 then xs[0]
    else
      var m := Maximum(xs[..last]);
      if xs[last] > m then xs[last] else m
  }

  function Average(score: Scorer, g: Members, i: nat): real
    requires g != []
  {
    Sum(Scores(score, g, i)) as real / |g| as real
  }

  // -- What an average is ----------------------------------------------------------------

  lemma AverageOfOne(score: Scorer, m: nat, i: nat)
    ensures Average(score, [m], i) == score(i, m) as real
  {
    assert Scores(score, [m], i) == [score(i, m)];
    assert Sum([score(i, m)]) == score(i, m);
    TimesSize(score(i, m), 1);
  }

  /** One more member adds its score to the total. */
  lemma AverageOfSnoc(score: Scorer, g: Members, m: nat, i: nat)
    requires g != []
    ensures Average(score, g + [m], i) * (|g| + 1) as real ==
            Average(score, g, i) * |g| as real + score(i, m) as real
  {
    var scores := Scores(score, g, i);
    assert Scores(score, g + [m], i) == scores + [score(i, m)];
    assert (scores + [score(i, m)])[..|scores|] == scores;
    TimesSize(Sum(scores + [score(i, m)]), |g| + 1);
    TimesSize(Sum(scores), |g|);
  }

  lemma TimesSize(total: int, size: nat)
    requires size > 0
    ensures total as real / size as real * size as real == total as real
  {
  }

  /** Scores that are nowhere lower, over as many members, do not make a lower average; and if one
      of them is higher so is the average. */
  lemma {:induction false} AverageMonotone(score: Scorer, g: Members, i: nat, h: Members, j: nat)
    requires |g| == |h| > 0 && forall k | 0 <= k < |g| :: score(i, g[k]) <= score(j, h[k])
    ensures Average(score, g, i) <= Average(score, h, j)
    ensures (exists k :: 0 <= k < |g| && score(i, g[k]) < score(j, h[k])) ==>
              Average(score, g, i) < Average(score, h, j)
  {
    var n := |g| - 1;
    if n == 0 {
      assert g == [g[0]] && h == [h[0]];
      AverageOfOne(score, g[0], i);
      AverageOfOne(score, h[0], j);
    } else {
      assert g == g[..n] + [g[n]] && h == h[..n] + [h[n]];
      AverageMonotone(score, g[..n], i, h[..n], j);
      AverageOfSnoc(score, g[..n], g[n], i);
      AverageOfSnoc(score, h[..n], h[n], j);
      AddToTotals(Average(score, g[..n], i), Average(score, h[..n], j), score(i, g[n]), score(j, h[n]), n,
                  Average(score, g, i), Average(score, h, j));
    }
  }

  lemma AddToTotals(a: real, b: real, x: int, y: int, n: nat, after: real, beyond: real)
    requires a <= b && x <= y && n > 0
    requires after * (n + 1) as real == a * n as real + x as real
    requires beyond * (n + 1) as real == b * n as real + y as real
    ensures after <= beyond
    ensures a < b || x < y ==> after < beyond
  {
    SignOfProduct(b - a, n as real);
    SignOfProduct(beyond - after, (n + 1) as real);
    Spread(b, a, n as real);
    Spread(beyond, after, (n + 1) as real);
  }

  lemma SignOfProduct(x: real, w: real)
    requires w > 0.0
    ensures x > 0.0 <==> x * w > 0.0
    ensures x == 0.0 <==> x * w == 0.0
  {
    if x < 0.0 {
      assert -x * w > 0.0;
    }
  }

  lemma Spread(x: real, y: real, w: real)
    ensures (x - y) * w == x * w - y * w
  {
  }

  /** An average lies among what is averaged. */
  lemma {:induction false} AverageBetween(score: Scorer, g: Members, i: nat, low: int, high: int)
    requires g != [] && forall k | 0 <= k < |g| :: low <= score(i, g[k]) <= high
    ensures low as real <= Average(score, g, i) <= high as real
  {
    var n := |g| - 1;
    if n == 0 {
      assert g == [g[0]];
      AverageOfOne(score, g[0], i);
    } else {
      assert g == g[..n] + [g[n]];
      AverageBetween(score, g[..n], i, low, high);
      AverageOfSnoc(score, g[..n], g[n], i);
      StaysBetween(Average(score, g[..n], i), score(i, g[n]), n, Average(score, g, i), low, high);
    }
  }

  lemma StaysBetween(a: real, x: int, n: nat, after: real, low: int, high: int)
    requires n > 0 && low as real <= a <= high as real && low <= x <= high
    requires after * (n + 1) as real == a * n as real + x as real
    ensures low as real <= after <= high as real
  {
    AddToTotals(low as real, a, low, x, n, low as real, after);
    AddToTotals(a, high as real, x, high, n, after, high as real);
  }

  // -- What the grouping promises --------------------------------------------------------

  ghost predicate Symmetric(score: Scorer) {
    forall a, b :: score(a, b) == score(b, a)
  }

  /** i clears the threshold against every member of g. */
  ghost predicate Joins(score: Scorer, g: Members, i: nat, threshold: real) {
    forall p | 0 <= p < |g| :: score(i, g[p]) as real >= threshold
  }

  /** Every two distinct members clear the threshold against each other. */
  ghost predicate Cohesive(score: Scorer, g: Members, threshold: real) {
    forall p, q | 0 <= p < |g| && 0 <= q < |g| && p != q :: score(g[p], g[q]) as real >= threshold
  }

  ghost predicate Ascending(g: Members) {
    forall j, k | 0 <= j < k < |g| :: g[j] < g[k]
  }

  ghost predicate Owned(gs: seq<Members>, m: nat) {
    exists k :: 0 <= k < |gs| && m in gs[k]
  }

  ghost predicate Disjoint(g: Members, h: Members) {
    forall m | m in g :: m !in h
  }

  /** gs splits 0..n into non-empty subsequences: nothing lost, nothing twice, order kept. */
  ghost predicate Partition(gs: seq<Members>, n: nat) {
    && (forall k | 0 <= k < |gs| :: gs[k] != [] && Ascending(gs[k]))
    && (forall m: nat :: Owned(gs, m) <==> m < n)
    && (forall j, k | 0 <= j < k < |gs| :: Disjoint(gs[j], gs[k]))
  }

  ghost predicate Below(score: Scorer, a: nat, b: nat, threshold: real) {
    score(a, b) as real < threshold
  }

  /** Some member of one group and some member of the other fall below the threshold. */
  ghost predicate Apart(score: Scorer, g: Members, h: Members, threshold: real) {
    exists a, b :: a in g && b in h && Below(score, a, b, threshold)
  }

  ghost predicate Grouping(score: Scorer, gs: seq<Members>, n: nat, threshold: real) {
    && Partition(gs, n)
    && (forall k | 0 <= k < |gs| :: Cohesive(score, gs[k], threshold))
    && (forall j, k | 0 <= j < k < |gs| :: Apart(score, gs[j], gs[k], threshold))
  }

  ghost predicate NoneEmpty(gs: seq<Members>) {
    forall k | 0 <= k < |gs| :: gs[k] != []
  }

  /** best is the group to join: it qualifies, no other qualifying group has a higher average,
      and no earlier one has the same; it is no group at all only if none qualifies. */
  ghost predicate Chosen(score: Scorer, gs: seq<Members>, i: nat, threshold: real, best: Option<nat>)
    requires NoneEmpty(gs)
  {
    match best
    case None => forall k | 0 <= k < |gs| :: !Joins(score, gs[k], i, threshold)
    case Some(b) =>
      && b < |gs| && Joins(score, gs[b], i, threshold)
      && forall k | 0 <= k < |gs| && Joins(score, gs[k], i, threshold) ::
           if k < b then Average(score, gs[k], i) < Average(score, gs[b], i)
           else Average(score, gs[k], i) <= Average(score, gs[b], i)
  }

  function Place(gs: seq<Members>, i: nat, best: Option<nat>): seq<Members>
    requires best.Some? ==> best.value < |gs|
  {
    match best
    case Some(b) => gs[b := gs[b] + [i]]
    case None => gs + [[i]]
  }

  lemma PlaceKeepsPartition(gs: seq<Members>, n: nat, best: Option<nat>)
    requires Partition(gs, n) && (best.Some? ==> best.value < |gs|)
    ensures Partition(Place(gs, n, best), n + 1)
  {
    var after := Place(gs, n, best);
    PlaceOwns(gs, n, best);
    assert !Owned(gs, n);
    forall j, k | 0 <= j < k < |after|
      ensures Disjoint(after[j], after[k])
    {
      assert j < |gs| && n !in gs[j] && (k < |gs| ==> n !in gs[k] && Disjoint(gs[j], gs[k]));
    }
    forall k | 0 <= k < |after|
      ensures after[k] != [] && Ascending(after[k])
    {
      if k < |gs| {
        assert Ascending(gs[k]);
        assert forall p | 0 <= p < |gs[k]| :: Owned(gs, gs[k][p]);
      }
    }
  }

  lemma PlaceOwns(gs: seq<Members>, n: nat, best: Option<nat>)
    requires best.Some? ==> best.value < |gs|
    ensures forall m :: Owned(Place(gs, n, best), m) <==> m == n || Owned(gs, m)
  {
    var after := Place(gs, n, best);
    forall m ensures Owned(after, m) <==> m == n || Owned(gs, m) {
      if Owned(gs, m) {
        var k :| 0 <= k < |gs| && m in gs[k];
        assert m in after[k];
      }
      var home := if best.Some? then best.value else |gs|;
      assert n in after[home];
      if Owned(after, m) && m != n {
        var k :| 0 <= k < |after| && m in after[k];
        assert m in gs[k];
      }
    }
  }

  /** What one placement keeps. */
  lemma PlaceKeepsGrouping(score: Scorer, gs: seq<Members>, n: nat, threshold: real, best: Option<nat>)
    requires Symmetric(score) && Grouping(score, gs, n, threshold)
    requires Chosen(score, gs, n, threshold, best)
    ensures Grouping(score, Place(gs, n, best), n + 1, threshold)
  {
    PlaceKeepsPartition(gs, n, best);
    var after := Place(gs, n, best);
    forall k | 0 <= k < |after|
      ensures Cohesive(score, after[k], threshold)
    {
      if best == Some(k) {
        JoinKeepsCohesive(score, gs[k], n, threshold);
      } else if k < |gs| {
        assert Cohesive(score, gs[k], threshold);
      }
    }
    forall j, k | 0 <= j < k < |after|
      ensures Apart(score, after[j], after[k], threshold)
    {
      if k < |gs| {
        assert Apart(score, gs[j], gs[k], threshold);
        var a, b :| a in gs[j] && b in gs[k] && Below(score, a, b, threshold);
        assert a in after[j] && b in after[k];
      } else {
        assert !Joins(score, gs[j], n, threshold);
        var p :| 0 <= p < |gs[j]| && !(score(n, gs[j][p]) as real >= threshold);
        assert Below(score, gs[j][p], n, threshold) && gs[j][p] in after[j] && n in after[k];
      }
    }
  }

  lemma JoinKeepsCohesive(score: Scorer, g: Members, n: nat, threshold: real)
    requires Symmetric(score) && Cohesive(score, g, threshold) && Joins(score, g, n, threshold)
    ensures Cohesive(score, g + [n], threshold)
  {
    var h := g + [n];
    forall p, q | 0 <= p < |h| && 0 <= q < |h| && p != q
      ensures score(h[p], h[q]) as real >= threshold
    {
      if p == |g| {
        assert score(n, g[q]) as real >= threshold;
      } else if q == |g| {
        assert score(n, g[p]) as real >= threshold;
      }
    }
  }

  // -- The loop as a run -----------------------------------------------------------------

  /** The groups after i + 1 items are those after i items with item i placed where it is best. */
  ghost predicate Step(score: Scorer, threshold: real, i: nat, before: seq<Members>, after: seq<Members>)
    requires NoneEmpty(before)
  {
    exists best :: Chosen(score, before, i, threshold, best) && after == Place(before, i, best)
  }

  ghost predicate IsRun(score: Scorer, threshold: real, run: seq<seq<Members>>) {
    && run != [] && run[0] == []
    && (forall n | 0 <= n < |run| :: NoneEmpty(run[n]))
    && forall n | 0 < n < |run| :: Step(score, threshold, n - 1, run[n - 1], run[n])
  }

  /** gs are the groups a run over 0..n ends with. */
  ghost predicate EndsWith(score: Scorer, n: nat, threshold: real, gs: seq<Members>) {
    exists run :: IsRun(score, threshold, run) && |run| == n + 1 && run[n] == gs
  }

  /** Every list of groups along a run is a grouping of the items placed so far. */
  lemma {:induction false} RunKeepsGrouping(score: Scorer, threshold: real, run: seq<seq<Members>>, n: nat)
    requires Symmetric(score) && IsRun(score, threshold, run) && n < |run|
    ensures Grouping(score, run[n], n, threshold)
  {
    if n > 0 {
      RunKeepsGrouping(score, threshold, run, n - 1);
      assert Step(score, threshold, n - 1, run[n - 1], run[n]);
      var best :| Chosen(score, run[n - 1], n - 1, threshold, best) && run[n] == Place(run[n - 1], n - 1, best);
      PlaceKeepsGrouping(score, run[n - 1], n - 1, threshold, best);
    }
  }

  lemma RunExtends(score: Scorer, threshold: real, run: seq<seq<Members>>, next: seq<Members>)
    requires IsRun(score, threshold, run) && NoneEmpty(next)
    requires Step(score, threshold, |run| - 1, run[|run| - 1], next)
    ensures IsRun(score, threshold, run + [next])
  {
    var longer := run + [next];
    forall n | 0 < n < |longer| ensures Step(score, threshold, n - 1, longer[n - 1], longer[n]) {
      if n < |run| {
        assert Step(score, threshold, n - 1, run[n - 1], run[n]);
      }
    }
  }

  lemma ChosenIsUnique(score: Scorer, gs: seq<Members>, i: nat, threshold: real, b: Option<nat>, c: Option<nat>)
    requires NoneEmpty(gs)
    requires Chosen(score, gs, i, threshold, b) && Chosen(score, gs, i, threshold, c)
    ensures b == c
  {
  }

  /** The scores and the threshold determine the groups. */
  lemma {:induction false} RunsAgree(score: Scorer, threshold: real, r: seq<seq<Members>>, s: seq<seq<Members>>, n: nat)
    requires IsRun(score, threshold, r) && IsRun(score, threshold, s) && n < |r| && n < |s|
    ensures r[n] == s[n]
  {
    if n > 0 {
      RunsAgree(score, threshold, r, s, n - 1);
      assert Step(score, threshold, n - 1, r[n - 1], r[n]) && Step(score, threshold, n - 1, s[n - 1], s[n]);
      var b :| Chosen(score, r[n - 1], n - 1, threshold, b) && r[n] == Place(r[n - 1], n - 1, b);
      var c :| Chosen(score, s[n - 1], n - 1, threshold, c) && s[n] == Place(s[n - 1], n - 1, c);
      ChosenIsUnique(score, r[n - 1], n - 1, threshold, b, c);
    }
  }

  /** No two groups of a grouping could be united. */
  lemma GroupsCannotUnite(score: Scorer, gs: seq<Members>, n: nat, threshold: real, j: nat, k: nat)
    requires Symmetric(score) && Grouping(score, gs, n, threshold) && j < |gs| && k < |gs| && j != k
    ensures !Cohesive(score, gs[j] + gs[k], threshold)
  {
    var low, high := if j < k then j else k, if j < k then k else j;
    assert Apart(score, gs[low], gs[high], threshold) && Disjoint(gs[low], gs[high]);
    var a, b :| a in gs[low] && b in gs[high] && Below(score, a, b, threshold);
    var both := gs[j] + gs[k];
    assert a in both && b in both && a != b;
    var p :| 0 <= p < |both| && both[p] == a;
    var q :| 0 <= q < |both| && both[q] == b;
    assert score(both[p], both[q]) as real < threshold;
  }

  // -- Representatives and the displayed range -------------------------------------------

  /** Position p holds the first member with the highest average score to its group. */
  ghost predicate IsMedoid(score: Scorer, g: Members, p: nat)
    requires g != []
  {
    && p < |g|
    && (forall q | 0 <= q < |g| :: Average(score, g, g[q]) <= Average(score, g, g[p]))
    && (forall q | 0 <= q < p :: Average(score, g, g[q]) < Average(score, g, g[p]))
  }

  ghost predicate Stands(score: Scorer, g: Members, representative: nat)
    requires g != []
  {
    exists p: nat :: IsMedoid(score, g, p) && g[p] == representative
  }

  /** No member matches the group better than the representative does: none scores at least as high
      against every member and higher against one. */
  lemma MedoidIsNotBeaten(score: Scorer, g: Members, p: nat, q: nat)
    requires g != [] && IsMedoid(score, g, p) && q < |g|
    requires forall k | 0 <= k < |g| :: score(g[p], g[k]) <= score(g[q], g[k])
    ensures forall k | 0 <= k < |g| :: score(g[p], g[k]) == score(g[q], g[k])
    ensures p <= q
  {
    AverageMonotone(score, g, g[p], g, g[q]);
    AverageMonotone(score, g, g[q], g, g[q]);
    if forall k | 0 <= k < |g| :: score(g[q], g[k]) == score(g[p], g[k]) {
      AverageMonotone(score, g, g[q], g, g[p]);
    }
  }

  /** No group that may be joined matches better than the chosen one: none whose scores all lie above
      all of the chosen one's, and none of its size that is nowhere lower and somewhere higher. */
  lemma ChosenIsNotBeaten(score: Scorer, gs: seq<Members>, i: nat, threshold: real, b: nat, k: nat)
    requires NoneEmpty(gs) && Chosen(score, gs, i, threshold, Some(b))
    requires k < |gs| && Joins(score, gs[k], i, threshold)
    ensures exists p, q :: 0 <= p < |gs[b]| && 0 <= q < |gs[k]| && score(i, gs[k][q]) <= score(i, gs[b][p])
    ensures |gs[k]| == |gs[b]| && (forall p | 0 <= p < |gs[b]| :: score(i, gs[b][p]) <= score(i, gs[k][p])) ==>
              forall p | 0 <= p < |gs[b]| :: score(i, gs[b][p]) == score(i, gs[k][p])
  {
    var chosen, other := Scores(score, gs[b], i), Scores(score, gs[k], i);
    var high, low := Maximum(chosen), Minimum(other);
    var p :| 0 <= p < |chosen| && chosen[p] == high;
    var q :| 0 <= q < |other| && other[q] == low;
    ChosenNeedsOverlap(score, gs[b], gs[k], i, high, low);
    assert score(i, gs[k][q]) <= score(i, gs[b][p]);
    if |gs[k]| == |gs[b]| && forall p | 0 <= p < |gs[b]| :: score(i, gs[b][p]) <= score(i, gs[k][p]) {
      AverageMonotone(score, gs[b], i, gs[k], i);
    }
  }

  lemma ChosenNeedsOverlap(score: Scorer, g: Members, h: Members, i: nat, high: int, low: int)
    requires g != [] && h != [] && Average(score, h, i) <= Average(score, g, i)
    requires high == Maximum(Scores(score, g, i)) && low == Minimum(Scores(score, h, i))
    ensures low <= high
  {
    var chosen, other := Scores(score, g, i), Scores(score, h, i);
    assert forall k | 0 <= k < |g| :: chosen[k] == score(i, g[k]);
    assert forall k | 0 <= k < |h| :: other[k] == score(i, h[k]);
    AverageBetween(score, g, i, Minimum(chosen), high);
    AverageBetween(score, h, i, low, Maximum(other));
  }

  /** The members other than the representative, in order. */
  function Others(g: Members, representative: nat): (others: Members)
    ensures forall m :: m in others <==> m in g && m != representative
  {
    if g == [] then []
    else if g[0] == representative then Others(g[1..], representative)
    else [g[0]] + Others(g[1..], representative)
  }

  function ShownScores(group: Summary): seq<int>
    requires forall m | m in group.items :: m in group.matches
  {
    var others := Others(group.items, group.representative);
    seq(|others|, k requires 0 <= k < |others| => assert others[k] in others; group.matches[others[k]].score)
  }

  /** The page's score range: the lowest and the highest of the matches it shows. */
  function DisplayedRange(group: Summary): (range: (int, int))
    requires forall m | m in group.items :: m in group.matches
    requires ShownScores(group) != []
  {
    (Minimum(ShownScores(group)), Maximum(ShownScores(group)))
  }

  // -- The source's loops ----------------------------------------------------------------

  lemma MinimumDecidesJoin(score: Scorer, g: Members, i: nat, threshold: real)
    requires g != []
    ensures Minimum(Scores(score, g, i)) as real >= threshold <==> Joins(score, g, i, threshold)
  {
    var scores := Scores(score, g, i);
    assert forall p | 0 <= p < |g| :: scores[p] == score(i, g[p]);
  }

  lemma ChosenExtends(score: Scorer, gs: seq<Members>, g: Members, i: nat, threshold: real, best: Option<nat>)
    requires NoneEmpty(gs) && g != [] && Chosen(score, gs, i, threshold, best)
    ensures NoneEmpty(gs + [g])
    ensures Chosen(score, gs + [g], i, threshold,
                   if Joins(score, g, i, threshold)
                      && (best.None? || Average(score, g, i) > Average(score, gs[best.value], i))
                   then Some(|gs|) else best)
  {
  }

  /** The inner loop's body: whether i clears the threshold against a group, and how well. */
  method Compared(score: Scorer, g: Members, i: nat, threshold: real) returns (joins: bool, average: real)
    requires g != []
    ensures joins <==> Joins(score, g, i, threshold)
    ensures average == Average(score, g, i)
  {
    MinimumDecidesJoin(score, g, i, threshold);
    joins := Minimum(Scores(score, g, i)) as real >= threshold;
    average := Average(score, g, i);
  }

  method Medoid(score: Scorer, g: Members) returns (p: nat)
    requires g != []
    ensures IsMedoid(score, g, p)
  {
    p := 0;
    for q := 1 to |g|
      invariant 0 <= p < q <= |g|
      invariant forall r | 0 <= r < q :: Average(score, g, g[r]) <= Average(score, g, g[p])
      invariant forall r | 0 <= r < p :: Average(score, g, g[r]) < Average(score, g, g[p])
    {
      if Average(score, g, g[q]) > Average(score, g, g[p]) {
        p := q;
      }
    }
  }

  // -- Findings --------------------------------------------------------------------------

  function PairScore(items: seq<Item>): Scorer {
    (a: nat, b: nat) => if a < |items| && b < |items| then Score(items[a], items[b]) else 0
  }

  lemma PairScoreSymmetric(items: seq<Item>)
    ensures Symmetric(PairScore(items))
  {
    forall a: nat, b: nat
      ensures PairScore(items)(a, b) == PairScore(items)(b, a)
    {
      if a < |items| && b < |items| {
        ScoreSymmetric(items[a], items[b]);
      }
    }
  }

  /** gs are the groups a complete run over the items ends with. */
  ghost predicate ResultOf(items: seq<Item>, threshold: real, gs: seq<Members>) {
    EndsWith(PairScore(items), |items|, threshold, gs)
  }

  ghost predicate InRange(items: seq<Item>, g: Members) {
    forall p | 0 <= p < |g| :: g[p] < |items|
  }

  predicate Unlike(items: seq<Item>, a: nat, b: nat, threshold: real) {
    a < |items| && b < |items| && Score(items[a], items[b]) as real < threshold
  }

  ghost predicate NoneUnlike(items: seq<Item>, g: Members, threshold: real) {
    forall p, q | 0 <= p < |g| && 0 <= q < |g| && p != q :: !Unlike(items, g[p], g[q], threshold)
  }

  ghost predicate SomeUnlike(items: seq<Item>, g: Members, h: Members, threshold: real) {
    exists a, b :: a in g && b in h && Unlike(items, a, b, threshold)
  }

  /** The groups split the findings. No two findings of a group are unlike, and some two findings of
      any two groups are. */
  ghost predicate AreClusters(items: seq<Item>, gs: seq<Members>, threshold: real) {
    && Partition(gs, |items|)
    && (forall k | 0 <= k < |gs| :: NoneUnlike(items, gs[k], threshold))
    && (forall j, k | 0 <= j < k < |gs| :: SomeUnlike(items, gs[j], gs[k], threshold))
  }

  lemma GroupingsAreClusters(items: seq<Item>, gs: seq<Members>, threshold: real)
    requires Grouping(PairScore(items), gs, |items|, threshold)
    ensures AreClusters(items, gs, threshold)
  {
    forall k | 0 <= k < |gs| ensures NoneUnlike(items, gs[k], threshold) {
      assert Cohesive(PairScore(items), gs[k], threshold);
    }
    GroupsInRange(items, gs);
    forall j, k | 0 <= j < k < |gs| ensures SomeUnlike(items, gs[j], gs[k], threshold) {
      assert Apart(PairScore(items), gs[j], gs[k], threshold);
      var a, b :| a in gs[j] && b in gs[k] && Below(PairScore(items), a, b, threshold);
      assert Unlike(items, a, b, threshold);
    }
  }

  /** The group names its medoid and carries the similarity of the medoid to every member. */
  ghost predicate Finished(items: seq<Item>, group: Summary) {
    && group.items != [] && Stands(PairScore(items), group.items, group.representative)
    && Matched(items, group)
  }

  ghost predicate Matched(items: seq<Item>, group: Summary) {
    && InRange(items, group.items) && group.representative < |items| && group.representative in group.items
    && (forall m :: m in group.matches <==> m in group.items)
    && forall p | 0 <= p < |group.items| ::
         group.matches[group.items[p]] == SimilarityOf(items[group.representative], items[group.items[p]])
  }

  lemma GroupsInRange(items: seq<Item>, gs: seq<Members>)
    requires Partition(gs, |items|)
    ensures forall k | 0 <= k < |gs| :: gs[k] != [] && InRange(items, gs[k])
  {
    forall k | 0 <= k < |gs| ensures InRange(items, gs[k]) {
      assert forall q | 0 <= q < |gs[k]| :: Owned(gs, gs[k][q]);
    }
  }

  /** A group while the source builds it: members are pushed, the rest is set at the end. */
  class Group {
    var items: Members
    var representative: nat
    var matches: map<nat, Match>

    constructor (item: nat)
      ensures items == [item]
    {
      items := [item];
      representative := item;
      matches := map[];
    }

    method Push(item: nat)
      modifies this`items
      ensures items == old(items) + [item]
    {
      items := items + [item];
    }

    method Finish(last: Summary)
      requires last.items == items
      modifies this`representative, this`matches
      ensures Now() == last
    {
      representative := last.representative;
      matches := last.matches;
    }

    function Now(): Summary
      reads this
    {
      Summary(items, representative, matches)
    }
  }

  ghost predicate Separate(groups: seq<Group>) {
    forall j, k | 0 <= j < k < |groups| :: groups[j] != groups[k]
  }

  /** The group objects hold the members gs. */
  ghost predicate Hold(groups: seq<Group>, gs: seq<Members>)
    reads groups
  {
    |groups| == |gs| && forall k | 0 <= k < |groups| :: groups[k].items == gs[k]
  }

  /** The inner loop: the first group of highest average among those i may join. */
  method BestGroup(score: Scorer, groups: seq<Group>, ghost gs: seq<Members>, i: nat, threshold: real)
    returns (best: Option<nat>)
    requires Hold(groups, gs) && NoneEmpty(gs)
    ensures Chosen(score, gs, i, threshold, best)
  {
    best := None;
    var bestAverage := 0.0;
    for k := 0 to |groups|
      invariant best.Some? ==> best.value < k && bestAverage == Average(score, gs[best.value], i)
      invariant NoneEmpty(gs[..k]) && Chosen(score, gs[..k], i, threshold, best)
    {
      var joins, average := Compared(score, groups[k].items, i, threshold);
      ChosenExtends(score, gs[..k], gs[k], i, threshold, best);
      assert gs[..k + 1] == gs[..k] + [gs[k]];
      if joins && (best.None? || average > bestAverage) {
        best, bestAverage := Some(k), average;
      }
    }
    assert gs[..|gs|] == gs;
  }

  /** The whole of `cluster`. */
  method Clustered(items: seq<Item>, threshold: real := DEFAULT_THRESHOLD)
    returns (groups: seq<Group>, ghost gs: seq<Members>)
    ensures fresh(groups) && Separate(groups) && Hold(groups, gs)
    ensures ResultOf(items, threshold, gs) && Grouping(PairScore(items), gs, |items|, threshold)
    ensures AreClusters(items, gs, threshold)
    ensures AllFinal(items, Snapshot(groups))
  {
    PairScoreSymmetric(items);
    groups, gs := Grouped(PairScore(items), |items|, threshold);
    GroupsInRange(items, gs);
    GroupingsAreClusters(items, gs, threshold);
    FinishAll(items, groups, gs);
  }

  /** The outer loop. */
  method Grouped(score: Scorer, n: nat, threshold: real) returns (groups: seq<Group>, ghost gs: seq<Members>)
    requires Symmetric(score)
    ensures fresh(groups) && Separate(groups) && Hold(groups, gs)
    ensures EndsWith(score, n, threshold, gs)
    ensures Grouping(score, gs, n, threshold)
  {
    groups, gs := [], [];
    ghost var run := [gs];
    for i := 0 to n
      invariant fresh(groups) && Separate(groups) && Hold(groups, gs)
      invariant |run| == i + 1 && run[i] == gs && IsRun(score, threshold, run)
    {
      ghost var before := groups;
      groups, gs := Settled(score, groups, gs, i, threshold);
      assert groups == before + groups[|before|..];
      RunExtends(score, threshold, run, gs);
      run := run + [gs];
    }
    RunKeepsGrouping(score, threshold, run, n);
  }

  /** The outer loop's body: item i joins the best group, or starts one. */
  method Settled(score: Scorer, groups: seq<Group>, ghost gs: seq<Members>, i: nat, threshold: real)
    returns (after: seq<Group>, ghost next: seq<Members>)
    requires Separate(groups) && Hold(groups, gs) && NoneEmpty(gs)
    modifies groups
    ensures Separate(after) && Hold(after, next)
    ensures groups <= after && fresh(after[|groups|..])
    ensures NoneEmpty(next) && Step(score, threshold, i, gs, next)
  {
    var best := BestGroup(score, groups, gs, i, threshold);
    next := Place(gs, i, best);
    after := groups;
    match best {
      case Some(b) =>
        groups[b].Push(i);
      case None =>
        var group := new Group(i);
        after := groups + [group];
    }
  }

  /** The group objects say what the summaries say. */
  ghost predicate Say(groups: seq<Group>, said: seq<Summary>)
    reads groups
  {
    |said| <= |groups| && forall k | 0 <= k < |said| :: groups[k].Now() == said[k]
  }

  ghost predicate AllFinal(items: seq<Item>, said: seq<Summary>) {
    forall k | 0 <= k < |said| :: Finished(items, said[k])
  }

  lemma AllFinalSnoc(items: seq<Item>, said: seq<Summary>, last: Summary)
    requires AllFinal(items, said) && Finished(items, last)
    ensures AllFinal(items, said + [last])
  {
  }

  ghost function Snapshot(groups: seq<Group>): (said: seq<Summary>)
    reads groups
  {
    seq(|groups|, k requires 0 <= k < |groups| reads groups => groups[k].Now())
  }

  /** The second loop's body: the representative, and its similarity to every member. */
  method LastWord(items: seq<Item>, g: Members) returns (last: Summary)
    requires g != [] && InRange(items, g)
    ensures last.items == g && Finished(items, last)
  {
    var p := Medoid(PairScore(items), g);
    var matches := map m | m in g :: SimilarityOf(items[g[p]], items[m]);
    last := Summary(g, g[p], matches);
  }

  method FinishNext(groups: seq<Group>, ghost gs: seq<Members>, ghost said: seq<Summary>, k: nat, last: Summary)
    requires Separate(groups) && Hold(groups, gs) && Say(groups, said) && |said| == k < |groups|
    requires last.items == gs[k]
    modifies groups[k]
    ensures Hold(groups, gs) && Say(groups, said + [last])
  {
    groups[k].Finish(last);
  }

  /** The second loop. */
  method FinishAll(items: seq<Item>, groups: seq<Group>, ghost gs: seq<Members>)
    requires Separate(groups) && Hold(groups, gs)
    requires forall k | 0 <= k < |gs| :: gs[k] != [] && InRange(items, gs[k])
    modifies groups
    ensures Hold(groups, gs)
    ensures AllFinal(items, Snapshot(groups))
  {
    ghost var said: seq<Summary> := [];
    for k := 0 to |groups|
      invariant Hold(groups, gs) && |said| == k && Say(groups, said)
      invariant AllFinal(items, said)
    {
      var last := LastWord(items, groups[k].items);
      FinishNext(groups, gs, said, k, last);
      AllFinalSnoc(items, said, last);
      said := said + [last];
    }
    assert Snapshot(groups) == said;
  }

  /** Two complete runs over the same findings end with the same groups, and every such result
      is a grouping. */
  lemma ResultIsUnique(items: seq<Item>, threshold: real, gs: seq<Members>, hs: seq<Members>)
    requires ResultOf(items, threshold, gs) && ResultOf(items, threshold, hs)
    ensures gs == hs && Grouping(PairScore(items), gs, |items|, threshold)
  {
    var score := PairScore(items);
    PairScoreSymmetric(items);
    var r :| IsRun(score, threshold, r) && |r| == |items| + 1 && r[|items|] == gs;
    var s :| IsRun(score, threshold, s) && |s| == |items| + 1 && s[|items|] == hs;
    RunsAgree(score, threshold, r, s, |items|);
    RunKeepsGrouping(score, threshold, r, |items|);
  }

  lemma {:induction false} ChosenExists(score: Scorer, gs: seq<Members>, i: nat, threshold: real)
    returns (best: Option<nat>)
    requires NoneEmpty(gs)
    ensures Chosen(score, gs, i, threshold, best)
  {
    if gs == [] {
      best := None;
    } else {
      var front, last := gs[..|gs| - 1], gs[|gs| - 1];
      var before := ChosenExists(score, front, i, threshold);
      ChosenExtends(score, front, last, i, threshold, before);
      assert gs == front + [last];
      best := if Joins(score, last, i, threshold)
                 && (before.None? || Average(score, last, i) > Average(score, front[before.value], i))
              then Some(|front|) else before;
    }
  }

  lemma {:induction false} RunExists(score: Scorer, n: nat, threshold: real) returns (run: seq<seq<Members>>)
    ensures IsRun(score, threshold, run) && |run| == n + 1
  {
    if n == 0 {
      run := [[]];
    } else {
      var before := RunExists(score, n - 1, threshold);
      var gs := before[n - 1];
      var best := ChosenExists(score, gs, n - 1, threshold);
      var next := Place(gs, n - 1, best);
      assert Step(score, threshold, n - 1, gs, next);
      RunExtends(score, threshold, before, next);
      run := before + [next];
    }
  }

  /** A list of findings has exactly one result at every threshold, and it is a grouping. */
  lemma OneResult(items: seq<Item>, threshold: real)
    ensures exists gs :: ResultOf(items, threshold, gs) && Grouping(PairScore(items), gs, |items|, threshold)
                         && forall hs | ResultOf(items, threshold, hs) :: hs == gs
  {
    var run := RunExists(PairScore(items), |items|, threshold);
    var gs := run[|items|];
    assert ResultOf(items, threshold, gs);
    ResultIsUnique(items, threshold, gs, gs);
    forall hs | ResultOf(items, threshold, hs) ensures hs == gs {
      ResultIsUnique(items, threshold, hs, gs);
    }
  }

  lemma MembersClearThreshold(items: seq<Item>, g: Members, threshold: real, a: nat, b: nat)
    requires Cohesive(PairScore(items), g, threshold) && InRange(items, g)
    requires a in g && b in g && a != b
    ensures Score(items[a], items[b]) as real >= threshold
  {
    var p :| 0 <= p < |g| && g[p] == a;
    var q :| 0 <= q < |g| && g[q] == b;
    assert PairScore(items)(g[p], g[q]) as real >= threshold;
  }

  /** A finding with neither an exception name nor a stack trace stays alone at any threshold
      above 60, the default included. */
  lemma NoTraceStaysAlone(items: seq<Item>, gs: seq<Members>, threshold: real, k: nat, i: nat)
    requires ResultOf(items, threshold, gs) && threshold > 60.0
    requires k < |gs| && i in gs[k] && i < |items| && items[i].exception == "" && items[i].frames == {}
    ensures gs[k] == [i]
  {
    ResultIsUnique(items, threshold, gs, gs);
    var g := gs[k];
    assert forall q | 0 <= q < |g| :: Owned(gs, g[q]);
    assert Cohesive(PairScore(items), g, threshold) && Ascending(g);
    if |g| > 1 {
      var other := if g[0] == i then g[1] else g[0];
      MembersClearThreshold(items, g, threshold, i, other);
      NoTraceScoresLow(items[i], items[other]);
    }
  }

  /** Members of one group match a third finding about equally well: their scores against it
      differ by at most 101 minus the threshold. */
  lemma GroupSeesAlike(items: seq<Item>, gs: seq<Members>, threshold: real, k: nat, a: nat, b: nat, other: nat)
    requires Grouping(PairScore(items), gs, |items|, threshold) && k < |gs|
    requires a in gs[k] && b in gs[k] && a != b && other < |items|
    ensures a < |items| && b < |items|
    ensures Score(items[a], items[other]) as real <= Score(items[b], items[other]) as real + 101.0 - threshold
  {
    assert forall p | 0 <= p < |gs[k]| :: Owned(gs, gs[k][p]);
    MembersClearThreshold(items, gs[k], threshold, b, a);
    ScoreTriangle(items[b], items[a], items[other]);
  }

  /** At the default threshold members of a group score at least 65 against each other, and against any
      other finding within 36 points of each other. */
  lemma DefaultGroupsAreTight(items: seq<Item>, gs: seq<Members>, k: nat, a: nat, b: nat, other: nat)
    requires ResultOf(items, DEFAULT_THRESHOLD, gs) && k < |gs|
    requires a in gs[k] && b in gs[k] && a != b && other < |items|
    ensures a < |items| && b < |items| && Score(items[a], items[b]) >= 65
    ensures Score(items[a], items[other]) <= Score(items[b], items[other]) + 36
  {
    ResultIsUnique(items, DEFAULT_THRESHOLD, gs, gs);
    GroupSeesAlike(items, gs, DEFAULT_THRESHOLD, k, a, b, other);
    GroupsInRange(items, gs);
    MembersClearThreshold(items, gs[k], DEFAULT_THRESHOLD, a, b);
  }

  /** Every score the page shows for a group lies between the threshold and 100, and the range
      it prints spans exactly the shown scores. */
  lemma DisplayedRangeIsValid(items: seq<Item>, group: Summary, threshold: real)
    requires Matched(items, group) && Cohesive(PairScore(items), group.items, threshold)
    requires ShownScores(group) != []
    ensures var (low, high) := DisplayedRange(group);
            && threshold <= low as real && low <= high <= 100
            && low in ShownScores(group) && high in ShownScores(group)
            && forall s | s in ShownScores(group) :: low <= s <= high
  {
    var scores := ShownScores(group);
    var others := Others(group.items, group.representative);
    forall k | 0 <= k < |scores|
      ensures threshold <= scores[k] as real && scores[k] <= 100
    {
      assert others[k] in others;
      MembersClearThreshold(items, group.items, threshold, group.representative, others[k]);
      ScoreBounds(items[group.representative], items[others[k]]);
      MatchIsScore(items, group, others[k]);
    }
  }

  /** So the page's range is valid for every group `cluster` returns that has anything to show. */
  lemma ReturnedRangesAreValid(items: seq<Item>, groups: seq<Group>, gs: seq<Members>, threshold: real, k: nat)
    requires Hold(groups, gs) && AllFinal(items, Snapshot(groups))
    requires Grouping(PairScore(items), gs, |items|, threshold)
    requires k < |groups| && |groups[k].items| > 1
    ensures forall m | m in groups[k].items :: m in groups[k].matches
    ensures ShownScores(groups[k].Now()) != []
    ensures var (low, high) := DisplayedRange(groups[k].Now());
            threshold <= low as real && low <= high <= 100
  {
    assert Snapshot(groups)[k] == groups[k].Now();
    RangeOfFinished(items, groups[k].Now(), threshold);
  }

  lemma RangeOfFinished(items: seq<Item>, group: Summary, threshold: real)
    requires Finished(items, group) && |group.items| > 1
    requires Cohesive(PairScore(items), group.items, threshold) && Ascending(group.items)
    ensures ShownScores(group) != []
    ensures var (low, high) := DisplayedRange(group);
            threshold <= low as real && low <= high <= 100
  {
    SomethingShown(group);
    DisplayedRangeIsValid(items, group, threshold);
  }

  lemma SomethingShown(group: Summary)
    requires Ascending(group.items) && |group.items| > 1
    requires forall m | m in group.items :: m in group.matches
    ensures ShownScores(group) != []
  {
    var other := if group.items[0] == group.representative then group.items[1] else group.items[0];
    assert other in Others(group.items, group.representative);
  }

  lemma MedoidStands(score: Scorer, g: Members, representative: nat, m: nat)
    requires g != [] && Stands(score, g, representative) && m in g
    requires forall k | 0 <= k < |g| :: score(representative, g[k]) <= score(m, g[k])
    ensures forall k | 0 <= k < |g| :: score(representative, g[k]) == score(m, g[k])
  {
    var p: nat :| IsMedoid(score, g, p) && g[p] == representative;
    var q :| 0 <= q < |g| && g[q] == m;
    MedoidIsNotBeaten(score, g, p, q);
  }

  /** The findings' scores against one of them, in member order. */
  function ScoresOf(items: seq<Item>, g: Members, m: nat): (scores: seq<int>)
    requires InRange(items, g) && m < |items|
    ensures |scores| == |g| && forall k | 0 <= k < |g| :: scores[k] == Score(items[m], items[g[k]])
    ensures forall k | 0 <= k < |g| :: scores[k] == PairScore(items)(m, g[k])
  {
    seq(|g|, k requires 0 <= k < |g| => Score(items[m], items[g[k]]))
  }

  lemma StandsByScores(items: seq<Item>, g: Members, r: nat, m: nat)
    requires g != [] && InRange(items, g) && r < |items| && m in g && m < |items|
    requires Stands(PairScore(items), g, r)
    requires forall p | 0 <= p < |g| :: ScoresOf(items, g, r)[p] <= ScoresOf(items, g, m)[p]
    ensures ScoresOf(items, g, r) == ScoresOf(items, g, m)
  {
    var best, other := ScoresOf(items, g, r), ScoresOf(items, g, m);
    assert forall k | 0 <= k < |g| :: PairScore(items)(r, g[k]) == best[k];
    assert forall k | 0 <= k < |g| :: PairScore(items)(m, g[k]) == other[k];
    MedoidStands(PairScore(items), g, r, m);
  }

  /** The finding that stands for a group is not beaten in it: none scores at least as high against
      every member and higher against one. */
  lemma RepresentativeIsNotBeaten(items: seq<Item>, group: Summary, m: nat)
    requires Finished(items, group) && m in group.items && m < |items|
    requires var best, other := ScoresOf(items, group.items, group.representative), ScoresOf(items, group.items, m);
             forall p | 0 <= p < |group.items| :: best[p] <= other[p]
    ensures ScoresOf(items, group.items, group.representative) == ScoresOf(items, group.items, m)
  {
    StandsByScores(items, group.items, group.representative, m);
  }

  lemma MatchIsScore(items: seq<Item>, group: Summary, m: nat)
    requires Matched(items, group) && m in group.items
    ensures m < |items| && group.matches[m].score == Score(items[group.representative], items[m])
  {
    var p :| 0 <= p < |group.items| && group.items[p] == m;
  }
}
