/** Stable sorting by a key, and the order of strings by code point. */
module Ordering {

  type Order<!T> = (T, T) -> bool

  ghost predicate TotalPreorder<T(!new)>(le: Order<T>) {
    && (forall x, y :: le(x, y) || le(y, x))
    && (forall x, y, z :: le(x, y) && le(y, z) ==> le(x, z))
  }

  ghost predicate Sorted<T>(xs: seq<T>, le: Order<T>) {
    forall i, j | 0 <= i < j < |xs| :: le(xs[i], xs[j])
  }

  /** xs with x placed after everything that may precede it. */
  function Insert<T>(xs: seq<T>, x: T, le: Order<T>): seq<T> {
    if xs == [] || le(xs[|xs| - 1], x) then xs + [x]
    else Insert(xs[..|xs| - 1], x, le) + [xs[|xs| - 1]]
  }

  function SortBy<T>(xs: seq<T>, le: Order<T>): seq<T> {
    if xs == [] then [] else Insert(SortBy(xs[..|xs| - 1], le), xs[|xs| - 1], le)
  }

  function Filter<T>(xs: seq<T>, keep: T -> bool): seq<T> {
    if xs == [] then []
    else Filter(xs[..|xs| - 1], keep) + if keep(xs[|xs| - 1]) then [xs[|xs| - 1]] else []
  }

  lemma {:induction false} InsertSorts<T(!new)>(xs: seq<T>, x: T, le: Order<T>)
    requires TotalPreorder(le) && Sorted(xs, le)
    ensures Sorted(Insert(xs, x, le), le)
  {
    if xs != [] && !le(xs[|xs| - 1], x) {
      var front, last := xs[..|xs| - 1], xs[|xs| - 1];
      assert xs == front + [last];
      InsertSorts(front, x, le);
      InsertPermutes(front, x, le);
      var r := Insert(front, x, le);
      forall k | 0 <= k < |r| ensures le(r[k], last) {
        assert r[k] in multiset(r);
        assert r[k] == x || r[k] in front;
      }
    }
  }

  lemma {:induction false} InsertPermutes<T(!new)>(xs: seq<T>, x: T, le: Order<T>)
    ensures multiset(Insert(xs, x, le)) == multiset(xs) + multiset{x}
  {
    if xs != [] && !le(xs[|xs| - 1], x) {
      assert xs == xs[..|xs| - 1] + [xs[|xs| - 1]];
      InsertPermutes(xs[..|xs| - 1], x, le);
    }
  }

  /** Sorting orders and permutes. */
  lemma {:induction false} SortSorts<T(!new)>(xs: seq<T>, le: Order<T>)
    requires TotalPreorder(le)
    ensures Sorted(SortBy(xs, le), le)
    ensures multiset(SortBy(xs, le)) == multiset(xs)
    ensures forall x :: x in SortBy(xs, le) <==> x in xs
  {
    if xs != [] {
      var front, last := xs[..|xs| - 1], xs[|xs| - 1];
      assert xs == front + [last];
      SortSorts(front, le);
      InsertSorts(SortBy(front, le), last, le);
      InsertPermutes(SortBy(front, le), last, le);
    }
    assert forall x :: x in SortBy(xs, le) <==> x in multiset(SortBy(xs, le));
    assert forall x :: x in xs <==> x in multiset(xs);
  }

  /** Two lists in strict order with the same elements are the same list. */
  lemma {:induction false} StrictlySortedUnique<T(!new)>(xs: seq<T>, ys: seq<T>, lt: Order<T>)
    requires forall x, y :: lt(x, y) ==> !lt(y, x)
    requires Sorted(xs, lt) && Sorted(ys, lt)
    requires forall x :: x in xs <==> x in ys
    ensures xs == ys
  {
    assert |ys| > 0 ==> ys[0] in ys && ys[0] in xs;
    if xs != [] {
      assert xs[0] in xs && xs[0] in ys;
      var j :| 0 <= j < |ys| && ys[j] == xs[0];
      var i :| 0 <= i < |xs| && xs[i] == ys[0];
      assert i == 0 && j == 0;
      forall x ensures x in xs[1..] <==> x in ys[1..] {
        assert x in xs[1..] <==> x in xs && x != xs[0];
        assert x in ys[1..] <==> x in ys && x != ys[0];
      }
      StrictlySortedUnique(xs[1..], ys[1..], lt);
    }
  }

  /** Elements that tie keep the order in which they came. */
  lemma {:induction false} SortIsStable<T(!new)>(xs: seq<T>, le: Order<T>, one: T)
    requires TotalPreorder(le)
    ensures var ties := x => le(x, one) && le(one, x);
            Filter(SortBy(xs, le), ties) == Filter(xs, ties)
  {
    if xs != [] {
      var front, last := xs[..|xs| - 1], xs[|xs| - 1];
      SortIsStable(front, le, one);
      SortSorts(front, le);
      InsertKeepsTies(SortBy(front, le), last, le, one);
    }
  }

  /** The same of any test that ties exactly with one. */
  lemma {:induction false} TiedKeepOrder<T(!new)>(xs: seq<T>, le: Order<T>, one: T, tied: T -> bool)
    requires TotalPreorder(le) && forall x :: tied(x) <==> le(x, one) && le(one, x)
    ensures Filter(SortBy(xs, le), tied) == Filter(xs, tied)
  {
    SortIsStable(xs, le, one);
    SameFilter(SortBy(xs, le), tied, x => le(x, one) && le(one, x));
    SameFilter(xs, tied, x => le(x, one) && le(one, x));
  }

  lemma {:induction false} SameFilter<T(!new)>(xs: seq<T>, p: T -> bool, q: T -> bool)
    requires forall x :: p(x) <==> q(x)
    ensures Filter(xs, p) == Filter(xs, q)
  {
    if xs != [] {
      SameFilter(xs[..|xs| - 1], p, q);
    }
  }

  /** Keys tie only when they are equal. */
  lemma TiedPairs(a: (bool, string), b: (bool, string))
    ensures PairLe(a, b) && PairLe(b, a) <==> a == b
  {
    StringTotal(a.1, a.1);
    if PairLe(a, b) && PairLe(b, a) {
      StringAntisymmetric(a.1, b.1);
    }
  }

  /** Sorting by a key keeps values with equal keys in the order in which they came. */
  lemma KeyedKeepsOrder<T(!new)>(xs: seq<T>, key: T -> (bool, string), one: T, tied: T -> bool)
    requires forall x :: tied(x) <==> key(x) == key(one)
    ensures Filter(SortBy(xs, Keyed(key)), tied) == Filter(xs, tied)
  {
    KeyedPreorder(key);
    forall x ensures tied(x) <==> Keyed(key)(x, one) && Keyed(key)(one, x) {
      TiedPairs(key(x), key(one));
    }
    TiedKeepOrder(xs, Keyed(key), one, tied);
  }

  lemma {:induction false} InsertKeepsTies<T(!new)>(xs: seq<T>, x: T, le: Order<T>, one: T)
    requires TotalPreorder(le) && Sorted(xs, le)
    ensures var ties := y => le(y, one) && le(one, y);
            Filter(Insert(xs, x, le), ties) == Filter(xs, ties) + if ties(x) then [x] else []
  {
    var ties := y => le(y, one) && le(one, y);
    if xs == [] || le(xs[|xs| - 1], x) {
      assert (xs + [x])[..|xs|] == xs;
    } else {
      var front, last := xs[..|xs| - 1], xs[|xs| - 1];
      InsertKeepsTies(front, x, le, one);
      var r := Insert(front, x, le);
      assert (r + [last])[..|r|] == r;
    }
  }

  /** Reordering a list without repetitions repeats nothing. */
  lemma PermutationKeepsDistinct<T>(xs: seq<T>, ys: seq<T>)
    requires multiset(xs) == multiset(ys)
    requires forall i, j | 0 <= i < j < |xs| :: xs[i] != xs[j]
    ensures forall i, j | 0 <= i < j < |ys| :: ys[i] != ys[j]
  {
    forall i, j | 0 <= i < j < |ys| ensures ys[i] != ys[j] {
      if ys[i] == ys[j] {
        RepeatedCount(ys, i, j);
        assert ys[j] in multiset(xs);
        var k :| 0 <= k < |xs| && xs[k] == ys[j];
        DistinctCount(xs, k);
      }
    }
  }

  lemma RepeatedCount<T>(xs: seq<T>, i: nat, j: nat)
    requires i < j < |xs| && xs[i] == xs[j]
    ensures multiset(xs)[xs[j]] >= 2
  {
    assert xs == xs[..j] + [xs[j]] + xs[j + 1..];
    assert xs[..j][i] in multiset(xs[..j]);
  }

  lemma DistinctCount<T>(xs: seq<T>, k: nat)
    requires k < |xs| && forall i, j | 0 <= i < j < |xs| :: xs[i] != xs[j]
    ensures multiset(xs)[xs[k]] == 1
  {
    assert xs == xs[..k] + [xs[k]] + xs[k + 1..];
    assert xs[k] !in xs[..k] && xs[k] !in xs[k + 1..];
  }

  // -- Strings ---------------------------------------------------------------------------

  function StringLe(a: string, b: string): bool {
    a == [] || (b != [] && (a[0] < b[0] || (a[0] == b[0] && StringLe(a[1..], b[1..]))))
  }

  /** Alphabetical order by code point: a prefix comes first, else the first difference decides. */
  ghost predicate AtOrBefore(a: string, b: string) {
    a <= b || exists k :: DifferFirstAt(a, b, k) && a[k] < b[k]
  }

  ghost predicate DifferFirstAt(a: string, b: string, k: int) {
    0 <= k < |a| && k < |b| && a[k] != b[k] && forall m | 0 <= m < k :: a[m] == b[m]
  }

  lemma {:induction false} StringLeIsOrder(a: string, b: string)
    ensures StringLe(a, b) <==> AtOrBefore(a, b)
  {
    if a != [] && b != [] {
      if a[0] == b[0] {
        StringLeIsOrder(a[1..], b[1..]);
        TailsOrder(a, b);
      } else {
        assert DifferFirstAt(a, b, 0);
      }
    }
  }

  lemma TailsOrder(a: string, b: string)
    requires a != [] && b != [] && a[0] == b[0]
    ensures AtOrBefore(a[1..], b[1..]) <==> AtOrBefore(a, b)
  {
    assert a == [a[0]] + a[1..] && b == [b[0]] + b[1..];
    if k :| DifferFirstAt(a[1..], b[1..], k) && a[1..][k] < b[1..][k] {
      assert DifferFirstAt(a, b, k + 1) && a[k + 1] < b[k + 1];
    }
    if k :| DifferFirstAt(a, b, k) && a[k] < b[k] {
      assert DifferFirstAt(a[1..], b[1..], k - 1) && a[1..][k - 1] < b[1..][k - 1];
    }
  }

  lemma {:induction false} StringTotal(a: string, b: string)
    ensures StringLe(a, b) || StringLe(b, a)
  {
    if a != [] && b != [] && a[0] == b[0] {
      StringTotal(a[1..], b[1..]);
    }
  }

  lemma {:induction false} StringTransitive(a: string, b: string, c: string)
    requires StringLe(a, b) && StringLe(b, c)
    ensures StringLe(a, c)
  {
    if a != [] && a[0] == b[0] == c[0] {
      StringTransitive(a[1..], b[1..], c[1..]);
    }
  }

  lemma {:induction false} StringAntisymmetric(a: string, b: string)
    requires StringLe(a, b) && StringLe(b, a)
    ensures a == b
  {
    if a != [] {
      StringAntisymmetric(a[1..], b[1..]);
    }
  }

  /** The order of (flag, name) pairs: false before true, then by name. */
  function PairLe(a: (bool, string), b: (bool, string)): bool {
    (!a.0 && b.0) || (a.0 == b.0 && StringLe(a.1, b.1))
  }

  lemma KeyedPreorder<T(!new)>(key: T -> (bool, string))
    ensures TotalPreorder(Keyed(key))
  {
    var le := Keyed(key);
    forall x, y ensures le(x, y) || le(y, x) {
      StringTotal(key(x).1, key(y).1);
    }
    forall x, y, z | le(x, y) && le(y, z) ensures le(x, z) {
      if key(x).0 == key(y).0 == key(z).0 {
        StringTransitive(key(x).1, key(y).1, key(z).1);
      }
    }
  }

  /** The strict form: ordered, and with different names. */
  function Strict<T(!new)>(key: T -> (bool, string)): (lt: Order<T>) {
    (x: T, y: T) => PairLe(key(x), key(y)) && key(x).1 != key(y).1
  }

  function Keyed<T(!new)>(key: T -> (bool, string)): (le: Order<T>) {
    (x: T, y: T) => PairLe(key(x), key(y))
  }

  /** Sorting values with different names by key gives the strict order. */
  lemma SortKeyed<T(!new)>(xs: seq<T>, key: T -> (bool, string))
    requires forall i, j | 0 <= i < j < |xs| :: key(xs[i]).1 != key(xs[j]).1
    ensures Sorted(SortBy(xs, Keyed(key)), Strict(key))
    ensures forall x :: x in SortBy(xs, Keyed(key)) <==> x in xs
  {
    KeyedPreorder(key);
    var ys := SortBy(xs, Keyed(key));
    SortSorts(xs, Keyed(key));
    PermutationKeepsDistinct(xs, ys);
    forall i, j | 0 <= i < j < |ys| ensures key(ys[i]).1 != key(ys[j]).1 {
      assert ys[i] in xs && ys[j] in xs;
    }
  }

  /** A list in strict key order is determined by its elements. */
  lemma StrictUnique<T(!new)>(xs: seq<T>, ys: seq<T>, key: T -> (bool, string))
    requires Sorted(xs, Strict(key)) && Sorted(ys, Strict(key))
    requires forall x :: x in xs <==> x in ys
    ensures xs == ys
  {
    forall x, y | Strict(key)(x, y) ensures !Strict(key)(y, x) {
      if PairLe(key(y), key(x)) {
        StringAntisymmetric(key(x).1, key(y).1);
      }
    }
    StrictlySortedUnique(xs, ys, Strict(key));
  }
}
