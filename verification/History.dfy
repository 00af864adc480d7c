/** The published history (site/tools/collect_results.py): every run reads back what the previous
    one wrote, replaces the entry with its own key, and keeps the last 120. */
module History {
  import opened Wrappers

  /** One history entry. `summary` stands for the counts and statuses no later run reads. */
  datatype Run = Run(key: string, finishedAt: string, summary: string, endpoints: map<string, string>)

  const HISTORY_LIMIT := 120

  function Without(runs: seq<Run>, key: string): (rest: seq<Run>)
    ensures forall r :: r in rest <==> r in runs && r.key != key
  {
    if runs == [] then []
    else if runs[|runs| - 1].key == key then Without(runs[..|runs| - 1], key)
    else Without(runs[..|runs| - 1], key) + [runs[|runs| - 1]]
  }

  function LastN<T>(xs: seq<T>, n: nat): seq<T> {
    if |xs| <= n then xs else xs[|xs| - n..]
  }

  /** The history update at the end of `main`. */
  method Publish(previous: seq<Run>, entry: Run) returns (history: seq<Run>)
    ensures history == Published(previous, entry)
  {
    history := Without(previous, entry.key);
    history := history + [entry];
    if |history| > HISTORY_LIMIT {
      history := history[|history| - HISTORY_LIMIT..];
    }
  }

  function Published(previous: seq<Run>, entry: Run): seq<Run> {
    LastN(Without(previous, entry.key) + [entry], HISTORY_LIMIT)
  }

  // -- Whole sequences of publications ---------------------------------------------------

  /** One execution of the collector: what it publishes, and whether the previous history could
      be fetched and read. */
  datatype Publication = Publication(entry: Run, previousReadable: bool)

  function Stored(log: seq<Publication>): seq<Run> {
    if log == [] then []
    else
      var last := log[|log| - 1];
      Published(if last.previousReadable then Stored(log[..|log| - 1]) else [], last.entry)
  }

  /** The entries published since the history was last lost. */
  function SinceLoss(log: seq<Publication>): seq<Run> {
    if log == [] then []
    else
      var last := log[|log| - 1];
      (if last.previousReadable then SinceLoss(log[..|log| - 1]) else []) + [last.entry]
  }

  ghost predicate Republished(runs: seq<Run>, key: string) {
    exists r :: r in runs && r.key == key
  }

  /** The uncapped log: every entry that no later entry with its key replaces. */
  ghost function LatestOnly(runs: seq<Run>): seq<Run> {
    if runs == [] then []
    else if Republished(runs[1..], runs[0].key) then LatestOnly(runs[1..])
    else [runs[0]] + LatestOnly(runs[1..])
  }

  ghost predicate DistinctKeys(runs: seq<Run>) {
    forall i, j | 0 <= i < j < |runs| :: runs[i].key != runs[j].key
  }

  lemma {:induction false} LatestOnlyMembers(runs: seq<Run>)
    ensures forall key :: Republished(LatestOnly(runs), key) <==> Republished(runs, key)
    ensures DistinctKeys(LatestOnly(runs))
  {
    if runs != [] {
      LatestOnlyMembers(runs[1..]);
      var rest := LatestOnly(runs[1..]);
      forall key ensures Republished(LatestOnly(runs), key) <==> Republished(runs, key) {
        assert Republished(rest, key) <==> Republished(runs[1..], key);
        assert runs == [runs[0]] + runs[1..];
        if Republished(runs, key) {
          var r :| r in runs && r.key == key;
          assert r == runs[0] || r in runs[1..];
        }
      }
      if !Republished(runs[1..], runs[0].key) {
        assert forall i | 0 <= i < |rest| :: rest[i] in rest;
        assert !Republished(rest, runs[0].key);
      }
    }
  }

  lemma {:induction false} WithoutOfCons(first: Run, rest: seq<Run>, key: string)
    ensures Without([first] + rest, key) == (if first.key == key then [] else [first]) + Without(rest, key)
  {
    var runs := [first] + rest;
    if rest != [] {
      assert runs[..|runs| - 1] == [first] + rest[..|rest| - 1];
      WithoutOfCons(first, rest[..|rest| - 1], key);
    }
  }

  lemma RepublishedOfSnoc(runs: seq<Run>, entry: Run, key: string)
    ensures Republished(runs + [entry], key) <==> key == entry.key || Republished(runs, key)
  {
    assert entry in runs + [entry];
    if Republished(runs, key) {
      var r :| r in runs && r.key == key;
      assert r in runs + [entry];
    }
  }

  /** One more publication drops the entry it replaces and goes last. */
  lemma {:induction false} LatestOnlyOfSnoc(runs: seq<Run>, entry: Run)
    ensures LatestOnly(runs + [entry]) == Without(LatestOnly(runs), entry.key) + [entry]
  {
    var longer := runs + [entry];
    if runs == [] {
      assert longer[1..] == [];
    } else {
      assert longer[1..] == runs[1..] + [entry];
      LatestOnlyOfSnoc(runs[1..], entry);
      var key := runs[0].key;
      RepublishedOfSnoc(runs[1..], entry, key);
      WithoutOfCons(runs[0], LatestOnly(runs[1..]), entry.key);
      if key == entry.key && !Republished(runs[1..], key) {
        LatestOnlyMembers(runs[1..]);
      }
    }
  }

  lemma {:induction false} WithoutAbsent(runs: seq<Run>, key: string)
    requires forall r | r in runs :: r.key != key
    ensures Without(runs, key) == runs
  {
    if runs != [] {
      assert runs == runs[..|runs| - 1] + [runs[|runs| - 1]];
      WithoutAbsent(runs[..|runs| - 1], key);
    }
  }

  lemma {:induction false} WithoutOfConcat(a: seq<Run>, b: seq<Run>, key: string)
    ensures Without(a + b, key) == Without(a, key) + Without(b, key)
  {
    if b == [] {
      assert a + b == a;
    } else {
      assert (a + b)[..|a + b| - 1] == a + b[..|b| - 1];
      WithoutOfConcat(a, b[..|b| - 1], key);
    }
  }

  /** With distinct keys at most one entry goes. */
  lemma {:induction false} WithoutDropsOne(runs: seq<Run>, key: string)
    requires DistinctKeys(runs)
    ensures |Without(runs, key)| >= |runs| - 1
  {
    if runs != [] {
      var front, last := runs[..|runs| - 1], runs[|runs| - 1];
      if last.key == key {
        WithoutAbsent(front, key);
      } else {
        WithoutDropsOne(front, key);
      }
    }
  }

  lemma LastNOfConcat<T>(a: seq<T>, b: seq<T>, n: nat)
    requires |b| >= n
    ensures LastN(a + b, n) == LastN(b, n)
  {
  }

  /** Capping before the update loses nothing that capping after it would have kept. */
  lemma CapThenPublish(runs: seq<Run>, entry: Run, n: nat)
    requires DistinctKeys(runs) && n > 0
    ensures LastN(Without(LastN(runs, n), entry.key) + [entry], n) == LastN(Without(runs, entry.key) + [entry], n)
  {
    var kept := LastN(runs, n);
    var dropped := Dropped(runs, n);
    KeptIsDistinct(runs, n);
    if |runs| > n {
      WithoutDropsOne(kept, entry.key);
      PublishAfter(dropped, kept, entry, n);
    }
  }

  /** What the cap cuts off. */
  lemma Dropped<T>(xs: seq<T>, n: nat) returns (dropped: seq<T>)
    ensures xs == dropped + LastN(xs, n)
    ensures |LastN(xs, n)| == if |xs| <= n then |xs| else n
    ensures |xs| <= n ==> LastN(xs, n) == xs
  {
    dropped := if |xs| <= n then [] else xs[..|xs| - n];
  }

  lemma KeptIsDistinct(runs: seq<Run>, n: nat)
    requires DistinctKeys(runs)
    ensures DistinctKeys(LastN(runs, n))
  {
  }

  lemma PublishAfter(dropped: seq<Run>, kept: seq<Run>, entry: Run, n: nat)
    requires |Without(kept, entry.key)| + 1 >= n
    ensures LastN(Without(kept, entry.key) + [entry], n) == LastN(Without(dropped + kept, entry.key) + [entry], n)
  {
    WithoutOfConcat(dropped, kept, entry.key);
    Regrouped(Without(dropped, entry.key), Without(kept, entry.key), [entry]);
    LastNOfConcat(Without(dropped, entry.key), Without(kept, entry.key) + [entry], n);
  }

  lemma Regrouped<T>(a: seq<T>, b: seq<T>, c: seq<T>)
    ensures a + b + c == a + (b + c)
  {
  }

  /** Over every sequence of publications the stored history is the last 120 entries of the
      uncapped log since the history was last lost, and its keys are distinct. */
  lemma {:induction false} StoredIsCappedLog(log: seq<Publication>)
    ensures Stored(log) == LastN(LatestOnly(SinceLoss(log)), 120)
    ensures DistinctKeys(Stored(log))
  {
    if log != [] {
      var before, last := log[..|log| - 1], log[|log| - 1];
      if last.previousReadable {
        StoredIsCappedLog(before);
        PublishedIsCapped(SinceLoss(before), last.entry);
      } else {
        assert LatestOnly([]) == [];
        PublishedIsCapped([], last.entry);
      }
    }
    CappedIsDistinct(SinceLoss(log));
  }

  /** Publishing into a capped log gives the capped log of one more run. */
  lemma PublishedIsCapped(runs: seq<Run>, entry: Run)
    ensures Published(LastN(LatestOnly(runs), HISTORY_LIMIT), entry) ==
            LastN(LatestOnly(runs + [entry]), HISTORY_LIMIT)
  {
    LatestOnlyMembers(runs);
    LatestOnlyOfSnoc(runs, entry);
    CapThenPublish(LatestOnly(runs), entry, HISTORY_LIMIT);
  }

  lemma CappedIsDistinct(runs: seq<Run>)
    ensures DistinctKeys(LastN(LatestOnly(runs), HISTORY_LIMIT))
  {
    LatestOnlyMembers(runs);
  }

  /** Publishing the newest entry once more changes nothing. */
  lemma RepublishingNewestIsNoOp(log: seq<Publication>)
    requires log != []
    ensures Published(Stored(log), log[|log| - 1].entry) == Stored(log)
  {
    NewestIsLast(log);
    StoredIsCappedLog(log);
    PutBack(Stored(log), log[|log| - 1].entry);
  }

  lemma NewestIsLast(log: seq<Publication>)
    requires log != []
    ensures 0 < |Stored(log)| <= 120 && Stored(log)[|Stored(log)| - 1] == log[|log| - 1].entry
  {
  }

  /** Publishing what already goes last changes nothing. */
  lemma PutBack(history: seq<Run>, entry: Run)
    requires DistinctKeys(history) && 0 < |history| <= HISTORY_LIMIT && history[|history| - 1] == entry
    ensures Published(history, entry) == history
  {
    var front := history[..|history| - 1];
    assert history == front + [entry];
    WithoutAbsent(front, entry.key);
    assert Without(history, entry.key) == front;
  }

  // -- When an endpoint was last reachable ------------------------------------------------

  predicate SawUp(run: Run, id: string) {
    id in run.endpoints && run.endpoints[id] == "up"
  }

  /** The latest entry that saw the endpoint up. */
  function LastUp(history: seq<Run>, id: string): (at: Option<nat>)
    ensures at.Some? ==> at.value < |history| && SawUp(history[at.value], id)
    ensures forall i | 0 <= i < |history| && (at.Some? ==> at.value < i) :: !SawUp(history[i], id)
  {
    if history == [] then None
    else if SawUp(history[|history| - 1], id) then Some(|history| - 1)
    else LastUp(history[..|history| - 1], id)
  }

  function LastReachable(history: seq<Run>, id: string): string {
    ReachableAt(history, LastUp(history, id))
  }

  /** What a publication reads back is what the uncapped log would have said whenever the run it
      names is among the last 120, and "not since records began" otherwise. */
  lemma LastReachableSurvivesCap(log: seq<Publication>, id: string)
    ensures var uncapped := LatestOnly(SinceLoss(log));
            var seen := LastUp(uncapped, id);
            if seen.Some? && seen.value + 120 >= |uncapped|
            then LastReachable(Stored(log), id) == LastReachable(uncapped, id)
            else LastReachable(Stored(log), id) == ""
  {
    StoredIsCappedLog(log);
    LastReachableOfLastN(LatestOnly(SinceLoss(log)), HISTORY_LIMIT, id);
  }

  lemma LastReachableOfLastN(runs: seq<Run>, n: nat, id: string)
    ensures var seen := LastUp(runs, id);
            LastReachable(LastN(runs, n), id) ==
            if seen.Some? && seen.value + n >= |runs| then LastReachable(runs, id) else ""
  {
    var cut := if |runs| > n then |runs| - n else 0;
    LastReachableOfSuffix(runs, cut, id);
    LastNIsSuffix(runs, n);
  }

  lemma LastNIsSuffix<T>(xs: seq<T>, n: nat)
    ensures LastN(xs, n) == xs[if |xs| > n then |xs| - n else 0..]
  {
  }

  lemma LastReachableOfSuffix(runs: seq<Run>, cut: nat, id: string)
    requires cut <= |runs|
    ensures var seen := LastUp(runs, id);
            LastReachable(runs[cut..], id) ==
            if seen.Some? && seen.value >= cut then LastReachable(runs, id) else ""
  {
    LastUpOfSuffix(runs, cut, id);
    ReachableAtSuffix(runs, cut, LastUp(runs, id));
  }

  /** The finishing time of the entry found, if any. */
  function ReachableAt(history: seq<Run>, at: Option<nat>): string
    requires at.Some? ==> at.value < |history|
  {
    match at
    case Some(i) => history[i].finishedAt
    case None => ""
  }

  /** A position as seen after the first cut entries are gone. */
  function Shifted(at: Option<nat>, cut: nat): Option<nat> {
    match at
    case Some(i) => if i >= cut then Some(i - cut) else None
    case None => None
  }

  lemma ReachableAtSuffix(runs: seq<Run>, cut: nat, at: Option<nat>)
    requires cut <= |runs| && (at.Some? ==> at.value < |runs|)
    ensures ReachableAt(runs[cut..], Shifted(at, cut)) ==
            if at.Some? && at.value >= cut then ReachableAt(runs, at) else ""
  {
  }

  lemma LastUpOfSuffix(runs: seq<Run>, cut: nat, id: string)
    requires cut <= |runs|
    ensures LastUp(runs[cut..], id) == Shifted(LastUp(runs, id), cut)
  {
    var suffix := runs[cut..];
    assert forall i | 0 <= i < |suffix| :: suffix[i] == runs[cut + i];
    var all, found := LastUp(runs, id), LastUp(suffix, id);
    if all.Some? && all.value >= cut {
      assert SawUp(suffix[all.value - cut], id);
    }
    if found.Some? {
      assert SawUp(runs[cut + found.value], id);
    }
  }
}
