/** Endpoint availability (site/tools/collect_results.py): readings are merged per artifact and
    then across artifacts, with a down reading winning over an up one. */
module Endpoints {
  import opened Wrappers
  import opened Ordering
  import opened LinkedMap
  import opened History

  /** One probed endpoint; `info` stands for the fields that are only carried along. */
  datatype Reading = Reading(id: string, state: string, probedAt: string, info: string) {
    predicate Up() {
      state == "up"
    }
  }

  /** One endpoints-<task>.json file. */
  datatype Report = Unreadable | Probed(probedAt: string, endpoints: seq<Reading>)

  datatype Endpoint = Endpoint(reading: Reading, lastReachableAt: string)

  /** Everything a list of report files says, in the order it is read. */
  function ReadingsOf(reports: seq<Report>): seq<Reading> {
    if reports == [] then []
    else ReadingsOf(reports[..|reports| - 1]) + ReadingsOfOne(reports[|reports| - 1])
  }

  function ReadingsOfOne(report: Report): seq<Reading> {
    match report
    case Unreadable => []
    case Probed(at, endpoints) => seq(|endpoints|, i requires 0 <= i < |endpoints| => endpoints[i].(probedAt := at))
  }

  function Flatten<T>(xss: seq<seq<T>>): seq<T> {
    if xss == [] then [] else Flatten(xss[..|xss| - 1]) + xss[|xss| - 1]
  }

  // -- What the merge promises -----------------------------------------------------------

  predicate Matches(r: Reading, id: string, downOnly: bool) {
    r.id == id && (downOnly ==> !r.Up())
  }

  /** Reading i is the first that matches. */
  ghost predicate FirstAt(rs: seq<Reading>, i: nat, id: string, downOnly: bool) {
    i < |rs| && Matches(rs[i], id, downOnly) && forall j | 0 <= j < i :: !Matches(rs[j], id, downOnly)
  }

  ghost predicate IsFirst(rs: seq<Reading>, r: Reading, id: string, downOnly: bool) {
    exists i: nat :: FirstAt(rs, i, id, downOnly) && rs[i] == r
  }

  lemma FirstStays(rs: seq<Reading>, r: Reading, id: string, downOnly: bool)
    requires rs != [] && IsFirst(rs[..|rs| - 1], r, id, downOnly)
    ensures IsFirst(rs, r, id, downOnly)
  {
    var front := rs[..|rs| - 1];
    var i: nat :| FirstAt(front, i, id, downOnly) && front[i] == r;
    assert FirstAt(rs, i, id, downOnly) && rs[i] == r;
  }

  lemma LastIsFirst(rs: seq<Reading>, id: string, downOnly: bool)
    requires rs != [] && Matches(rs[|rs| - 1], id, downOnly)
    requires forall i | 0 <= i < |rs| - 1 :: !Matches(rs[i], id, downOnly)
    ensures IsFirst(rs, rs[|rs| - 1], id, downOnly)
  {
    assert FirstAt(rs, |rs| - 1, id, downOnly);
  }

  /** The first reading of an endpoint, or its first reading that is not up. */
  function FirstReading(rs: seq<Reading>, id: string, downOnly: bool): (found: Option<Reading>)
    ensures found.Some? ==> IsFirst(rs, found.value, id, downOnly)
    ensures found.None? ==> forall i | 0 <= i < |rs| :: !Matches(rs[i], id, downOnly)
  {
    if rs == [] then None
    else
      var earlier := FirstReading(rs[..|rs| - 1], id, downOnly);
      if earlier.Some? then
        FirstStays(rs, earlier.value, id, downOnly);
        earlier
      else if Matches(rs[|rs| - 1], id, downOnly) then
        assert forall i | 0 <= i < |rs| - 1 :: rs[..|rs| - 1][i] == rs[i];
        LastIsFirst(rs, id, downOnly);
        Some(rs[|rs| - 1])
      else
        assert forall i | 0 <= i < |rs| - 1 :: rs[..|rs| - 1][i] == rs[i];
        None
  }

  /** The reading that is kept: the first that is not up if there is one, else the first. */
  function Kept(rs: seq<Reading>, id: string): (kept: Option<Reading>)
    ensures kept.Some? ==> kept.value.id == id
  {
    var down := FirstReading(rs, id, true);
    if down.Some? then down else FirstReading(rs, id, false)
  }

  /** Whatever the order of the readings, an endpoint is up iff somebody read it and everybody
      who did read it up. */
  lemma UpIffEveryReadingUp(rs: seq<Reading>, id: string)
    ensures Kept(rs, id).Some? <==> exists i :: 0 <= i < |rs| && rs[i].id == id
    ensures Kept(rs, id).Some? ==>
              (Kept(rs, id).value.Up() <==> forall i | 0 <= i < |rs| && rs[i].id == id :: rs[i].Up())
  {
    var down, any := FirstReading(rs, id, true), FirstReading(rs, id, false);
    if down.None? {
      assert forall i | 0 <= i < |rs| :: !Matches(rs[i], id, true);
    }
    assert any.None? ==> forall i | 0 <= i < |rs| :: !Matches(rs[i], id, false);
  }

  /** The rule for one reading after another. */
  function Prefer(former: Option<Reading>, latter: Option<Reading>): Option<Reading> {
    if former.None? || (former.value.Up() && latter.Some? && !latter.value.Up()) then latter else former
  }

  lemma {:induction false} FirstOfConcat(a: seq<Reading>, b: seq<Reading>, id: string, downOnly: bool)
    ensures FirstReading(a + b, id, downOnly) ==
            if FirstReading(a, id, downOnly).Some? then FirstReading(a, id, downOnly)
            else FirstReading(b, id, downOnly)
  {
    if b == [] {
      assert a + b == a;
    } else {
      assert (a + b)[..|a + b| - 1] == a + b[..|b| - 1];
      FirstOfConcat(a, b[..|b| - 1], id, downOnly);
    }
  }

  /** Keeping is a left-to-right combination, so it may be done in stages. */
  lemma KeptOfConcat(a: seq<Reading>, b: seq<Reading>, id: string)
    ensures Kept(a + b, id) == Prefer(Kept(a, id), Kept(b, id))
  {
    FirstOfConcat(a, b, id, true);
    FirstOfConcat(a, b, id, false);
    UpIffEveryReadingUp(a, id);
    UpIffEveryReadingUp(b, id);
    DownIsDown(a, id);
    DownIsDown(b, id);
  }

  lemma DownIsDown(rs: seq<Reading>, id: string)
    ensures FirstReading(rs, id, true).Some? ==> !FirstReading(rs, id, true).value.Up()
    ensures FirstReading(rs, id, true).None? && FirstReading(rs, id, false).Some? ==>
              FirstReading(rs, id, false).value.Up()
  {
    var any := FirstReading(rs, id, false);
    if any.Some? {
      var i: nat :| FirstAt(rs, i, id, false) && rs[i] == any.value;
      assert !Matches(rs[i], id, true) || FirstReading(rs, id, true).Some?;
    }
  }

  // -- The dictionary the loops fill -----------------------------------------------------

  function Absorb(merged: Entries<string, Reading>, r: Reading): Entries<string, Reading> {
    var existing := Find(merged, r.id);
    if existing.None? || (existing.value.Up() && !r.Up()) then Put(merged, r.id, r) else merged
  }

  ghost predicate Holds(merged: Entries<string, Reading>, rs: seq<Reading>) {
    && LinkedMap.DistinctKeys(merged)
    && (forall id :: Find(merged, id) == Kept(rs, id))
  }

  lemma AbsorbHolds(merged: Entries<string, Reading>, rs: seq<Reading>, r: Reading)
    requires Holds(merged, rs)
    ensures Holds(Absorb(merged, r), rs + [r])
  {
    PutUpdates(merged, r.id, r);
    forall id ensures Find(Absorb(merged, r), id) == Kept(rs + [r], id) {
      KeptOfConcat(rs, [r], id);
      KeptOfOne(r, id);
    }
  }

  lemma KeptOfOne(r: Reading, id: string)
    ensures Kept([r], id) == if r.id == id then Some(r) else None
  {
    assert FirstReading([r][..0], id, true) == None && FirstReading([r][..0], id, false) == None;
  }

  function Values(merged: Entries<string, Reading>): (values: seq<Reading>)
    ensures |values| == |merged|
    ensures forall i | 0 <= i < |merged| :: values[i] == merged[i].1
  {
    seq(|merged|, i requires 0 <= i < |merged| => merged[i].1)
  }

  lemma ValuesHold(merged: Entries<string, Reading>, rs: seq<Reading>)
    requires Holds(merged, rs)
    ensures forall i | 0 <= i < |merged| :: merged[i].1.id == merged[i].0
    ensures forall r :: r in Values(merged) <==> Kept(rs, r.id) == Some(r)
  {
    forall i | 0 <= i < |merged| ensures Kept(rs, merged[i].0) == Some(merged[i].1) {
      FindFinds(merged, i);
    }
    forall r: Reading | Kept(rs, r.id) == Some(r) ensures r in Values(merged) {
      FindIsMember(merged, r.id);
      var i :| 0 <= i < |merged| && Keys(merged)[i] == r.id;
      FindFinds(merged, i);
      assert Values(merged)[i] == r;
    }
  }

  // -- Per artifact ----------------------------------------------------------------------

  const BY_ID: Reading -> (bool, string) := (r: Reading) => (false, r.id)

  /** The output of one artifact: the kept reading of every endpoint, once, in order of id. */
  ghost predicate IsParsed(out: seq<Reading>, rs: seq<Reading>) {
    && Sorted(out, Strict(BY_ID))
    && forall r :: r in out <==> Kept(rs, r.id) == Some(r)
  }

  method ParseEndpoints(reports: seq<Report>) returns (out: seq<Reading>)
    ensures IsParsed(out, ReadingsOf(reports))
    ensures ReportsFiles(out, reports)
  {
    var merged: Entries<string, Reading> := [];
    assert Holds(merged, []);
    for i := 0 to |reports|
      invariant Holds(merged, ReadingsOf(reports[..i]))
    {
      assert reports[..i + 1][..i] == reports[..i];
      var more := ReadingsOfOne(reports[i]);
      ghost var before := ReadingsOf(reports[..i]);
      merged := AbsorbAll(merged, more, before);
    }
    assert reports[..|reports|] == reports;
    ghost var rs := ReadingsOf(reports);
    ValuesHold(merged, rs);
    SortKeyed(Values(merged), BY_ID);
    out := SortBy(Values(merged), Keyed(BY_ID));
    ParsedReportsFiles(out, reports);
  }

  /** The inner loop both merges share. */
  method AbsorbAll(merged: Entries<string, Reading>, more: seq<Reading>, ghost before: seq<Reading>)
    returns (after: Entries<string, Reading>)
    requires Holds(merged, before)
    ensures Holds(after, before + more)
  {
    after := merged;
    assert before + more[..0] == before;
    for k := 0 to |more|
      invariant Holds(after, before + more[..k])
    {
      AbsorbNext(after, before, more, k);
      after := Absorb(after, more[k]);
    }
    assert more[..|more|] == more;
  }

  lemma AbsorbNext(merged: Entries<string, Reading>, before: seq<Reading>, more: seq<Reading>, k: nat)
    requires k < |more| && Holds(merged, before + more[..k])
    ensures Holds(Absorb(merged, more[k]), before + more[..k + 1])
  {
    NextPrefix(before, more, k);
    AbsorbHolds(merged, before + more[..k], more[k]);
  }

  lemma NextPrefix<T>(before: seq<T>, more: seq<T>, k: nat)
    requires k < |more|
    ensures before + more[..k + 1] == before + more[..k] + [more[k]]
  {
  }

  // -- The same in terms of the files ----------------------------------------------------

  /** Entry k of file i is about the endpoint. */
  predicate Lists(reports: seq<Report>, i: nat, k: nat, id: string, downOnly: bool) {
    i < |reports| && reports[i].Probed? && k < |reports[i].endpoints| && Matches(reports[i].endpoints[k], id, downOnly)
  }

  /** And no earlier entry of that file or an earlier one is. */
  ghost predicate ListsFirst(reports: seq<Report>, i: nat, k: nat, id: string, downOnly: bool) {
    && Lists(reports, i, k, id, downOnly)
    && forall j: nat, m: nat | Lists(reports, j, m, id, downOnly) :: i < j || (i == j && k <= m)
  }

  /** The entry as it is reported, with the time of its file. */
  ghost predicate IsEntry(reports: seq<Report>, i: nat, k: nat, r: Reading) {
    && i < |reports| && reports[i].Probed? && k < |reports[i].endpoints|
    && r.id == reports[i].endpoints[k].id && r.state == reports[i].endpoints[k].state
    && r.info == reports[i].endpoints[k].info && r.probedAt == reports[i].probedAt
  }

  ghost predicate IsListed(reports: seq<Report>, id: string, downOnly: bool) {
    exists i: nat, k: nat :: Lists(reports, i, k, id, downOnly)
  }

  ghost predicate IsFirstListed(reports: seq<Report>, r: Reading, id: string, downOnly: bool) {
    exists i: nat, k: nat :: ListsFirst(reports, i, k, id, downOnly) && IsEntry(reports, i, k, r)
  }

  /** What is to be reported of an endpoint: its first entry that is not up if it has one, else its
      first entry. */
  ghost predicate IsReported(reports: seq<Report>, r: Reading) {
    IsFirstListed(reports, r, r.id, IsListed(reports, r.id, true))
  }

  /** Every endpoint that is listed is reported once, in order of id, and no other. */
  ghost predicate ReportsFiles(out: seq<Reading>, reports: seq<Report>) {
    && (forall id :: IsListed(reports, id, false) <==> exists r :: r in out && r.id == id)
    && (forall r | r in out :: IsReported(reports, r))
    && forall i, j | 0 <= i < j < |out| :: out[i].id != out[j].id && AtOrBefore(out[i].id, out[j].id)
  }

  lemma {:induction false} FirstReadingIsListed(reports: seq<Report>, id: string, downOnly: bool)
    ensures var found := FirstReading(ReadingsOf(reports), id, downOnly);
            && (found.Some? <==> IsListed(reports, id, downOnly))
            && (found.Some? ==> IsFirstListed(reports, found.value, id, downOnly))
  {
    if reports != [] {
      var front, last := reports[..|reports| - 1], reports[|reports| - 1];
      FirstReadingIsListed(front, id, downOnly);
      FirstOfConcat(ReadingsOf(front), ReadingsOfOne(last), id, downOnly);
      if IsListed(front, id, downOnly) {
        ListedEarlier(reports, FirstReading(ReadingsOf(front), id, downOnly).value, id, downOnly);
      } else {
        ListedLast(reports, id, downOnly);
      }
    }
  }

  lemma ListedEarlier(reports: seq<Report>, r: Reading, id: string, downOnly: bool)
    requires reports != [] && IsFirstListed(reports[..|reports| - 1], r, id, downOnly)
    ensures IsListed(reports, id, downOnly) && IsFirstListed(reports, r, id, downOnly)
  {
    var front := reports[..|reports| - 1];
    var i: nat, k: nat :| ListsFirst(front, i, k, id, downOnly) && IsEntry(front, i, k, r);
    assert Lists(reports, i, k, id, downOnly);
    forall j: nat, m: nat | Lists(reports, j, m, id, downOnly) ensures i < j || (i == j && k <= m) {
      if j < |front| {
        assert Lists(front, j, m, id, downOnly);
      }
    }
    assert ListsFirst(reports, i, k, id, downOnly) && IsEntry(reports, i, k, r);
  }

  lemma ListedLast(reports: seq<Report>, id: string, downOnly: bool)
    requires reports != [] && !IsListed(reports[..|reports| - 1], id, downOnly)
    ensures var found := FirstReading(ReadingsOfOne(reports[|reports| - 1]), id, downOnly);
            && (found.Some? <==> IsListed(reports, id, downOnly))
            && (found.Some? ==> IsFirstListed(reports, found.value, id, downOnly))
  {
    var n := |reports| - 1;
    var front, rs := reports[..n], ReadingsOfOne(reports[n]);
    var found := FirstReading(rs, id, downOnly);
    forall i: nat, k: nat | Lists(reports, i, k, id, downOnly) ensures i == n && found.Some? {
      if i < n {
        assert Lists(front, i, k, id, downOnly);
      }
      assert Matches(rs[k], id, downOnly);
    }
    if found.Some? {
      var k: nat :| FirstAt(rs, k, id, downOnly) && rs[k] == found.value;
      assert Lists(reports, n, k, id, downOnly);
      forall j: nat, m: nat | Lists(reports, j, m, id, downOnly) ensures n < j || (n == j && k <= m) {
        assert j == n && Matches(rs[m], id, downOnly);
      }
      assert ListsFirst(reports, n, k, id, downOnly) && IsEntry(reports, n, k, found.value);
    }
  }

  /** The kept reading is the one to report. */
  lemma KeptIsReported(reports: seq<Report>, id: string)
    ensures Kept(ReadingsOf(reports), id).Some? <==> IsListed(reports, id, false)
    ensures Kept(ReadingsOf(reports), id).Some? ==> IsReported(reports, Kept(ReadingsOf(reports), id).value)
  {
    FirstReadingIsListed(reports, id, true);
    FirstReadingIsListed(reports, id, false);
    if IsListed(reports, id, true) {
      var i: nat, k: nat :| Lists(reports, i, k, id, true);
      assert Lists(reports, i, k, id, false);
    }
  }

  lemma ParsedReportsFiles(out: seq<Reading>, reports: seq<Report>)
    requires IsParsed(out, ReadingsOf(reports))
    ensures ReportsFiles(out, reports)
  {
    forall id ensures IsListed(reports, id, false) <==> exists r :: r in out && r.id == id {
      KeptIsReported(reports, id);
      if Kept(ReadingsOf(reports), id).Some? {
        assert Kept(ReadingsOf(reports), id).value in out;
      }
    }
    forall r | r in out ensures IsReported(reports, r) {
      KeptIsReported(reports, r.id);
    }
    forall i, j | 0 <= i < j < |out| ensures out[i].id != out[j].id && AtOrBefore(out[i].id, out[j].id) {
      assert Strict(BY_ID)(out[i], out[j]);
      StringLeIsOrder(out[i].id, out[j].id);
    }
  }

  // -- Across artifacts ------------------------------------------------------------------

  const DOWN_FIRST: Endpoint -> (bool, string) := (e: Endpoint) => (e.reading.Up(), e.reading.id)

  function LastReachableAt(r: Reading, history: seq<Run>, finishedAt: string): string {
    if r.Up() then finishedAt else LastReachable(history, r.id)
  }

  /** The endpoints of a snapshot: every kept reading once, down ones first, each half by id. */
  ghost predicate IsMerged(out: seq<Endpoint>, rs: seq<Reading>, history: seq<Run>, finishedAt: string) {
    && Sorted(out, Strict(DOWN_FIRST))
    && forall e :: e in out <==>
         Kept(rs, e.reading.id) == Some(e.reading)
         && e.lastReachableAt == LastReachableAt(e.reading, history, finishedAt)
  }

  /** When an endpoint that is down was last reachable: when the latest entry that saw it up finished,
      or never. */
  ghost predicate DatedBy(at: string, history: seq<Run>, id: string) {
    if exists i :: 0 <= i < |history| && SawUp(history[i], id) then
      exists i :: 0 <= i < |history| && SawUp(history[i], id) && at == history[i].finishedAt
                  && forall j | i < j < |history| :: !SawUp(history[j], id)
    else at == ""
  }

  /** Down endpoints first, each half in order of id; those that are up are dated now, the others by
      the history. */
  ghost predicate OrderedAndDated(out: seq<Endpoint>, history: seq<Run>, finishedAt: string) {
    && (forall i, j | 0 <= i < j < |out| ::
          && out[i].reading.id != out[j].reading.id
          && (out[j].reading.state != "up" ==> out[i].reading.state != "up")
          && (out[i].reading.Up() == out[j].reading.Up() ==> AtOrBefore(out[i].reading.id, out[j].reading.id)))
    && forall e | e in out ::
         if e.reading.state == "up" then e.lastReachableAt == finishedAt
         else DatedBy(e.lastReachableAt, history, e.reading.id)
  }

  lemma MergedIsOrderedAndDated(out: seq<Endpoint>, rs: seq<Reading>, history: seq<Run>, finishedAt: string)
    requires IsMerged(out, rs, history, finishedAt)
    ensures OrderedAndDated(out, history, finishedAt)
  {
    forall i, j | 0 <= i < j < |out|
      ensures out[i].reading.id != out[j].reading.id
      ensures out[j].reading.state != "up" ==> out[i].reading.state != "up"
      ensures out[i].reading.Up() == out[j].reading.Up() ==> AtOrBefore(out[i].reading.id, out[j].reading.id)
    {
      assert Strict(DOWN_FIRST)(out[i], out[j]);
      StringLeIsOrder(out[i].reading.id, out[j].reading.id);
    }
    forall e | e in out && e.reading.state != "up" ensures DatedBy(e.lastReachableAt, history, e.reading.id) {
      LastReachableDates(history, e.reading.id);
    }
  }

  lemma LastReachableDates(history: seq<Run>, id: string)
    ensures DatedBy(LastReachable(history, id), history, id)
  {
    var at := LastUp(history, id);
    if at.Some? {
      assert SawUp(history[at.value], id);
    }
  }

  method MergeEndpoints(artifacts: seq<seq<Reading>>, history: seq<Run>, finishedAt: string)
    returns (out: seq<Endpoint>)
    ensures IsMerged(out, Flatten(artifacts), history, finishedAt)
    ensures OrderedAndDated(out, history, finishedAt)
  {
    var endpoints: Entries<string, Reading> := [];
    assert Holds(endpoints, []);
    for i := 0 to |artifacts|
      invariant Holds(endpoints, Flatten(artifacts[..i]))
    {
      assert artifacts[..i + 1][..i] == artifacts[..i];
      endpoints := AbsorbAll(endpoints, artifacts[i], Flatten(artifacts[..i]));
    }
    assert artifacts[..|artifacts|] == artifacts;
    ValuesHold(endpoints, Flatten(artifacts));
    var dated := Dated(Values(endpoints), history, finishedAt);
    SortKeyed(dated, DOWN_FIRST);
    out := SortBy(dated, Keyed(DOWN_FIRST));
    MergedIsOrderedAndDated(out, Flatten(artifacts), history, finishedAt);
  }

  /** The loop that fills in when each endpoint was last reachable. */
  method Dated(rs: seq<Reading>, history: seq<Run>, finishedAt: string) returns (dated: seq<Endpoint>)
    ensures |dated| == |rs|
    ensures forall i | 0 <= i < |rs| :: dated[i] == Endpoint(rs[i], LastReachableAt(rs[i], history, finishedAt))
    ensures forall e :: e in dated <==>
              e.reading in rs && e.lastReachableAt == LastReachableAt(e.reading, history, finishedAt)
  {
    dated := [];
    for i := 0 to |rs|
      invariant |dated| == i
      invariant forall k | 0 <= k < i :: dated[k] == Endpoint(rs[k], LastReachableAt(rs[k], history, finishedAt))
    {
      if rs[i].Up() {
        dated := dated + [Endpoint(rs[i], finishedAt)];
      } else {
        dated := dated + [Endpoint(rs[i], LastReachable(history, rs[i].id))];
      }
    }
    forall e: Endpoint | e.reading in rs && e.lastReachableAt == LastReachableAt(e.reading, history, finishedAt)
      ensures e in dated
    {
      var k :| 0 <= k < |rs| && rs[k] == e.reading;
      assert dated[k] == e;
    }
  }

  /** The specification leaves one possible output. */
  lemma MergedIsUnique(a: seq<Endpoint>, b: seq<Endpoint>, rs: seq<Reading>, history: seq<Run>, finishedAt: string)
    requires IsMerged(a, rs, history, finishedAt) && IsMerged(b, rs, history, finishedAt)
    ensures a == b
  {
    StrictUnique(a, b, DOWN_FIRST);
  }

  // -- Two stages or one -----------------------------------------------------------------

  lemma {:induction false} ParsedKeeps(out: seq<Reading>, rs: seq<Reading>, id: string)
    requires IsParsed(out, rs)
    ensures Kept(out, id) == Kept(rs, id)
  {
    assert Kept(rs, id).Some? ==> Kept(rs, id).value in out;
    UpIffEveryReadingUp(out, id);
    if Kept(out, id).Some? {
      KeptIsMember(out, id);
    }
  }

  lemma KeptIsMember(rs: seq<Reading>, id: string)
    requires Kept(rs, id).Some?
    ensures Kept(rs, id).value in rs
  {
  }

  function AllReadings(files: seq<seq<Report>>): seq<Reading> {
    if files == [] then [] else AllReadings(files[..|files| - 1]) + ReadingsOf(files[|files| - 1])
  }

  /** Merging per artifact and then across artifacts keeps the same reading of every endpoint
      as one merge of all the files. */
  lemma {:induction false} TwoStagesKeepTheSame(parsed: seq<seq<Reading>>, files: seq<seq<Report>>, id: string)
    requires |parsed| == |files| && forall i | 0 <= i < |files| :: IsParsed(parsed[i], ReadingsOf(files[i]))
    ensures Kept(Flatten(parsed), id) == Kept(AllReadings(files), id)
  {
    if files != [] {
      var n := |files| - 1;
      TwoStagesKeepTheSame(parsed[..n], files[..n], id);
      ParsedKeeps(parsed[n], ReadingsOf(files[n]), id);
      KeptOfConcat(Flatten(parsed[..n]), parsed[n], id);
      KeptOfConcat(AllReadings(files[..n]), ReadingsOf(files[n]), id);
    }
  }

  /** What is published of all the report files, one after the other: every endpoint that is listed,
      once, as its first entry that is not up if it has one, else its first entry. */
  ghost predicate PublishesFiles(out: seq<Endpoint>, reports: seq<Report>) {
    && (forall id :: IsListed(reports, id, false) <==> exists e :: e in out && e.reading.id == id)
    && forall e | e in out :: IsReported(reports, e.reading)
  }

  lemma {:induction false} ReadingsOfFiles(files: seq<seq<Report>>)
    ensures ReadingsOf(Flatten(files)) == AllReadings(files)
  {
    if files != [] {
      ReadingsOfFiles(files[..|files| - 1]);
      ReadingsOfConcat(Flatten(files[..|files| - 1]), files[|files| - 1]);
    }
  }

  lemma {:induction false} ReadingsOfConcat(a: seq<Report>, b: seq<Report>)
    ensures ReadingsOf(a + b) == ReadingsOf(a) + ReadingsOf(b)
  {
    if b == [] {
      assert a + b == a;
    } else {
      var front, last := b[..|b| - 1], b[|b| - 1];
      assert b == front + [last] && a + b == (a + front) + [last];
      ReadingsOfConcat(a, front);
      ReadingsOfSnoc(a + front, last);
      Regrouped(ReadingsOf(a), ReadingsOf(front), ReadingsOfOne(last));
    }
  }

  lemma ReadingsOfSnoc(reports: seq<Report>, last: Report)
    ensures ReadingsOf(reports + [last]) == ReadingsOf(reports) + ReadingsOfOne(last)
  {
    assert (reports + [last])[..|reports|] == reports;
  }

  lemma MergedPublishesFiles(out: seq<Endpoint>, reports: seq<Report>, history: seq<Run>, finishedAt: string)
    requires IsMerged(out, ReadingsOf(reports), history, finishedAt)
    ensures PublishesFiles(out, reports)
  {
    forall id ensures IsListed(reports, id, false) <==> exists e :: e in out && e.reading.id == id {
      KeptIsReported(reports, id);
      if Kept(ReadingsOf(reports), id).Some? {
        var r := Kept(ReadingsOf(reports), id).value;
        assert Endpoint(r, LastReachableAt(r, history, finishedAt)) in out;
      }
    }
    forall e | e in out ensures IsReported(reports, e.reading) {
      KeptIsReported(reports, e.reading.id);
    }
  }

  /** The published list is the one a single flat merge of all report files would publish, and says of
      every endpoint what its entries in those files call for. */
  lemma TwoStagesAreFlat(parsed: seq<seq<Reading>>, files: seq<seq<Report>>,
                         out: seq<Endpoint>, history: seq<Run>, finishedAt: string)
    requires |parsed| == |files| && forall i | 0 <= i < |files| :: IsParsed(parsed[i], ReadingsOf(files[i]))
    requires IsMerged(out, Flatten(parsed), history, finishedAt)
    ensures IsMerged(out, AllReadings(files), history, finishedAt)
    ensures PublishesFiles(out, Flatten(files)) && OrderedAndDated(out, history, finishedAt)
  {
    forall id ensures Kept(Flatten(parsed), id) == Kept(AllReadings(files), id) {
      TwoStagesKeepTheSame(parsed, files, id);
    }
    ReadingsOfFiles(files);
    MergedPublishesFiles(out, Flatten(files), history, finishedAt);
    MergedIsOrderedAndDated(out, Flatten(parsed), history, finishedAt);
  }
}
