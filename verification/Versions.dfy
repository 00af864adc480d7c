/** Suite results, version cards and the page's headline
    (site/tools/collect_results.py, site/assets/status.js). */
module Versions {
  import opened Wrappers
  import opened Ordering
  import opened LinkedMap
  import opened Endpoints

  // -- One suite -------------------------------------------------------------------------

  datatype CaseStatus = Passed | Failed | Expected | Skipped

  /** What the JUnit XML says of a case, its name normalised. `assumption` is whether a failure's
      trace names an assumption violation, `reason` why failing would be the expected answer. */
  datatype RawCase = RawCase(name: string, failing: bool, assumption: bool, skipped: bool, reason: string)

  datatype Case = Case(name: string, status: CaseStatus)

  datatype Suite = Suite(
    name: string,
    reporting: bool,
    critical: bool,
    cases: seq<Case>,
    passed: nat,
    failed: nat,
    expected: nat,
    skipped: nat)

  function Classify(c: RawCase): (status: CaseStatus)
    ensures status == Passed <==> !c.failing && !c.skipped
    ensures status == Failed <==> c.failing && !c.assumption && c.reason == ""
    ensures status == Expected <==> (c.failing || c.skipped) && c.reason != ""
  {
    var status :=
      if c.failing then (if c.assumption then Skipped else Failed)
      else if c.skipped then Skipped
      else Passed;
    if status != Passed && c.reason != "" then Expected else status
  }

  function Classified(raw: seq<RawCase>): (cases: seq<Case>)
    ensures |cases| == |raw| && forall i | 0 <= i < |raw| :: cases[i] == Case(raw[i].name, Classify(raw[i]))
  {
    seq(|raw|, i requires 0 <= i < |raw| => Case(raw[i].name, Classify(raw[i])))
  }

  const BY_NAME: Case -> (bool, string) := (c: Case) => (false, c.name)

  function Count(cases: seq<Case>, status: CaseStatus): nat {
    if cases == [] then 0
    else Count(cases[..|cases| - 1], status) + if cases[|cases| - 1].status == status then 1 else 0
  }

  /** The recorded counts are the numbers of cases of each status. */
  ghost predicate Counted(s: Suite) {
    && s.passed == Count(s.cases, Passed)
    && s.failed == Count(s.cases, Failed)
    && s.expected == Count(s.cases, Expected)
    && s.skipped == Count(s.cases, Skipped)
  }

  method ParseCases(raw: seq<RawCase>) returns (cases: seq<Case>)
    ensures cases == Classified(raw)
  {
    cases := [];
    for i := 0 to |raw|
      invariant |cases| == i && forall k | 0 <= k < i :: cases[k] == Case(raw[k].name, Classify(raw[k]))
    {
      cases := cases + [Case(raw[i].name, Classify(raw[i]))];
    }
  }

  /** Every case is kept, in the order of the names, and counted once. */
  method ParseSuite(name: string, reporting: bool, critical: bool, raw: seq<RawCase>) returns (suite: Suite)
    ensures Counted(suite)
    ensures suite.name == name && suite.reporting == reporting && suite.critical == critical
    ensures multiset(suite.cases) == multiset(Classified(raw))
    ensures suite.cases == SortBy(Classified(raw), Keyed(BY_NAME)) && Sorted(suite.cases, Keyed(BY_NAME))
    ensures suite.passed + suite.failed + suite.expected + suite.skipped == |raw|
  {
    var cases := ParseCases(raw);
    var sorted := SortBy(cases, Keyed(BY_NAME));
    SortedCounts(cases, sorted);
    suite := Suite(name, reporting, critical, sorted,
                   Count(cases, Passed), Count(cases, Failed), Count(cases, Expected), Count(cases, Skipped));
  }

  lemma SortedCounts(cases: seq<Case>, sorted: seq<Case>)
    requires sorted == SortBy(cases, Keyed(BY_NAME))
    ensures Sorted(sorted, Keyed(BY_NAME)) && multiset(sorted) == multiset(cases)
    ensures forall status :: Count(sorted, status) == Count(cases, status)
    ensures Count(cases, Passed) + Count(cases, Failed) + Count(cases, Expected) + Count(cases, Skipped) == |cases|
  {
    KeyedPreorder(BY_NAME);
    SortSorts(cases, Keyed(BY_NAME));
    CountsCoverCases(cases);
    forall status ensures Count(sorted, status) == Count(cases, status) {
      CountOfSort(cases, Keyed(BY_NAME), status);
    }
  }

  /** The four counts sum to the number of cases. */
  lemma {:induction false} CountsCoverCases(cases: seq<Case>)
    ensures Count(cases, Passed) + Count(cases, Failed) + Count(cases, Expected) + Count(cases, Skipped) == |cases|
  {
    if cases != [] {
      CountsCoverCases(cases[..|cases| - 1]);
    }
  }

  /** Sorting changes no count. */
  lemma {:induction false} CountOfSort(cases: seq<Case>, le: Order<Case>, status: CaseStatus)
    ensures Count(SortBy(cases, le), status) == Count(cases, status)
  {
    if cases != [] {
      CountOfSort(cases[..|cases| - 1], le, status);
      CountOfInsert(SortBy(cases[..|cases| - 1], le), cases[|cases| - 1], le, status);
    }
  }

  lemma {:induction false} CountOfInsert(cases: seq<Case>, c: Case, le: Order<Case>, status: CaseStatus)
    ensures Count(Insert(cases, c, le), status) == Count(cases, status) + if c.status == status then 1 else 0
  {
    if cases == [] || le(cases[|cases| - 1], c) {
      CountOfSnoc(cases, c, status);
    } else {
      CountOfInsert(cases[..|cases| - 1], c, le, status);
      CountOfSnoc(Insert(cases[..|cases| - 1], c, le), cases[|cases| - 1], status);
    }
  }

  lemma CountOfSnoc(cases: seq<Case>, c: Case, status: CaseStatus)
    ensures Count(cases + [c], status) == Count(cases, status) + if c.status == status then 1 else 0
  {
    assert (cases + [c])[..|cases|] == cases;
  }

  function Named(name: string): Case -> bool {
    (c: Case) => c.name == name
  }

  /** Cases of one name, such as the runs of a repeated test, stay in the order of the file. */
  lemma SameNamedCasesKeepOrder(raw: seq<RawCase>, name: string)
    ensures Filter(SortBy(Classified(raw), Keyed(BY_NAME)), Named(name)) == Filter(Classified(raw), Named(name))
  {
    KeyedKeepsOrder(Classified(raw), BY_NAME, Case(name, Passed), Named(name));
  }

  // -- Statuses --------------------------------------------------------------------------

  datatype Status = FailedStatus | FindingStatus | ExpectedStatus | PassedStatus | SkippedStatus | UnknownStatus

  /** The collector's verdict on a suite. */
  function SuiteStatus(s: Suite): Status {
    if s.failed != 0 then
      if !s.reporting || s.critical then FailedStatus else FindingStatus
    else if s.expected != 0 then ExpectedStatus
    else if s.passed != 0 then PassedStatus
    else SkippedStatus
  }

  ghost predicate HasCase(cases: seq<Case>, status: CaseStatus) {
    exists c :: c in cases && c.status == status
  }

  lemma {:induction false} CountShows(cases: seq<Case>, status: CaseStatus)
    ensures Count(cases, status) > 0 <==> HasCase(cases, status)
  {
    if cases != [] {
      var front, last := cases[..|cases| - 1], cases[|cases| - 1];
      assert cases == front + [last];
      CountShows(front, status);
    }
  }

  /** A suite's verdict in terms of its cases: red or amber, as the suite gates or is watched, iff a case
      failed; else expected iff one failed or was skipped as expected; else passed iff one passed; and
      skipped iff there is nothing but skipped cases. */
  lemma SuiteStatusFromCases(s: Suite)
    requires Counted(s)
    ensures SuiteStatus(s) == FailedStatus <==> HasCase(s.cases, Failed) && (!s.reporting || s.critical)
    ensures SuiteStatus(s) == FindingStatus <==> HasCase(s.cases, Failed) && s.reporting && !s.critical
    ensures SuiteStatus(s) == ExpectedStatus <==> !HasCase(s.cases, Failed) && HasCase(s.cases, Expected)
    ensures SuiteStatus(s) == PassedStatus <==>
            !HasCase(s.cases, Failed) && !HasCase(s.cases, Expected) && HasCase(s.cases, Passed)
    ensures SuiteStatus(s) == SkippedStatus <==> forall c | c in s.cases :: c.status == Skipped
    ensures SuiteStatus(s) != UnknownStatus
  {
    CountShows(s.cases, Failed);
    CountShows(s.cases, Expected);
    CountShows(s.cases, Passed);
    assert (forall c | c in s.cases :: c.status == Skipped) <==>
           !HasCase(s.cases, Failed) && !HasCase(s.cases, Expected) && !HasCase(s.cases, Passed);
  }

  const WORST_FIRST := [FailedStatus, FindingStatus, ExpectedStatus, PassedStatus, SkippedStatus]

  function FirstPresent(candidates: seq<Status>, statuses: seq<Status>): Status {
    if candidates == [] then UnknownStatus
    else if candidates[0] in statuses then candidates[0]
    else FirstPresent(candidates[1..], statuses)
  }

  function RollUp(statuses: seq<Status>): Status {
    FirstPresent(WORST_FIRST, statuses)
  }

  function Rank(s: Status): nat {
    match s
    case FailedStatus => 0
    case FindingStatus => 1
    case ExpectedStatus => 2
    case PassedStatus => 3
    case SkippedStatus => 4
    case UnknownStatus => 5
  }

  /** Rolling up gives the worst status present, and "unknown" when there is none to give. */
  lemma RollUpIsWorst(statuses: seq<Status>)
    ensures RollUp(statuses) in statuses || RollUp(statuses) == UnknownStatus
    ensures forall s | s in statuses :: Rank(RollUp(statuses)) <= Rank(s)
  {
    FirstPresentIsLeast(WORST_FIRST, statuses);
    forall s | s in statuses ensures Rank(RollUp(statuses)) <= Rank(s) {
      if s != UnknownStatus {
        assert WORST_FIRST[Rank(s)] == s;
      }
    }
  }

  lemma {:induction false} FirstPresentIsLeast(candidates: seq<Status>, statuses: seq<Status>)
    requires forall i, j | 0 <= i < j < |candidates| :: Rank(candidates[i]) < Rank(candidates[j])
    ensures var r := FirstPresent(candidates, statuses);
            && (r in statuses || r == UnknownStatus)
            && forall s | s in candidates && s in statuses :: Rank(r) <= Rank(s)
  {
    if candidates != [] {
      FirstPresentIsLeast(candidates[1..], statuses);
      assert candidates == [candidates[0]] + candidates[1..];
    }
  }

  lemma RankIsInjective(a: Status, b: Status)
    requires Rank(a) == Rank(b)
    ensures a == b
  {
  }

  /** The worst status present is the only one that is no better than any other. */
  lemma RollUpDetermined(statuses: seq<Status>, r: Status)
    requires r in statuses || r == UnknownStatus
    requires forall s | s in statuses :: Rank(r) <= Rank(s)
    ensures RollUp(statuses) == r
  {
    RollUpIsWorst(statuses);
    RankIsInjective(RollUp(statuses), r);
  }

  function RollUpEach(xss: seq<seq<Status>>): (rs: seq<Status>)
    ensures |rs| == |xss| && forall k | 0 <= k < |rs| :: rs[k] == RollUp(xss[k])
  {
    seq(|xss|, k requires 0 <= k < |xss| => RollUp(xss[k]))
  }

  lemma {:induction false} FlattenMembers<T>(xss: seq<seq<T>>, x: T)
    ensures x in Flatten(xss) <==> exists k :: 0 <= k < |xss| && x in xss[k]
  {
    if xss != [] {
      var front := xss[..|xss| - 1];
      FlattenMembers(front, x);
      assert forall k | 0 <= k < |front| :: front[k] == xss[k];
    }
  }

  /** Rolling up card by card and then over the cards is rolling up everything at once. */
  lemma RollUpInStages(xss: seq<seq<Status>>)
    ensures RollUp(RollUpEach(xss)) == RollUp(Flatten(xss))
  {
    var rs := RollUpEach(xss);
    var r := RollUp(rs);
    RollUpIsWorst(rs);
    if r in rs {
      var k :| 0 <= k < |rs| && rs[k] == r;
      RollUpIsWorst(xss[k]);
      FlattenMembers(xss, r);
    }
    forall s | s in Flatten(xss) ensures Rank(r) <= Rank(s) {
      FlattenMembers(xss, s);
      var k :| 0 <= k < |xss| && s in xss[k];
      RollUpIsWorst(xss[k]);
      assert rs[k] in rs;
    }
    RollUpDetermined(Flatten(xss), r);
  }

  // -- Cards -----------------------------------------------------------------------------

  datatype Artifact = Artifact(
    okhttpVersion: string,
    title: string,
    workflow: string,
    platform: string,
    suites: seq<Suite>,
    clientHello: Option<string>)

  /** A card while artifacts are still being added. */
  datatype OpenCard = OpenCard(
    title: string,
    workflows: seq<string>,
    platforms: seq<string>,
    suites: seq<Suite>,
    clientHello: Option<string>)

  datatype Card = Card(
    okhttpVersion: string,
    open: OpenCard,
    status: Status,
    counts: Totals)

  datatype Totals = Totals(passed: nat, failed: nat, expected: nat, skipped: nat) {
    function Plus(s: Suite): Totals {
      Totals(passed + s.passed, failed + s.failed, expected + s.expected, skipped + s.skipped)
    }

    function Cases(): nat {
      passed + failed + expected + skipped
    }
  }

  function TotalsOf(suites: seq<Suite>): Totals {
    if suites == [] then Totals(0, 0, 0, 0) else TotalsOf(suites[..|suites| - 1]).Plus(suites[|suites| - 1])
  }

  function StatusesOf(suites: seq<Suite>): (statuses: seq<Status>)
    ensures |statuses| == |suites| && forall k | 0 <= k < |suites| :: statuses[k] == SuiteStatus(suites[k])
  {
    seq(|suites|, k requires 0 <= k < |suites| => SuiteStatus(suites[k]))
  }

  function Noted(seen: seq<string>, name: string): seq<string> {
    if name in seen then seen else seen + [name]
  }

  function Blank(a: Artifact): OpenCard {
    OpenCard(a.title, [], [], [], None)
  }

  function Extend(c: OpenCard, a: Artifact): OpenCard {
    OpenCard(
      c.title,
      Noted(c.workflows, a.workflow),
      if a.platform != "" then Noted(c.platforms, a.platform) else c.platforms,
      c.suites + a.suites,
      if c.clientHello.None? then a.clientHello else c.clientHello)
  }

  /** The artifacts of one version, in order. */
  function ArtifactsOf(artifacts: seq<Artifact>, version: string): seq<Artifact> {
    Filter(artifacts, (a: Artifact) => a.okhttpVersion == version)
  }

  function Combine(artifacts: seq<Artifact>): OpenCard
    requires artifacts != []
  {
    var last := artifacts[|artifacts| - 1];
    Extend(if |artifacts| == 1 then Blank(last) else Combine(artifacts[..|artifacts| - 1]), last)
  }

  function SuitesOf(artifacts: seq<Artifact>): seq<Suite> {
    if artifacts == [] then [] else SuitesOf(artifacts[..|artifacts| - 1]) + artifacts[|artifacts| - 1].suites
  }

  /** What a combined card says, field by field. */
  lemma CombineCollects(artifacts: seq<Artifact>)
    requires artifacts != []
    ensures var card := Combine(artifacts);
            && card.title == artifacts[0].title
            && card.suites == SuitesOf(artifacts)
            && (forall w :: w in card.workflows <==> w in WorkflowsOf(artifacts))
            && (forall p :: p in card.platforms <==> p != "" && p in PlatformsOf(artifacts))
            && NoRepeats(card.workflows) && NoRepeats(card.platforms)
  {
    CombinedSuites(artifacts);
    SeenAmong(artifacts);
  }

  lemma {:induction false} CombinedSuites(artifacts: seq<Artifact>)
    requires artifacts != []
    ensures Combine(artifacts).title == artifacts[0].title
    ensures Combine(artifacts).suites == SuitesOf(artifacts)
  {
    if |artifacts| > 1 {
      CombinedSuites(artifacts[..|artifacts| - 1]);
    }
  }

  /** Names noted one after the other. */
  function NotedAll(names: seq<string>): seq<string> {
    if names == [] then [] else Noted(NotedAll(names[..|names| - 1]), names[|names| - 1])
  }

  ghost predicate NoRepeats(names: seq<string>) {
    forall i, j | 0 <= i < j < |names| :: names[i] != names[j]
  }

  lemma {:induction false} NotedOnce(names: seq<string>)
    ensures NoRepeats(NotedAll(names))
    ensures forall name :: name in NotedAll(names) <==> name in names
  {
    if names != [] {
      NotedOnce(names[..|names| - 1]);
      assert names == names[..|names| - 1] + [names[|names| - 1]];
    }
  }

  lemma {:induction false} CombinedNames(artifacts: seq<Artifact>)
    requires artifacts != []
    ensures Combine(artifacts).workflows == NotedAll(WorkflowsOf(artifacts))
    ensures Combine(artifacts).platforms == NotedAll(Filter(PlatformsOf(artifacts), NotEmpty))
  {
    var front, last := artifacts[..|artifacts| - 1], artifacts[|artifacts| - 1];
    assert WorkflowsOf(artifacts)[..|front|] == WorkflowsOf(front);
    assert PlatformsOf(artifacts)[..|front|] == PlatformsOf(front);
    var platforms := Filter(PlatformsOf(front), NotEmpty);
    if front != [] {
      CombinedNames(front);
    }
    assert (platforms + [last.platform])[..|platforms|] == platforms && platforms + [] == platforms;
  }

  function NotEmpty(name: string): bool {
    name != ""
  }

  lemma {:induction false} FilterMembers<T>(xs: seq<T>, keep: T -> bool)
    ensures forall x :: x in Filter(xs, keep) <==> x in xs && keep(x)
  {
    if xs != [] {
      FilterMembers(xs[..|xs| - 1], keep);
      assert xs == xs[..|xs| - 1] + [xs[|xs| - 1]];
    }
  }

  lemma SeenAmong(artifacts: seq<Artifact>)
    requires artifacts != []
    ensures forall w :: w in Combine(artifacts).workflows <==> w in WorkflowsOf(artifacts)
    ensures forall p :: p in Combine(artifacts).platforms <==> p != "" && p in PlatformsOf(artifacts)
    ensures NoRepeats(Combine(artifacts).workflows) && NoRepeats(Combine(artifacts).platforms)
  {
    CombinedNames(artifacts);
    NotedOnce(WorkflowsOf(artifacts));
    NotedOnce(Filter(PlatformsOf(artifacts), NotEmpty));
    FilterMembers(PlatformsOf(artifacts), NotEmpty);
  }

  /** The card keeps the first ClientHello any of its artifacts recorded. */
  lemma {:induction false} CombineKeepsFirstHello(artifacts: seq<Artifact>)
    requires artifacts != []
    ensures match Combine(artifacts).clientHello
            case None => forall k | 0 <= k < |artifacts| :: artifacts[k].clientHello.None?
            case Some(hello) => exists k :: 0 <= k < |artifacts| && artifacts[k].clientHello == Some(hello)
                                            && forall m | 0 <= m < k :: artifacts[m].clientHello.None?
  {
    var front, last := artifacts[..|artifacts| - 1], artifacts[|artifacts| - 1];
    if front != [] {
      CombineKeepsFirstHello(front);
      assert forall k | 0 <= k < |front| :: front[k] == artifacts[k];
    }
    assert artifacts[|artifacts| - 1].clientHello == last.clientHello;
  }

  function WorkflowsOf(artifacts: seq<Artifact>): (names: seq<string>)
    ensures |names| == |artifacts| && forall k | 0 <= k < |names| :: names[k] == artifacts[k].workflow
  {
    seq(|artifacts|, k requires 0 <= k < |artifacts| => artifacts[k].workflow)
  }

  function PlatformsOf(artifacts: seq<Artifact>): (names: seq<string>)
    ensures |names| == |artifacts| && forall k | 0 <= k < |names| :: names[k] == artifacts[k].platform
  {
    seq(|artifacts|, k requires 0 <= k < |artifacts| => artifacts[k].platform)
  }

  /** a comes up before b does. */
  ghost predicate ComesFirst(names: seq<string>, a: string, b: string) {
    exists k :: 0 <= k < |names| && names[k] == a && b !in names[..k + 1]
  }

  ghost predicate InOrder(names: seq<string>, seen: seq<string>) {
    forall i, j | 0 <= i < j < |seen| :: ComesFirst(names, seen[i], seen[j])
  }

  lemma NotingKeepsOrder(names: seq<string>, seen: seq<string>, x: string, noted: seq<string>)
    requires InOrder(names, seen) && forall name | name in seen :: name in names
    requires noted == seen || (noted == seen + [x] && x !in names)
    ensures InOrder(names + [x], noted)
  {
    var longer := names + [x];
    forall i, j | 0 <= i < j < |noted| ensures ComesFirst(longer, noted[i], noted[j]) {
      if j < |seen| {
        assert ComesFirst(names, seen[i], seen[j]);
        var k :| 0 <= k < |names| && names[k] == seen[i] && seen[j] !in names[..k + 1];
        assert longer[..k + 1] == names[..k + 1] && longer[k] == names[k];
      } else {
        assert seen[i] in seen;
        var k :| 0 <= k < |names| && names[k] == seen[i];
        assert longer[..k + 1] == names[..k + 1] && longer[k] == names[k];
      }
    }
  }

  /** Workflows and platforms stand on the card in the order in which they first come up. */
  lemma {:induction false} CombineKeepsOrder(artifacts: seq<Artifact>)
    requires artifacts != []
    ensures InOrder(WorkflowsOf(artifacts), Combine(artifacts).workflows)
    ensures InOrder(PlatformsOf(artifacts), Combine(artifacts).platforms)
  {
    var front, last := artifacts[..|artifacts| - 1], artifacts[|artifacts| - 1];
    var workflows, platforms := WorkflowsOf(front), PlatformsOf(front);
    assert WorkflowsOf(artifacts) == workflows + [last.workflow];
    assert PlatformsOf(artifacts) == platforms + [last.platform];
    if front != [] {
      CombineKeepsOrder(front);
      var card := Combine(front);
      SeenAmong(front);
      NotingKeepsOrder(workflows, card.workflows, last.workflow, Combine(artifacts).workflows);
      NotingKeepsOrder(platforms, card.platforms, last.platform, Combine(artifacts).platforms);
    }
  }

  const GATING_FIRST: Suite -> (bool, string) := (s: Suite) => (s.reporting, s.name)

  ghost predicate Contains(text: string, part: string) {
    exists i :: 0 <= i <= |text| && part <= text[i..]
  }

  function IsSnapshot(version: string): (r: bool)
    ensures r <==> Contains(version, "SNAPSHOT")
  {
    if "SNAPSHOT" <= version then
      assert version[0..] == version;
      true
    else if version == "" then false
    else
      ContainsTail(version);
      IsSnapshot(version[1..])
  }

  lemma ContainsTail(text: string)
    requires text != "" && !("SNAPSHOT" <= text)
    ensures Contains(text, "SNAPSHOT") <==> Contains(text[1..], "SNAPSHOT")
  {
    if Contains(text, "SNAPSHOT") {
      var i :| 0 <= i <= |text| && "SNAPSHOT" <= text[i..];
      assert i > 0 by { assert text[0..] == text; }
      assert text[1..][i - 1..] == text[i..];
    }
    if Contains(text[1..], "SNAPSHOT") {
      var i :| 0 <= i <= |text[1..]| && "SNAPSHOT" <= text[1..][i..];
      assert text[1..][i..] == text[i + 1..];
    }
  }

  const PINNED_FIRST: Card -> (bool, string) := (c: Card) => (IsSnapshot(c.okhttpVersion), c.okhttpVersion)

  /** Suites ordered, verdict and counts filled in. */
  function Close(version: string, open: OpenCard): Card {
    var suites := SortBy(open.suites, Keyed(GATING_FIRST));
    Card(version, open.(suites := suites), RollUp(StatusesOf(suites)), TotalsOf(suites))
  }

  /** One card for every version, with exactly what its artifacts say, releases first. */
  ghost predicate IsGrouped(cards: seq<Card>, artifacts: seq<Artifact>) {
    && Sorted(cards, Strict(PINNED_FIRST))
    && forall c :: c in cards <==>
         var own := ArtifactsOf(artifacts, c.okhttpVersion);
         own != [] && c == Close(c.okhttpVersion, Combine(own))
  }

  /** Releases come before snapshots, each in order of version, and no version twice. */
  lemma CardsReleasesFirst(cards: seq<Card>, artifacts: seq<Artifact>, i: nat, j: nat)
    requires IsGrouped(cards, artifacts) && i < j < |cards|
    ensures var a, b := cards[i].okhttpVersion, cards[j].okhttpVersion;
            && a != b && (Contains(a, "SNAPSHOT") ==> Contains(b, "SNAPSHOT"))
            && ((Contains(a, "SNAPSHOT") <==> Contains(b, "SNAPSHOT")) ==> AtOrBefore(a, b))
  {
    assert Strict(PINNED_FIRST)(cards[i], cards[j]);
    StringLeIsOrder(cards[i].okhttpVersion, cards[j].okhttpVersion);
  }

  /** On a card the suites that gate come before those that only report, each in order of name. */
  lemma SuitesGateFirst(cards: seq<Card>, artifacts: seq<Artifact>, c: Card, i: nat, j: nat)
    requires IsGrouped(cards, artifacts) && c in cards && i < j < |c.open.suites|
    ensures var a, b := c.open.suites[i], c.open.suites[j];
            (a.reporting ==> b.reporting) && (a.reporting == b.reporting ==> AtOrBefore(a.name, b.name))
  {
    var own := ArtifactsOf(artifacts, c.okhttpVersion);
    assert own != [] && c == Close(c.okhttpVersion, Combine(own));
    KeyedPreorder(GATING_FIRST);
    SortSorts(Combine(own).suites, Keyed(GATING_FIRST));
    assert Keyed(GATING_FIRST)(c.open.suites[i], c.open.suites[j]);
    StringLeIsOrder(c.open.suites[i].name, c.open.suites[j].name);
  }

  function TiedWith(one: Suite): Suite -> bool {
    (s: Suite) => s.reporting == one.reporting && s.name == one.name
  }

  /** Suites of one name that both gate or both only report stay on a card in the order in which
      their artifacts were read. */
  lemma TiedSuitesKeepOrder(cards: seq<Card>, artifacts: seq<Artifact>, c: Card, one: Suite)
    requires IsGrouped(cards, artifacts) && c in cards
    ensures Filter(c.open.suites, TiedWith(one)) ==
            Filter(SuitesOf(ArtifactsOf(artifacts, c.okhttpVersion)), TiedWith(one))
  {
    var own := ArtifactsOf(artifacts, c.okhttpVersion);
    assert own != [] && c == Close(c.okhttpVersion, Combine(own));
    CombinedSuites(own);
    KeyedKeepsOrder(SuitesOf(own), GATING_FIRST, one, TiedWith(one));
  }

  function SuitesOnCards(cards: seq<Card>): seq<Suite> {
    if cards == [] then [] else SuitesOnCards(cards[..|cards| - 1]) + cards[|cards| - 1].open.suites
  }

  function SuitesInEntries(es: Entries<string, OpenCard>): seq<Suite> {
    if es == [] then [] else es[0].1.suites + SuitesInEntries(es[1..])
  }

  function CardSoFar(artifacts: seq<Artifact>, version: string): Option<OpenCard> {
    var own := ArtifactsOf(artifacts, version);
    if own == [] then None else Some(Combine(own))
  }

  ghost predicate Tracks(versions: Entries<string, OpenCard>, artifacts: seq<Artifact>) {
    && LinkedMap.DistinctKeys(versions)
    && (forall v :: Find(versions, v) == CardSoFar(artifacts, v))
    && multiset(SuitesInEntries(versions)) == multiset(SuitesOf(artifacts))
  }

  function AddArtifact(versions: Entries<string, OpenCard>, a: Artifact): Entries<string, OpenCard> {
    var found := Find(versions, a.okhttpVersion);
    Put(versions, a.okhttpVersion, Extend(if found.None? then Blank(a) else found.value, a))
  }

  lemma {:induction false} PutAddsSuites(es: Entries<string, OpenCard>, key: string, card: OpenCard, added: seq<Suite>)
    requires card.suites == (if Find(es, key).Some? then Find(es, key).value.suites else []) + added
    ensures multiset(SuitesInEntries(Put(es, key, card))) == multiset(SuitesInEntries(es)) + multiset(added)
  {
    if es == [] {
      assert SuitesInEntries(Put(es, key, card)) == added;
    } else if es[0].0 == key {
      assert Put(es, key, card)[1..] == es[1..];
    } else {
      PutAddsSuites(es[1..], key, card, added);
      assert Put(es, key, card)[1..] == Put(es[1..], key, card);
    }
  }

  lemma AddTracks(versions: Entries<string, OpenCard>, artifacts: seq<Artifact>, a: Artifact)
    requires Tracks(versions, artifacts)
    ensures Tracks(AddArtifact(versions, a), artifacts + [a])
  {
    var found := Find(versions, a.okhttpVersion);
    var card := Extend(if found.None? then Blank(a) else found.value, a);
    PutUpdates(versions, a.okhttpVersion, card);
    PutAddsSuites(versions, a.okhttpVersion, card, a.suites);
    SuitesOfSnoc(artifacts, a);
    forall v ensures Find(AddArtifact(versions, a), v) == CardSoFar(artifacts + [a], v) {
      CardSoFarOfSnoc(artifacts, a, v);
    }
  }

  lemma SuitesOfSnoc(artifacts: seq<Artifact>, a: Artifact)
    ensures SuitesOf(artifacts + [a]) == SuitesOf(artifacts) + a.suites
  {
    assert (artifacts + [a])[..|artifacts|] == artifacts;
  }

  /** One more artifact opens or extends the card of its version and no other. */
  lemma CardSoFarOfSnoc(artifacts: seq<Artifact>, a: Artifact, v: string)
    ensures CardSoFar(artifacts + [a], v) ==
            if v != a.okhttpVersion then CardSoFar(artifacts, v)
            else
              var found := CardSoFar(artifacts, v);
              Some(Extend(if found.None? then Blank(a) else found.value, a))
  {
    var own := ArtifactsOf(artifacts, v);
    assert (artifacts + [a])[..|artifacts|] == artifacts;
    if v == a.okhttpVersion {
      assert ArtifactsOf(artifacts + [a], v) == own + [a];
      assert (own + [a])[..|own|] == own;
    } else {
      assert ArtifactsOf(artifacts + [a], v) == own + [] == own;
    }
  }

  function CloseAll(es: Entries<string, OpenCard>): (cards: seq<Card>)
    ensures |cards| == |es| && forall k | 0 <= k < |es| :: cards[k] == Close(es[k].0, es[k].1)
  {
    seq(|es|, k requires 0 <= k < |es| => Close(es[k].0, es[k].1))
  }

  method GroupByVersion(artifacts: seq<Artifact>) returns (cards: seq<Card>)
    ensures IsGrouped(cards, artifacts)
    ensures multiset(SuitesOnCards(cards)) == multiset(SuitesOf(artifacts))
  {
    var versions := OpenCards(artifacts);
    ClosedCards(versions, artifacts);
    cards := SortBy(CloseAll(versions), Keyed(PINNED_FIRST));
    SortKeyed(CloseAll(versions), PINNED_FIRST);
    SortKeepsSuites(CloseAll(versions));
    CloseKeepsSuites(versions);
  }

  /** The loop over the artifacts. */
  method OpenCards(artifacts: seq<Artifact>) returns (versions: Entries<string, OpenCard>)
    ensures Tracks(versions, artifacts)
  {
    versions := [];
    TracksNothing();
    for i := 0 to |artifacts|
      invariant Tracks(versions, artifacts[..i])
    {
      versions := AddOne(versions, artifacts, i);
    }
    assert artifacts[..|artifacts|] == artifacts;
  }

  lemma TracksNothing()
    ensures Tracks([], [])
  {
  }

  method AddOne(versions: Entries<string, OpenCard>, artifacts: seq<Artifact>, i: nat)
    returns (after: Entries<string, OpenCard>)
    requires i < |artifacts| && Tracks(versions, artifacts[..i])
    ensures Tracks(after, artifacts[..i + 1])
  {
    TracksNext(versions, artifacts, i);
    after := AddArtifact(versions, artifacts[i]);
  }

  lemma TracksNext(versions: Entries<string, OpenCard>, artifacts: seq<Artifact>, i: nat)
    requires i < |artifacts| && Tracks(versions, artifacts[..i])
    ensures Tracks(AddArtifact(versions, artifacts[i]), artifacts[..i + 1])
  {
    AddTracks(versions, artifacts[..i], artifacts[i]);
    assert artifacts[..i + 1] == artifacts[..i] + [artifacts[i]];
  }

  lemma ClosedCards(versions: Entries<string, OpenCard>, artifacts: seq<Artifact>)
    requires Tracks(versions, artifacts)
    ensures forall i, j | 0 <= i < j < |versions| ::
              CloseAll(versions)[i].okhttpVersion != CloseAll(versions)[j].okhttpVersion
    ensures forall c :: c in CloseAll(versions) <==>
              var own := ArtifactsOf(artifacts, c.okhttpVersion);
              own != [] && c == Close(c.okhttpVersion, Combine(own))
  {
    var cards := CloseAll(versions);
    forall c ensures c in cards <==>
                     var own := ArtifactsOf(artifacts, c.okhttpVersion);
                     own != [] && c == Close(c.okhttpVersion, Combine(own))
    {
      var own := ArtifactsOf(artifacts, c.okhttpVersion);
      FindIsMember(versions, c.okhttpVersion);
      if c in cards {
        var k :| 0 <= k < |cards| && cards[k] == c;
        FindFinds(versions, k);
      }
      if own != [] && c == Close(c.okhttpVersion, Combine(own)) {
        var k :| 0 <= k < |versions| && Keys(versions)[k] == c.okhttpVersion;
        FindFinds(versions, k);
        assert cards[k] == c;
      }
    }
  }

  lemma {:induction false} InsertKeepsSuites(cards: seq<Card>, c: Card)
    ensures multiset(SuitesOnCards(Insert(cards, c, Keyed(PINNED_FIRST)))) ==
            multiset(SuitesOnCards(cards)) + multiset(c.open.suites)
  {
    if cards == [] || Keyed(PINNED_FIRST)(cards[|cards| - 1], c) {
      assert (cards + [c])[..|cards|] == cards;
    } else {
      var front := Insert(cards[..|cards| - 1], c, Keyed(PINNED_FIRST));
      InsertKeepsSuites(cards[..|cards| - 1], c);
      assert (front + [cards[|cards| - 1]])[..|front|] == front;
    }
  }

  lemma {:induction false} SortKeepsSuites(cards: seq<Card>)
    ensures multiset(SuitesOnCards(SortBy(cards, Keyed(PINNED_FIRST)))) == multiset(SuitesOnCards(cards))
  {
    if cards != [] {
      SortKeepsSuites(cards[..|cards| - 1]);
      InsertKeepsSuites(SortBy(cards[..|cards| - 1], Keyed(PINNED_FIRST)), cards[|cards| - 1]);
    }
  }

  lemma {:induction false} SuitesOnCons(c: Card, cards: seq<Card>)
    ensures SuitesOnCards([c] + cards) == c.open.suites + SuitesOnCards(cards)
  {
    if cards != [] {
      assert ([c] + cards)[..|cards|] == [c] + cards[..|cards| - 1];
      SuitesOnCons(c, cards[..|cards| - 1]);
    } else {
      assert [c] + cards == [c] && [c][..0] == [];
    }
  }

  lemma {:induction false} CloseKeepsSuites(versions: Entries<string, OpenCard>)
    ensures multiset(SuitesOnCards(CloseAll(versions))) == multiset(SuitesInEntries(versions))
  {
    if versions != [] {
      var (version, open) := versions[0];
      CloseKeepsSuites(versions[1..]);
      assert CloseAll(versions) == [Close(version, open)] + CloseAll(versions[1..]);
      CloseReorders(version, open);
      ClosedFirst(Close(version, open), CloseAll(versions[1..]), open.suites, SuitesInEntries(versions[1..]));
    }
  }

  lemma CloseReorders(version: string, open: OpenCard)
    ensures multiset(Close(version, open).open.suites) == multiset(open.suites)
  {
    KeyedPreorder(GATING_FIRST);
    SortSorts(open.suites, Keyed(GATING_FIRST));
  }

  lemma ClosedFirst(c: Card, cards: seq<Card>, suites: seq<Suite>, more: seq<Suite>)
    requires multiset(c.open.suites) == multiset(suites) && multiset(SuitesOnCards(cards)) == multiset(more)
    ensures multiset(SuitesOnCards([c] + cards)) == multiset(suites + more)
  {
    SuitesOnCons(c, cards);
  }

  // -- What grouping conserves -----------------------------------------------------------

  lemma {:induction false} TotalsOfRemove(a: seq<Suite>, x: Suite, b: seq<Suite>)
    ensures TotalsOf(a + [x] + b) == TotalsOf(a + b).Plus(x)
  {
    if b == [] {
      assert a + [x] + b == a + [x] && (a + [x])[..|a|] == a && a + b == a;
    } else {
      var front, last := b[..|b| - 1], b[|b| - 1];
      assert (a + [x] + b)[..|a| + |b|] == a + [x] + front;
      assert (a + b)[..|a| + |b| - 1] == a + front;
      TotalsOfRemove(a, x, front);
    }
  }

  lemma RemoveOne<T>(front: seq<T>, last: T, a: seq<T>, b: seq<T>)
    requires multiset(front + [last]) == multiset(a + [last] + b)
    ensures multiset(front) == multiset(a + b)
  {
    var before, after := multiset(front) + multiset{last}, multiset(a + b) + multiset{last};
    assert before == multiset(front + [last]) && after == multiset(a + [last] + b);
    assert multiset(front) == before - multiset{last} && multiset(a + b) == after - multiset{last};
  }

  /** Totals do not depend on how suites are arranged. */
  lemma {:induction false} TotalsOfPermutation(xs: seq<Suite>, ys: seq<Suite>)
    requires multiset(xs) == multiset(ys)
    ensures TotalsOf(xs) == TotalsOf(ys)
  {
    if xs == [] {
      assert |multiset(ys)| == |ys|;
    } else {
      var front, last := xs[..|xs| - 1], xs[|xs| - 1];
      assert xs == front + [last];
      assert last in multiset(ys);
      var k :| 0 <= k < |ys| && ys[k] == last;
      var a, b := ys[..k], ys[k + 1..];
      assert ys == a + [last] + b;
      RemoveOne(front, last, a, b);
      TotalsOfPermutation(front, a + b);
      TotalsOfRemove(a, last, b);
    }
  }

  lemma PermutationMembers<T>(xs: seq<T>, ys: seq<T>)
    requires multiset(xs) == multiset(ys)
    ensures forall x :: x in xs <==> x in ys
  {
    assert forall x :: x in xs <==> x in multiset(xs);
    assert forall x :: x in ys <==> x in multiset(ys);
  }

  function CardStatuses(cards: seq<Card>): (statuses: seq<Status>)
    ensures |statuses| == |cards| && forall k | 0 <= k < |cards| :: statuses[k] == cards[k].status
  {
    seq(|cards|, k requires 0 <= k < |cards| => cards[k].status)
  }

  function SumOfCounts(cards: seq<Card>): Totals {
    if cards == [] then Totals(0, 0, 0, 0)
    else
      var rest, c := SumOfCounts(cards[..|cards| - 1]), cards[|cards| - 1].counts;
      Totals(rest.passed + c.passed, rest.failed + c.failed, rest.expected + c.expected, rest.skipped + c.skipped)
  }

  ghost predicate Closed(c: Card) {
    c.status == RollUp(StatusesOf(c.open.suites)) && c.counts == TotalsOf(c.open.suites)
  }

  lemma GroupedAreClosed(cards: seq<Card>, artifacts: seq<Artifact>)
    requires IsGrouped(cards, artifacts)
    ensures forall c | c in cards :: Closed(c)
  {
    forall c | c in cards ensures Closed(c) {
      var own := ArtifactsOf(artifacts, c.okhttpVersion);
      assert own != [] && c == Close(c.okhttpVersion, Combine(own));
    }
  }

  lemma {:induction false} TotalsOfConcat(a: seq<Suite>, b: seq<Suite>)
    ensures var x, y := TotalsOf(a), TotalsOf(b);
            TotalsOf(a + b) ==
            Totals(x.passed + y.passed, x.failed + y.failed, x.expected + y.expected, x.skipped + y.skipped)
  {
    if b == [] {
      assert a + b == a;
    } else {
      assert (a + b)[..|a + b| - 1] == a + b[..|b| - 1];
      TotalsOfConcat(a, b[..|b| - 1]);
    }
  }

  lemma {:induction false} CardCountsAddUp(cards: seq<Card>)
    requires forall c | c in cards :: Closed(c)
    ensures SumOfCounts(cards) == TotalsOf(SuitesOnCards(cards))
  {
    if cards != [] {
      CardCountsAddUp(cards[..|cards| - 1]);
      assert Closed(cards[|cards| - 1]);
      TotalsOfConcat(SuitesOnCards(cards[..|cards| - 1]), cards[|cards| - 1].open.suites);
    }
  }

  lemma {:induction false} CardStatusesRollUp(cards: seq<Card>)
    requires forall c | c in cards :: Closed(c)
    ensures RollUp(CardStatuses(cards)) == RollUp(StatusesOf(SuitesOnCards(cards)))
  {
    var xss := seq(|cards|, k requires 0 <= k < |cards| => StatusesOf(cards[k].open.suites));
    forall k | 0 <= k < |cards| ensures cards[k].status == RollUp(xss[k]) {
      assert Closed(cards[k]);
    }
    assert CardStatuses(cards) == RollUpEach(xss);
    RollUpInStages(xss);
    StatusesFlatten(cards, xss);
  }

  lemma {:induction false} StatusesFlatten(cards: seq<Card>, xss: seq<seq<Status>>)
    requires |xss| == |cards| && forall k | 0 <= k < |cards| :: xss[k] == StatusesOf(cards[k].open.suites)
    ensures Flatten(xss) == StatusesOf(SuitesOnCards(cards))
  {
    if cards != [] {
      StatusesFlatten(cards[..|cards| - 1], xss[..|cards| - 1]);
    }
  }

  lemma RollUpOfPermutation(xs: seq<Suite>, ys: seq<Suite>)
    requires multiset(xs) == multiset(ys)
    ensures RollUp(StatusesOf(xs)) == RollUp(StatusesOf(ys))
  {
    PermutationMembers(xs, ys);
    var r := RollUp(StatusesOf(ys));
    RollUpIsWorst(StatusesOf(ys));
    StatusMembers(xs, ys);
    RollUpDetermined(StatusesOf(xs), r);
  }

  lemma StatusMembers(xs: seq<Suite>, ys: seq<Suite>)
    requires forall x :: x in xs <==> x in ys
    ensures forall s :: s in StatusesOf(xs) <==> s in StatusesOf(ys)
  {
    forall s ensures s in StatusesOf(xs) <==> s in StatusesOf(ys) {
      StatusFromSuite(xs, s);
      StatusFromSuite(ys, s);
    }
  }

  lemma StatusFromSuite(xs: seq<Suite>, s: Status)
    ensures s in StatusesOf(xs) <==> exists x :: x in xs && SuiteStatus(x) == s
  {
    if s in StatusesOf(xs) {
      var k :| 0 <= k < |xs| && StatusesOf(xs)[k] == s;
      assert xs[k] in xs;
    }
    if x :| x in xs && SuiteStatus(x) == s {
      var k :| 0 <= k < |xs| && xs[k] == x;
      assert StatusesOf(xs)[k] == s;
    }
  }

  /** Grouping by version changes neither the totals nor the overall verdict: both are those of
      all the suites of all the artifacts taken at once. */
  lemma GroupingConserves(cards: seq<Card>, artifacts: seq<Artifact>)
    requires IsGrouped(cards, artifacts)
    requires multiset(SuitesOnCards(cards)) == multiset(SuitesOf(artifacts))
    ensures SumOfCounts(cards) == TotalsOf(SuitesOf(artifacts))
    ensures RollUp(CardStatuses(cards)) == RollUp(StatusesOf(SuitesOf(artifacts)))
  {
    GroupedAreClosed(cards, artifacts);
    CardCountsAddUp(cards);
    TotalsOfPermutation(SuitesOnCards(cards), SuitesOf(artifacts));
    CardStatusesRollUp(cards);
    RollUpOfPermutation(SuitesOnCards(cards), SuitesOf(artifacts));
  }

  function CasesIn(suites: seq<Suite>): nat {
    if suites == [] then 0 else CasesIn(suites[..|suites| - 1]) + |suites[|suites| - 1].cases|
  }

  /** The four totals account for every case of every suite. */
  lemma {:induction false} TotalsCoverCases(suites: seq<Suite>)
    requires forall s | s in suites :: Counted(s)
    ensures TotalsOf(suites).Cases() == CasesIn(suites)
  {
    if suites != [] {
      TotalsCoverCases(suites[..|suites| - 1]);
      assert Counted(suites[|suites| - 1]);
      CountsCoverCases(suites[|suites| - 1].cases);
    }
  }

  // -- The page --------------------------------------------------------------------------

  /** The page's own verdict on a suite it may not have. */
  function PageSuiteStatus(suite: Option<Suite>): (r: Status)
    ensures suite.Some? ==> r == SuiteStatus(suite.value)
    ensures suite.None? <==> r == UnknownStatus
  {
    if suite.None? then UnknownStatus
    else
      var s := suite.value;
      if s.failed != 0 then (if s.reporting && !s.critical then FindingStatus else FailedStatus)
      else if s.expected != 0 then ExpectedStatus
      else if s.passed != 0 then PassedStatus
      else SkippedStatus
  }

  datatype Kinds = Kinds(passed: nat, failed: nat, finding: nat, expected: nat, skipped: nat)

  datatype Headline = Critical(count: nat) | Watch(count: nat) | AllClear

  function Tally(k: Kinds, s: Suite, c: CaseStatus): Kinds {
    match c
    case Failed => if s.reporting && !s.critical then k.(finding := k.finding + 1) else k.(failed := k.failed + 1)
    case Passed => k.(passed := k.passed + 1)
    case Expected => k.(expected := k.expected + 1)
    case Skipped => k.(skipped := k.skipped + 1)
  }

  /** Failures of the suites that turn the page red, or of those that do not. */
  function FailuresOf(suites: seq<Suite>, watch: bool): nat {
    if suites == [] then 0
    else
      var s := suites[|suites| - 1];
      FailuresOf(suites[..|suites| - 1], watch) + if (s.reporting && !s.critical) == watch then s.failed else 0
  }

  /** The page's counting loops and its choice of headline. */
  method StatusStory(cards: seq<Card>) returns (kinds: Kinds, headline: Headline)
    requires forall s | s in SuitesOnCards(cards) :: Counted(s)
    ensures var suites := SuitesOnCards(cards);
            var totals := TotalsOf(suites);
            kinds == Kinds(totals.passed, FailuresOf(suites, false), FailuresOf(suites, true),
                           totals.expected, totals.skipped)
    ensures headline == if kinds.failed > 0 then Critical(kinds.failed)
                        else if kinds.finding > 0 then Watch(kinds.finding) else AllClear
  {
    kinds := Kinds(0, 0, 0, 0, 0);
    ghost var seen: seq<Suite> := [];
    for v := 0 to |cards|
      invariant seen == SuitesOnCards(cards[..v])
      invariant kinds == KindsOf(seen)
    {
      var suites := cards[v].open.suites;
      ghost var before := seen;
      assert before + suites[..0] == before;
      assert cards[..v + 1][..v] == cards[..v];
      for i := 0 to |suites|
        invariant seen == before + suites[..i]
        invariant kinds == KindsOf(seen)
      {
        assert seen + [suites[i]] == before + suites[..i + 1];
        SuiteIsOnCards(cards, v, i);
        kinds := TallySuite(kinds, suites[i]);
        KindsOfSnoc(seen, suites[i]);
        seen := seen + [suites[i]];
      }
      assert suites[..|suites|] == suites;
    }
    assert cards[..|cards|] == cards;
    headline := if kinds.failed > 0 then Critical(kinds.failed)
                else if kinds.finding > 0 then Watch(kinds.finding) else AllClear;
  }

  function KindsOf(suites: seq<Suite>): Kinds {
    var totals := TotalsOf(suites);
    Kinds(totals.passed, FailuresOf(suites, false), FailuresOf(suites, true), totals.expected, totals.skipped)
  }

  function PlusSuite(k: Kinds, s: Suite): Kinds {
    var watch := s.reporting && !s.critical;
    Kinds(k.passed + s.passed, k.failed + (if watch then 0 else s.failed),
          k.finding + (if watch then s.failed else 0), k.expected + s.expected, k.skipped + s.skipped)
  }

  lemma KindsOfSnoc(suites: seq<Suite>, s: Suite)
    ensures KindsOf(suites + [s]) == PlusSuite(KindsOf(suites), s)
  {
    assert (suites + [s])[..|suites|] == suites;
  }

  lemma {:induction false} SuiteIsOnCards(cards: seq<Card>, v: nat, i: nat)
    requires v < |cards| && i < |cards[v].open.suites|
    ensures cards[v].open.suites[i] in SuitesOnCards(cards)
  {
    if v < |cards| - 1 {
      SuiteIsOnCards(cards[..|cards| - 1], v, i);
    }
  }

  /** The innermost loop: one suite's cases. */
  method TallySuite(kinds: Kinds, s: Suite) returns (after: Kinds)
    requires Counted(s)
    ensures after == PlusSuite(kinds, s)
  {
    after := kinds;
    var watch := s.reporting && !s.critical;
    for i := 0 to |s.cases|
      invariant var done := s.cases[..i];
                after == Kinds(kinds.passed + Count(done, Passed),
                               kinds.failed + (if watch then 0 else Count(done, Failed)),
                               kinds.finding + (if watch then Count(done, Failed) else 0),
                               kinds.expected + Count(done, Expected),
                               kinds.skipped + Count(done, Skipped))
    {
      assert s.cases[..i + 1][..i] == s.cases[..i];
      after := Tally(after, s, s.cases[i].status);
    }
    assert s.cases[..|s.cases|] == s.cases;
  }

  lemma {:induction false} FailuresShow(suites: seq<Suite>, watch: bool)
    ensures FailuresOf(suites, watch) > 0 <==>
            (if watch then FindingStatus else FailedStatus) in StatusesOf(suites)
  {
    if suites != [] {
      var front := suites[..|suites| - 1];
      FailuresShow(front, watch);
      assert StatusesOf(suites) == StatusesOf(front) + [SuiteStatus(suites[|suites| - 1])];
    }
  }

  /** The page says "critical" exactly when the collector says failed, and "watch" exactly when
      it says finding. */
  lemma HeadlineAgreesWithCollector(cards: seq<Card>, kinds: Kinds)
    requires forall c | c in cards :: Closed(c)
    requires kinds == KindsOf(SuitesOnCards(cards))
    ensures kinds.failed > 0 <==> RollUp(CardStatuses(cards)) == FailedStatus
    ensures kinds.failed == 0 && kinds.finding > 0 <==> RollUp(CardStatuses(cards)) == FindingStatus
  {
    var statuses := StatusesOf(SuitesOnCards(cards));
    CardStatusesRollUp(cards);
    RollUpIsWorst(statuses);
    FailuresShow(SuitesOnCards(cards), false);
    FailuresShow(SuitesOnCards(cards), true);
  }
}
