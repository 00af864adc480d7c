/** From the test reports to the headline: the collector's `main` over the suites
    (site/tools/collect_results.py) and the page that shows its verdict (site/assets/status.js). */
module Page {
  import opened Wrappers
  import opened Ordering
  import opened Versions

  /** One JUnit report, and one artifact of them. */
  datatype RawSuite = RawSuite(name: string, reporting: bool, critical: bool, cases: seq<RawCase>)

  datatype RawArtifact = RawArtifact(
    okhttpVersion: string,
    title: string,
    workflow: string,
    platform: string,
    suites: seq<RawSuite>,
    clientHello: Option<string>)

  ghost predicate ReadsAs(raw: RawSuite, s: Suite) {
    && s.name == raw.name && s.reporting == raw.reporting && s.critical == raw.critical
    && s.cases == SortBy(Classified(raw.cases), Keyed(BY_NAME))
    && Counted(s) && |s.cases| == |raw.cases|
  }

  ghost predicate AllReadAs(raw: seq<RawSuite>, suites: seq<Suite>) {
    |suites| == |raw| && forall k | 0 <= k < |raw| :: ReadsAs(raw[k], suites[k])
  }

  ghost predicate ArtifactReadsAs(raw: RawArtifact, a: Artifact) {
    && a.okhttpVersion == raw.okhttpVersion && a.title == raw.title && a.workflow == raw.workflow
    && a.platform == raw.platform && a.clientHello == raw.clientHello
    && AllReadAs(raw.suites, a.suites)
  }

  ghost predicate ArtifactsReadAs(raw: seq<RawArtifact>, artifacts: seq<Artifact>) {
    |artifacts| == |raw| && forall k | 0 <= k < |raw| :: ArtifactReadsAs(raw[k], artifacts[k])
  }

  function RawCasesOf(suites: seq<RawSuite>): nat {
    if suites == [] then 0 else RawCasesOf(suites[..|suites| - 1]) + |suites[|suites| - 1].cases|
  }

  /** How many cases the reports hold. */
  function RawCases(raw: seq<RawArtifact>): nat {
    if raw == [] then 0 else RawCases(raw[..|raw| - 1]) + RawCasesOf(raw[|raw| - 1].suites)
  }

  method ReadSuites(raw: seq<RawSuite>) returns (suites: seq<Suite>)
    ensures AllReadAs(raw, suites)
  {
    suites := [];
    for k := 0 to |raw|
      invariant |suites| == k && forall j | 0 <= j < k :: ReadsAs(raw[j], suites[j])
    {
      var suite := ParseSuite(raw[k].name, raw[k].reporting, raw[k].critical, raw[k].cases);
      assert |multiset(suite.cases)| == |suite.cases|;
      suites := suites + [suite];
    }
  }

  method ReadArtifacts(raw: seq<RawArtifact>) returns (artifacts: seq<Artifact>)
    ensures ArtifactsReadAs(raw, artifacts)
  {
    artifacts := [];
    for k := 0 to |raw|
      invariant |artifacts| == k && forall j | 0 <= j < k :: ArtifactReadsAs(raw[j], artifacts[j])
    {
      var suites := ReadSuites(raw[k].suites);
      artifacts := artifacts
        + [Artifact(raw[k].okhttpVersion, raw[k].title, raw[k].workflow, raw[k].platform, suites, raw[k].clientHello)];
    }
  }

  // -- What the reports call for ---------------------------------------------------------

  ghost predicate HasRawCase(suite: RawSuite, status: CaseStatus) {
    exists k :: 0 <= k < |suite.cases| && Classify(suite.cases[k]) == status
  }

  /** A failure of the suite turns the page red, rather than being watched. */
  predicate Gates(suite: RawSuite) {
    !suite.reporting || suite.critical
  }

  /** The verdict a report calls for. */
  ghost predicate CallsFor(suite: RawSuite, status: Status) {
    match status
    case FailedStatus => HasRawCase(suite, Failed) && Gates(suite)
    case FindingStatus => HasRawCase(suite, Failed) && !Gates(suite)
    case ExpectedStatus => !HasRawCase(suite, Failed) && HasRawCase(suite, Expected)
    case PassedStatus => !HasRawCase(suite, Failed) && !HasRawCase(suite, Expected) && HasRawCase(suite, Passed)
    case SkippedStatus => forall k | 0 <= k < |suite.cases| :: Classify(suite.cases[k]) == Skipped
    case UnknownStatus => false
  }

  ghost predicate InReports(raw: seq<RawArtifact>, suite: RawSuite) {
    exists i :: 0 <= i < |raw| && suite in raw[i].suites
  }

  ghost predicate SomeCase(raw: seq<RawArtifact>, status: CaseStatus) {
    exists suite :: InReports(raw, suite) && HasRawCase(suite, status)
  }

  ghost predicate SomeFailure(raw: seq<RawArtifact>, gates: bool) {
    exists suite :: InReports(raw, suite) && HasRawCase(suite, Failed) && Gates(suite) == gates
  }

  ghost predicate SomeSuite(raw: seq<RawArtifact>) {
    exists suite :: InReports(raw, suite)
  }

  /** The overall status in terms of the cases of the reports: the worst thing that happened. */
  ghost predicate StatusShows(raw: seq<RawArtifact>, status: Status) {
    match status
    case FailedStatus => SomeFailure(raw, true)
    case FindingStatus => !SomeFailure(raw, true) && SomeFailure(raw, false)
    case ExpectedStatus => !SomeCase(raw, Failed) && SomeCase(raw, Expected)
    case PassedStatus => !SomeCase(raw, Failed) && !SomeCase(raw, Expected) && SomeCase(raw, Passed)
    case SkippedStatus =>
      SomeSuite(raw) && !SomeCase(raw, Failed) && !SomeCase(raw, Expected) && !SomeCase(raw, Passed)
    case UnknownStatus => !SomeSuite(raw)
  }

  lemma ReadSuiteStatus(raw: RawSuite, s: Suite)
    requires ReadsAs(raw, s)
    ensures CallsFor(raw, SuiteStatus(s))
  {
    CasesRead(raw, s, Failed);
    CasesRead(raw, s, Expected);
    CasesRead(raw, s, Passed);
    if forall c | c in s.cases :: c.status == Skipped {
      AllSkippedRead(raw, s);
    }
    VerdictFits(raw, s);
  }

  lemma VerdictFits(raw: RawSuite, s: Suite)
    requires Counted(s) && s.reporting == raw.reporting && s.critical == raw.critical
    requires HasCase(s.cases, Failed) <==> HasRawCase(raw, Failed)
    requires HasCase(s.cases, Expected) <==> HasRawCase(raw, Expected)
    requires HasCase(s.cases, Passed) <==> HasRawCase(raw, Passed)
    requires (forall c | c in s.cases :: c.status == Skipped) ==>
               forall k | 0 <= k < |raw.cases| :: Classify(raw.cases[k]) == Skipped
    ensures CallsFor(raw, SuiteStatus(s))
  {
    SuiteStatusFromCases(s);
  }

  lemma CasesRead(raw: RawSuite, s: Suite, status: CaseStatus)
    requires ReadsAs(raw, s)
    ensures HasCase(s.cases, status) <==> HasRawCase(raw, status)
  {
    SortedMembers(Classified(raw.cases));
    SameMembers(s.cases, Classified(raw.cases), status);
    ClassifiedShows(raw, status);
  }

  lemma SortedMembers(cases: seq<Case>)
    ensures forall c :: c in SortBy(cases, Keyed(BY_NAME)) <==> c in cases
  {
    KeyedPreorder(BY_NAME);
    SortSorts(cases, Keyed(BY_NAME));
  }

  lemma SameMembers(a: seq<Case>, b: seq<Case>, status: CaseStatus)
    requires forall c :: c in a <==> c in b
    ensures HasCase(a, status) <==> HasCase(b, status)
  {
  }

  lemma ClassifiedShows(raw: RawSuite, status: CaseStatus)
    ensures HasCase(Classified(raw.cases), status) <==> HasRawCase(raw, status)
  {
    if HasRawCase(raw, status) {
      var k :| 0 <= k < |raw.cases| && Classify(raw.cases[k]) == status;
      assert Classified(raw.cases)[k] in Classified(raw.cases);
    }
  }

  lemma AllSkippedRead(raw: RawSuite, s: Suite)
    requires ReadsAs(raw, s) && forall c | c in s.cases :: c.status == Skipped
    ensures forall k | 0 <= k < |raw.cases| :: Classify(raw.cases[k]) == Skipped
  {
    forall k | 0 <= k < |raw.cases| ensures Classify(raw.cases[k]) == Skipped {
      CasesRead(raw, s, Classify(raw.cases[k]));
    }
  }

  /** A report calls for one verdict. */
  lemma OneVerdict(suite: RawSuite, a: Status, b: Status)
    requires CallsFor(suite, a) && CallsFor(suite, b)
    ensures a == b
  {
  }

  /** The verdicts on the suites are those the reports call for. */
  lemma {:induction false} VerdictsOfReports(raw: seq<RawArtifact>, artifacts: seq<Artifact>, status: Status)
    requires ArtifactsReadAs(raw, artifacts)
    ensures status in StatusesOf(SuitesOf(artifacts)) <==>
            exists suite :: InReports(raw, suite) && CallsFor(suite, status)
  {
    StatusFromSuite(SuitesOf(artifacts), status);
    if x :| x in SuitesOf(artifacts) && SuiteStatus(x) == status {
      var suite := ReportOf(raw, artifacts, x);
      ReadSuiteStatus(suite, x);
    }
    if suite :| InReports(raw, suite) && CallsFor(suite, status) {
      var x := SuiteOf(raw, artifacts, suite);
      ReadSuiteStatus(suite, x);
      OneVerdict(suite, status, SuiteStatus(x));
    }
  }

  lemma {:induction false} ReportOf(raw: seq<RawArtifact>, artifacts: seq<Artifact>, x: Suite) returns (suite: RawSuite)
    requires ArtifactsReadAs(raw, artifacts) && x in SuitesOf(artifacts)
    ensures InReports(raw, suite) && ReadsAs(suite, x)
  {
    var n := |artifacts| - 1;
    if x in artifacts[n].suites {
      assert ArtifactReadsAs(raw[n], artifacts[n]);
      var k :| 0 <= k < |artifacts[n].suites| && artifacts[n].suites[k] == x;
      suite := raw[n].suites[k];
      assert suite in raw[n].suites;
    } else {
      suite := ReportOf(raw[..n], artifacts[..n], x);
      var i :| 0 <= i < n && suite in raw[..n][i].suites;
      assert suite in raw[i].suites;
    }
  }

  lemma SuiteOf(raw: seq<RawArtifact>, artifacts: seq<Artifact>, suite: RawSuite) returns (x: Suite)
    requires ArtifactsReadAs(raw, artifacts) && InReports(raw, suite)
    ensures x in SuitesOf(artifacts) && ReadsAs(suite, x)
  {
    var i :| 0 <= i < |raw| && suite in raw[i].suites;
    var k :| 0 <= k < |raw[i].suites| && raw[i].suites[k] == suite;
    assert ArtifactReadsAs(raw[i], artifacts[i]);
    x := artifacts[i].suites[k];
    SuiteIsThere(artifacts, i, k);
  }

  lemma {:induction false} SuiteIsThere(artifacts: seq<Artifact>, i: nat, k: nat)
    requires i < |artifacts| && k < |artifacts[i].suites|
    ensures artifacts[i].suites[k] in SuitesOf(artifacts)
  {
    if i < |artifacts| - 1 {
      SuiteIsThere(artifacts[..|artifacts| - 1], i, k);
    }
  }

  ghost predicate SomeCallsFor(raw: seq<RawArtifact>, status: Status) {
    exists suite :: InReports(raw, suite) && CallsFor(suite, status)
  }

  /** The worst verdict called for is what the cases of all the reports show. */
  lemma WorstShows(raw: seq<RawArtifact>, status: Status)
    requires SomeCallsFor(raw, status) || status == UnknownStatus
    requires forall other | SomeCallsFor(raw, other) :: Rank(status) <= Rank(other)
    ensures StatusShows(raw, status)
  {
    CallsShow(raw);
    if status == UnknownStatus {
      forall other ensures !SomeCallsFor(raw, other) {
        if SomeCallsFor(raw, other) {
          RankIsInjective(other, UnknownStatus);
        }
      }
    }
  }

  lemma CallsShow(raw: seq<RawArtifact>)
    ensures SomeFailure(raw, true) <==> SomeCallsFor(raw, FailedStatus)
    ensures SomeFailure(raw, false) <==> SomeCallsFor(raw, FindingStatus)
    ensures SomeCase(raw, Failed) <==> SomeCallsFor(raw, FailedStatus) || SomeCallsFor(raw, FindingStatus)
    ensures !SomeCase(raw, Failed) ==> (SomeCase(raw, Expected) <==> SomeCallsFor(raw, ExpectedStatus))
    ensures !SomeCase(raw, Failed) && !SomeCase(raw, Expected) ==>
              (SomeCase(raw, Passed) <==> SomeCallsFor(raw, PassedStatus))
    ensures SomeSuite(raw) <==>
            SomeCallsFor(raw, FailedStatus) || SomeCallsFor(raw, FindingStatus) || SomeCallsFor(raw, ExpectedStatus)
            || SomeCallsFor(raw, PassedStatus) || SomeCallsFor(raw, SkippedStatus)
  {
    if SomeSuite(raw) {
      var suite :| InReports(raw, suite);
      SomeVerdict(suite);
    }
  }

  lemma SomeVerdict(suite: RawSuite)
    ensures CallsFor(suite, FailedStatus) || CallsFor(suite, FindingStatus) || CallsFor(suite, ExpectedStatus)
            || CallsFor(suite, PassedStatus) || CallsFor(suite, SkippedStatus)
  {
    if !CallsFor(suite, SkippedStatus) {
      var k :| 0 <= k < |suite.cases| && Classify(suite.cases[k]) != Skipped;
      assert HasRawCase(suite, Classify(suite.cases[k]));
    }
  }

  lemma StatusOfReports(raw: seq<RawArtifact>, artifacts: seq<Artifact>)
    requires ArtifactsReadAs(raw, artifacts)
    ensures StatusShows(raw, RollUp(StatusesOf(SuitesOf(artifacts))))
  {
    var statuses := StatusesOf(SuitesOf(artifacts));
    RollUpIsWorst(statuses);
    forall status ensures status in statuses <==> SomeCallsFor(raw, status) {
      VerdictsOfReports(raw, artifacts, status);
    }
    WorstShows(raw, RollUp(statuses));
  }

  /** Everything between the reports and the headline. The overall status is the worst of all the
      suites, the page's five counts add up to the cases of the reports, and its headline is
      critical, a watch finding or all clear as the status is failed, finding or neither. */
  method Publish(raw: seq<RawArtifact>)
    returns (cards: seq<Card>, status: Status, kinds: Kinds, headline: Headline, ghost artifacts: seq<Artifact>)
    ensures ArtifactsReadAs(raw, artifacts) && IsGrouped(cards, artifacts)
    ensures status == RollUp(StatusesOf(SuitesOf(artifacts))) && StatusShows(raw, status)
    ensures AllKinds(kinds) == RawCases(raw)
    ensures headline == HeadlineFor(status, kinds)
  {
    var read := ReadArtifacts(raw);
    artifacts := read;
    cards := GroupByVersion(read);
    status := RollUp(CardStatuses(cards));
    CardsCounted(raw, artifacts, cards);
    kinds, headline := StatusStory(cards);
    GroupingConserves(cards, artifacts);
    StatusOfReports(raw, artifacts);
    HeadlineFits(cards, artifacts, kinds);
    KindsShowEveryCase(raw, artifacts, cards);
  }

  function HeadlineFor(status: Status, kinds: Kinds): Headline {
    match status
    case FailedStatus => Critical(kinds.failed)
    case FindingStatus => Watch(kinds.finding)
    case _ => AllClear
  }

  lemma HeadlineFits(cards: seq<Card>, artifacts: seq<Artifact>, kinds: Kinds)
    requires IsGrouped(cards, artifacts) && kinds == KindsOf(SuitesOnCards(cards))
    ensures HeadlineFor(RollUp(CardStatuses(cards)), kinds) ==
            if kinds.failed > 0 then Critical(kinds.failed)
            else if kinds.finding > 0 then Watch(kinds.finding) else AllClear
  {
    GroupedAreClosed(cards, artifacts);
    HeadlineAgreesWithCollector(cards, kinds);
  }

  lemma KindsShowEveryCase(raw: seq<RawArtifact>, artifacts: seq<Artifact>, cards: seq<Card>)
    requires ArtifactsReadAs(raw, artifacts)
    requires multiset(SuitesOnCards(cards)) == multiset(SuitesOf(artifacts))
    ensures AllKinds(KindsOf(SuitesOnCards(cards))) == RawCases(raw)
  {
    SuitesAreCounted(raw, artifacts);
    CardsCounted(raw, artifacts, cards);
    KindsCoverCases(SuitesOnCards(cards));
    CasesOfPermutation(SuitesOnCards(cards), SuitesOf(artifacts));
    ReadKeepsCases(raw, artifacts);
  }

  function AllKinds(k: Kinds): nat {
    k.passed + k.failed + k.finding + k.expected + k.skipped
  }

  lemma {:induction false} SuitesAreCounted(raw: seq<RawArtifact>, artifacts: seq<Artifact>)
    requires ArtifactsReadAs(raw, artifacts)
    ensures forall s | s in SuitesOf(artifacts) :: Counted(s)
  {
    if artifacts != [] {
      var n := |artifacts| - 1;
      SuitesAreCounted(raw[..n], artifacts[..n]);
      assert ArtifactReadsAs(raw[n], artifacts[n]);
      forall s | s in artifacts[n].suites ensures Counted(s) {
        var k :| 0 <= k < |artifacts[n].suites| && artifacts[n].suites[k] == s;
        assert ReadsAs(raw[n].suites[k], s);
      }
    }
  }

  lemma CardsCounted(raw: seq<RawArtifact>, artifacts: seq<Artifact>, cards: seq<Card>)
    requires ArtifactsReadAs(raw, artifacts)
    requires multiset(SuitesOnCards(cards)) == multiset(SuitesOf(artifacts))
    ensures forall s | s in SuitesOnCards(cards) :: Counted(s)
  {
    SuitesAreCounted(raw, artifacts);
    PermutationMembers(SuitesOnCards(cards), SuitesOf(artifacts));
  }

  lemma {:induction false} FailuresAddUp(suites: seq<Suite>)
    ensures FailuresOf(suites, false) + FailuresOf(suites, true) == TotalsOf(suites).failed
  {
    if suites != [] {
      FailuresAddUp(suites[..|suites| - 1]);
    }
  }

  lemma KindsCoverCases(suites: seq<Suite>)
    requires forall s | s in suites :: Counted(s)
    ensures AllKinds(KindsOf(suites)) == CasesIn(suites)
  {
    FailuresAddUp(suites);
    SplitFailures(TotalsOf(suites), FailuresOf(suites, false), FailuresOf(suites, true));
    TotalsCoverCases(suites);
  }

  lemma SplitFailures(totals: Totals, red: nat, amber: nat)
    requires red + amber == totals.failed
    ensures AllKinds(Kinds(totals.passed, red, amber, totals.expected, totals.skipped)) == totals.Cases()
  {
  }

  /** The number of cases does not depend on how suites are arranged. */
  lemma CasesOfPermutation(xs: seq<Suite>, ys: seq<Suite>)
    requires multiset(xs) == multiset(ys) && forall s | s in ys :: Counted(s)
    ensures CasesIn(xs) == CasesIn(ys)
  {
    PermutationMembers(xs, ys);
    TotalsOfPermutation(xs, ys);
    TotalsCoverCases(xs);
    TotalsCoverCases(ys);
  }

  lemma {:induction false} CasesInConcat(a: seq<Suite>, b: seq<Suite>)
    ensures CasesIn(a + b) == CasesIn(a) + CasesIn(b)
  {
    if b == [] {
      assert a + b == a;
    } else {
      assert (a + b)[..|a + b| - 1] == a + b[..|b| - 1];
      CasesInConcat(a, b[..|b| - 1]);
    }
  }

  lemma {:induction false} SuitesKeepCases(raw: seq<RawSuite>, suites: seq<Suite>)
    requires AllReadAs(raw, suites)
    ensures CasesIn(suites) == RawCasesOf(raw)
  {
    if suites != [] {
      var n := |suites| - 1;
      SuitesKeepCases(raw[..n], suites[..n]);
      assert ReadsAs(raw[n], suites[n]);
    }
  }

  lemma {:induction false} ReadKeepsCases(raw: seq<RawArtifact>, artifacts: seq<Artifact>)
    requires ArtifactsReadAs(raw, artifacts)
    ensures CasesIn(SuitesOf(artifacts)) == RawCases(raw)
  {
    if artifacts != [] {
      var n := |artifacts| - 1;
      ReadKeepsCases(raw[..n], artifacts[..n]);
      assert ArtifactReadsAs(raw[n], artifacts[n]);
      SuitesKeepCases(raw[n].suites, artifacts[n].suites);
      CasesInConcat(SuitesOf(artifacts[..n]), artifacts[n].suites);
    }
  }
}
