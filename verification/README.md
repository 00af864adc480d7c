# A verified model of the OkHttp testbed

The testbed collects test results, publishes them on a page, and runs the servers its suites talk
to. Around that plumbing sit small algorithms whose comments and documentation promise a good deal:
that a chain of weak matches never swallows unrelated failures, that a published history never grows
without bound and never loses what it still needs, that a hand-written DNS answer is well formed,
that a report of a TLS handshake shows the offer of the connection that asks for it, that a
hand-rolled JSON file always parses. This project models those algorithms in Dafny and proves the
promises for every input, every run and every interleaving.

`dafny verify dfyconfig.toml` checks everything.

## How the modules fit together

**Failure grouping.** `Similarity` is the weighted five-part score of two findings over real
numbers, with a Jaccard index over finite sets. Its main results are metric: one hundred minus the
exact score obeys the triangle inequality, so two findings that match a third one well match each
other, less one point that rounding can lose; `Rounding` says exactly when it can. `Cluster` is
the greedy complete-link algorithm. The loops work on group objects they push members into and are proved against a
specification of one placement; what the grouping promises - a partition into order-preserving
subsequences, every two members above the threshold, no two groups that could be united - is an
invariant of every run, and every list of findings has exactly one result.

**The results collector.** `Endpoints` merges probe readings twice, per artifact and across
artifacts, and is proved equal to one flat merge. `History` is the published history that every
execution reads back: over every sequence of publications it is the last 120 entries of an uncapped
log. `Collector` puts the two together, so that the date an unreachable endpoint is shown with can
be traced to the execution it comes from. `Versions` covers suite statuses, the roll-up that is used
twice, the grouping by version and the page's headline, which is proved to agree with the
collector's verdict; `Page` composes them, from the test reports to the headline.

**DNS, service bindings and ECH configs.** `DnsName`, `Attrleaf`, `SvcParams`, `ServiceRecords`,
`DnsMessage`, `DnsService` and `EchConfig` model the fixture's byte-level code over `Bytes` and
`Decimal`. Every writer has an independent reader written from the standard: messages from section
4.1 of RFC 1035 (with compression pointers), service bindings from section 2.2 of RFC 9460, ECH
config lists from section 4 of RFC 9849. Round trips hold under exact conditions on lengths, since
the code truncates lengths to 8 and 16 bits.

**The test servers.** `HelloCache` is the bounded, shared map of ClientHellos, once as a sequence of
cache operations and once as a server whose connections open, greet, ask, close and are dropped late;
`Runs` holds what is true of all such state machines. `RawEcho` is the echo of a request head and a
Content-Length reader from section 6.3 of RFC 9112 that takes it back out of the response.

**Report writers and heading ids.** `Preflight` and `DohMatrix` are the two caches that rewrite a
JSON file after every new answer. The file is assembled from templates that are trimmed after the
values have been interpolated (`Margin`, `Reports`, `ReportFrame`), and it is read back with a reader
for the strings, arrays and objects of RFC 8259 (`Json`). `HeadingIds` is the loop that gives
headings unique ids.

`Ordering`, `LinkedMap`, `Sets` and `Wrappers` are shared: stable sorting, insertion-ordered
dictionaries, set sizes and optional values.

Loops and updates of the original are methods and classes proved against functions; expressions are
functions. Randomness, clocks, probes, files and sockets are parameters or absent.

## Where a promise does not hold

- The exact triangle inequality of the score does not survive rounding. `RoundingLosesAPoint` is a
  family of findings that lose a whole point; rounding adds 0.5 to each of its two pairs, 1.0 in all.
  The point is safe if the two pairs' rounded scores total at most 100, or if rounding adds at most
  0.5 to them together (`ExactTriangle`); `LowScoresLoseNothing` is a family that needs the first
  part. That test of the two scores is exact: whenever it fails, there are three findings with these
  two scores that lose the point (`PairTestIsExact`). Given findings may keep it all the same, if
  their unrounded scores leave something over; where the second finding unites the evidence of the
  other two nothing is left over, and the excess decides alone (`ExactTriangleThroughUnion`).
- A report is meant to show the asking connection's own offer. It does so in every interleaving in
  which no greeting reaches the cache while another connection that has greeted is live at the same
  remote address, and in no other (`RequestsReportTheirOwn`). Two habits of connections are enough
  for that, and each is needed: no two live connections share an address, although several listeners
  share one cache (`DistinctAddressesSuffice`, `SharedAddressReportsForeign`); and no greeting arrives
  after its socket has gone (`LateGreetingReportsForeign`).
- A comment says the cache holds at most one entry per live connection (`test-server/tls.go:364-366`).
  A connection that goes before its drop leaves an entry and nobody live (`EntryOutlivesConnection`).
  `OwnersLiveIffTidy` says exactly which runs keep every entry a live connection's, and
  `OwnersBoundEntries` that there are then no more entries than live connections.
- A query for a label that holds a dot is taken as a query for two labels (`DottedLabelRewrites`); the
  exact condition is that of `ParsedNameWritesBack`.
- A config list over 65498 octets, which the environment may supply, is answered with a message whose
  length field has wrapped (`LongConfigListMisreads`); the exact condition is that of
  `ResponsesReadBack`.
- One port prefix is stripped and no more, so a name that is itself prefixed need not share its record
  with its own port-prefixed name (`RecordSharedIff`).

Two writers have limits that the program never reaches, since it gives them constants and fresh X25519
keys:

- The name writer accepts names with an empty label or one over 63 octets, and they do not read back
  (`EmptyNameMisreads`, `LongLabelMisreads`, exactly `WrittenNameReadsBack`). Its one caller writes
  `green.secret.test`.
- The two config encoders accept empty keys, public names of 0 or of more than 255 octets, and keys
  and names that together exceed 65516, and the list does not decode to what was written
  (`PublicNamesThatMisread`, exactly `ConfigListRoundTrip`).

## Model

| member | source | states |
|---|---|---|
| `Similarity.Jaccard` | site/assets/finding-groups.js:20-25 | the counting loop returns the intersection's share of the union, and 0 for two empty sets |
| `Similarity.JaccardIndex` | site/assets/finding-groups.js:20-25 | lies in 0..1; is 1 exactly for equal non-empty sets and 0 exactly for sets that share nothing |
| `Similarity.JaccardTriangle` | site/assets/finding-groups.js:20-25 | the Jaccard distance of any three finite sets obeys the triangle inequality, the convention for empty sets included |
| `Similarity.RawTriangle` | site/assets/finding-groups.js:46-59 | one hundred minus the unrounded score obeys the triangle inequality for all findings |
| `Similarity.ScoreTriangle` | site/assets/finding-groups.js:46-59 | two findings' rounded score is at least the sum of their scores against any third, less 101 |
| `Rounding.ExactTriangle` | site/assets/finding-groups.js:46-59 | the exact inequality, without the lost point, holds for any third finding if the two pairs' scores total at most 100 or rounding adds at most 0.5 to them together |
| `Rounding.PairTestIsExact` | site/assets/finding-groups.js:46-59 | for any two scores of findings that test passes iff no three findings with these scores through the second lose the point |
| `Rounding.TightFindings` | site/assets/finding-groups.js:46-59 | any two scores of findings that total at least 100 before rounding are those of three findings whose third score is the least the inequality allows |
| `Rounding.ExactTriangleThroughUnion` | site/assets/finding-groups.js:46-59 | where the second finding has exactly the evidence of the other two together, the point is kept iff rounding adds at most 0.5 to the two pairs |
| `Rounding.PairTestIsSharp` | site/assets/finding-groups.js:56-58 | of three numbers from 0 to 100, the first two pass the test iff every third the unrounded inequality allows keeps the rounded one |
| `Rounding.RoundingLosesAPoint` | site/assets/finding-groups.js:56-58 | the looser bound is attained: a family of findings where rounding adds 1.0 and costs the whole point |
| `Rounding.LowScoresLoseNothing` | site/assets/finding-groups.js:56-58 | a family of findings where rounding adds 1.0 and, the scores being 8 and 8, nothing can be lost |
| `Similarity.ScoreSymmetric` | site/assets/finding-groups.js:46-59 | score and components do not depend on which finding comes first |
| `Similarity.ScoreBounds` | site/assets/finding-groups.js:46-59 | the exact and the rounded score lie in 0..100 |
| `Similarity.BaseSuiteName` | site/assets/finding-groups.js:9 | is the part of the name before the first separator, or all of it |
| `Similarity.TestClass` | site/assets/finding-groups.js:42-44 | the class of the case if it has one, else that of the suite, else the base name of the suite |
| `Similarity.WeightsShow` | site/assets/finding-groups.js:6-59 | a complete finding scores 100, less 25, 15, 15, 20 and 25 for whichever of class, method words, exception, message words and frames the other does not share |
| `Similarity.SelfScoreIsLargest` | site/assets/finding-groups.js:46-59 | a finding scores at least as much against itself as against anything else, seen from either side |
| `Similarity.NoTraceScoresLow` | site/assets/finding-groups.js:6-7 | a finding without exception name and stack frames scores at most 60 against anything |
| `Similarity.NoClassScoresLow` | site/assets/finding-groups.js:50 | a finding of no known class scores at most 75 against anything |
| `Cluster.Clustered` | site/assets/finding-groups.js:63-89 | the returned objects are distinct, hold the groups of a complete run, form a grouping (by the findings' own scores), and every one names its medoid and carries the match of each member |
| `Cluster.GroupingsAreClusters` | site/assets/finding-groups.js:61-77 | said of the findings' own scores: no two findings of a group score below the threshold, and of any two groups some finding of one and some finding of the other do |
| `Cluster.Grouped` | site/assets/finding-groups.js:63-77 | the outer loop ends with the groups of a complete run, held by fresh, distinct objects |
| `Cluster.Settled` | site/assets/finding-groups.js:65-77 | one turn of the outer loop is one step of a run: the item joins the best group or starts one, and no other group changes |
| `Cluster.BestGroup` | site/assets/finding-groups.js:66-74 | the chosen group qualifies, has the highest average, and is the first with it; none is chosen only if none qualifies |
| `Cluster.Compared` | site/assets/finding-groups.js:68-71 | the minimum over a group clears the threshold exactly when every member does |
| `Cluster.AverageOfOne` | site/assets/finding-groups.js:70 | the average over one member is the score against it |
| `Cluster.AverageOfSnoc` | site/assets/finding-groups.js:70 | one more member adds its score to the total the average stands for |
| `Cluster.AverageMonotone` | site/assets/finding-groups.js:70 | scores that are nowhere lower make no lower average, and a higher one if one of them is higher |
| `Cluster.AverageBetween` | site/assets/finding-groups.js:70 | an average lies between the lowest and the highest of what is averaged |
| `Cluster.ChosenIsNotBeaten` | site/assets/finding-groups.js:66-74 | no group that may be joined has all its scores above the chosen one's, or is of its size, nowhere lower and somewhere higher |
| `Cluster.Medoid` | site/assets/finding-groups.js:80-85 | finds the first member whose average score to the group no other exceeds |
| `Cluster.MedoidIsNotBeaten` | site/assets/finding-groups.js:80-85 | no member scores at least as high as the representative against every member and higher against one, and a member that scores the same throughout comes no earlier |
| `Cluster.RepresentativeIsNotBeaten` | site/assets/finding-groups.js:79-87 | in every finished group no finding scores at least as high as the representative against every member and higher against one |
| `Cluster.LastWord` | site/assets/finding-groups.js:79-87 | representative and matches of a group: a medoid, and its similarity to every member |
| `Cluster.FinishAll` | site/assets/finding-groups.js:79-87 | the second loop finishes every group and leaves all members as they are |
| `Cluster.PlaceKeepsGrouping` | site/assets/finding-groups.js:61-77 | one placement keeps the partition, the pairwise bound within groups and a bad pair between any two groups |
| `Cluster.RunKeepsGrouping` | site/assets/finding-groups.js:61-77 | at every moment of every run the items placed so far are partitioned in order, every two members of a group clear the threshold, and any two groups hold a pair that does not |
| `Cluster.RunsAgree` | site/assets/finding-groups.js:63-77 | scores and threshold determine the groups at every moment of a run |
| `Cluster.ResultIsUnique` | site/assets/finding-groups.js:63-77 | two results for the same findings and threshold are the same groups, and they are a grouping |
| `Cluster.OneResult` | site/assets/finding-groups.js:63-77 | at every threshold a list of findings has exactly one result |
| `Cluster.GroupsCannotUnite` | site/assets/finding-groups.js:61-77 | joining any two output groups would put a pair below the threshold into one group |
| `Cluster.NoTraceStaysAlone` | site/assets/finding-groups.js:6-7 | in every result at a threshold above 60 a finding without exception name and stack frames is alone in its group |
| `Cluster.GroupSeesAlike` | site/assets/finding-groups.js:61-77 | the scores of two members of a group against any third finding differ by at most 101 minus the threshold |
| `Cluster.DefaultGroupsAreTight` | site/assets/finding-groups.js:7 | at the default threshold members of a group score at least 65 against each other and within 36 points of each other against anything else |
| `Cluster.DisplayedRangeIsValid` | site/assets/status.js:396-407 | the range the page prints for a group lies between the threshold and 100, its ends are shown scores, and every shown score lies between them |
| `Cluster.ReturnedRangesAreValid` | site/assets/status.js:396-407 | every group of two or more that the clustering returns has scores to show and such a range |
| `Endpoints.ParseEndpoints` | site/tools/collect_results.py:313-333 | per artifact and in terms of its files: every endpoint a readable file lists is reported once, in alphabetical order of id, as its first entry that is not up if it has one, else its first entry, with the time of that file; and no other |
| `Endpoints.KeptIsReported` | site/tools/collect_results.py:327-331 | the reading kept of a list of files is that entry, by file and position in it |
| `Endpoints.MergeEndpoints` | site/tools/collect_results.py:336-367 | across artifacts: the kept reading of every endpoint, once, down ones first and then alphabetically; those that are up dated now, the others by the latest history entry that saw them up, or not at all |
| `Endpoints.AbsorbAll` | site/tools/collect_results.py:328-331 | the dictionary the inner loop updates holds, for every id, the reading kept of all those seen |
| `Endpoints.Dated` | site/tools/collect_results.py:353-365 | an endpoint that is up is dated now, any other by the latest history entry that saw it up, or not at all |
| `Endpoints.UpIffEveryReadingUp` | site/tools/collect_results.py:327-331 | whatever the order, an endpoint is reported iff somebody read it and is up iff everybody who did read it up |
| `Endpoints.KeptOfConcat` | site/tools/collect_results.py:327-351 | what is kept of two lists is decided by what is kept of each |
| `Endpoints.TwoStagesKeepTheSame` | site/tools/collect_results.py:327-351 | merging per artifact and then across keeps, for every endpoint, the reading one flat merge of all files keeps |
| `Endpoints.TwoStagesAreFlat` | site/tools/collect_results.py:313-367 | the published list is the one a single flat merge would publish, and every endpoint any file of any artifact lists is in it as its first entry that is not up, else its first entry |
| `Endpoints.MergedIsUnique` | site/tools/collect_results.py:367 | the specification of the merge leaves one possible list |
| `History.Publish` | site/tools/collect_results.py:697-699 | the update of the history: the entry's key dropped, the entry last, at most 120 kept |
| `History.StoredIsCappedLog` | site/tools/collect_results.py:697-699 | after every sequence of publications the stored history is the last 120 entries of the uncapped log that keeps each key's latest publication, and its keys are distinct |
| `History.CapThenPublish` | site/tools/collect_results.py:697-699 | capping before the update loses nothing that capping only afterwards would keep |
| `History.LatestOnlyOfSnoc` | site/tools/collect_results.py:697-698 | one more publication removes the entry it replaces from the uncapped log and goes last |
| `History.RepublishingNewestIsNoOp` | site/tools/collect_results.py:685-699 | publishing the newest entry once more leaves the history as it is |
| `History.LastReachableSurvivesCap` | site/tools/collect_results.py:353-365 | what a later execution reads back about an endpoint is what the uncapped log says if that names a run among the last 120, and is empty otherwise |
| `Collector.Summarise` | site/tools/collect_results.py:603-626 | the history keeps, for exactly the endpoints that were read, the state that was kept |
| `Collector.Collect` | site/tools/collect_results.py:675-699 | one execution: endpoints merged against the previous history, and that history with this run's states published into it |
| `Collector.SawUpIffReachedByAll` | site/tools/collect_results.py:353-365 | a history entry records an endpoint as up iff it was read in that execution and every reading was up |
| `Collector.DownEndpointsAreDated` | site/tools/collect_results.py:353-365 | after any sequence of executions an endpoint that is down is dated by an execution in which all who read it reached it - the latest the uncapped log knows, if among its last 120 - and has no date otherwise |
| `Versions.ParseSuite` | site/tools/collect_results.py:239-310 | every case is kept with its status, ordered by name, and the four counts are the numbers of cases of each status |
| `Versions.Classify` | site/tools/collect_results.py:244-280 | a case passes iff it neither fails nor is skipped, fails iff its failure is neither an assumption nor expected, and is expected iff there is a reason for its failing or being skipped |
| `Versions.SuiteStatusFromCases` | site/tools/collect_results.py:452-463 | failed or finding iff a case failed, as the suite gates or is watched; else expected iff a case is; else passed iff a case did; skipped iff every case was |
| `Versions.SameNamedCasesKeepOrder` | site/tools/collect_results.py:309 | cases of one name stay in the order of the report |
| `Versions.CountsCoverCases` | site/tools/collect_results.py:303-308 | the four counts sum to the number of cases |
| `Versions.RollUpIsWorst` | site/tools/collect_results.py:466-471 | the roll-up is present, or unknown, and no status present is worse |
| `Versions.RollUpInStages` | site/tools/collect_results.py:589-692 | rolling up card by card and then over the cards equals rolling up every suite at once |
| `Versions.CombineCollects` | site/tools/collect_results.py:538-562 | a card shows the first artifact's label, all suites of its artifacts in order, and each workflow and non-empty platform once |
| `Versions.CombineKeepsOrder` | site/tools/collect_results.py:554-557 | workflows and platforms stand on a card in the order in which they first come up |
| `Versions.CombineKeepsFirstHello` | site/tools/collect_results.py:559-562 | a card keeps the first ClientHello any of its artifacts recorded, and none only if none did |
| `Versions.TiedSuitesKeepOrder` | site/tools/collect_results.py:586-588 | suites of one name and kind stay on a card in the order in which their artifacts were read |
| `Versions.GroupByVersion` | site/tools/collect_results.py:535-600 | one card for every version, releases first, each with exactly what its artifacts say; no suite is lost or shown twice |
| `Versions.CardsReleasesFirst` | site/tools/collect_results.py:597-600 | releases come before snapshots, each in alphabetical order of version, and no version comes twice |
| `Versions.SuitesGateFirst` | site/tools/collect_results.py:586-588 | on a card suites that gate come before those that only report, each in alphabetical order |
| `Versions.AddOne` | site/tools/collect_results.py:538-562 | one artifact opens or extends the card of its version and no other |
| `Versions.GroupingConserves` | site/tools/collect_results.py:585-594 | the cards' counts add up to the counts of all suites, and the cards roll up to the verdict on all suites |
| `Versions.TotalsCoverCases` | site/tools/collect_results.py:303-308 | the four totals account for every case of every suite |
| `Versions.PageSuiteStatus` | site/assets/status.js:35-41 | the page's verdict on a suite is the collector's |
| `Versions.StatusStory` | site/assets/status.js:104-121 | the page's counting loops find the collector's totals, failures split by whether they turn the page red, and the headline follows them |
| `Versions.TallySuite` | site/assets/status.js:108-113 | counting one suite's cases adds the suite's recorded counts |
| `Versions.HeadlineAgreesWithCollector` | site/assets/status.js:104-121 | the page says critical exactly when the collector says failed and watch finding exactly when it says finding |
| `Page.Publish` | site/tools/collect_results.py:640-695 | from the reports to the headline: the status is the worst of all suites and, case by case, what the reports show; the page's five counts add up to their cases; and the headline is the one the status calls for |
| `Page.StatusOfReports` | site/tools/collect_results.py:452-471 | the overall status in terms of the cases of all reports: failed iff a gating suite has a failure, else finding iff any has, else expected, passed or skipped by the cases there are, and unknown iff there is no suite |
| `Page.CardsCounted` | site/tools/collect_results.py:303-309 | the counts recorded when a report is read still count the cases of every suite on every card |
| `Page.KindsShowEveryCase` | site/assets/status.js:104-115 | the page counts every case of every report once |
| `DnsName.AppendDnsName` | ech-fixture/src/main/resources/ech-fixture/main.go:377-383 | the loop appends the name's labels, each after its length octet, and the root |
| `DnsName.DnsQuestion` | ech-fixture/src/main/resources/ech-fixture/main.go:263-285 | the name, lower-cased, and the end of the question, or the refusal of the recursive parse; nothing is read out of range |
| `DnsName.ReadLabels` | ech-fixture/src/main/resources/ech-fixture/main.go:264-280 | the parsing loop equals the recursive parse of labels |
| `DnsName.WrittenNameReadsBack` | ech-fixture/src/main/resources/ech-fixture/main.go:377-383 | behind any header and before any suffix of four octets a written name reads back, lower-cased and ending where it was written, iff all its labels have 1 to 63 octets |
| `DnsName.ParsedNameWritesBack` | ech-fixture/src/main/resources/ech-fixture/main.go:263-285 | an accepted question writes back, up to letter case, to the octets consumed iff it has a label and no label holds a dot |
| `DnsName.SpellingsAskTheSame` | ech-fixture/src/main/resources/ech-fixture/main.go:284 | two spellings of a name that differ in letter case alone are the same question, asked without capitals |
| `DnsName.EmptyNameMisreads` | ech-fixture/src/main/resources/ech-fixture/main.go:377-383 | the empty name is read as the root alone, ending one octet early |
| `DnsName.LongLabelMisreads` | ech-fixture/src/main/resources/ech-fixture/main.go:275-277 | a label of 64 octets is written and then refused |
| `DnsName.DottedLabelRewrites` | ech-fixture/src/main/resources/ech-fixture/main.go:278-284 | the query for the one label "a.b" is accepted as a question whose name is written with two labels |
| `DnsName.ParseOfEncoded` | ech-fixture/src/main/resources/ech-fixture/main.go:263-285 | labels of 1 to 63 octets are recovered exactly, dots in them or not |
| `DnsName.ExactParseMeansEncodable` | ech-fixture/src/main/resources/ech-fixture/main.go:272-277 | no truncated length can be mistaken: if the parse ends where the writing did and gives the same name, all labels had 1 to 63 octets |
| `Attrleaf.StripRemovesPrefix` | ech-fixture/src/main/resources/ech-fixture/main.go:288-297 | a name with a port prefix loses exactly the prefix |
| `Attrleaf.StripKeepsOthers` | ech-fixture/src/main/resources/ech-fixture/main.go:288-297 | every other name is left alone |
| `Attrleaf.StripLeavesUnprefixed` | ech-fixture/src/main/resources/ech-fixture/main.go:288-297 | exactly the names without a prefix are left alone |
| `Attrleaf.StripOfPort` | ech-fixture/src/main/resources/ech-fixture/main.go:287-297 | for every port in decimal and every name the prefixed name strips to the name |
| `Attrleaf.PrefixSpelled` | ech-fixture/src/main/resources/ech-fixture/main.go:224-226 | the prefix of the origin's port is spelled `_8443._https.` |
| `Attrleaf.DecimalParses` | ech-fixture/src/main/resources/ech-fixture/main.go:293-295 | every port up to 65535, written in decimal, is recognised |
| `Attrleaf.ParsesExactlyPorts` | ech-fixture/src/main/resources/ech-fixture/main.go:293-295 | exactly the decimals of at least one digit up to 65535 are recognised, at their value |
| `SvcParams.ParamsRoundTrip` | ech-fixture/src/main/resources/ech-fixture/main.go:385-388 | a parameter list decodes back to itself iff its keys strictly increase within 16 bits and its values have 16-bit lengths |
| `SvcParams.DecodedIsWellFormed` | ech-fixture/src/main/resources/ech-fixture/main.go:385-388 | whatever decodes is such a list, and writes back to the octets it came from |
| `SvcParams.BindingRoundTrip` | ech-fixture/src/main/resources/ech-fixture/main.go:299-309 | a priority, target and parameters decode back to themselves iff the priority fits 16 bits, the target's labels 1 to 63 octets, and the parameters are well formed |
| `ServiceRecords.AppendSvcParam` | ech-fixture/src/main/resources/ech-fixture/main.go:385-388 | appends exactly one encoded parameter |
| `ServiceRecords.HttpsRecord` | ech-fixture/src/main/resources/ech-fixture/main.go:299-309 | the built octets are the encoding of the binding, in which a reader finds priority 1, the owner as target, the identifiers h2 and http/1.1, the port, 127.0.0.1, the config list, and no other key |
| `ServiceRecords.HttpsRecordReadsBack` | ech-fixture/src/main/resources/ech-fixture/main.go:299-309 | for every port the record decodes to that binding iff the config list has a 16-bit length, and it fits RDLENGTH iff the list has at most 65498 octets |
| `ServiceRecords.SvcParamFixture` | ech-fixture/src/main/resources/ech-fixture/main.go:319-374 | exactly the five special names have a record, and a reader finds in each what sets it apart, name by name, with the port |
| `ServiceRecords.FixturesReadBack` | ech-fixture/src/main/resources/ech-fixture/main.go:319-374 | every fixture decodes to what it was built from and fits RDLENGTH, for every port |
| `DnsMessage.Header` | ech-fixture/src/main/resources/ech-fixture/main.go:242-250 | the header filled in place holds the query's identifier, the flags, one question and the answer count |
| `DnsMessage.Rdata` | ech-fixture/src/main/resources/ech-fixture/main.go:217-240 | the switch gives the RDATA of the type and name asked for, none, or the refusal |
| `DnsMessage.DnsResponse` | ech-fixture/src/main/resources/ech-fixture/main.go:209-261 | the response built in place is header, question as asked and at most one answer, or the refusal of the step that failed; nothing is read out of range |
| `DnsMessage.ResponseDecodes` | ech-fixture/src/main/resources/ech-fixture/main.go:242-260 | a section 4.1 reader consumes a response exactly and finds the question and the answer, owned by the question's name through the pointer, iff the RDATA has a 16-bit length |
| `DnsMessage.NameInPlace` | ech-fixture/src/main/resources/ech-fixture/main.go:251-255 | a written name is read where it stands in a message |
| `DnsMessage.AnswerInPlace` | ech-fixture/src/main/resources/ech-fixture/main.go:255-259 | the answer's owner resolves through the pointer to the labels at offset 12, and the record is read whole |
| `DnsService.ResponsesReadBack` | ech-fixture/src/main/resources/ech-fixture/main.go:209-261 | every answered query gets a message that decodes to the same identifier, the same question and the right answer iff no over-long config list is involved |
| `DnsService.ShortConfigsAlwaysReadBack` | ech-fixture/src/main/resources/ech-fixture/main.go:209-261 | with config lists of at most 65498 octets no response is malformed, for any query |
| `DnsService.SpellingsAnswerTheSame` | ech-fixture/src/main/resources/ech-fixture/main.go:209-261 | whatever is asked, two spellings of a name are answered with the same record or both refused |
| `DnsService.PublishedRecords` | ech-fixture/src/main/resources/ech-fixture/main.go:229-237 | a special name has its own record, a configured one a record that announces the origin, and any other name is refused |
| `DnsService.OtherTypes` | ech-fixture/src/main/resources/ech-fixture/main.go:219-239 | an address query is answered with 127.0.0.1, and a query of any other type than that and the HTTPS one with no answer |
| `DnsService.PortNameGetsRecord` | ech-fixture/src/main/resources/ech-fixture/main.go:223-237 | for every name, asking at its port-prefixed name gets the record published for the name, and asking at the name that of the name without a prefix |
| `DnsService.RecordSharedIff` | ech-fixture/src/main/resources/ech-fixture/main.go:223-237 | the two get the same record, or are both refused, in every config map iff the name is not itself prefixed |
| `DnsService.LongConfigListMisreads` | ech-fixture/src/main/resources/ech-fixture/main.go:237-259 | with 65499 octets configured for `green.secret.test`, the answer does not decode to its record |
| `EchConfig.MarshalEchConfig` | ech-fixture/src/main/resources/ech-fixture/main.go:390-403 | the built octets are the config's version and length-prefixed contents |
| `EchConfig.EchConfigList` | network/src/test/kotlin/okhttp/testbed/network/EchClientHelloTest.kt:121-151 | the second encoder writes the very octets of the first for the same fields |
| `EchConfig.WriteContents` | network/src/test/kotlin/okhttp/testbed/network/EchClientHelloTest.kt:124-138 | the stream ends up holding the contents field by field |
| `EchConfig.ByteSink.WriteShort` | network/src/test/kotlin/okhttp/testbed/network/EchClientHelloTest.kt:153-156 | two writes append the low sixteen bits, high octet first |
| `EchConfig.ConfigListRoundTrip` | ech-fixture/src/main/resources/ech-fixture/main.go:390-417 | the list decodes to exactly one config with the given id, key, name and maximum iff the key is not empty, the name has 1 to 255 octets and both together at most 65516 |
| `EchConfig.PublicNamesThatMisread` | ech-fixture/src/main/resources/ech-fixture/main.go:397-398 | with a 32-octet key, an empty name and one of 256 octets do not decode to what was written |
| `HelloCache.Cache.Put` | test-server/tls.go:358-371 | a hello without a connection changes nothing; any other replaces the entry of its address, after emptying an over-full map |
| `HelloCache.SizeIsBounded` | test-server/tls.go:364-370 | in every sequence of operations the cache holds at most 1025 entries |
| `HelloCache.BoundedSinceReset` | test-server/tls.go:364-370 | at every moment the cache is an unbounded one over the operations since the last reset, which only an over-full cache causes |
| `HelloCache.FoundIffPutLast` | test-server/tls.go:349-383 | a hello is found at an address iff it was put there and no put or drop at the address and no reset came later |
| `HelloCache.StepKeepsOwn` | test-server/tls.go:311-326 | a step that is not an overtaking greeting keeps every greeted live connection's entry its own or absent |
| `HelloCache.RequestsReportTheirOwn` | test-server/tls.go:445-451 | in every interleaving, requests carry their own connection's hello or none at every moment, however late drops arrive, iff no greeting reaches the cache while another connection that has greeted is live at its address |
| `HelloCache.DistinctAddressesSuffice` | test-server/tls.go:311-326 | that is so if live connections never share a remote address and no greeting arrives after its socket has gone |
| `HelloCache.SharedAddressReportsForeign` | test-server/tls.go:364-370 | when two live connections share an address one reports the other's hello: a run of four steps |
| `HelloCache.LateGreetingReportsForeign` | test-server/tls.go:311-314 | when a greeting arrives after its socket has gone a live connection reports it, with addresses distinct throughout: a run of five steps |
| `HelloCache.OwnersLiveIffTidy` | test-server/tls.go:364-366 | every entry is a live connection's at every moment iff greetings come from live connections and none goes before its hello does |
| `HelloCache.OwnersBoundEntries` | test-server/tls.go:364-366 | when every entry is a live connection's there are at most as many entries as live connections |
| `HelloCache.EntryOutlivesConnection` | test-server/tls.go:322-325 | a drop that is merely late leaves one entry and no live connection |
| `HelloCache.ForeignIffGreetedLastByAnother` | test-server/tls.go:445-451 | in every run whatsoever a report is another connection's iff the last step to write the address was that connection's greeting |
| `RawEcho.ReadHead` | test-server/hostile.go:183-193 | the loop returns the shortest prefix of the input that ends in an empty line, or all of the input, or its first 65536 octets |
| `RawEcho.LineDecides` | test-server/hostile.go:185-191 | reading line by line finds an empty line exactly where the octets have one |
| `RawEcho.HeadIsUnique` | test-server/hostile.go:183-193 | an input has one such head |
| `RawEcho.EchoRequestHead` | test-server/hostile.go:179-199 | the handler writes the framed head and closes the connection |
| `RawEcho.HeaderSays` | test-server/hostile.go:194-197 | the response reads as status 200 with a plain-text type and a closing connection |
| `RawEcho.BodyReadsBack` | test-server/hostile.go:193-198 | a reader that goes by Content-Length recovers the body exactly, whatever the body is |
| `HeadingIds.SlugIsWords` | site/assets/navigation.js:13 | a base is the heading's words - its longest runs of letters and digits, in lower case - joined by single hyphens, or "section" if it has none |
| `HeadingIds.WordsOfRun` | site/assets/navigation.js:13 | small letters and digits alone are one word as they stand |
| `HeadingIds.WordsAtGap` | site/assets/navigation.js:13 | any character but a letter or a digit parts words and is in none |
| `HeadingIds.WordsIgnoreCase` | site/assets/navigation.js:13 | letter case makes no difference to the words |
| `HeadingIds.SlugIsClean` | site/assets/navigation.js:13 | a base is not empty, has nothing but letters, digits and single hyphens, and no hyphen at either end |
| `HeadingIds.CandidatesDiffer` | site/assets/navigation.js:14-16 | the candidates of a base are pairwise distinct |
| `HeadingIds.CandidatesCount` | site/assets/navigation.js:14-16 | the candidates are the base, then the base with -2, -3 and so on |
| `HeadingIds.UniqueId` | site/assets/navigation.js:14-16 | the loop ends after at most as many rejections as ids in use, with the first free candidate |
| `HeadingIds.AssignOne` | site/assets/navigation.js:12-19 | one heading gets its id, and nothing before or after it changes |
| `HeadingIds.AssignIds` | site/assets/navigation.js:10-20 | every heading without an id gets the first free candidate of its text; the others keep theirs; the ids in use grow by exactly the new ones |
| `HeadingIds.GivenIdsAreFresh` | site/assets/navigation.js:10-20 | every id given on a page is new to it and different from every other id given |
| `Json.ToJson` | network/src/test/kotlin/okhttp/testbed/network/Preflight.kt:111-127 | the builder loop quotes and escapes its string |
| `Json.QuotedReads` | network/src/test/kotlin/okhttp/testbed/network/Preflight.kt:111-127 | any string, quoted, reads back as itself under section 7 of RFC 8259 |
| `Json.LayoutReads` | network/src/test/kotlin/okhttp/testbed/network/DohMatrixReport.kt:99-145 | any nesting of objects, lists and strings, with any whitespace between, reads back as its value |
| `Json.DocumentReads` | network/src/test/kotlin/okhttp/testbed/network/Preflight.kt:88-103 | and so does a whole document with whitespace after it |
| `Margin.TrimOfTemplate` | network/src/test/kotlin/okhttp/testbed/network/Preflight.kt:75-86 | trimming a template of lines without breaks gives the lines back, whatever they hold |
| `Margin.TrimKeepsInterpolated` | network/src/test/kotlin/okhttp/testbed/network/Preflight.kt:92-102 | trimming after interpolation leaves the interpolated lines alone as long as none of them starts with a margin |
| `Reports.EscapeUnbroken` | network/src/test/kotlin/okhttp/testbed/network/Preflight.kt:111-127 | escaping leaves no line break for the trimming to act on |
| `ReportFrame.FrameReads` | network/src/test/kotlin/okhttp/testbed/network/Preflight.kt:88-103 | a text framed by the writers' template reads back as the task name, the time and what its lines print |
| `Preflight.Cache.Check` | network/src/test/kotlin/okhttp/testbed/network/Preflight.kt:54-62 | a known endpoint is answered from memory and not probed; a new one is probed once, remembered last and reported |
| `Preflight.ResultsAreFirstAnswers` | network/src/test/kotlin/okhttp/testbed/network/Preflight.kt:54-62 | after any calls the results are each endpoint's first answer, in first-asked order |
| `Preflight.ReportReadsBack` | network/src/test/kotlin/okhttp/testbed/network/Preflight.kt:71-104 | the written report parses to exactly the task name, the time and the results so far, whatever the strings hold |
| `Preflight.LastProbedIsLast` | network/src/test/kotlin/okhttp/testbed/network/Preflight.kt:54-62 | the time written down is that of a call that asked about something new, and no later call did |
| `Preflight.FileReadsBack` | network/src/test/kotlin/okhttp/testbed/network/Preflight.kt:54-104 | after any calls the file on disk parses to all first answers and the time of the last new probe |
| `Preflight.NoPathNoReport` | network/src/test/kotlin/okhttp/testbed/network/Preflight.kt:72 | without a report path nothing is ever written |
| `DohMatrix.Matrix.Record` | network/src/test/kotlin/okhttp/testbed/network/DohMatrixReport.kt:86-94 | one call is one step of the state: a cell of the nested map is set, and the report is rewritten from the result if there is a path |
| `DohMatrix.OutcomesRead` | network/src/test/kotlin/okhttp/testbed/network/DohMatrixReport.kt:54-83 | every outcome is written under its own name |
| `DohMatrix.RecordKeeps` | network/src/test/kotlin/okhttp/testbed/network/DohMatrixReport.kt:92 | recording changes one cell and no other, and adds new names, and new resolvers of a name, last |
| `DohMatrix.ReportReadsBack` | network/src/test/kotlin/okhttp/testbed/network/DohMatrixReport.kt:96-126 | the written matrix parses to exactly the recorded answers, name by name and resolver by resolver |
| `DohMatrix.MatrixHoldsLatest` | network/src/test/kotlin/okhttp/testbed/network/DohMatrixReport.kt:86-94 | after any calls the matrix holds the latest answer of every name and resolver, names and each name's resolvers in first-recorded order |
| `DohMatrix.FileReadsBack` | network/src/test/kotlin/okhttp/testbed/network/DohMatrixReport.kt:86-126 | after any calls the file on disk parses to the whole matrix and the time of the last call, and without a path there is none |

## Left out

- The regular expressions behind the score (method and message words, exception names, stack frames): their results are fields of a finding.
- IEEE doubles: scores and averages are exact reals, and rounding is the floor after adding one half.
- Object identity of findings: a finding is named by its position in the input list, so a list that holds one object twice is not modelled.
- Unicode case folding in `strings.ToLower` and `toLowerCase`, and invalid UTF-8: letter case is that of ASCII.
- Names over 255 octets (section 2.3.4 of RFC 1035): the fixture accepts them, and so does the reader here.
- Opcode, QDCOUNT and the question's class: the fixture reads none of them and always answers for class IN.
- The error texts of the fixture's refusals beyond which step refused: `no ECH fixture` omits the name.
- The codes behind the ECH config's algorithms, key generation, X.509, HPKE and the TLS handshake itself.
- Conversion of the public name to US-ASCII in the Kotlin encoder: the name is given as octets.
- The rest of the handshake report: names of versions, suites and extensions, and certificates.
- The cache's mutex: every operation is one atomic step.
- Deadlines, short writes and socket errors of the raw echo, and other header fields than the ones it writes.
- Lone surrogates in strings, and in the JSON reader numbers, booleans, null and `\u` escapes of surrogate halves, none of which the writers produce.
- Whitespace above U+00FF when a margin is looked for, and the file system behind the reports.
- Card fields that are only carried along (`dohMatrix`, `altSvc`, `tlsPolicy`, `echResults`, `timeSeconds`), messages and traces of cases, and the tables of expected failures: the reason a failure is expected is an input.
- A history entry's counts and per-suite statuses: no later execution reads them, so they are one opaque field.
- How the snapshot's key is put together from the contributing runs, and malformed entries of the history that is read back.
- The DOM the page builds, group titles and topic links, and documents with fewer than three headings.
- Suites that exercise OkHttp, containers, builds and shell scripts.
