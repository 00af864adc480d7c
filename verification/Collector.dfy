/** The collector's `main` over the endpoints and the history (site/tools/collect_results.py):
    each execution reads the previous history, merges this run's readings against it, and writes
    the history the next execution will read. */
module Collector {
  import opened Endpoints
  import opened History

  /** The state of every endpoint that was read: what `summarise` keeps for the next run. */
  function StatesOf(rs: seq<Reading>): (states: map<string, string>)
    ensures forall id :: id in states <==> Kept(rs, id).Some?
    ensures forall id | id in states :: states[id] == Kept(rs, id).value.state
  {
    assert forall id | Kept(rs, id).Some? :: exists r :: r in rs && r.id == id by {
      forall id | Kept(rs, id).Some? ensures exists r :: r in rs && r.id == id {
        KeptIsMember(rs, id);
      }
    }
    map r | r in rs && Kept(rs, r.id).Some? :: r.id := Kept(rs, r.id).value.state
  }

  /** The dictionary comprehension of `summarise`. */
  method Summarise(endpoints: seq<Endpoint>, ghost rs: seq<Reading>, ghost history: seq<Run>, ghost finishedAt: string)
    returns (states: map<string, string>)
    requires IsMerged(endpoints, rs, history, finishedAt)
    ensures states == StatesOf(rs)
  {
    states := map[];
    for i := 0 to |endpoints|
      invariant forall k | 0 <= k < i :: endpoints[k].reading.id in states
      invariant forall id | id in states :: Kept(rs, id).Some? && states[id] == Kept(rs, id).value.state
    {
      assert endpoints[i] in endpoints;
      states := states[endpoints[i].reading.id := endpoints[i].reading.state];
    }
    forall id | Kept(rs, id).Some? ensures id in states {
      var r := Kept(rs, id).value;
      var e := Endpoint(r, LastReachableAt(r, history, finishedAt));
      assert e in endpoints;
      var k :| 0 <= k < |endpoints| && endpoints[k] == e;
    }
  }

  method Collect(previous: seq<Run>, key: string, finishedAt: string, summary: string, artifacts: seq<seq<Reading>>)
    returns (endpoints: seq<Endpoint>, history: seq<Run>)
    ensures IsMerged(endpoints, Flatten(artifacts), previous, finishedAt)
    ensures history == Published(previous, Run(key, finishedAt, summary, StatesOf(Flatten(artifacts))))
  {
    endpoints := MergeEndpoints(artifacts, previous, finishedAt);
    var states := Summarise(endpoints, Flatten(artifacts), previous, finishedAt);
    history := Publish(previous, Run(key, finishedAt, summary, states));
  }

  // -- Whole sequences of executions -----------------------------------------------------

  datatype Execution = Execution(key: string, finishedAt: string, summary: string,
                                 readings: seq<Reading>, previousReadable: bool)
  {
    function Entry(): Run {
      Run(key, finishedAt, summary, StatesOf(readings))
    }
  }

  function LogOf(xs: seq<Execution>): (log: seq<Publication>)
    ensures |log| == |xs|
    ensures forall i | 0 <= i < |xs| :: log[i] == Publication(xs[i].Entry(), xs[i].previousReadable)
  {
    seq(|xs|, i requires 0 <= i < |xs| => Publication(xs[i].Entry(), xs[i].previousReadable))
  }

  /** Somebody reached the endpoint in this execution and nobody failed to. */
  ghost predicate ReachedByAll(x: Execution, id: string) {
    && (exists i :: 0 <= i < |x.readings| && x.readings[i].id == id)
    && (forall i | 0 <= i < |x.readings| && x.readings[i].id == id :: x.readings[i].Up())
  }

  lemma SawUpIffReachedByAll(x: Execution, id: string)
    ensures SawUp(x.Entry(), id) <==> ReachedByAll(x, id)
  {
    UpIffEveryReadingUp(x.readings, id);
  }

  lemma {:induction false} SinceLossFromLog(xs: seq<Execution>, r: Run)
    requires r in SinceLoss(LogOf(xs))
    ensures exists i :: 0 <= i < |xs| && r == xs[i].Entry()
  {
    var last := xs[|xs| - 1];
    if r != last.Entry() {
      assert LogOf(xs)[..|xs| - 1] == LogOf(xs[..|xs| - 1]);
      SinceLossFromLog(xs[..|xs| - 1], r);
    }
  }

  lemma {:induction false} LatestOnlyIsSubset(runs: seq<Run>)
    ensures forall r | r in LatestOnly(runs) :: r in runs
  {
    if runs != [] {
      LatestOnlyIsSubset(runs[1..]);
      assert runs == [runs[0]] + runs[1..];
    }
  }

  /** After any sequence of executions, an endpoint that is down now is dated by an execution in
      which every reading of it was up: the latest one the uncapped log knows, provided that is
      among its last 120. Otherwise it has no date. */
  lemma DownEndpointsAreDated(xs: seq<Execution>, rs: seq<Reading>, out: seq<Endpoint>, finishedAt: string, e: Endpoint)
    requires IsMerged(out, rs, Stored(LogOf(xs)), finishedAt) && e in out && !e.reading.Up()
    ensures var log := LatestOnly(SinceLoss(LogOf(xs)));
            var seen := LastUp(log, e.reading.id);
            if seen.Some? && seen.value + 120 >= |log|
            then exists i :: 0 <= i < |xs| && ReachedByAll(xs[i], e.reading.id)
                             && xs[i].Entry() == log[seen.value] && e.lastReachableAt == xs[i].finishedAt
            else e.lastReachableAt == ""
  {
    var id := e.reading.id;
    var log := LatestOnly(SinceLoss(LogOf(xs)));
    var seen := LastUp(log, id);
    LastReachableSurvivesCap(LogOf(xs), id);
    if seen.Some? {
      LatestOnlyIsSubset(SinceLoss(LogOf(xs)));
      assert log[seen.value] in log;
      SinceLossFromLog(xs, log[seen.value]);
      var i :| 0 <= i < |xs| && log[seen.value] == xs[i].Entry();
      SawUpIffReachedByAll(xs[i], id);
    }
  }
}
