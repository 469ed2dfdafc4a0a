/** The token usage of runs. */
module RunTracker {
  import opened Prelude

  // It is folded over the call trees of a node run, then over the node runs of a line.

  // A recorded call: its type, the usage in its output if there is one, and the calls inside it.
  datatype Span = Span(kind: string, usage: Option<map<string, int>>, children: seq<Span>)

  type Metrics = map<string, int>

  function Get(m: Metrics, key: string): int {
    if key in m then m[key] else 0
  }

  predicate NeedCollect(s: Span) {
    s.kind == "LLM" && s.usage.Some?
  }

  // ---------- what the fold computes ----------

  // The metric summed over all LLM calls with usage, at any depth.
  function Total(s: Span, key: string): int
    decreases s, 1
  {
    (if NeedCollect(s) then Get(s.usage.value, key) else 0) + TotalOf(s.children, key)
  }

  function TotalOf(spans: seq<Span>, key: string): int
    decreases spans, 0
  {
    if spans == [] then 0 else Total(spans[0], key) + TotalOf(spans[1..], key)
  }

  // Some LLM call with usage, at any depth, reports the metric.
  predicate Reports(s: Span, key: string)
    decreases s, 1
  {
    (NeedCollect(s) && key in s.usage.value) || ReportsAny(s.children, key)
  }

  predicate ReportsAny(spans: seq<Span>, key: string)
    decreases spans, 0
  {
    spans != [] && (Reports(spans[0], key) || ReportsAny(spans[1..], key))
  }

  // The metrics hold exactly the reported keys, with their totals.
  ghost predicate Summarizes(m: Metrics, spans: seq<Span>) {
    forall key :: (key in m <==> ReportsAny(spans, key)) && Get(m, key) == TotalOf(spans, key)
  }

  /** The fold of a forest put together from two is the sum of their folds. */
  lemma {:induction false} TotalConcat(a: seq<Span>, b: seq<Span>, key: string)
    ensures TotalOf(a + b, key) == TotalOf(a, key) + TotalOf(b, key)
    ensures ReportsAny(a + b, key) <==> ReportsAny(a, key) || ReportsAny(b, key)
  {
    if a == [] {
      assert a + b == b;
    } else {
      assert (a + b)[1..] == a[1..] + b;
      TotalConcat(a[1..], b, key);
    }
  }

  // ---------- the same over the list of all calls ----------

  // A call followed by all the calls below it.
  function Below(s: Span): seq<Span>
    decreases s, 1
  {
    [s] + BelowAll(s.children)
  }

  function BelowAll(spans: seq<Span>): seq<Span>
    decreases spans, 0
  {
    if spans == [] then [] else Below(spans[0]) + BelowAll(spans[1..])
  }

  // What one call adds to a metric: LLM calls count, if their output tells the usage.
  function UsageOf(s: Span, key: string): int {
    if s.kind == "LLM" && s.usage.Some? && key in s.usage.value then s.usage.value[key] else 0
  }

  function UsageSum(calls: seq<Span>, key: string): int {
    if calls == [] then 0 else UsageOf(calls[0], key) + UsageSum(calls[1..], key)
  }

  lemma {:induction false} UsageConcat(a: seq<Span>, b: seq<Span>, key: string)
    ensures UsageSum(a + b, key) == UsageSum(a, key) + UsageSum(b, key)
  {
    if a == [] {
      assert a + b == b;
    } else {
      assert (a + b)[1..] == a[1..] + b;
      UsageConcat(a[1..], b, key);
    }
  }

  /** All calls are those of the list and those below them, below LLM calls too. */
  lemma {:induction false} BelowMembers(spans: seq<Span>, call: Span)
    ensures call in BelowAll(spans) <==> exists s :: s in spans && (call == s || call in BelowAll(s.children))
  {
    if spans != [] {
      assert spans == [spans[0]] + spans[1..];
      BelowMembers(spans[1..], call);
    }
  }

  /** The fold of a metric is its sum over all calls at any depth, each counted once. */
  lemma {:induction false} TotalIsSum(spans: seq<Span>, key: string)
    ensures TotalOf(spans, key) == UsageSum(BelowAll(spans), key)
    decreases spans, 0
  {
    if spans != [] {
      OneTotalIsSum(spans[0], key);
      TotalIsSum(spans[1..], key);
      UsageConcat(Below(spans[0]), BelowAll(spans[1..]), key);
    }
  }

  lemma {:induction false} OneTotalIsSum(s: Span, key: string)
    ensures Total(s, key) == UsageSum(Below(s), key)
    decreases s, 1
  {
    TotalIsSum(s.children, key);
    assert Below(s)[0] == s && Below(s)[1..] == BelowAll(s.children);
  }

  ghost predicate SomeReports(calls: seq<Span>, key: string) {
    exists call :: call in calls && call.kind == "LLM" && call.usage.Some? && key in call.usage.value
  }

  /** A metric is reported if some LLM call at some depth has it in its usage. */
  lemma {:induction false} ReportedIff(spans: seq<Span>, key: string)
    ensures ReportsAny(spans, key) <==> SomeReports(BelowAll(spans), key)
    decreases spans, 0
  {
    if spans != [] {
      OneReportedIff(spans[0], key);
      ReportedIff(spans[1..], key);
      assert BelowAll(spans) == Below(spans[0]) + BelowAll(spans[1..]);
    }
  }

  lemma {:induction false} OneReportedIff(s: Span, key: string)
    ensures Reports(s, key) <==> SomeReports(Below(s), key)
    decreases s, 1
  {
    ReportedIff(s.children, key);
    assert Below(s) == [s] + BelowAll(s.children);
  }

  lemma {:induction false} SnocSummary(m: Metrics, spans: seq<Span>, more: Metrics, s: Span, merged: Metrics)
    requires Summarizes(m, spans)
    requires forall key :: (key in more <==> Reports(s, key)) && Get(more, key) == Total(s, key)
    requires merged.Keys == m.Keys + more.Keys && forall key :: Get(merged, key) == Get(m, key) + Get(more, key)
    ensures Summarizes(merged, spans + [s])
  {
    forall key
      ensures (key in merged <==> ReportsAny(spans + [s], key)) && Get(merged, key) == TotalOf(spans + [s], key)
    {
      TotalConcat(spans, [s], key);
      assert [s][1..] == [];
      assert TotalOf([s], key) == Total(s, key) + TotalOf([], key);
    }
  }

  // ---------- the fold ----------

  method MergeMetricsDict(metrics: Metrics, toMerge: Metrics) returns (merged: Metrics)
    ensures merged.Keys == metrics.Keys + toMerge.Keys
    ensures forall key :: Get(merged, key) == Get(metrics, key) + Get(toMerge, key)
  {
    merged := metrics;
    var left := toMerge.Keys;
    while left != {}
      invariant left <= toMerge.Keys
      invariant merged.Keys == metrics.Keys + (toMerge.Keys - left)
      invariant forall key :: Get(merged, key) == Get(metrics, key) + (if key in left then 0 else Get(toMerge, key))
      decreases left
    {
      var key :| key in left;
      merged := merged[key := Get(merged, key) + toMerge[key]];
      left := left - {key};
    }
  }

  method GetOpenaiMetrics(call: Span) returns (m: Metrics)
    ensures forall key :: (key in m <==> Reports(call, key)) && Get(m, key) == Total(call, key)
    decreases call, 1
  {
    m := map[];
    if NeedCollect(call) {
      m := MergeMetricsDict(m, call.usage.value);
    }
    var children := FoldCalls(call.children);
    m := MergeMetricsDict(m, children);
  }

  // Merges the metrics of the calls one after the other.
  method FoldCalls(calls: seq<Span>) returns (m: Metrics)
    ensures Summarizes(m, calls)
    decreases calls, 0
  {
    m := map[];
    for k := 0 to |calls|
      invariant Summarizes(m, calls[..k])
    {
      var one := GetOpenaiMetrics(calls[k]);
      var merged := MergeMetricsDict(m, one);
      SnocSummary(m, calls[..k], one, calls[k], merged);
      assert calls[..k + 1] == calls[..k] + [calls[k]];
      m := merged;
    }
    assert calls[..|calls|] == calls;
  }

  // ---------- node runs ----------

  datatype RunInfo = RunInfo(runId: string, parentRunId: string, apiCalls: Option<seq<Span>>,
      systemMetrics: Option<Metrics>)

  const TOTAL_TOKENS := "total_tokens"
  const DURATION := "duration"

  // An ended run has its calls, and metrics that summarize them beside its duration.
  ghost predicate Ended(run: RunInfo) {
    && run.apiCalls.Some? && run.systemMetrics.Some? && DURATION in run.systemMetrics.value
    && forall key :: key != DURATION ==>
         && (key in run.systemMetrics.value <==> ReportsAny(run.apiCalls.value, key))
         && Get(run.systemMetrics.value, key) == TotalOf(run.apiCalls.value, key)
  }

  // The duration, the sums of what the calls report, and whatever else there was before.
  ghost predicate MetricsSet(before: Option<Metrics>, after: Metrics, calls: seq<Span>, duration: int) {
    && DURATION in after && after[DURATION] == duration
    && forall key :: key != DURATION ==>
         if SomeReports(BelowAll(calls), key) then key in after && after[key] == UsageSum(BelowAll(calls), key)
         else
           && (key in after <==> before.Some? && key in before.value)
           && (key in after ==> after[key] == before.value[key])
  }

  lemma {:induction false} SummaryMeans(m: Metrics, calls: seq<Span>)
    requires Summarizes(m, calls)
    ensures forall key :: key in m <==> SomeReports(BelowAll(calls), key)
    ensures forall key :: key in m ==> m[key] == UsageSum(BelowAll(calls), key)
  {
    forall key
      ensures (key in m <==> SomeReports(BelowAll(calls), key)) && Get(m, key) == UsageSum(BelowAll(calls), key)
    {
      ReportedIff(calls, key);
      TotalIsSum(calls, key);
    }
  }

  ghost predicate AllEnded(runs: seq<RunInfo>) {
    forall k :: 0 <= k < |runs| ==> runs[k].apiCalls.Some? && Ended(runs[k])
  }

  // The calls of several runs, one run after the other.
  function AllCalls(runs: seq<RunInfo>): seq<Span>
    requires forall k :: 0 <= k < |runs| ==> runs[k].apiCalls.Some?
  {
    if runs == [] then [] else AllCalls(runs[..|runs| - 1]) + runs[|runs| - 1].apiCalls.value
  }

  ghost predicate AllHaveCalls(runs: seq<RunInfo>) {
    forall k :: 0 <= k < |runs| ==> runs[k].apiCalls.Some?
  }

  /** The calls of runs put together are their calls one after the other. */
  lemma {:induction false} AllCallsConcat(a: seq<RunInfo>, b: seq<RunInfo>)
    requires AllHaveCalls(a) && AllHaveCalls(b)
    ensures AllCalls(a + b) == AllCalls(a) + AllCalls(b)
  {
    if b == [] {
      assert a + b == a;
    } else {
      var init, last := b[..|b| - 1], b[|b| - 1];
      assert init + [last] == b && (a + init) + [last] == a + b;
      assert AllCalls(a + b) == AllCalls(a + init) + last.apiCalls.value by {
        AllCallsSnoc(a + init, last);
      }
      AllCallsSnoc(init, last);
      AllCallsConcat(a, init);
    }
  }

  lemma {:induction false} AllCallsSnoc(init: seq<RunInfo>, last: RunInfo)
    requires AllHaveCalls(init) && last.apiCalls.Some?
    ensures AllCalls(init + [last]) == AllCalls(init) + last.apiCalls.value
  {
    assert (init + [last])[..|init|] == init;
  }

  // `update`: entries of the second dictionary replace those of the first.
  function Updated(m: Option<Metrics>, more: Metrics): Metrics {
    (if m.Some? then m.value else map[]) + more
  }

  /** Sums total_tokens over the runs that have metrics. */
  method CollectMetrics(runs: seq<RunInfo>) returns (total: Metrics)
    requires AllEnded(runs)
    ensures runs == [] ==> total == map[]
    ensures runs != [] ==> total == map[TOTAL_TOKENS := TotalOf(AllCalls(runs), TOTAL_TOKENS)]
  {
    total := map[];
    for k := 0 to |runs|
      invariant k == 0 ==> total == map[]
      invariant k > 0 ==> total == map[TOTAL_TOKENS := TotalOf(AllCalls(runs[..k]), TOTAL_TOKENS)]
    {
      var run := runs[k];
      assert runs[..k + 1][..k] == runs[..k];
      TotalConcat(AllCalls(runs[..k]), run.apiCalls.value, TOTAL_TOKENS);
      if run.systemMetrics.Some? && run.systemMetrics.value != map[] {
        total := total[TOTAL_TOKENS := Get(total, TOTAL_TOKENS) + Get(run.systemMetrics.value, TOTAL_TOKENS)];
      }
    }
    assert runs[..|runs|] == runs;
  }

  /** The metrics of a whole bulk run summarize the calls of all its node runs. */
  method BulkOpenaiMetrics(runs: seq<RunInfo>) returns (m: Metrics)
    requires forall k :: 0 <= k < |runs| ==> runs[k].apiCalls.Some?
    ensures Summarizes(m, AllCalls(runs))
  {
    m := map[];
    for k := 0 to |runs|
      invariant Summarizes(m, AllCalls(runs[..k]))
    {
      assert runs[..k + 1][..k] == runs[..k];
      var calls := runs[k].apiCalls.value;
      ghost var before := AllCalls(runs[..k]);
      assert before + calls[..0] == before;
      for i := 0 to |calls|
        invariant Summarizes(m, before + calls[..i])
      {
        var one := GetOpenaiMetrics(calls[i]);
        var merged := MergeMetricsDict(m, one);
        SnocSummary(m, before + calls[..i], one, calls[i], merged);
        assert before + calls[..i + 1] == before + calls[..i] + [calls[i]];
        m := merged;
      }
      assert calls[..|calls|] == calls;
    }
    assert runs[..|runs|] == runs;
  }

  class RunTracker {
    // The node runs by id, and the order in which the ids were first used.
    var nodeRuns: map<string, RunInfo>
    var ids: seq<string>

    ghost predicate Valid()
      reads this
    {
      Distinct(ids) && (forall id :: id in ids <==> id in nodeRuns)
      && forall id :: id in nodeRuns ==> nodeRuns[id].runId == id
    }

    constructor ()
      ensures Valid() && nodeRuns == map[] && ids == []
    {
      nodeRuns, ids := map[], [];
    }

    method StartNodeRun(runId: string, parentRunId: string)
      requires Valid()
      modifies this
      ensures Valid()
      ensures nodeRuns == old(nodeRuns)[runId := RunInfo(runId, parentRunId, None, None)]
      ensures ids == if runId in old(nodeRuns) then old(ids) else old(ids) + [runId]
    {
      if runId !in nodeRuns {
        ids := ids + [runId];
      }
      nodeRuns := nodeRuns[runId := RunInfo(runId, parentRunId, None, None)];
    }

    // A run that is not known is an error.
    method EndNodeRun(runId: string, traces: seq<Span>, duration: int) returns (known: bool)
      requires Valid()
      modifies this
      ensures Valid() && ids == old(ids) && known == (runId in old(nodeRuns))
      ensures !known ==> nodeRuns == old(nodeRuns)
      ensures known ==>
        && nodeRuns.Keys == old(nodeRuns).Keys
        && (forall id :: id in nodeRuns && id != runId ==> nodeRuns[id] == old(nodeRuns)[id])
        && nodeRuns[runId].apiCalls == Some(traces)
        && nodeRuns[runId].parentRunId == old(nodeRuns)[runId].parentRunId
        && nodeRuns[runId].systemMetrics.Some?
        && MetricsSet(old(nodeRuns)[runId].systemMetrics, nodeRuns[runId].systemMetrics.value, traces, duration)
        && (old(nodeRuns)[runId].systemMetrics == None ==> Ended(nodeRuns[runId]))
    {
      known := runId in nodeRuns;
      if known {
        var run := nodeRuns[runId].(apiCalls := Some(traces));
        var total := FoldCalls(traces);
        SummaryMeans(total, traces);
        run := run.(systemMetrics := Some(Updated(run.systemMetrics, total)));
        run := run.(systemMetrics := Some(run.systemMetrics.value[DURATION := duration]));
        nodeRuns := nodeRuns[runId := run];
      }
    }

    // The runs of one line, in the order they were started.
    ghost function ChildRuns(parentRunId: string): seq<RunInfo>
      requires Valid()
      reads this
    {
      ChildrenAmong(ids, nodeRuns, parentRunId)
    }

    method CollectChildNodeRuns(parentRunId: string) returns (runs: seq<RunInfo>)
      requires Valid()
      ensures runs == ChildRuns(parentRunId) && AreRunsOf(runs, nodeRuns, ids, parentRunId)
    {
      runs := [];
      for k := 0 to |ids|
        invariant runs == ChildrenAmong(ids[..k], nodeRuns, parentRunId)
      {
        assert ids[..k + 1][..k] == ids[..k];
        assert ids[k] in ids;
        if nodeRuns[ids[k]].parentRunId == parentRunId {
          runs := runs + [nodeRuns[ids[k]]];
        }
      }
      assert ids[..|ids|] == ids;
      ChildrenAre(ids, nodeRuns, parentRunId);
    }

    /** Token conservation: once all node runs of a line have ended, and there is at least one, the
        line's total_tokens is the sum over all LLM calls with usage, at any depth, in the calls of
        these runs, one run after the other; a line without node runs has no total. */
    method UpdateFlowRunInfo(runId: string, systemMetrics: Option<Metrics>)
      returns (apiCalls: seq<Span>, metrics: Metrics, ghost runs: seq<RunInfo>)
      requires Valid() && forall id :: id in nodeRuns && nodeRuns[id].parentRunId == runId ==> Ended(nodeRuns[id])
      ensures AreRunsOf(runs, nodeRuns, ids, runId) && AllEnded(runs)
      ensures apiCalls == AllCalls(runs)
      ensures runs != [] ==>
          "total_tokens" in metrics && metrics["total_tokens"] == UsageSum(BelowAll(apiCalls), "total_tokens")
      ensures runs == [] ==> metrics == Updated(systemMetrics, map[])
      ensures forall key :: key != TOTAL_TOKENS ==>
          && (key in metrics <==> systemMetrics.Some? && key in systemMetrics.value)
          && (key in metrics ==> metrics[key] == systemMetrics.value[key])
    {
      var children := CollectChildNodeRuns(runId);
      runs := children;
      RunsOfEnded(runs, nodeRuns, ids, runId);
      apiCalls := [];
      for k := 0 to |children|
        invariant apiCalls == AllCalls(children[..k])
      {
        assert children[..k + 1][..k] == children[..k];
        apiCalls := apiCalls + children[k].apiCalls.value;
      }
      assert children[..|children|] == children;
      var total := CollectMetrics(children);
      TotalIsSum(apiCalls, TOTAL_TOKENS);
      metrics := Updated(systemMetrics, total);
    }
  }

  function ChildrenAmong(ids: seq<string>, runs: map<string, RunInfo>, parentRunId: string): seq<RunInfo>
    requires forall id :: id in ids ==> id in runs
  {
    if ids == [] then []
    else
      var last := ids[|ids| - 1];
      ChildrenAmong(ids[..|ids| - 1], runs, parentRunId)
      + (if runs[last].parentRunId == parentRunId then [runs[last]] else [])
  }

  // Some run is recorded under an id and belongs to the parent.
  ghost predicate Recorded(nodeRuns: map<string, RunInfo>, run: RunInfo, parentRunId: string) {
    run.runId in nodeRuns && nodeRuns[run.runId] == run && run.parentRunId == parentRunId
  }

  ghost predicate UsedBefore(ids: seq<string>, a: string, b: string) {
    exists p, q :: 0 <= p < q < |ids| && ids[p] == a && ids[q] == b
  }

  // The recorded runs of the parent and no others, in the order in which their ids were first used.
  ghost predicate AreRunsOf(runs: seq<RunInfo>, nodeRuns: map<string, RunInfo>, ids: seq<string>, parentRunId: string) {
    && (forall run :: run in runs <==> Recorded(nodeRuns, run, parentRunId))
    && forall i, j :: 0 <= i < j < |runs| ==> UsedBefore(ids, runs[i].runId, runs[j].runId)
  }

  // The same for the ids of a list.
  lemma {:induction false} ChildrenOfIds(ids: seq<string>, runs: map<string, RunInfo>, parentRunId: string)
    requires forall id :: id in ids ==> id in runs && runs[id].runId == id
    ensures var children := ChildrenAmong(ids, runs, parentRunId);
      && (forall run :: run in children <==> run.runId in ids && Recorded(runs, run, parentRunId))
      && forall i, j :: 0 <= i < j < |children| ==> UsedBefore(ids, children[i].runId, children[j].runId)
  {
    if ids != [] {
      var init, last := ids[..|ids| - 1], ids[|ids| - 1];
      assert ids == init + [last];
      ChildrenOfIds(init, runs, parentRunId);
      var before, children := ChildrenAmong(init, runs, parentRunId), ChildrenAmong(ids, runs, parentRunId);
      forall i, j | 0 <= i < j < |children| ensures UsedBefore(ids, children[i].runId, children[j].runId) {
        if j < |before| {
          assert UsedBefore(init, before[i].runId, before[j].runId);
          var p, q :| 0 <= p < q < |init| && init[p] == before[i].runId && init[q] == before[j].runId;
          assert ids[p] == children[i].runId && ids[q] == children[j].runId;
        } else {
          assert before[i] in before;
          var p :| 0 <= p < |init| && init[p] == before[i].runId;
          assert ids[p] == children[i].runId && ids[|init|] == children[j].runId;
        }
      }
    }
  }

  /** A run is collected if and only if it is recorded for the parent, each once and in order. */
  lemma {:induction false} ChildrenAre(ids: seq<string>, runs: map<string, RunInfo>, parentRunId: string)
    requires Distinct(ids) && forall id :: id in ids <==> id in runs
    requires forall id :: id in runs ==> runs[id].runId == id
    ensures AreRunsOf(ChildrenAmong(ids, runs, parentRunId), runs, ids, parentRunId)
    ensures Distinct(ChildrenAmong(ids, runs, parentRunId))
  {
    ChildrenOfIds(ids, runs, parentRunId);
  }

  lemma {:induction false} RunsOfEnded(
    runs: seq<RunInfo>, nodeRuns: map<string, RunInfo>, ids: seq<string>, parentRunId: string)
    requires AreRunsOf(runs, nodeRuns, ids, parentRunId)
    requires forall id :: id in nodeRuns && nodeRuns[id].parentRunId == parentRunId ==> Ended(nodeRuns[id])
    ensures AllEnded(runs)
  {
    forall k | 0 <= k < |runs| ensures Ended(runs[k]) {
      assert runs[k] in runs;
    }
  }
}
