/** Running the aggregation nodes. */
module AggregationRun {
  import opened Prelude
  import opened FlowContracts
  import ProcessPool
  import opened InputParser
  import opened Evaluation
  import opened NodeSelection
  import opened SchedulerMachine
  import opened SchedulerTheorems
  import opened FlowRun
  import opened Aggregation

  // Their inputs are replaced by columns, but their skip conditions are not, so validation alone does
  // not settle whether the scheduler's loop ends.

  // The node as it is submitted.
  function Rewritten(n: Node, columns: map<string, seq<Value>>): Node {
    n.(inputs := seq(|n.inputs|, i requires 0 <= i < |n.inputs| =>
         n.inputs[i].(assignment := TryGetAggregationInput(n.inputs[i].assignment, columns))))
  }

  /** Only the inputs that have a column change, each into the list of its column. */
  lemma {:induction false} RewrittenMeans(n: Node, columns: map<string, seq<Value>>)
    ensures var m := Rewritten(n, columns);
      && m.name == n.name && m.skip == n.skip && m.aggregation == n.aggregation && |m.inputs| == |n.inputs|
      && forall i :: 0 <= i < |n.inputs| ==>
           && m.inputs[i].name == n.inputs[i].name
           && m.inputs[i].assignment == (
                var a := n.inputs[i].assignment;
                if a.NodeReference? && TextOf(a) in columns then Literal(List(columns[TextOf(a)])) else a)
  {
  }

  function PickAggregation(columns: map<string, seq<Value>>): Node -> Option<Node> {
    (n: Node) => if n.aggregation then Some(Rewritten(n, columns)) else None
  }

  function AggregationNodes(nodes: seq<Node>, columns: map<string, seq<Value>>): seq<Node> {
    Select(nodes, PickAggregation(columns))
  }

  function SkipReferences(n: Node): set<string> {
    if n.skip.None? then {}
    else set a | a in [n.skip.value.condition, n.skip.value.returnValue] && a.NodeReference? :: a.node
  }

  // Some input of the node refers to x and has no column.
  ghost predicate LeftReference(n: Node, columns: map<string, seq<Value>>, x: string) {
    exists i :: 0 <= i < |n.inputs| && n.inputs[i].assignment.NodeReference? && n.inputs[i].assignment.node == x
      && TextOf(n.inputs[i].assignment) !in columns
  }

  // The references left after rewriting: those of the skip condition and of the inputs not replaced.
  lemma {:induction false} RewrittenReferences(n: Node, columns: map<string, seq<Value>>)
    ensures forall x :: x in References(Rewritten(n, columns)) <==>
              x in SkipReferences(n) || LeftReference(n, columns, x)
    ensures References(Rewritten(n, columns)) <= References(n)
  {
    var m := Rewritten(n, columns);
    InputReferences(n);
    InputReferences(m);
    forall x | x in References(m)
      ensures x in SkipReferences(n) || LeftReference(n, columns, x)
      ensures x in References(n)
    {
      var a :| a in Assignments(m) && a.NodeReference? && a.node == x;
      var k :| 0 <= k < |Assignments(m)| && Assignments(m)[k] == a;
      if k < |m.inputs| {
        assert m.inputs[k].assignment == TryGetAggregationInput(n.inputs[k].assignment, columns);
        assert n.inputs[k].assignment == a;
      } else {
        assert a in [n.skip.value.condition, n.skip.value.returnValue];
      }
    }
    forall i | 0 <= i < |n.inputs| && n.inputs[i].assignment.NodeReference?
        && TextOf(n.inputs[i].assignment) !in columns
      ensures n.inputs[i].assignment.node in References(m) {
      assert m.inputs[i].assignment == n.inputs[i].assignment;
    }
  }

  // No aggregation node has a normal node in its skip condition or return value.
  ghost predicate NoSkipOnNormal(nodes: seq<Node>) {
    forall m, n :: m in nodes && n in nodes && m.aggregation && !n.aggregation ==> n.name !in SkipReferences(m)
  }

  // Every reference from an input to a normal node has its column.
  ghost predicate HasColumns(nodes: seq<Node>, columns: map<string, seq<Value>>) {
    forall text :: IsAggregationReference(nodes, text) ==> text in columns
  }

  lemma {:induction false} AggregationNarrows(columns: map<string, seq<Value>>)
    ensures Narrows(PickAggregation(columns))
  {
    forall n {
      RewrittenReferences(n, columns);
    }
  }

  lemma {:induction false} AggregationClosedIff(nodes: seq<Node>, columns: map<string, seq<Value>>)
    requires Topological(nodes) && HasColumns(nodes, columns)
    ensures Closed(AggregationNodes(nodes, columns)) <==> NoSkipOnNormal(nodes)
  {
    if NoSkipOnNormal(nodes) {
      AggregationIsClosed(nodes, columns);
    } else {
      var m, n :| m in nodes && n in nodes && m.aggregation && !n.aggregation && n.name in SkipReferences(m);
      AggregationIsOpen(nodes, columns, m, n);
    }
  }

  lemma {:induction false} NormalNotPicked(nodes: seq<Node>, columns: map<string, seq<Value>>, n: Node)
    requires DistinctNames(nodes) && n in nodes && !n.aggregation
    ensures n.name !in Names(AggregationNodes(nodes, columns))
  {
    SelectMembers(nodes, PickAggregation(columns));
    forall m | m in AggregationNodes(nodes, columns) ensures m.name != n.name {
      var source :| source in nodes && PickAggregation(columns)(source) == Some(m);
      SameNameSameNode(nodes, source, n);
    }
  }

  lemma {:induction false} ReferredIsAggregation(nodes: seq<Node>, columns: map<string, seq<Value>>, n: Node, x: string)
    requires Topological(nodes) && HasColumns(nodes, columns)
    requires NoSkipOnNormal(nodes) && n in nodes && n.aggregation && x in References(Rewritten(n, columns))
    ensures x in Names(AggregationNodes(nodes, columns))
  {
    SelectMembers(nodes, PickAggregation(columns));
    RewrittenReferences(n, columns);
    var k :| 0 <= k < |nodes| && nodes[k] == n;
    assert Preceded(nodes, k);
    var m :| m in nodes[..k] && m.name == x;
    assert PickAggregation(columns)(m) == Some(Rewritten(m, columns));
  }

  lemma {:induction false} AggregationIsClosed(nodes: seq<Node>, columns: map<string, seq<Value>>)
    requires Topological(nodes) && HasColumns(nodes, columns) && NoSkipOnNormal(nodes)
    ensures Closed(AggregationNodes(nodes, columns))
  {
    SelectMembers(nodes, PickAggregation(columns));
    forall m | m in AggregationNodes(nodes, columns) ensures References(m) <= Names(AggregationNodes(nodes, columns)) {
      var n :| n in nodes && PickAggregation(columns)(n) == Some(m);
      forall x | x in References(m) ensures x in Names(AggregationNodes(nodes, columns)) {
        ReferredIsAggregation(nodes, columns, n, x);
      }
    }
  }

  lemma {:induction false} AggregationIsOpen(nodes: seq<Node>, columns: map<string, seq<Value>>, m: Node, n: Node)
    requires DistinctNames(nodes) && m in nodes && n in nodes && m.aggregation && !n.aggregation
    requires n.name in SkipReferences(m)
    ensures !Closed(AggregationNodes(nodes, columns))
  {
    SelectMembers(nodes, PickAggregation(columns));
    RewrittenReferences(m, columns);
    assert PickAggregation(columns)(m) == Some(Rewritten(m, columns));
    assert Rewritten(m, columns) in AggregationNodes(nodes, columns);
    NormalNotPicked(nodes, columns, n);
  }

  /** When every reference from an input to a normal node has its column, the aggregation nodes can be
      ordered if and only if no skip condition refers to a normal node; the validated order then serves. */
  lemma {:induction false} AggregationOrderableIff(nodes: seq<Node>, columns: map<string, seq<Value>>)
    requires Topological(nodes) && HasColumns(nodes, columns)
    ensures Orderable(AggregationNodes(nodes, columns)) <==> NoSkipOnNormal(nodes)
    ensures NoSkipOnNormal(nodes) ==> Topological(AggregationNodes(nodes, columns))
  {
    AggregationNarrows(columns);
    SelectOrderableIff(nodes, PickAggregation(columns));
    AggregationClosedIff(nodes, columns);
  }

  /** The hand-over of a bulk run makes a column for every collected reference, so behind it the skip
      conditions alone decide. */
  lemma {:induction false} HandOverOrderableIff(
    flow: BulkFlow, references: set<string>, batch: seq<Row>, results: seq<ProcessPool.LineResult>)
    requires Topological(flow.nodes) && |results| <= |batch|
    requires forall text :: text in references <==> IsAggregationReference(flow.nodes, text)
    requires HandOver(flow, references, batch, results).Ok?
    ensures var columns := HandOver(flow, references, batch, results).value.references;
      HasColumns(flow.nodes, columns)
      && (Orderable(AggregationNodes(flow.nodes, columns)) <==> NoSkipOnNormal(flow.nodes))
  {
    AggregationOrderableIff(flow.nodes, HandOver(flow, references, batch, results).value.references);
  }

  lemma {:induction false} AggregationDistinct(nodes: seq<Node>, columns: map<string, seq<Value>>)
    requires DistinctNames(nodes)
    ensures DistinctNames(AggregationNodes(nodes, columns))
  {
    AggregationNarrows(columns);
    SelectDistinct(nodes, PickAggregation(columns));
  }

  /** Then every run of the aggregation nodes ends and agrees with evaluating them in that order. */
  lemma {:induction false} AggregationRuns(
    flow: Flow, sorted: seq<Node>, columns: map<string, seq<Value>>, env: Environment, workers: nat,
    run: seq<State>)
    requires Orders(sorted, flow.nodes) && HasColumns(sorted, columns) && NoSkipOnNormal(sorted) && workers > 0
    requires IsRun(Config(AggregationNodes(sorted, columns), workers, env), run)
    ensures |run| <= PendingWork(AggregationNodes(sorted, columns)) + 2
    ensures var last := run[|run| - 1];
      && (last.status.Returned? ==> EvalInOrder(AggregationNodes(sorted, columns), env) == Ok(last.outputs))
      && (last.status.Raised? ==> EvalInOrder(AggregationNodes(sorted, columns), env).Err?)
      && !Spinning(Config(AggregationNodes(sorted, columns), workers, env), last)
  {
    AggregationOrderableIff(sorted, columns);
    RunsInOrder(Config(AggregationNodes(sorted, columns), workers, env), run);
  }

  /** Otherwise no run ever returns: it raises, or from the bound on it spins. */
  lemma {:induction false} SkipOnNormalNeverReturns(
    flow: Flow, sorted: seq<Node>, columns: map<string, seq<Value>>, env: Environment, workers: nat,
    run: seq<State>)
    requires Orders(sorted, flow.nodes) && HasColumns(sorted, columns) && !NoSkipOnNormal(sorted) && workers > 0
    requires IsRun(Config(AggregationNodes(sorted, columns), workers, env), run)
    ensures !run[|run| - 1].status.Returned?
    ensures var cfg := Config(AggregationNodes(sorted, columns), workers, env);
      && ((forall t :: !IsRun(cfg, run + [t])) ==> run[|run| - 1].status.Raised?)
      && (|run| > PendingWork(cfg.nodes) + 2 ==> Spinning(cfg, run[|run| - 1]))
  {
    AggregationOrderableIff(sorted, columns);
    AggregationDistinct(sorted, columns);
    WithoutOrder(Config(AggregationNodes(sorted, columns), workers, env), run);
  }

  // An aggregation node with a normal node in its skip condition.
  function SkippingFlow(): seq<Node> {
    [Node("a", [], None, false),
     Node("b", [], Some(SkipCondition(NodeReference("a", "output", ""), Null, Literal(Null))), true)]
  }

  lemma {:induction false} SkippingFlowReferences(columns: map<string, seq<Value>>)
    ensures References(SkippingFlow()[0]) == {} && References(SkippingFlow()[1]) == {"a"}
    ensures Rewritten(SkippingFlow()[1], columns) == SkippingFlow()[1]
  {
    var a, b := SkippingFlow()[0], SkippingFlow()[1];
    NoReferences(a);
    assert Assignments(b) == [NodeReference("a", "output", ""), Literal(Null)];
    assert Assignments(b)[0] == NodeReference("a", "output", "");
    assert Rewritten(b, columns).inputs == [];
  }

  /** Such a flow is in topological order and needs no column, yet the scheduler of its aggregation
      nodes waits on nothing from the start. */
  lemma {:induction false} SkippingFlowSpins(columns: map<string, seq<Value>>, env: Environment, workers: nat)
    ensures Topological(SkippingFlow()) && HasColumns(SkippingFlow(), columns) && !NoSkipOnNormal(SkippingFlow())
    ensures var cfg := Config(AggregationNodes(SkippingFlow(), columns), workers, env);
      var s := InitialState(cfg);
      Spinning(cfg, s) && forall t :: Next(cfg, s, t) <==> t == s
  {
    SkippingFlowOrdered(columns);
    SkippingFlowReferences(columns);
    OnlyAggregation(SkippingFlow()[0], SkippingFlow()[1], columns);
    WaitingSpins(Config([SkippingFlow()[1]], workers, env), SkippingFlow()[1]);
  }

  lemma {:induction false} SkippingFlowOrdered(columns: map<string, seq<Value>>)
    ensures Topological(SkippingFlow()) && HasColumns(SkippingFlow(), columns) && !NoSkipOnNormal(SkippingFlow())
  {
    var a, b := SkippingFlow()[0], SkippingFlow()[1];
    SkippingFlowReferences(columns);
    TwoInOrder(a, b);
    assert HasColumns(SkippingFlow(), columns) by {
      forall n | n in SkippingFlow() ensures n.inputs == [] {
      }
    }
    SkipRefersTo(b, "a");
    assert a in SkippingFlow() && b in SkippingFlow();
  }

  lemma {:induction false} SkipRefersTo(n: Node, x: string)
    requires n.skip.Some? && n.skip.value.condition.NodeReference? && n.skip.value.condition.node == x
    ensures x in SkipReferences(n)
  {
    assert [n.skip.value.condition, n.skip.value.returnValue][0] == n.skip.value.condition;
  }

  lemma {:induction false} OnlyAggregation(a: Node, b: Node, columns: map<string, seq<Value>>)
    requires !a.aggregation && b.aggregation
    ensures AggregationNodes([a, b], columns) == [Rewritten(b, columns)]
  {
    var pick := PickAggregation(columns);
    assert [a, b][..1] == [a] && [a][..0] == [];
    assert Select([a], pick) == Select([], pick) + [];
    assert Select([a, b], pick) == Select([a], pick) + [Rewritten(b, columns)];
  }
}
