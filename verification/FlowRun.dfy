/** Running the normal nodes of a validated flow. */
module FlowRun {
  import opened Prelude
  import opened FlowContracts
  import opened InputParser
  import opened Evaluation
  import opened DagManager
  import opened NodeSelection
  import opened SchedulerMachine
  import opened SchedulerSafety
  import opened SchedulerTheorems

  // Only they go to the scheduler, so validation alone does not settle whether its loop ends.

  function PickNormal(n: Node): Option<Node> {
    if n.aggregation then None else Some(n)
  }

  // The nodes that are run for every line.
  function NormalNodes(nodes: seq<Node>): seq<Node> {
    Select(nodes, PickNormal)
  }

  // No normal node of the flow refers to an aggregation node.
  ghost predicate NoNormalOnAggregation(nodes: seq<Node>) {
    forall m, n :: m in nodes && n in nodes && !m.aggregation && n.aggregation ==> n.name !in References(m)
  }

  lemma {:induction false} NormalNodesFacts(nodes: seq<Node>)
    ensures forall n :: n in NormalNodes(nodes) <==> n in nodes && !n.aggregation
    ensures DistinctNames(nodes) ==> DistinctNames(NormalNodes(nodes))
  {
    SelectMembers(nodes, PickNormal);
    if DistinctNames(nodes) {
      SelectDistinct(nodes, PickNormal);
    }
  }

  lemma {:induction false} ClosedMeansNoAggregation(nodes: seq<Node>)
    requires Topological(nodes)
    ensures Closed(NormalNodes(nodes)) <==> NoNormalOnAggregation(nodes)
  {
    NormalNodesFacts(nodes);
    if NoNormalOnAggregation(nodes) {
      forall m, x | m in NormalNodes(nodes) && x in References(m) ensures x in Names(NormalNodes(nodes)) {
        var k :| 0 <= k < |nodes| && nodes[k] == m;
        assert Preceded(nodes, k);
        var n :| n in nodes[..k] && n.name == x;
        assert n in NormalNodes(nodes);
      }
    } else {
      var m, n :| m in nodes && n in nodes && !m.aggregation && n.aggregation && n.name in References(m);
      assert m in NormalNodes(nodes) && n.name !in Names(NormalNodes(nodes));
    }
  }

  /** The submitted nodes can be ordered if and only if no normal node refers to an aggregation
      node, by an input or by its skip condition; the validated order then serves. */
  lemma {:induction false} OrderableIff(nodes: seq<Node>)
    requires Topological(nodes)
    ensures Orderable(NormalNodes(nodes)) <==> NoNormalOnAggregation(nodes)
    ensures NoNormalOnAggregation(nodes) ==> Topological(NormalNodes(nodes))
  {
    SelectOrderableIff(nodes, PickNormal);
    ClosedMeansNoAggregation(nodes);
  }

  /** A validated flow in which no normal node refers to an aggregation node: every run of its
      normal nodes ends, and agrees with evaluating them in the validated order. */
  lemma {:induction false} ValidatedFlowRuns(
    flow: Flow, sorted: seq<Node>, env: Environment, workers: nat, run: seq<State>)
    requires Orders(sorted, flow.nodes) && NoNormalOnAggregation(sorted) && workers > 0
    requires IsRun(Config(NormalNodes(sorted), workers, env), run)
    ensures |run| <= PendingWork(NormalNodes(sorted)) + 2
    ensures var last := run[|run| - 1];
      && (last.status.Returned? ==> EvalInOrder(NormalNodes(sorted), env) == Ok(last.outputs))
      && (last.status.Raised? ==> EvalInOrder(NormalNodes(sorted), env).Err?)
      && !Spinning(Config(NormalNodes(sorted), workers, env), last)
  {
    OrderableIff(sorted);
    RunsInOrder(Config(NormalNodes(sorted), workers, env), run);
  }

  /** Otherwise no run ever returns, although the flow passed validation: it raises, or from the bound
      on it spins. */
  lemma {:induction false} NormalOnAggregationNeverReturns(
    flow: Flow, sorted: seq<Node>, env: Environment, workers: nat, run: seq<State>)
    requires Orders(sorted, flow.nodes) && !NoNormalOnAggregation(sorted) && workers > 0
    requires IsRun(Config(NormalNodes(sorted), workers, env), run)
    ensures !run[|run| - 1].status.Returned?
    ensures (forall t :: !IsRun(Config(NormalNodes(sorted), workers, env), run + [t])) ==> run[|run| - 1].status.Raised?
    ensures |run| > PendingWork(NormalNodes(sorted)) + 2 ==>
        Spinning(Config(NormalNodes(sorted), workers, env), run[|run| - 1])
  {
    OrderableIff(sorted);
    NormalNodesFacts(sorted);
    WithoutOrder(Config(NormalNodes(sorted), workers, env), run);
  }

  // A normal node that refers to an aggregation node.
  function StuckFlow(): seq<Node> {
    [Node("a", [], None, true),
     Node("b", [NodeInput("x", NodeReference("a", "output", ""))], None, false)]
  }

  lemma {:induction false} StuckFlowReferences()
    ensures References(StuckFlow()[0]) == {} && References(StuckFlow()[1]) == {"a"}
  {
    var a, b := StuckFlow()[0], StuckFlow()[1];
    assert Assignments(b) == [NodeReference("a", "output", "")];
    assert Assignments(b)[0] == NodeReference("a", "output", "");
    assert Assignments(a) == [];
  }

  /** Such a flow is in topological order, yet its scheduler waits on nothing from the start. */
  lemma {:induction false} StuckFlowSpins(env: Environment, workers: nat)
    ensures Topological(StuckFlow())
    ensures var cfg := Config(NormalNodes(StuckFlow()), workers, env);
      var s := InitialState(cfg);
      Spinning(cfg, s) && forall t :: Next(cfg, s, t) <==> t == s
  {
    StuckFlowOrdered();
    StuckFlowReferences();
    OnlyNormal(StuckFlow()[0], StuckFlow()[1]);
    WaitingSpins(Config([StuckFlow()[1]], workers, env), StuckFlow()[1]);
  }

  lemma {:induction false} StuckFlowOrdered()
    ensures Topological(StuckFlow())
  {
    StuckFlowReferences();
    TwoInOrder(StuckFlow()[0], StuckFlow()[1]);
  }

  lemma {:induction false} TwoInOrder(a: Node, b: Node)
    requires a.name != b.name && References(a) == {} && References(b) <= {a.name}
    ensures Topological([a, b])
  {
    assert [a, b][..1] == [a] && a in [a];
    assert Preceded([a, b], 0) && Preceded([a, b], 1);
  }

  lemma {:induction false} WaitingSpins(cfg: Config, b: Node)
    requires cfg.nodes == [b] && References(b) != {}
    ensures var s := InitialState(cfg);
      Spinning(cfg, s) && forall t :: Next(cfg, s, t) <==> t == s
  {
    var s := InitialState(cfg);
    PendingOfDistinct(cfg.nodes);
    assert !IsReady(b, map[]);
    PopNone([b], map[]);
    InitialInv(cfg);
    forall t ensures Next(cfg, s, t) <==> t == s {
      StuckForever(cfg, s, t);
    }
  }

  lemma {:induction false} OnlyNormal(a: Node, b: Node)
    requires a.aggregation && !b.aggregation
    ensures NormalNodes([a, b]) == [b]
  {
    assert [a, b][..1] == [a] && [a][..0] == [];
    assert Select([a], PickNormal) == Select([], PickNormal) + [];
    assert Select([a, b], PickNormal) == Select([a], PickNormal) + [b];
  }

  // The same flow with an independent node.
  function RaisingStuckFlow(): seq<Node> {
    [StuckFlow()[0], StuckFlow()[1], Node("c", [], None, false)]
  }

  lemma {:induction false} RaisingStuckFlowOrdered()
    ensures Topological(RaisingStuckFlow()) && !NoNormalOnAggregation(RaisingStuckFlow())
  {
    var nodes := RaisingStuckFlow();
    StuckFlowOrdered();
    StuckFlowReferences();
    NoReferences(nodes[2]);
    assert nodes == StuckFlow() + [nodes[2]];
    SnocDistinct(StuckFlow(), nodes[2]);
    PrecededSnoc(StuckFlow(), nodes[2]);
    assert nodes[0] in nodes && nodes[1] in nodes && "a" in References(nodes[1]);
  }

  lemma {:induction false} NormalOfThree(a: Node, b: Node, c: Node)
    requires a.aggregation && !b.aggregation && !c.aggregation
    ensures NormalNodes([a, b, c]) == [b, c]
  {
    OnlyNormal(a, b);
    assert [a, b, c][..2] == [a, b];
    assert Select([a, b, c], PickNormal) == Select([a, b], PickNormal) + [c];
  }

  /** Whether such a flow raises or spins is up to its other nodes: if the tool of an independent node
      fails, there is a run that raises, and every run that settles raises. */
  lemma {:induction false} StuckFlowRaises(env: Environment, workers: nat, message: string) returns (run: seq<State>)
    requires workers > 0 && env.tool("c", []) == Err(message)
    ensures Topological(RaisingStuckFlow()) && !NoNormalOnAggregation(RaisingStuckFlow())
    ensures IsRun(Config(NormalNodes(RaisingStuckFlow()), workers, env), run)
    ensures run[|run| - 1].status == Raised(ToolFailure(message))
    ensures var cfg := Config(NormalNodes(RaisingStuckFlow()), workers, env);
      forall other: seq<State> :: IsRun(cfg, other) && Settled(cfg, other[|other| - 1]) ==>
          other[|other| - 1].status.Raised?
  {
    var nodes := RaisingStuckFlow();
    RaisingStuckFlowOrdered();
    StuckFlowReferences();
    NormalOfThree(nodes[0], nodes[1], nodes[2]);
    var cfg := Config(NormalNodes(nodes), workers, env);
    run := FailingRun(cfg, nodes[1], nodes[2], message);
    NormalNodesFacts(nodes);
    forall other: seq<State> | IsRun(cfg, other) && Settled(cfg, other[|other| - 1])
      ensures other[|other| - 1].status.Raised?
    {
      RunsAgree(cfg, cfg, run, other);
    }
  }

  lemma {:induction false} NoReferences(n: Node)
    requires n.inputs == [] && n.skip.None?
    ensures References(n) == {}
  {
    assert Assignments(n) == [];
  }

  lemma {:induction false} FailingRun(cfg: Config, b: Node, c: Node, message: string) returns (run: seq<State>)
    requires cfg.nodes == [b, c] && b.name != c.name && cfg.workers > 0 && References(b) != {}
    requires c.inputs == [] && c.skip.None? && cfg.env.tool(c.name, []) == Err(message)
    ensures IsRun(cfg, run) && run[|run| - 1].status == Raised(ToolFailure(message))
  {
    NoReferences(c);
    InitialOfTwo(cfg, b, c);
    var s := InitialState(cfg);
    var t := s.(futures := [Future(c, false, ReadingInputs([]))]);
    var u := s.(futures := [Future(c, false, Done(Err(ToolFailure(message))))]);
    var v := u.(status := Raised(ToolFailure(message)));
    NoInputPhases(c, cfg.env, map[]);
    OnlyFutureAdvances(cfg, s, Future(c, false, Queued));
    OnlyFutureAdvances(cfg, t, Future(c, false, ReadingInputs([])));
    OnlyFutureRaises(cfg, u, u.futures[0], ToolFailure(message));
    run := [s, t, u, v];
    RunOfFour(cfg, s, t, u, v);
  }

  lemma {:induction false} RunOfFour(cfg: Config, s: State, t: State, u: State, v: State)
    requires s == InitialState(cfg) && Next(cfg, s, t) && Next(cfg, t, u) && Next(cfg, u, v)
    ensures IsRun(cfg, [s, t, u, v])
  {
    var run := [s, t, u, v];
    forall k | 0 <= k < 3 ensures Next(cfg, run[k], run[k + 1]) {
      assert run[k] == if k == 0 then s else if k == 1 then t else u;
      assert run[k + 1] == if k == 0 then t else if k == 1 then u else v;
    }
  }

  lemma {:induction false} NoInputPhases(c: Node, env: Environment, view: map<string, Value>)
    requires c.inputs == [] && c.skip.None?
    ensures AdvancePhase(c, Queued, view, env) == ReadingInputs([])
    ensures AdvancePhase(c, ReadingInputs([]), view, env) == Done(CallTool(c, [], env))
  {
  }

  lemma {:induction false} OnlyFutureAdvances(cfg: Config, s: State, f: Future)
    requires s.status.Running? && s.futures == [f] && !f.phase.Done? && cfg.workers > 0
    ensures Next(cfg, s, s.(futures := [f.(phase := AdvancePhase(f.node, f.phase, View(f, s.outputs), cfg.env))]))
  {
    var g := f.(phase := AdvancePhase(f.node, f.phase, View(f, s.outputs), cfg.env));
    if f.phase.Queued? {
      NobodyBusy(s.futures);
    }
    assert s.futures[0 := g] == [g];
    assert NextStep(cfg, s, s.(futures := [g]), Advance(0));
  }

  lemma {:induction false} OnlyFutureRaises(cfg: Config, s: State, f: Future, failure: Failure)
    requires Looping(cfg, s) && s.futures == [f] && f.phase == Done(Err(failure))
    ensures Next(cfg, s, s.(status := Raised(failure)))
  {
    assert s.futures[0] in s.futures && Failing(s, {f.node.name}, failure);
    assert NextStep(cfg, s, s.(status := Raised(failure)), Collect({f.node.name}));
  }

  lemma {:induction false} InitialOfTwo(cfg: Config, b: Node, c: Node)
    requires cfg.nodes == [b, c] && b.name != c.name && References(b) != {} && References(c) == {}
    ensures InitialState(cfg) == State([b], [Future(c, false, Queued)], [], map[], Running)
  {
    PendingOfDistinct(cfg.nodes);
    SplitOfTwo(b, c, map[]);
    assert Submit([c], false) == [Future(c, false, Queued)];
  }

  lemma {:induction false} SplitOfTwo(b: Node, c: Node, outputs: map<string, Value>)
    requires !IsReady(b, outputs) && IsReady(c, outputs)
    ensures WaitingNodes([b, c], outputs) == [b] && ReadyNodes([b, c], outputs) == [c]
  {
    assert [b, c][1..] == [c] && [c][1..] == [];
    assert ReadyNodes([c], outputs) == [c] + ReadyNodes([], outputs);
    assert WaitingNodes([c], outputs) == [] + WaitingNodes([], outputs);
  }
}
