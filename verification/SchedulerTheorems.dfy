/** Progress and confluence of the scheduler. */
module SchedulerTheorems {
  import opened Prelude
  import opened FlowContracts
  import opened InputParser
  import opened Evaluation
  import opened DagManager
  import opened SchedulerMachine
  import opened SchedulerSafety

  // ---------- nothing is ever undone ----------

  // Nothing recorded in s is lost or changed in t, and no node becomes pending again.
  ghost predicate Extends(s: State, t: State) {
    && s.completed <= t.completed
    && (forall x :: x in s.outputs ==> x in t.outputs && t.outputs[x] == s.outputs[x])
    && (forall n :: n in t.pending ==> n in s.pending)
  }

  lemma {:induction false} CollectExtends(cfg: Config, s: State, batch: set<string>)
    requires Inv(cfg, s)
    requires forall f :: f in s.futures && f.node.name in batch ==> Succeeded(f)
    ensures Extends(s, Collected(s, batch))
  {
    BatchComputed(cfg, s, batch);
    PopSplits(s.pending, Collected(s, batch).outputs);
  }

  lemma {:induction false} NextExtends(cfg: Config, s: State, t: State)
    requires Inv(cfg, s) && Next(cfg, s, t)
    ensures Extends(s, t)
  {
    var step :| NextStep(cfg, s, t, step);
    StepExtends(cfg, s, t, step);
  }

  lemma {:induction false} StepExtends(cfg: Config, s: State, t: State, step: Step)
    requires Inv(cfg, s) && NextStep(cfg, s, t, step)
    ensures Extends(s, t)
  {
    if SuccessfulCollect(s, step) {
      CollectExtends(cfg, s, step.batch);
    } else {
      OtherStepsKeep(cfg, s, t, step);
    }
  }

  ghost predicate SuccessfulCollect(s: State, step: Step) {
    step.Collect? && forall f :: f in s.futures && f.node.name in step.batch ==> Succeeded(f)
  }

  lemma {:induction false} OtherStepsKeep(cfg: Config, s: State, t: State, step: Step)
    requires NextStep(cfg, s, t, step) && !SuccessfulCollect(s, step)
    ensures t.completed == s.completed && t.outputs == s.outputs && t.pending == s.pending
    ensures Extends(s, t)
  {
  }

  lemma {:induction false} ExtendsTransitive(s: State, t: State, u: State)
    requires Extends(s, t) && Extends(t, u)
    ensures Extends(s, u)
  {
  }

  lemma {:induction false} RunStepExtends(cfg: Config, run: seq<State>, k: nat)
    requires DistinctNames(cfg.nodes) && IsRun(cfg, run) && k < |run| - 1
    ensures Extends(run[k], run[k + 1])
  {
    RunInv(cfg, run, k);
    NextExtends(cfg, run[k], run[k + 1]);
  }

  lemma {:induction false} ExtendsAlong(run: seq<State>, i: nat, j: nat)
    requires forall k :: 0 <= k < |run| - 1 ==> Extends(run[k], run[k + 1])
    requires i <= j < |run|
    ensures Extends(run[i], run[j])
    decreases j
  {
    if i < j {
      ExtendsAlong(run, i, j - 1);
      assert Extends(run[j - 1], run[j - 1 + 1]);
      ExtendsTransitive(run[i], run[j - 1], run[j]);
    }
  }

  /** Along a run completed nodes keep their place and their output, and a node that has left the
      pending ones never returns to them: every node is submitted at most once. */
  lemma {:induction false} RunExtends(cfg: Config, run: seq<State>, i: nat, j: nat)
    requires DistinctNames(cfg.nodes) && IsRun(cfg, run) && i <= j < |run|
    ensures Extends(run[i], run[j])
  {
    forall k | 0 <= k < |run| - 1 ensures Extends(run[k], run[k + 1]) {
      RunStepExtends(cfg, run, k);
    }
    ExtendsAlong(run, i, j);
  }

  lemma {:induction false} ParseInputsNeverMissing(
    node: Node, args: seq<Argument>, outputs: map<string, Value>, env: Environment)
    requires |args| <= |node.inputs| && References(node) <= outputs.Keys
    ensures var parsed := ParseInputs(node, args, outputs, env);
      parsed.Err? ==> !parsed.error.InputNotFoundFromAncestorNodeOutput?
    decreases |node.inputs| - |args|
  {
    InputReferences(node);
    if |args| < |node.inputs| && ParseValue(node.inputs[|args|].assignment, outputs, env).Ok? {
      var value := ParseValue(node.inputs[|args|].assignment, outputs, env).value;
      ParseInputsNeverMissing(node, args + [Argument(node.inputs[|args|].name, value)], outputs, env);
    }
  }

  /** No future of a reachable state fails for want of an ancestor's output. */
  lemma {:induction false} AncestorsNeverMissing(cfg: Config, s: State, f: Future)
    requires Inv(cfg, s) && f in s.futures
    ensures References(f.node) <= s.outputs.Keys
    ensures forall x :: f.phase != Done(Err(InputNotFoundFromAncestorNodeOutput(x)))
  {
    assert OnTrack(f, s.outputs, cfg.env);
    NodeNeverMissing(f.node, s.outputs, cfg.env);
  }

  lemma {:induction false} NodeNeverMissing(node: Node, outputs: map<string, Value>, env: Environment)
    requires References(node) <= outputs.Keys
    ensures forall x :: ExecNode(node, outputs, env) != Err(InputNotFoundFromAncestorNodeOutput(x))
  {
    InputReferences(node);
    ParseInputsNeverMissing(node, [], outputs, env);
  }

  // ---------- a measure that every step lowers ----------

  function PhaseWork(node: Node, phase: Phase): nat {
    match phase
    case Queued => |node.inputs| + 4
    case ReadingSkip => |node.inputs| + 3
    case ReadingReturn => 1
    case ReadingInputs(args) => if |args| <= |node.inputs| then |node.inputs| - |args| + 1 else 1
    case Done(_) => 0
  }

  function PendingWork(nodes: seq<Node>): nat {
    if nodes == [] then 0 else |nodes[0].inputs| + 5 + PendingWork(nodes[1..])
  }

  function InFlightWork(futures: seq<Future>): nat {
    if futures == [] then 0 else PhaseWork(futures[0].node, futures[0].phase) + 1 + InFlightWork(futures[1..])
  }

  function Work(s: State): nat {
    PendingWork(s.pending) + InFlightWork(s.futures) + if s.status.Running? then 1 else 0
  }

  lemma {:induction false} PendingWorkSplits(pending: seq<Node>, outputs: map<string, Value>)
    ensures PendingWork(pending) ==
        PendingWork(ReadyNodes(pending, outputs)) + PendingWork(WaitingNodes(pending, outputs))
  {
    if pending != [] {
      PendingWorkSplits(pending[1..], outputs);
      var ready, waiting := ReadyNodes(pending, outputs), WaitingNodes(pending, outputs);
      if IsReady(pending[0], outputs) {
        assert ready[1..] == ReadyNodes(pending[1..], outputs) && waiting == WaitingNodes(pending[1..], outputs);
      } else {
        assert waiting[1..] == WaitingNodes(pending[1..], outputs) && ready == ReadyNodes(pending[1..], outputs);
      }
    }
  }

  lemma {:induction false} InFlightWorkConcat(a: seq<Future>, b: seq<Future>)
    ensures InFlightWork(a + b) == InFlightWork(a) + InFlightWork(b)
  {
    if a == [] {
      assert a + b == b;
    } else {
      assert (a + b)[1..] == a[1..] + b;
      InFlightWorkConcat(a[1..], b);
    }
  }

  lemma {:induction false} SubmitWork(nodes: seq<Node>, live: bool)
    ensures InFlightWork(Submit(nodes, live)) == PendingWork(nodes)
  {
    if nodes != [] {
      assert Submit(nodes, live)[1..] == Submit(nodes[1..], live);
      SubmitWork(nodes[1..], live);
    }
  }

  lemma {:induction false} DropWork(futures: seq<Future>, batch: set<string>)
    ensures InFlightWork(Drop(futures, batch)) <= InFlightWork(futures)
    ensures batch * FutureNames(futures) != {} ==> InFlightWork(Drop(futures, batch)) < InFlightWork(futures)
  {
    if futures != [] {
      var head, tail := futures[0], futures[1..];
      DropWork(tail, batch);
      assert FutureNames(futures) == {head.node.name} + FutureNames(tail) by {
        assert futures == [head] + tail;
      }
      if head.node.name in batch {
        assert Drop(futures, batch) == Drop(tail, batch);
      } else {
        assert Drop(futures, batch)[1..] == Drop(tail, batch);
      }
    }
  }

  lemma {:induction false} AdvanceWork(futures: seq<Future>, i: nat, f: Future)
    requires i < |futures| && f.node == futures[i].node
    ensures InFlightWork(futures[i := f]) + PhaseWork(f.node, futures[i].phase)
         == InFlightWork(futures) + PhaseWork(f.node, f.phase)
  {
    var a, b := futures[..i], futures[i + 1..];
    assert futures == a + ([futures[i]] + b);
    assert futures[i := f] == a + ([f] + b);
    InFlightWorkConcat(a, [futures[i]] + b);
    InFlightWorkConcat(a, [f] + b);
    InFlightWorkConcat([futures[i]], b);
    InFlightWorkConcat([f], b);
  }

  lemma {:induction false} CollectWork(cfg: Config, s: State, batch: set<string>)
    requires Collectable(cfg, s, batch) && s.futures != []
    requires forall f :: f in s.futures && f.node.name in batch ==> Succeeded(f)
    ensures Work(Collected(s, batch)) < Work(s)
  {
    var t := Collected(s, batch);
    PendingWorkSplits(s.pending, t.outputs);
    SubmitWork(ReadyNodes(s.pending, t.outputs), true);
    InFlightWorkConcat(Drop(s.futures, batch), Submit(ReadyNodes(s.pending, t.outputs), true));
    assert batch * FutureNames(s.futures) == batch;
    DropWork(s.futures, batch);
  }

  // Every step but a wait on no future at all brings the run closer to its end.
  lemma {:induction false} NextLowersWork(cfg: Config, s: State, t: State)
    requires Inv(cfg, s) && Next(cfg, s, t)
    requires !Spinning(cfg, s)
    ensures Work(t) < Work(s)
  {
    var step :| NextStep(cfg, s, t, step);
    StepLowersWork(cfg, s, t, step);
  }

  lemma {:induction false} CollectLowersWork(cfg: Config, s: State, t: State, batch: set<string>)
    requires NextStep(cfg, s, t, Collect(batch)) && s.futures != []
    ensures Work(t) < Work(s)
  {
    if SuccessfulCollect(s, Collect(batch)) {
      CollectWork(cfg, s, batch);
    }
  }

  lemma {:induction false} StepLowersWork(cfg: Config, s: State, t: State, step: Step)
    requires (forall f :: f in s.futures ==> OnTrack(f, s.outputs, cfg.env)) && NextStep(cfg, s, t, step)
    requires !Spinning(cfg, s)
    ensures Work(t) < Work(s)
  {
    match step
    case Advance(i) => AdvanceLowersWork(cfg, s, t, i);
    case Collect(batch) => CollectLowersWork(cfg, s, t, batch);
    case Return =>
  }

  lemma {:induction false} AdvanceLowersWork(cfg: Config, s: State, t: State, i: nat)
    requires (forall f :: f in s.futures ==> OnTrack(f, s.outputs, cfg.env)) && NextStep(cfg, s, t, Advance(i))
    ensures Work(t) < Work(s)
  {
    var f := s.futures[i];
    assert f in s.futures;
    assert WellPhased(f.node, f.phase);
    AdvanceLowersPhaseWork(f.node, f.phase, View(f, s.outputs), cfg.env);
    AdvanceWork(s.futures, i, t.futures[i]);
  }

  lemma {:induction false} AdvanceLowersPhaseWork(node: Node, phase: Phase, view: map<string, Value>, env: Environment)
    requires WellPhased(node, phase) && !phase.Done?
    ensures PhaseWork(node, AdvancePhase(node, phase, view, env)) < PhaseWork(node, phase)
  {
  }

  // ---------- progress ----------

  // The loop waits on no future at all.
  ghost predicate Spinning(cfg: Config, s: State) {
    Looping(cfg, s) && s.futures == []
  }

  // The first node in the order that has no output is either in flight or ready.
  lemma {:induction false} FirstIncomplete(cfg: Config, s: State, order: seq<Node>, k: nat)
    requires Inv(cfg, s) && s.futures == [] && Orders(order, cfg.nodes) && k <= |order|
    ensures Names(order[..k]) <= s.outputs.Keys
  {
    if k > 0 {
      FirstIncomplete(cfg, s, order, k - 1);
      PermutationKeepsNames(order, cfg.nodes);
      var n := order[k - 1];
      assert n in order && Preceded(order, k - 1);
      assert order[..k] == order[..k - 1] + [n];
      assert n.name in Names(cfg.nodes);
      OrdersDistinct(order, cfg.nodes);
      assert IsReady(n, s.outputs);
      assert n.name !in Names(s.pending);
    }
  }

  /** While a node lacks its output some future is in flight: the loop never waits on nothing. */
  lemma {:induction false} SomethingInFlight(cfg: Config, s: State, order: seq<Node>)
    requires Inv(cfg, s) && Orders(order, cfg.nodes)
    ensures !Spinning(cfg, s)
  {
    if Spinning(cfg, s) {
      FirstIncomplete(cfg, s, order, |order|);
      AllCompleted(cfg.nodes, s.outputs, order);
    }
  }

  lemma {:induction false} AllCompleted(nodes: seq<Node>, outputs: map<string, Value>, order: seq<Node>)
    requires Orders(order, nodes) && Names(order[..|order|]) <= outputs.Keys <= Names(nodes)
    ensures |outputs| == |nodes|
  {
    assert order[..|order|] == order;
    PermutationKeepsNames(order, nodes);
    OrdersDistinct(order, nodes);
    NamesCardinality(nodes);
    assert outputs.Keys == Names(nodes) && |outputs| == |outputs.Keys|;
  }

  lemma {:induction false} NobodyBusy(futures: seq<Future>)
    requires forall f :: f in futures ==> f.phase.Queued?
    ensures Busy(futures) == 0
  {
    if futures != [] {
      assert futures[0] in futures;
      NobodyBusy(futures[1..]);
    }
  }

  /** With at least one pool thread a run that has neither returned nor raised can go on. */
  lemma {:induction false} SomeStepEnabled(cfg: Config, s: State)
    requires Inv(cfg, s) && s.status.Running? && cfg.workers > 0
    ensures exists t :: Next(cfg, s, t)
  {
    if |s.outputs| == |cfg.nodes| {
      assert NextStep(cfg, s, s.(status := Returned), Return);
      assert Next(cfg, s, s.(status := Returned));
    } else if s.futures == [] {
      assert NextStep(cfg, s, Collected(s, {}), Collect({}));
      assert Next(cfg, s, Collected(s, {}));
    } else if exists f :: f in s.futures && f.phase.Done? {
      var f :| f in s.futures && f.phase.Done?;
      CollectOne(cfg, s, f);
    } else if exists i :: 0 <= i < |s.futures| && !s.futures[i].phase.Queued? {
      var i :| 0 <= i < |s.futures| && !s.futures[i].phase.Queued?;
      assert s.futures[i] in s.futures;
      AdvanceOne(cfg, s, i);
    } else {
      NobodyBusy(s.futures);
      assert s.futures[0] in s.futures;
      AdvanceOne(cfg, s, 0);
    }
  }

  lemma {:induction false} AdvanceOne(cfg: Config, s: State, i: nat)
    requires s.status.Running? && i < |s.futures| && !s.futures[i].phase.Done?
    requires s.futures[i].phase.Queued? ==> Busy(s.futures) < cfg.workers
    ensures exists t :: Next(cfg, s, t)
  {
    var f := s.futures[i];
    var phase := AdvancePhase(f.node, f.phase, View(f, s.outputs), cfg.env);
    var t := s.(futures := s.futures[i := f.(phase := phase)]);
    assert NextStep(cfg, s, t, Advance(i));
    assert Next(cfg, s, t);
  }

  lemma {:induction false} CollectOne(cfg: Config, s: State, f: Future)
    requires DistinctFutures(s.futures) && Looping(cfg, s) && f in s.futures && f.phase.Done?
    ensures exists t :: Next(cfg, s, t)
  {
    var batch := {f.node.name};
    forall g | g in s.futures && g.node.name in batch ensures g == f {
      var i :| 0 <= i < |s.futures| && s.futures[i] == f;
      var j :| 0 <= j < |s.futures| && s.futures[j] == g;
    }
    var t := if f.phase.outcome.Ok? then Collected(s, batch) else s.(status := Raised(f.phase.outcome.error));
    if f.phase.outcome.Err? {
      assert Failing(s, batch, f.phase.outcome.error);
    }
    assert NextStep(cfg, s, t, Collect(batch));
    assert Next(cfg, s, t);
  }

  lemma {:induction false} WorkBoundsRun(cfg: Config, run: seq<State>, order: seq<Node>, k: nat)
    requires Orders(order, cfg.nodes) && IsRun(cfg, run) && k < |run|
    ensures Work(run[k]) + k <= Work(InitialState(cfg))
  {
    OrdersDistinct(order, cfg.nodes);
    if k > 0 {
      WorkBoundsRun(cfg, run, order, k - 1);
      RunInv(cfg, run, k - 1);
      SomethingInFlight(cfg, run[k - 1], order);
      assert Next(cfg, run[k - 1], run[k]);
      NextLowersWork(cfg, run[k - 1], run[k]);
    }
  }

  lemma {:induction false} InitialWork(cfg: Config)
    requires DistinctNames(cfg.nodes)
    ensures Work(InitialState(cfg)) == PendingWork(cfg.nodes) + 1
  {
    PendingOfDistinct(cfg.nodes);
    PendingWorkSplits(cfg.nodes, map[]);
    SubmitWork(ReadyNodes(cfg.nodes, map[]), false);
  }

  lemma {:induction false} RunGoesOn(cfg: Config, run: seq<State>) returns (t: State)
    requires DistinctNames(cfg.nodes) && IsRun(cfg, run) && cfg.workers > 0 && run[|run| - 1].status.Running?
    ensures IsRun(cfg, run + [t])
  {
    var last := run[|run| - 1];
    RunInv(cfg, run, |run| - 1);
    SomeStepEnabled(cfg, last);
    t :| Next(cfg, last, t);
    RunSnoc(cfg, run, t);
  }

  lemma {:induction false} RunSnoc(cfg: Config, run: seq<State>, t: State)
    requires IsRun(cfg, run) && Next(cfg, run[|run| - 1], t)
    ensures IsRun(cfg, run + [t])
  {
    var longer := run + [t];
    forall k | 0 <= k < |longer| - 1 ensures Next(cfg, longer[k], longer[k + 1]) {
      if k < |run| - 1 {
        assert Next(cfg, run[k], run[k + 1]);
      }
    }
  }

  /** Termination: the length of every run is bounded by the nodes alone, whatever the interleaving,
      and a run that cannot be prolonged has returned or raised. */
  lemma {:induction false} RunsEnd(cfg: Config, run: seq<State>, order: seq<Node>)
    requires Orders(order, cfg.nodes) && IsRun(cfg, run) && cfg.workers > 0
    ensures |run| <= PendingWork(cfg.nodes) + 2
    ensures (forall t :: !IsRun(cfg, run + [t])) ==> !run[|run| - 1].status.Running?
  {
    OrdersDistinct(order, cfg.nodes);
    WorkBoundsRun(cfg, run, order, |run| - 1);
    InitialWork(cfg);
    if run[|run| - 1].status.Running? {
      var t := RunGoesOn(cfg, run);
    }
  }

  // ---------- confluence ----------

  lemma {:induction false} CompletedNode(cfg: Config, s: State, n: Node)
    requires Inv(cfg, s) && DistinctNames(cfg.nodes) && n in cfg.nodes && n.name in s.outputs
    ensures Justified(n, s.outputs, cfg.env)
  {
    var m :| m in s.completed && m.name == n.name;
    SameNameSameNode(cfg.nodes, m, n);
  }

  // What is recorded in the order of completion, every solution holds too.
  lemma {:induction false} RecordedInSolution(
    nodes: seq<Node>, completed: seq<Node>, outputs: map<string, Value>, solution: map<string, Value>,
    env: Environment, k: nat)
    requires DependenciesFirst(completed) && k <= |completed|
    requires forall n :: n in completed ==> n in nodes && Justified(n, outputs, env)
    requires Solution(nodes, solution, env)
    ensures AgreeOn(Names(completed[..k]), outputs, solution)
  {
    if k > 0 {
      RecordedInSolution(nodes, completed, outputs, solution, env, k - 1);
      var n := completed[k - 1];
      assert completed[..k] == completed[..k - 1] + [n];
      assert n in completed && Preceded(completed, k - 1);
      ExecNodeAgree(n, outputs, solution, env);
      assert SolvedAt(n, solution, env);
    }
  }

  lemma {:induction false} OutputsInSolution(cfg: Config, s: State, solution: map<string, Value>)
    requires Inv(cfg, s) && Solution(cfg.nodes, solution, cfg.env)
    ensures AgreeOn(s.outputs.Keys, s.outputs, solution)
  {
    RecordedInSolution(cfg.nodes, s.completed, s.outputs, solution, cfg.env, |s.completed|);
    assert s.completed[..|s.completed|] == s.completed;
  }

  // The failure is that of a node whose dependencies all have their outputs.
  lemma {:induction false} RaisedIsOwn(cfg: Config, s: State)
    requires Inv(cfg, s) && s.status.Raised?
    ensures FailsIn(cfg.nodes, s.outputs, cfg.env, s.status.failure)
  {
    var f :| f in s.futures && f.phase == Done(Err(s.status.failure));
    assert OnTrack(f, s.outputs, cfg.env);
  }

  lemma {:induction false} RaisedInSolution(cfg: Config, s: State, solution: map<string, Value>)
    requires Inv(cfg, s) && s.status.Raised? && Solution(cfg.nodes, solution, cfg.env)
    ensures FailsIn(cfg.nodes, solution, cfg.env, s.status.failure)
  {
    RaisedIsOwn(cfg, s);
    var n :| n in cfg.nodes && FailsAt(n, s.outputs, cfg.env, s.status.failure);
    OutputsInSolution(cfg, s, solution);
    ExecNodeAgree(n, s.outputs, solution, cfg.env);
    assert FailsAt(n, solution, cfg.env, s.status.failure);
  }

  /** Which failure a run raises, on any nodes with distinct names: that of a node which fails with it on
      the outputs recorded so far, and on every solution of the nodes. */
  lemma {:induction false} RaisedByNode(cfg: Config, run: seq<State>)
    requires DistinctNames(cfg.nodes) && IsRun(cfg, run) && run[|run| - 1].status.Raised?
    ensures var last := run[|run| - 1];
      && FailsIn(cfg.nodes, last.outputs, cfg.env, last.status.failure)
      && forall solution :: Solution(cfg.nodes, solution, cfg.env) ==>
           FailsIn(cfg.nodes, solution, cfg.env, last.status.failure)
  {
    var s := run[|run| - 1];
    RunInv(cfg, run, |run| - 1);
    RaisedIsOwn(cfg, s);
    forall solution | Solution(cfg.nodes, solution, cfg.env)
      ensures FailsIn(cfg.nodes, solution, cfg.env, s.status.failure)
    {
      RaisedInSolution(cfg, s, solution);
    }
  }

  lemma {:induction false} ReturnedIsEvaluation(cfg: Config, s: State, order: seq<Node>)
    requires Inv(cfg, s) && Orders(order, cfg.nodes) && s.status.Returned?
    ensures EvalInOrder(order, cfg.env) == Ok(s.outputs)
  {
    OrdersDistinct(order, cfg.nodes);
    NamesCardinality(cfg.nodes);
    SubsetCardinality(s.outputs.Keys, Names(cfg.nodes));
    forall n | n in cfg.nodes ensures SolvedAt(n, s.outputs, cfg.env) {
      assert n.name in Names(cfg.nodes);
      CompletedNode(cfg, s, n);
    }
    SolutionDecides(cfg.nodes, order, s.outputs, cfg.env);
  }

  lemma {:induction false} RaisedIsFailure(cfg: Config, s: State, order: seq<Node>)
    requires Inv(cfg, s) && Orders(order, cfg.nodes) && s.status.Raised?
    ensures EvalInOrder(order, cfg.env).Err?
    ensures FailsIn(cfg.nodes, PartialEval(order, cfg.env), cfg.env, s.status.failure)
  {
    OrderedSolution(order, cfg.nodes, cfg.env);
    RaisedInSolution(cfg, s, PartialEval(order, cfg.env));
    FailingEvaluation(order, cfg.nodes, cfg.env, s.status.failure);
  }

  /** Confluence: however the threads interleave and the batches are cut, a run that returns has
      computed what evaluating the nodes one by one computes, and a run raises only if the one-by-one
      evaluation fails too: then with the failure of a node all of whose dependencies it can evaluate. */
  lemma {:induction false} RunIsEvaluation(cfg: Config, run: seq<State>, order: seq<Node>)
    requires Orders(order, cfg.nodes) && IsRun(cfg, run)
    ensures var last := run[|run| - 1];
      && (last.status.Returned? ==> EvalInOrder(order, cfg.env) == Ok(last.outputs))
      && (last.status.Raised? ==> EvalInOrder(order, cfg.env).Err?)
      && (last.status.Raised? ==> FailsIn(cfg.nodes, PartialEval(order, cfg.env), cfg.env, last.status.failure))
  {
    OrdersDistinct(order, cfg.nodes);
    RunInv(cfg, run, |run| - 1);
    if run[|run| - 1].status.Returned? {
      ReturnedIsEvaluation(cfg, run[|run| - 1], order);
    } else if run[|run| - 1].status.Raised? {
      RaisedIsFailure(cfg, run[|run| - 1], order);
    }
  }

  /** Nodes given in an order: every run is bounded, agrees with evaluating them in that order and never
      waits on nothing. */
  lemma {:induction false} RunsInOrder(cfg: Config, run: seq<State>)
    requires Topological(cfg.nodes) && IsRun(cfg, run) && cfg.workers > 0
    ensures |run| <= PendingWork(cfg.nodes) + 2
    ensures var last := run[|run| - 1];
      && (last.status.Returned? ==> EvalInOrder(cfg.nodes, cfg.env) == Ok(last.outputs))
      && (last.status.Raised? ==> EvalInOrder(cfg.nodes, cfg.env).Err?)
      && !Spinning(cfg, last)
  {
    assert Orders(cfg.nodes, cfg.nodes);
    RunsEnd(cfg, run, cfg.nodes);
    RunIsEvaluation(cfg, run, cfg.nodes);
    RunInv(cfg, run, |run| - 1);
    SomethingInFlight(cfg, run[|run| - 1], cfg.nodes);
  }

  // ---------- without an order ----------

  /** A run returns only if the nodes can be ordered: the completion order is such an order. */
  lemma {:induction false} ReturnedOrders(cfg: Config, run: seq<State>)
    requires DistinctNames(cfg.nodes) && IsRun(cfg, run) && run[|run| - 1].status.Returned?
    ensures Orders(run[|run| - 1].completed, cfg.nodes)
  {
    var s := run[|run| - 1];
    RunInv(cfg, run, |run| - 1);
    NamesCardinality(cfg.nodes);
    SubsetCardinality(s.outputs.Keys, Names(cfg.nodes));
    SameNamesPermutation(s.completed, cfg.nodes);
  }

  /** A loop that waits on no future spins: it stays where it is for ever. */
  lemma {:induction false} StuckForever(cfg: Config, s: State, t: State)
    requires Inv(cfg, s) && Spinning(cfg, s)
    ensures Next(cfg, s, t) <==> t == s
  {
    CollectNothing(s);
    if Next(cfg, s, t) {
      var step :| NextStep(cfg, s, t, step);
      OnlyEmptyCollect(cfg, s, t, step);
    }
    assert NextStep(cfg, s, s, Collect({}));
  }

  lemma {:induction false} OnlyEmptyCollect(cfg: Config, s: State, t: State, step: Step)
    requires NextStep(cfg, s, t, step) && Looping(cfg, s) && s.futures == []
    ensures step == Collect({}) && t == Collected(s, {})
  {
    if step.Collect? {
      assert FutureNames(s.futures) == {};
    }
  }

  lemma {:induction false} CollectNothing(s: State)
    requires s.futures == [] && forall n :: n in s.pending ==> !IsReady(n, s.outputs)
    ensures Collected(s, {}) == s
  {
    assert s.outputs + BatchOutputs(s.futures, {}) == s.outputs;
    assert s.completed + BatchNodes(s.futures, {}) == s.completed;
    PopNone(s.pending, s.outputs);
    assert Drop(s.futures, {}) + Submit([], true) == s.futures;
  }

  lemma {:induction false} PopNone(pending: seq<Node>, outputs: map<string, Value>)
    requires forall n :: n in pending ==> !IsReady(n, outputs)
    ensures ReadyNodes(pending, outputs) == [] && WaitingNodes(pending, outputs) == pending
  {
    if pending != [] {
      assert pending[0] in pending;
      PopNone(pending[1..], outputs);
    }
  }

  // Until it spins, every step of a run brings it closer to its end.
  lemma {:induction false} WorkUntilSpinning(cfg: Config, run: seq<State>, k: nat)
    requires DistinctNames(cfg.nodes) && IsRun(cfg, run) && k < |run|
    ensures Spinning(cfg, run[k]) || Work(run[k]) + k <= Work(InitialState(cfg))
  {
    if k > 0 {
      WorkUntilSpinning(cfg, run, k - 1);
      RunStepWorks(cfg, run, k);
    }
  }

  lemma {:induction false} RunStepWorks(cfg: Config, run: seq<State>, k: nat)
    requires DistinctNames(cfg.nodes) && IsRun(cfg, run) && 0 < k < |run|
    ensures if Spinning(cfg, run[k - 1]) then Spinning(cfg, run[k]) else Work(run[k]) < Work(run[k - 1])
  {
    RunInv(cfg, run, k - 1);
    var s, t := run[k - 1], run[k];
    assert Next(cfg, s, t);
    SpinsOrWorks(cfg, s, t);
  }

  lemma {:induction false} SpinsOrWorks(cfg: Config, s: State, t: State)
    requires DistinctNames(cfg.nodes) && Inv(cfg, s) && Next(cfg, s, t)
    ensures if Spinning(cfg, s) then Spinning(cfg, t) else Work(t) < Work(s)
  {
    if Spinning(cfg, s) {
      StuckForever(cfg, s, t);
    } else {
      NextLowersWork(cfg, s, t);
    }
  }

  /** Nodes that cannot be ordered: no run returns, a run that cannot be prolonged has raised, and one
      longer than the bound spins. */
  lemma {:induction false} WithoutOrder(cfg: Config, run: seq<State>)
    requires DistinctNames(cfg.nodes) && !Orderable(cfg.nodes) && IsRun(cfg, run) && cfg.workers > 0
    ensures !run[|run| - 1].status.Returned?
    ensures (forall t :: !IsRun(cfg, run + [t])) ==> run[|run| - 1].status.Raised?
    ensures |run| > PendingWork(cfg.nodes) + 2 ==> Spinning(cfg, run[|run| - 1])
  {
    var last := run[|run| - 1];
    if last.status.Returned? {
      ReturnedOrders(cfg, run);
    }
    if last.status.Running? {
      var t := RunGoesOn(cfg, run);
    }
    WorkUntilSpinning(cfg, run, |run| - 1);
    InitialWork(cfg);
  }

  // ---------- all runs agree ----------

  // The run has returned or raised, or will never do either.
  ghost predicate Settled(cfg: Config, s: State) {
    !s.status.Running? || Spinning(cfg, s)
  }

  // Every node whose dependencies have outputs has one itself.
  ghost predicate Saturated(nodes: seq<Node>, outputs: map<string, Value>) {
    forall n :: n in nodes && References(n) <= outputs.Keys ==> n.name in outputs
  }

  lemma {:induction false} SettledIsSaturated(cfg: Config, s: State)
    requires Inv(cfg, s) && DistinctNames(cfg.nodes) && Settled(cfg, s) && !s.status.Raised?
    ensures Saturated(cfg.nodes, s.outputs)
  {
    if s.status.Returned? {
      NamesCardinality(cfg.nodes);
      SubsetCardinality(s.outputs.Keys, Names(cfg.nodes));
    }
    forall n | n in cfg.nodes && References(n) <= s.outputs.Keys ensures n.name in s.outputs {
      assert n.name in Names(cfg.nodes);
      if n.name in Names(s.pending) {
        PendingIsWaiting(cfg, s, n);
      }
    }
  }

  lemma {:induction false} PendingIsWaiting(cfg: Config, s: State, n: Node)
    requires Inv(cfg, s) && DistinctNames(cfg.nodes) && n in cfg.nodes && n.name in Names(s.pending)
    ensures !(References(n) <= s.outputs.Keys)
  {
    var m :| m in s.pending && m.name == n.name;
    SameNameSameNode(cfg.nodes, m, n);
    assert !IsReady(n, s.outputs);
  }

  // What a settled run has recorded solves the nodes.
  lemma {:induction false} SettledSolves(cfg: Config, s: State)
    requires Inv(cfg, s) && DistinctNames(cfg.nodes) && Saturated(cfg.nodes, s.outputs)
    ensures Solution(cfg.nodes, s.outputs, cfg.env)
  {
    forall n | n in cfg.nodes ensures SolvedAt(n, s.outputs, cfg.env) {
      if n.name in s.outputs {
        CompletedNode(cfg, s, n);
      }
    }
  }

  // No node fails on a solution in which everything that can have an output has one.
  lemma {:induction false} NothingFails(
    nodes: seq<Node>, outputs: map<string, Value>, env: Environment, failure: Failure)
    requires Solution(nodes, outputs, env) && Saturated(nodes, outputs)
    ensures !FailsIn(nodes, outputs, env, failure)
  {
    forall n | n in nodes ensures !FailsAt(n, outputs, env, failure) {
      assert SolvedAt(n, outputs, env);
    }
  }

  // If one run has settled without raising, no other raises or records more.
  lemma {:induction false} SettledContains(a: Config, b: Config, runA: seq<State>, runB: seq<State>)
    requires a.nodes == b.nodes && a.env == b.env && DistinctNames(a.nodes)
    requires IsRun(a, runA) && IsRun(b, runB)
    requires Settled(b, runB[|runB| - 1]) && !runB[|runB| - 1].status.Raised?
    ensures var s, t := runA[|runA| - 1], runB[|runB| - 1];
      && !s.status.Raised? && AgreeOn(s.outputs.Keys, s.outputs, t.outputs)
      && (t.status.Returned? <==> |t.outputs| == |b.nodes|)
  {
    var s, t := runA[|runA| - 1], runB[|runB| - 1];
    RunInv(a, runA, |runA| - 1);
    RunInv(b, runB, |runB| - 1);
    SettledIsSaturated(b, t);
    SettledSolves(b, t);
    OutputsInSolution(a, s, t.outputs);
    if s.status.Raised? {
      NothingFails(a.nodes, t.outputs, a.env, s.status.failure);
      RaisedInSolution(a, s, t.outputs);
    }
  }

  lemma {:induction false} AgreeBothWays(a: map<string, Value>, b: map<string, Value>)
    requires AgreeOn(a.Keys, a, b) && AgreeOn(b.Keys, b, a)
    ensures a == b
  {
    assert a.Keys == b.Keys;
  }

  /** Confluence for any nodes with distinct names, ordered or not: two settled runs, even with
      different numbers of pool threads, both raise, or both return or both spin with the same outputs. */
  lemma {:induction false} RunsAgree(a: Config, b: Config, runA: seq<State>, runB: seq<State>)
    requires a.nodes == b.nodes && a.env == b.env && DistinctNames(a.nodes)
    requires IsRun(a, runA) && IsRun(b, runB)
    requires Settled(a, runA[|runA| - 1]) && Settled(b, runB[|runB| - 1])
    ensures var s, t := runA[|runA| - 1], runB[|runB| - 1];
      && (s.status.Raised? <==> t.status.Raised?)
      && (s.status.Returned? <==> t.status.Returned?)
      && (!s.status.Raised? ==> s.outputs == t.outputs)
      && (s.status.Raised? ==> FailsIn(a.nodes, s.outputs, a.env, s.status.failure))
      && (t.status.Raised? ==> FailsIn(a.nodes, t.outputs, a.env, t.status.failure))
  {
    var s, t := runA[|runA| - 1], runB[|runB| - 1];
    if s.status.Raised? {
      RaisedByNode(a, runA);
    }
    if t.status.Raised? {
      RaisedByNode(b, runB);
    }
    if !t.status.Raised? {
      SettledContains(a, b, runA, runB);
    }
    if !s.status.Raised? {
      SettledContains(b, a, runB, runA);
      AgreeBothWays(s.outputs, t.outputs);
    }
  }
}
