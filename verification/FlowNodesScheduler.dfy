/** The scheduler's main loop over the mutable DAG manager and its table of futures. */
module FlowNodesScheduler {
  import opened Prelude
  import opened FlowContracts
  import opened InputParser
  import opened Evaluation
  import opened DagManager
  import opened SchedulerMachine
  import opened SchedulerSafety
  import opened SchedulerTheorems
  import opened NodeOutcome
  import opened SchedulerOutcomes

  const DEFAULT_CONCURRENCY_FLOW: nat := 16

  // The smaller of the wanted and the greatest number of threads.
  function Workers(nodeConcurrency: nat): (workers: nat)
    ensures workers <= nodeConcurrency && workers <= 16 && (workers == nodeConcurrency || workers == 16)
  {
    if nodeConcurrency < DEFAULT_CONCURRENCY_FLOW then nodeConcurrency else DEFAULT_CONCURRENCY_FLOW
  }

  ghost function Last(run: seq<State>): State
    requires run != []
  {
    run[|run| - 1]
  }

  // From the end of the one run to the end of the other only pool threads have made steps.
  ghost predicate OnlyAdvances(cfg: Config, run: seq<State>, longer: seq<State>) {
    && run != [] && run <= longer
    && forall k :: |run| - 1 <= k < |longer| - 1 ==> Advances(cfg, longer[k], longer[k + 1])
  }

  ghost predicate Advances(cfg: Config, s: State, t: State) {
    exists i :: NextStep(cfg, s, t, Advance(i))
  }

  lemma {:induction false} OnlyAdvancesSnoc(cfg: Config, start: seq<State>, run: seq<State>, t: State)
    requires OnlyAdvances(cfg, start, run) && Advances(cfg, Last(run), t)
    ensures OnlyAdvances(cfg, start, run + [t])
  {
    var longer := run + [t];
    forall k | |start| - 1 <= k < |longer| - 1 ensures Advances(cfg, longer[k], longer[k + 1]) {
      if k < |run| - 1 {
        assert Advances(cfg, run[k], run[k + 1]);
      }
    }
  }

  // One look-up of the future at position i.
  ghost function PoolStep(cfg: Config, s: State, i: nat): State
    requires i < |s.futures|
  {
    var f := s.futures[i];
    s.(futures := s.futures[i := f.(phase := AdvancePhase(f.node, f.phase, View(f, s.outputs), cfg.env))])
  }

  lemma {:induction false} PoolStepRuns(cfg: Config, start: seq<State>, run: seq<State>, i: nat)
    requires DistinctNames(cfg.nodes) && IsRun(cfg, run) && OnlyAdvances(cfg, start, run)
    requires Last(run).status.Running? && i < |Last(run).futures| && !Last(run).futures[i].phase.Done?
    requires Last(run).futures[i].phase.Queued? ==> Busy(Last(run).futures) < cfg.workers
    ensures var t := PoolStep(cfg, Last(run), i);
      && IsRun(cfg, run + [t]) && OnlyAdvances(cfg, start, run + [t])
      && Work(t) < Work(Last(run)) && !t.futures[i].phase.Queued?
  {
    var s, t := Last(run), PoolStep(cfg, Last(run), i);
    PoolStepIsStep(cfg, s, i);
    RunSnoc(cfg, run, t);
    OnlyAdvancesSnoc(cfg, start, run, t);
    assert Work(t) < Work(s) by {
      RunInv(cfg, run, |run| - 1);
      AdvanceLowersWork(cfg, s, t, i);
    }
  }

  lemma {:induction false} PoolStepIsStep(cfg: Config, s: State, i: nat)
    requires s.status.Running? && i < |s.futures| && !s.futures[i].phase.Done?
    requires s.futures[i].phase.Queued? ==> Busy(s.futures) < cfg.workers
    ensures NextStep(cfg, s, PoolStep(cfg, s, i), Advance(i))
    ensures Next(cfg, s, PoolStep(cfg, s, i)) && Advances(cfg, s, PoolStep(cfg, s, i))
    ensures !PoolStep(cfg, s, i).futures[i].phase.Queued?
  {
    assert NextStep(cfg, s, PoolStep(cfg, s, i), Advance(i));
  }

  lemma {:induction false} CollectRuns(cfg: Config, run: seq<State>, batch: set<string>)
    requires IsRun(cfg, run) && Collectable(cfg, Last(run), batch) && batch != {}
    requires forall f :: f in Last(run).futures && f.node.name in batch ==> Succeeded(f)
    ensures IsRun(cfg, run + [Collected(Last(run), batch)])
    ensures Work(Collected(Last(run), batch)) < Work(Last(run))
  {
    var t := Collected(Last(run), batch);
    assert NextStep(cfg, Last(run), t, Collect(batch));
    assert Next(cfg, Last(run), t);
    RunSnoc(cfg, run, t);
    CollectWork(cfg, Last(run), batch);
  }

  lemma {:induction false} RaiseRuns(cfg: Config, run: seq<State>, batch: set<string>, failure: Failure)
    requires IsRun(cfg, run) && Collectable(cfg, Last(run), batch) && Failing(Last(run), batch, failure)
    ensures IsRun(cfg, run + [Last(run).(status := Raised(failure))])
  {
    var t := Last(run).(status := Raised(failure));
    assert NextStep(cfg, Last(run), t, Collect(batch));
    assert Next(cfg, Last(run), t);
    RunSnoc(cfg, run, t);
  }

  lemma {:induction false} ReturnRuns(cfg: Config, run: seq<State>)
    requires IsRun(cfg, run) && Last(run).status.Running? && |Last(run).outputs| == |cfg.nodes|
    ensures IsRun(cfg, run + [Last(run).(status := Returned)])
  {
    var t := Last(run).(status := Returned);
    assert NextStep(cfg, Last(run), t, Return);
    assert Next(cfg, Last(run), t);
    RunSnoc(cfg, run, t);
  }

  // A running loop over ordered nodes that are not all completed has something to wait for.
  lemma {:induction false} NeverSpins(cfg: Config, run: seq<State>, order: seq<Node>)
    requires Orders(order, cfg.nodes) && IsRun(cfg, run)
    ensures Looping(cfg, Last(run)) ==> Last(run).futures != []
    ensures DistinctNames(cfg.nodes) && DistinctFutures(Last(run).futures)
  {
    OrdersDistinct(order, cfg.nodes);
    RunInv(cfg, run, |run| - 1);
    SomethingInFlight(cfg, Last(run), order);
  }

  lemma {:induction false} OneDone(cfg: Config, s: State, i: nat)
    requires DistinctFutures(s.futures) && Looping(cfg, s) && i < |s.futures| && s.futures[i].phase.Done?
    ensures Collectable(cfg, s, {s.futures[i].node.name})
  {
    assert s.futures[i] in s.futures;
    forall g | g in s.futures && g.node.name == s.futures[i].node.name ensures g == s.futures[i] {
      var j :| 0 <= j < |s.futures| && s.futures[j] == g;
    }
  }

  class FlowNodesScheduler {
    var futureToNode: seq<Future>

    constructor ()
      ensures futureToNode == []
    {
      futureToNode := [];
    }

    /** Runs the nodes and answers with their outputs, or with the failure of one of them; `run` is the
        run of the state machine that the loop has made.  `order` is only a witness that the nodes
        refer to nodes of the run and not in circles. */
    method Execute(nodes: seq<Node>, env: Environment, nodeConcurrency: nat, ghost order: seq<Node>)
      returns (r: Result<map<string, Value>, Failure>, ghost run: seq<State>)
      requires Orders(order, nodes) && nodeConcurrency > 0
      modifies this
      ensures IsRun(Config(nodes, Workers(nodeConcurrency), env), run)
      ensures match r
        case Ok(outputs) => Last(run).status.Returned? && Last(run).outputs == outputs
        case Err(failure) => Last(run).status == Raised(failure)
      ensures r.Ok? ==> EvalInOrder(order, env) == r && RightOutputs(nodes, r.value, env)
      ensures r.Err? ==> EvalInOrder(order, env).Err? && FailsIn(nodes, PartialEval(order, env), env, r.error)
    {
      var workers := Workers(nodeConcurrency);
      ghost var cfg := Config(nodes, workers, env);
      var dag := new DAGManager(nodes);
      var nodesToExec := dag.PopReadyNodes();
      futureToNode := [];
      SubmitNodes(nodesToExec, false);
      run := [InitialState(cfg)];
      assert [] + Submit(nodesToExec, false) == Last(run).futures;
      var completed := dag.Completed();
      while !completed
        invariant fresh(dag) && IsRun(cfg, run) && Tracks(cfg, dag, Last(run))
        invariant completed <==> |Last(run).outputs| == |nodes|
        decreases Work(Last(run))
      {
        var failure;
        failure, run := Round(dag, env, workers, cfg, run, order);
        if failure.Some? {
          RunIsEvaluation(cfg, run, order);
          return Err(failure.value), run;
        }
        completed := dag.Completed();
      }
      ReturnRuns(cfg, run);
      run := run + [Last(run).(status := Returned)];
      RunIsEvaluation(cfg, run, order);
      NeverSpins(cfg, run, order);
      ReturnedOutcome(cfg, run);
      return Ok(dag.completedNodesOutputs), run;
    }

    // The running loop, its DAG manager and its futures are in this state.
    ghost predicate Tracks(cfg: Config, dag: DAGManager, s: State)
      reads this, dag
    {
      && dag.Valid() && dag.nodes == cfg.nodes && s.status.Running?
      && s.pending == dag.pendingNodes && s.outputs == dag.completedNodesOutputs && s.futures == futureToNode
    }

    // One round: wait for finished futures, collect them, submit the nodes that became ready.
    method Round(
      dag: DAGManager, env: Environment, workers: nat, ghost cfg: Config, ghost run: seq<State>,
      ghost order: seq<Node>)
      returns (failure: Option<Failure>, ghost longer: seq<State>)
      requires Orders(order, cfg.nodes) && env == cfg.env && 0 < workers == cfg.workers
      requires IsRun(cfg, run) && Tracks(cfg, dag, Last(run)) && Looping(cfg, Last(run))
      modifies this, dag
      ensures IsRun(cfg, longer)
      ensures match failure
        case None => Tracks(cfg, dag, Last(longer)) && Work(Last(longer)) < Work(Last(run))
        case Some(error) => Last(longer).status == Raised(error)
    {
      NeverSpins(cfg, run, order);
      var batch;
      batch, longer := Wait(dag.completedNodesOutputs, env, workers, cfg, run);
      NeverSpins(cfg, longer, order);
      var collected := CollectOutputs(batch);
      if collected.Err? {
        RaiseRuns(cfg, longer, batch, collected.error);
        longer := longer + [Last(longer).(status := Raised(collected.error))];
        return Some(collected.error), longer;
      }
      dag.CompleteNodes(collected.value);
      futureToNode := Drop(futureToNode, batch);
      var nodesToExec := dag.PopReadyNodes();
      SubmitNodes(nodesToExec, true);
      CollectRuns(cfg, longer, batch);
      longer := longer + [Collected(Last(longer), batch)];
      failure := None;
    }

    method SubmitNodes(nodes: seq<Node>, live: bool)
      modifies this
      ensures futureToNode == old(futureToNode) + Submit(nodes, live)
    {
      for k := 0 to |nodes|
        invariant futureToNode == old(futureToNode) + Submit(nodes[..k], live)
      {
        assert Submit(nodes[..k + 1], live) == Submit(nodes[..k], live) + [Future(nodes[k], live, Queued)];
        futureToNode := futureToNode + [Future(nodes[k], live, Queued)];
      }
      assert nodes[..|nodes|] == nodes;
    }

    /** Lets the pool threads run until some future is done, and answers with done futures.
        Callers know no more than the contract: any look-ups of any futures, any non-empty batch. */
    method Wait(outputs: map<string, Value>, env: Environment, workers: nat, ghost cfg: Config, ghost run: seq<State>)
      returns (batch: set<string>, ghost longer: seq<State>)
      requires DistinctNames(cfg.nodes) && IsRun(cfg, run)
      requires Looping(cfg, Last(run)) && DistinctFutures(Last(run).futures)
      requires Last(run).futures == futureToNode != []
      requires outputs == Last(run).outputs && env == cfg.env && 0 < workers == cfg.workers
      modifies this
      ensures IsRun(cfg, longer) && OnlyAdvances(cfg, run, longer)
      ensures Last(longer) == Last(run).(futures := futureToNode) && Work(Last(longer)) <= Work(Last(run))
      ensures batch != {} && Collectable(cfg, Last(longer), batch)
    {
      var i := PickFuture();
      longer := run;
      while !futureToNode[i].phase.Done?
        invariant i < |futureToNode| && DistinctFutures(futureToNode)
        invariant IsRun(cfg, longer) && OnlyAdvances(cfg, run, longer)
        invariant Last(longer) == Last(run).(futures := futureToNode) && Work(Last(longer)) <= Work(Last(run))
        invariant futureToNode[i].phase.Queued? ==> Busy(futureToNode) == 0
        decreases Work(Last(longer))
      {
        var f := futureToNode[i];
        PoolStepRuns(cfg, run, longer, i);
        longer := longer + [PoolStep(cfg, Last(longer), i)];
        futureToNode := futureToNode[i := f.(phase := AdvancePhase(f.node, f.phase, View(f, outputs), env))];
      }
      batch := {futureToNode[i].node.name};
      OneDone(cfg, Last(longer), i);
    }

    // A future that can make progress, or one that is done.
    method PickFuture() returns (i: nat)
      requires futureToNode != []
      ensures i < |futureToNode|
      ensures futureToNode[i].phase.Queued? ==> Busy(futureToNode) == 0
    {
      i := 0;
      while i < |futureToNode|
        invariant i <= |futureToNode|
        invariant forall k :: 0 <= k < i ==> futureToNode[k].phase.Queued?
      {
        if !futureToNode[i].phase.Queued? {
          return;
        }
        i := i + 1;
      }
      NobodyBusy(futureToNode);
      i := 0;
    }

    // The results of a batch; the first failed future makes the whole collection fail.
    method CollectOutputs(batch: set<string>) returns (r: Result<map<string, Value>, Failure>)
      requires DistinctFutures(futureToNode)
      requires forall f :: f in futureToNode && f.node.name in batch ==> f.phase.Done?
      ensures r.Ok? <==> forall f :: f in futureToNode && f.node.name in batch ==> Succeeded(f)
      ensures r.Ok? ==> r.value == BatchOutputs(futureToNode, batch)
      ensures r.Err? ==> exists f :: f in futureToNode && f.node.name in batch && f.phase == Done(Err(r.error))
    {
      var outputs: map<string, Value> := map[];
      var k := |futureToNode|;
      while k > 0
        invariant 0 <= k <= |futureToNode|
        invariant forall j :: k <= j < |futureToNode| && futureToNode[j].node.name in batch ==>
            Succeeded(futureToNode[j])
        invariant outputs == BatchOutputs(futureToNode[k..], batch)
      {
        k := k - 1;
        assert futureToNode[k..][0] == futureToNode[k] && futureToNode[k..][1..] == futureToNode[k + 1..];
        var f := futureToNode[k];
        assert f in futureToNode;
        if f.node.name in batch {
          match f.phase.outcome
          case Err(failure) => return Err(failure);
          case Ok(value) => outputs := outputs[f.node.name := value];
        }
      }
      assert futureToNode[0..] == futureToNode;
      r := Ok(outputs);
    }
  }
}
