/** What the runs of the node scheduler record and raise. */
module SchedulerOutcomes {
  import opened Prelude
  import opened FlowContracts
  import opened InputParser
  import opened NodeOutcome
  import opened Evaluation
  import opened DagManager
  import opened SchedulerMachine
  import opened SchedulerSafety
  import opened SchedulerTheorems

  /** Whatever a run has recorded for a node is the right output, given the other recorded outputs. */
  lemma {:induction false} RecordedOutcome(cfg: Config, run: seq<State>, n: Node)
    requires DistinctNames(cfg.nodes) && IsRun(cfg, run)
    requires n in cfg.nodes && n.name in run[|run| - 1].outputs
    ensures RightOutput(n, run[|run| - 1].outputs, cfg.env, run[|run| - 1].outputs[n.name])
  {
    var s := run[|run| - 1];
    RunInv(cfg, run, |run| - 1);
    CompletedNode(cfg, s, n);
    GivesRightOutput(n, s.outputs, cfg.env, s.outputs[n.name]);
  }

  /** A run that returns has the right output of every node, and no other outputs. */
  lemma {:induction false} ReturnedOutcome(cfg: Config, run: seq<State>)
    requires DistinctNames(cfg.nodes) && IsRun(cfg, run) && run[|run| - 1].status.Returned?
    ensures RightOutputs(cfg.nodes, run[|run| - 1].outputs, cfg.env)
  {
    var s := run[|run| - 1];
    RunInv(cfg, run, |run| - 1);
    NamesCardinality(cfg.nodes);
    SubsetCardinality(s.outputs.Keys, Names(cfg.nodes));
    forall n | n in cfg.nodes ensures n.name in s.outputs && RightOutput(n, s.outputs, cfg.env, s.outputs[n.name]) {
      assert n.name in Names(cfg.nodes);
      RecordedOutcome(cfg, run, n);
    }
  }

  // Some node whose dependencies are recorded fails in this way.
  ghost predicate SomeFailsWith(nodes: seq<Node>, outputs: map<string, Value>, env: Environment, failure: Failure) {
    exists n :: n in nodes && References(n) <= outputs.Keys && FailsWith(n, outputs, env, failure)
  }

  /** A run that raises does so for a reason: a condition, a return value or an input of some node cannot
      be resolved from the recorded outputs, or its tool fails on them. */
  lemma {:induction false} RaisedOutcome(cfg: Config, run: seq<State>)
    requires DistinctNames(cfg.nodes) && IsRun(cfg, run) && run[|run| - 1].status.Raised?
    ensures SomeFailsWith(cfg.nodes, run[|run| - 1].outputs, cfg.env, run[|run| - 1].status.failure)
  {
    var s := run[|run| - 1];
    RaisedByNode(cfg, run);
    var n :| n in cfg.nodes && FailsAt(n, s.outputs, cfg.env, s.status.failure);
    OutcomeMeans(n, s.outputs, cfg.env);
    assert FailsWith(n, s.outputs, cfg.env, s.status.failure);
  }

  // ---------- the pool ----------

  lemma {:induction false} BusyConcat(a: seq<Future>, b: seq<Future>)
    ensures Busy(a + b) == Busy(a) + Busy(b)
  {
    if a == [] {
      assert a + b == b;
    } else {
      assert (a + b)[1..] == a[1..] + b;
      BusyConcat(a[1..], b);
    }
  }

  lemma {:induction false} NoneBusy(futures: seq<Future>)
    requires forall f :: f in futures ==> f.phase.Queued?
    ensures Busy(futures) == 0
  {
    if futures != [] {
      NoneBusy(futures[1..]);
    }
  }

  lemma {:induction false} BusyDrop(futures: seq<Future>, batch: set<string>)
    ensures Busy(Drop(futures, batch)) <= Busy(futures)
  {
    if futures != [] {
      var head, rest := futures[0], Drop(futures[1..], batch);
      BusyDrop(futures[1..], batch);
      if head.node.name in batch {
        assert Drop(futures, batch) == rest;
      } else {
        assert Drop(futures, batch) == [head] + rest && ([head] + rest)[1..] == rest;
      }
    }
  }

  // Replacing one future counts it anew.
  lemma {:induction false} BusyReplaced(futures: seq<Future>, i: nat, g: Future)
    requires i < |futures|
    ensures Busy(futures[i := g]) == Busy(futures) - Busy([futures[i]]) + Busy([g])
  {
    var front, back := futures[..i], futures[i + 1..];
    assert futures == front + [futures[i]] + back;
    assert futures[i := g] == front + [g] + back;
    BusyConcat(front + [futures[i]], back);
    BusyConcat(front + [g], back);
    BusyConcat(front, [futures[i]]);
    BusyConcat(front, [g]);
  }

  lemma {:induction false} AdvanceBusy(cfg: Config, s: State, t: State, i: nat)
    requires NextStep(cfg, s, t, Advance(i)) && Busy(s.futures) <= cfg.workers
    ensures Busy(t.futures) <= cfg.workers
  {
    BusyReplaced(s.futures, i, t.futures[i]);
    assert t.futures == s.futures[i := t.futures[i]];
    assert [s.futures[i]][1..] == [] && [t.futures[i]][1..] == [];
  }

  lemma {:induction false} CollectBusy(s: State, batch: set<string>)
    requires forall f :: f in s.futures && f.node.name in batch ==> Succeeded(f)
    ensures Busy(Collected(s, batch).futures) <= Busy(s.futures)
  {
    var submitted := Submit(ReadyNodes(s.pending, s.outputs + BatchOutputs(s.futures, batch)), true);
    BusyDrop(s.futures, batch);
    NoneBusy(submitted);
    BusyConcat(Drop(s.futures, batch), submitted);
  }

  /** At no time are more nodes being run than the pool has threads. */
  lemma {:induction false} BusyBounded(cfg: Config, run: seq<State>, k: nat)
    requires IsRun(cfg, run) && k < |run|
    ensures Busy(run[k].futures) <= cfg.workers
  {
    if k == 0 {
      NoneBusy(run[0].futures);
    } else {
      BusyBounded(cfg, run, k - 1);
      assert Next(cfg, run[k - 1], run[k - 1 + 1]);
      StepBusy(cfg, run[k - 1], run[k]);
    }
  }

  lemma {:induction false} StepBusy(cfg: Config, s: State, t: State)
    requires Next(cfg, s, t) && Busy(s.futures) <= cfg.workers
    ensures Busy(t.futures) <= cfg.workers
  {
    var step :| NextStep(cfg, s, t, step);
    match step
    case Advance(i) => AdvanceBusy(cfg, s, t, i);
    case Collect(batch) =>
      if forall f :: f in s.futures && f.node.name in batch ==> Succeeded(f) {
        CollectBusy(s, batch);
      }
    case Return =>
  }
}
