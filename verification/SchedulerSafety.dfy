/** What every reachable state of the scheduler satisfies. */
module SchedulerSafety {
  import opened Prelude
  import opened FlowContracts
  import opened InputParser
  import opened DagManager
  import opened SchedulerMachine

  // Pending, in-flight and completed nodes partition the nodes of the run.
  ghost predicate Placed(nodes: seq<Node>, s: State) {
    && DistinctNames(s.pending) && DistinctFutures(s.futures) && DistinctNames(s.completed)
    && Names(s.completed) == s.outputs.Keys
    && Names(s.pending) !! FutureNames(s.futures)
    && Names(s.pending) !! s.outputs.Keys
    && FutureNames(s.futures) !! s.outputs.Keys
    && (forall n :: n in s.pending ==> n in nodes)
    && (forall n :: n in s.completed ==> n in nodes)
    && (forall f :: f in s.futures ==> f.node in nodes)
    && Names(nodes) == Names(s.pending) + FutureNames(s.futures) + s.outputs.Keys
  }

  // All dependencies of an in-flight node have outputs, and what its future has read so far
  // leads to the same answer as running the node from the present outputs.
  ghost predicate OnTrack(f: Future, outputs: map<string, Value>, env: Environment) {
    && References(f.node) <= outputs.Keys
    && (!f.live ==> References(f.node) == {})
    && WellPhased(f.node, f.phase)
    && Finish(f.node, f.phase, outputs, env) == ExecNode(f.node, outputs, env)
  }

  // A recorded output is what its node computes from the recorded outputs.
  ghost predicate Justified(n: Node, outputs: map<string, Value>, env: Environment) {
    && References(n) <= outputs.Keys
    && n.name in outputs
    && ExecNode(n, outputs, env) == Ok(outputs[n.name])
  }

  ghost predicate Inv(cfg: Config, s: State) {
    && Placed(cfg.nodes, s)
    && (forall n :: n in s.pending ==> !IsReady(n, s.outputs))
    && (forall f :: f in s.futures ==> OnTrack(f, s.outputs, cfg.env))
    && (forall n :: n in s.completed ==> Justified(n, s.outputs, cfg.env))
    && DependenciesFirst(s.completed)
    && (s.status.Raised? ==> exists f :: f in s.futures && f.phase == Done(Err(s.status.failure)))
    && (s.status.Returned? ==> |s.outputs| == |cfg.nodes|)
  }

  // ---------- the pieces of a collection ----------

  lemma {:induction false} DropSplits(futures: seq<Future>, batch: set<string>)
    ensures forall f :: f in Drop(futures, batch) <==> f in futures && f.node.name !in batch
    ensures DistinctFutures(futures) ==> DistinctFutures(Drop(futures, batch))
  {
    if futures != [] {
      var head, tail := futures[0], futures[1..];
      assert futures == [head] + tail;
      DropSplits(tail, batch);
      if DistinctFutures(futures) && head.node.name !in batch {
        var rest := Drop(tail, batch);
        assert Drop(futures, batch) == [head] + rest;
        forall j | 0 <= j < |rest| ensures rest[j].node.name != head.node.name {
          assert rest[j] in tail;
        }
      }
    }
  }

  lemma {:induction false} BatchNodesFacts(futures: seq<Future>, batch: set<string>)
    ensures forall n :: n in BatchNodes(futures, batch) <==>
              exists f :: f in futures && f.node == n && f.node.name in batch
    ensures DistinctFutures(futures) ==> DistinctNames(BatchNodes(futures, batch))
  {
    if futures != [] {
      var head, tail := futures[0], futures[1..];
      assert futures == [head] + tail;
      BatchNodesFacts(tail, batch);
      if DistinctFutures(futures) && head.node.name in batch {
        var rest := BatchNodes(tail, batch);
        forall n | n in rest ensures n.name != head.node.name {
          var f :| f in tail && f.node == n;
        }
        ConsDistinct(head.node, rest);
      }
    }
  }

  lemma {:induction false} BatchOutputsFacts(futures: seq<Future>, batch: set<string>)
    requires DistinctFutures(futures)
    requires forall f :: f in futures && f.node.name in batch ==> Succeeded(f)
    ensures BatchOutputs(futures, batch).Keys == Names(BatchNodes(futures, batch))
    ensures forall f :: f in futures && f.node.name in batch ==>
              f.node.name in BatchOutputs(futures, batch)
              && f.phase == Done(Ok(BatchOutputs(futures, batch)[f.node.name]))
  {
    if futures != [] {
      var head, tail := futures[0], futures[1..];
      assert futures == [head] + tail && head in futures;
      BatchOutputsFacts(tail, batch);
      if head.node.name in batch {
        NamesOfCons(head.node, BatchNodes(tail, batch));
        forall f | f in tail ensures f.node.name != head.node.name {
        }
      }
    }
  }

  // ---------- preservation ----------

  lemma {:induction false} InitialPlaced(cfg: Config)
    requires DistinctNames(cfg.nodes)
    ensures Placed(cfg.nodes, InitialState(cfg))
  {
    var s := InitialState(cfg);
    var ready := ReadyNodes(cfg.nodes, map[]);
    PendingOfDistinct(cfg.nodes);
    PopSplits(cfg.nodes, map[]);
    SubmitFacts(ready, false);
    NamesOfUnion(cfg.nodes, s.pending, ready);
  }

  lemma {:induction false} InitialInv(cfg: Config)
    requires DistinctNames(cfg.nodes)
    ensures Inv(cfg, InitialState(cfg))
  {
    var s := InitialState(cfg);
    InitialPlaced(cfg);
    PopSplits(PendingOf(cfg.nodes), map[]);
    SubmitFacts(ReadyNodes(PendingOf(cfg.nodes), map[]), false);
    forall f | f in s.futures ensures OnTrack(f, s.outputs, cfg.env) {
      FreshOnTrack(f, s.outputs, cfg.env);
    }
  }

  lemma {:induction false} FreshOnTrack(f: Future, outputs: map<string, Value>, env: Environment)
    requires f.phase == Queued && IsReady(f.node, outputs)
    requires f.live || outputs == map[]
    ensures OnTrack(f, outputs, env)
  {
  }

  lemma {:induction false} SubmitFacts(nodes: seq<Node>, live: bool)
    ensures forall f: Future :: f in Submit(nodes, live) <==> f.live == live && f.phase == Queued && f.node in nodes
    ensures FutureNames(Submit(nodes, live)) == Names(nodes)
    ensures DistinctNames(nodes) ==> DistinctFutures(Submit(nodes, live))
  {
    var fs := Submit(nodes, live);
    forall f: Future | f.live == live && f.phase == Queued && f.node in nodes ensures f in fs {
      var k :| 0 <= k < |nodes| && nodes[k] == f.node;
      assert fs[k] == f;
    }
    forall x | x in Names(nodes) ensures x in FutureNames(fs) {
      var n :| n in nodes && n.name == x;
      assert Future(n, live, Queued) in fs;
    }
  }

  lemma {:induction false} AdvanceInv(cfg: Config, s: State, t: State, i: nat)
    requires Inv(cfg, s) && NextStep(cfg, s, t, Advance(i))
    ensures Inv(cfg, t)
  {
    var f, g := s.futures[i], t.futures[i];
    assert f in s.futures;
    var view := View(f, s.outputs);
    AdvanceAgree(f.node, f.phase, view, s.outputs, cfg.env);
    AdvanceKeepsFinish(f.node, f.phase, s.outputs, cfg.env);
    assert OnTrack(g, t.outputs, cfg.env);
    FuturesReplaced(s.futures, i, g);
    assert s.status.Running? && t == s.(futures := s.futures[i := g]);
    assert Placed(cfg.nodes, t);
  }

  // Another phase changes neither the names of the futures nor the other futures.
  lemma {:induction false} FuturesReplaced(futures: seq<Future>, i: nat, g: Future)
    requires i < |futures| && g.node == futures[i].node
    ensures FutureNames(futures[i := g]) == FutureNames(futures)
    ensures DistinctFutures(futures) ==> DistinctFutures(futures[i := g])
    ensures forall h :: h in futures[i := g] ==> h == g || h in futures
  {
    var after := futures[i := g];
    forall k | 0 <= k < |futures|
      ensures after[k].node.name == futures[k].node.name && after[k] in after && futures[k] in futures
    {
    }
    forall x | x in FutureNames(futures) ensures x in FutureNames(after) {
      var k :| 0 <= k < |futures| && futures[k].node.name == x;
      assert after[k].node.name == x;
    }
    forall x | x in FutureNames(after) ensures x in FutureNames(futures) {
      var k :| 0 <= k < |after| && after[k].node.name == x;
      assert futures[k].node.name == x;
    }
  }

  // More outputs change nothing for a node whose dependencies all have theirs.
  lemma {:induction false} MoreOutputs(n: Node, before: map<string, Value>, more: map<string, Value>, env: Environment)
    requires References(n) <= before.Keys && before.Keys !! more.Keys
    ensures AgreeOn(References(n), before, before + more)
    ensures ExecNode(n, before + more, env) == ExecNode(n, before, env)
  {
    ExecNodeAgree(n, before, before + more, env);
  }

  // Moving `done` from in-flight to completed and `ready` from pending to in-flight.
  lemma {:induction false} PlacedAfter(
    nodes: seq<Node>, s: State, t: State, done: seq<Node>, ready: seq<Node>, rest: seq<Future>)
    requires Placed(nodes, s)
    requires t.futures == rest + Submit(ready, true)
    requires t.completed == s.completed + done && t.outputs.Keys == s.outputs.Keys + Names(done)
    requires DistinctNames(t.pending) && DistinctNames(ready) && Names(ready) !! Names(t.pending)
    requires forall n :: n in s.pending <==> n in t.pending || n in ready
    requires DistinctNames(done) && forall n :: n in done ==> n in nodes
    requires DistinctFutures(rest) && forall f :: f in rest ==> f in s.futures
    requires FutureNames(s.futures) == FutureNames(rest) + Names(done) && FutureNames(rest) !! Names(done)
    ensures Placed(nodes, t)
  {
    SubmitFacts(ready, true);
    NamesOfUnion(s.pending, t.pending, ready);
    NamesOfUnion(t.completed, s.completed, done);
    DistinctConcat(s.completed, done);
    DistinctFuturesConcat(rest, Submit(ready, true));
    assert FutureNames(t.futures) == FutureNames(rest) + Names(ready);
  }

  // The collected futures and the others together are all of them.
  lemma {:induction false} BatchSplits(futures: seq<Future>, batch: set<string>)
    requires DistinctFutures(futures)
    ensures FutureNames(futures) == FutureNames(Drop(futures, batch)) + Names(BatchNodes(futures, batch))
    ensures FutureNames(Drop(futures, batch)) !! Names(BatchNodes(futures, batch))
  {
    DropSplits(futures, batch);
    BatchNodesFacts(futures, batch);
    forall f | f in futures
      ensures f.node.name in FutureNames(Drop(futures, batch)) + Names(BatchNodes(futures, batch)) {
      if f.node.name in batch {
        assert f.node in BatchNodes(futures, batch);
      } else {
        assert f in Drop(futures, batch);
      }
    }
  }

  lemma {:induction false} CollectedPlaced(nodes: seq<Node>, s: State, batch: set<string>)
    requires Placed(nodes, s)
    requires forall f :: f in s.futures && f.node.name in batch ==> Succeeded(f)
    ensures Placed(nodes, Collected(s, batch))
  {
    var t := Collected(s, batch);
    PopSplits(s.pending, t.outputs);
    DropSplits(s.futures, batch);
    BatchSplits(s.futures, batch);
    BatchNodesFacts(s.futures, batch);
    BatchOutputsFacts(s.futures, batch);
    PlacedAfter(nodes, s, t, BatchNodes(s.futures, batch), ReadyNodes(s.pending, t.outputs), Drop(s.futures, batch));
  }

  lemma {:induction false} DistinctConcat(a: seq<Node>, b: seq<Node>)
    requires DistinctNames(a) && DistinctNames(b) && Names(a) !! Names(b)
    ensures DistinctNames(a + b)
  {
    var all := a + b;
    forall i, j | 0 <= i < j < |all| ensures all[i].name != all[j].name {
      if i < |a| <= j {
        assert all[i].name in Names(a) && all[j].name in Names(b);
      }
    }
  }

  lemma {:induction false} DistinctFuturesConcat(a: seq<Future>, b: seq<Future>)
    requires DistinctFutures(a) && DistinctFutures(b) && FutureNames(a) !! FutureNames(b)
    ensures DistinctFutures(a + b)
  {
    var all := a + b;
    forall i, j | 0 <= i < j < |all| ensures all[i].node.name != all[j].node.name {
      if i < |a| <= j {
        assert all[i] in a && all[j] in b;
        assert all[i].node.name in FutureNames(a) && all[j].node.name in FutureNames(b);
      }
    }
  }

  lemma {:induction false} CompletedJustified(
    completed: seq<Node>, done: seq<Node>, before: map<string, Value>, more: map<string, Value>, env: Environment)
    requires forall n :: n in completed ==> Justified(n, before, env)
    requires forall n :: n in done ==>
        References(n) <= before.Keys && n.name in more && ExecNode(n, before, env) == Ok(more[n.name])
    requires before.Keys !! more.Keys
    ensures forall n :: n in completed + done ==> Justified(n, before + more, env)
  {
    forall n | n in completed + done ensures Justified(n, before + more, env) {
      assert n in completed || n in done;
      MoreOutputs(n, before, more, env);
    }
  }

  lemma {:induction false} CompletedInOrder(completed: seq<Node>, done: seq<Node>, before: map<string, Value>)
    requires DependenciesFirst(completed) && Names(completed) == before.Keys
    requires forall n :: n in done ==> References(n) <= before.Keys
    ensures DependenciesFirst(completed + done)
  {
    var all := completed + done;
    forall k | 0 <= k < |all| ensures Preceded(all, k) {
      if k < |completed| {
        assert Preceded(completed, k);
        assert all[..k] == completed[..k];
      } else {
        assert all[k] in done;
        assert all[..k] == completed + done[..k - |completed|];
        NamesOfUnion(all[..k], completed, done[..k - |completed|]);
      }
    }
  }

  // What the invariant says about the nodes of a batch.
  lemma {:induction false} BatchComputed(cfg: Config, s: State, batch: set<string>)
    requires Placed(cfg.nodes, s)
    requires forall f :: f in s.futures ==> OnTrack(f, s.outputs, cfg.env)
    requires forall f :: f in s.futures && f.node.name in batch ==> Succeeded(f)
    ensures s.outputs.Keys !! BatchOutputs(s.futures, batch).Keys
    ensures forall n :: n in BatchNodes(s.futures, batch) ==>
              && References(n) <= s.outputs.Keys
              && n.name in BatchOutputs(s.futures, batch)
              && ExecNode(n, s.outputs, cfg.env) == Ok(BatchOutputs(s.futures, batch)[n.name])
  {
    BatchNodesFacts(s.futures, batch);
    BatchOutputsFacts(s.futures, batch);
    BatchSplits(s.futures, batch);
    forall n | n in BatchNodes(s.futures, batch)
      ensures References(n) <= s.outputs.Keys && n.name in BatchOutputs(s.futures, batch)
      ensures ExecNode(n, s.outputs, cfg.env) == Ok(BatchOutputs(s.futures, batch)[n.name])
    {
      var f :| f in s.futures && f.node == n && f.node.name in batch;
      assert OnTrack(f, s.outputs, cfg.env) && Succeeded(f);
    }
  }

  lemma {:induction false} StaysOnTrack(
    f: Future, before: map<string, Value>, more: map<string, Value>, env: Environment)
    requires OnTrack(f, before, env) && before.Keys !! more.Keys
    ensures OnTrack(f, before + more, env)
  {
    MoreOutputs(f.node, before, more, env);
    FinishAgree(f.node, f.phase, before, before + more, env);
  }

  lemma {:induction false} CollectedOnTrack(cfg: Config, s: State, batch: set<string>)
    requires forall f :: f in s.futures ==> OnTrack(f, s.outputs, cfg.env)
    requires s.outputs.Keys !! BatchOutputs(s.futures, batch).Keys
    requires forall f :: f in s.futures && f.node.name in batch ==> Succeeded(f)
    ensures forall f :: f in Collected(s, batch).futures ==> OnTrack(f, Collected(s, batch).outputs, cfg.env)
  {
    var t := Collected(s, batch);
    var ready, more := ReadyNodes(s.pending, t.outputs), BatchOutputs(s.futures, batch);
    PopSplits(s.pending, t.outputs);
    SubmitFacts(ready, true);
    DropSplits(s.futures, batch);
    forall f | f in t.futures ensures OnTrack(f, t.outputs, cfg.env) {
      if f in Drop(s.futures, batch) {
        StaysOnTrack(f, s.outputs, more, cfg.env);
      } else {
        assert f in Submit(ready, true);
        FreshOnTrack(f, t.outputs, cfg.env);
      }
    }
  }

  lemma {:induction false} CollectedInv(cfg: Config, s: State, batch: set<string>)
    requires Inv(cfg, s) && s.status.Running?
    requires forall f :: f in s.futures && f.node.name in batch ==> Succeeded(f)
    ensures Inv(cfg, Collected(s, batch))
  {
    var t := Collected(s, batch);
    CollectedPlaced(cfg.nodes, s, batch);
    BatchComputed(cfg, s, batch);
    CompletedJustified(s.completed, BatchNodes(s.futures, batch), s.outputs, BatchOutputs(s.futures, batch), cfg.env);
    CompletedInOrder(s.completed, BatchNodes(s.futures, batch), s.outputs);
    CollectedOnTrack(cfg, s, batch);
    PopSplits(s.pending, t.outputs);
  }

  lemma {:induction false} RaisedInv(cfg: Config, s: State, batch: set<string>, failure: Failure)
    requires Inv(cfg, s) && Failing(s, batch, failure)
    ensures Inv(cfg, s.(status := Raised(failure)))
  {
    var t := s.(status := Raised(failure));
    assert Placed(cfg.nodes, t);
  }

  lemma {:induction false} ReturnedInv(cfg: Config, s: State)
    requires Inv(cfg, s) && |s.outputs| == |cfg.nodes|
    ensures Inv(cfg, s.(status := Returned))
  {
    assert Placed(cfg.nodes, s.(status := Returned));
  }

  lemma {:induction false} NextInv(cfg: Config, s: State, t: State)
    requires Inv(cfg, s) && Next(cfg, s, t)
    ensures Inv(cfg, t)
  {
    var step :| NextStep(cfg, s, t, step);
    match step
    case Advance(i) => AdvanceInv(cfg, s, t, i);
    case Collect(batch) => CollectInv(cfg, s, t, batch);
    case Return => ReturnedInv(cfg, s);
  }

  lemma {:induction false} CollectInv(cfg: Config, s: State, t: State, batch: set<string>)
    requires Inv(cfg, s) && NextStep(cfg, s, t, Collect(batch))
    ensures Inv(cfg, t)
  {
    if forall f :: f in s.futures && f.node.name in batch ==> Succeeded(f) {
      CollectedInv(cfg, s, batch);
    } else {
      var failure :| Failing(s, batch, failure) && t == s.(status := Raised(failure));
      RaisedInv(cfg, s, batch, failure);
    }
  }

  /** Safety over all runs. */
  lemma {:induction false} RunInv(cfg: Config, run: seq<State>, k: nat)
    requires DistinctNames(cfg.nodes) && IsRun(cfg, run) && k < |run|
    ensures Inv(cfg, run[k])
  {
    if k == 0 {
      InitialInv(cfg);
    } else {
      RunInv(cfg, run, k - 1);
      NextInv(cfg, run[k - 1], run[k]);
    }
  }
}
