/** The node scheduler as a state machine. */
module SchedulerMachine {
  import opened Prelude
  import opened FlowContracts
  import opened InputParser
  import opened DagManager

  // The main thread submits ready nodes, waits for finished futures, collects any non-empty batch of
  // them and submits the nodes that became ready.  Pool threads run the submitted nodes; every single
  // look-up in the (live, growing) output dictionary is a step of its own, so look-ups of different
  // nodes and collections by the main thread interleave freely.

  datatype Phase =
    | Queued                               // submitted, not yet taken by a pool thread
    | ReadingSkip                          // about to resolve the skip condition
    | ReadingReturn                        // skipped: about to resolve the return value
    | ReadingInputs(args: seq<Argument>)   // the first |args| inputs are resolved
    | Done(outcome: Result<Value, Failure>)

  // A future reads the live output dictionary, except those of the very first submission,
  // which are handed an empty dictionary of their own.
  datatype Future = Future(node: Node, live: bool, phase: Phase)

  datatype Status = Running | Returned | Raised(failure: Failure)

  // `completed` is the insertion order of the output dictionary.
  datatype State = State(
    pending: seq<Node>, futures: seq<Future>, completed: seq<Node>, outputs: map<string, Value>, status: Status)

  datatype Config = Config(nodes: seq<Node>, workers: nat, env: Environment)

  datatype Step = Advance(i: nat) | Collect(batch: set<string>) | Return

  // ---------- one pool thread ----------

  function View(f: Future, outputs: map<string, Value>): map<string, Value> {
    if f.live then outputs else map[]
  }

  // The next phase of a future that looks at `view`.
  function AdvancePhase(node: Node, phase: Phase, view: map<string, Value>, env: Environment): Phase {
    match phase
    case Queued => if node.skip.Some? then ReadingSkip else ReadingInputs([])
    case ReadingSkip =>
      if node.skip.None? then ReadingInputs([])
      else (
        match ParseValue(node.skip.value.condition, view, env)
        case Err(failure) => Done(Err(failure))
        case Ok(value) => if env.same(value, node.skip.value.conditionValue) then ReadingReturn else ReadingInputs([]))
    case ReadingReturn =>
      if node.skip.None? then phase else Done(ParseValue(node.skip.value.returnValue, view, env))
    case ReadingInputs(args) =>
      if |args| >= |node.inputs| then Done(CallTool(node, args, env))
      else (
        match ParseValue(node.inputs[|args|].assignment, view, env)
        case Err(failure) => Done(Err(failure))
        case Ok(value) => ReadingInputs(args + [Argument(node.inputs[|args|].name, value)]))
    case Done(_) => phase
  }

  ghost predicate WellPhased(node: Node, phase: Phase) {
    && (phase.ReadingSkip? || phase.ReadingReturn? ==> node.skip.Some?)
    && (phase.ReadingInputs? ==> |phase.args| <= |node.inputs|)
  }

  // What a future will answer if it runs to its end without further changes to `outputs`.
  ghost function Finish(node: Node, phase: Phase, outputs: map<string, Value>, env: Environment): Result<Value, Failure>
    requires WellPhased(node, phase)
  {
    match phase
    case Queued => ExecNode(node, outputs, env)
    case ReadingSkip => ExecNode(node, outputs, env)
    case ReadingReturn => ParseValue(node.skip.value.returnValue, outputs, env)
    case ReadingInputs(args) =>
      (match ParseInputs(node, args, outputs, env)
       case Err(failure) => Err(failure)
       case Ok(all) => CallTool(node, all, env))
    case Done(outcome) => outcome
  }

  lemma {:induction false} AdvanceKeepsFinish(node: Node, phase: Phase, outputs: map<string, Value>, env: Environment)
    requires WellPhased(node, phase)
    ensures WellPhased(node, AdvancePhase(node, phase, outputs, env))
    ensures Finish(node, AdvancePhase(node, phase, outputs, env), outputs, env) == Finish(node, phase, outputs, env)
  {
  }

  lemma {:induction false} FinishAgree(
    node: Node, phase: Phase, a: map<string, Value>, b: map<string, Value>, env: Environment)
    requires WellPhased(node, phase) && AgreeOn(References(node), a, b)
    ensures Finish(node, phase, a, env) == Finish(node, phase, b, env)
  {
    InputReferences(node);
    ExecNodeAgree(node, a, b, env);
    if phase.ReadingInputs? {
      ParseInputsAgree(node, phase.args, a, b, env);
    }
  }

  lemma {:induction false} AdvanceAgree(
    node: Node, phase: Phase, a: map<string, Value>, b: map<string, Value>, env: Environment)
    requires WellPhased(node, phase) && AgreeOn(References(node), a, b)
    ensures AdvancePhase(node, phase, a, env) == AdvancePhase(node, phase, b, env)
  {
    InputReferences(node);
  }

  // ---------- the main thread ----------

  function FutureNames(futures: seq<Future>): set<string> {
    set f | f in futures :: f.node.name
  }

  ghost predicate DistinctFutures(futures: seq<Future>) {
    forall i, j :: 0 <= i < j < |futures| ==> futures[i].node.name != futures[j].node.name
  }

  function Submit(nodes: seq<Node>, live: bool): seq<Future> {
    seq(|nodes|, i requires 0 <= i < |nodes| => Future(nodes[i], live, Queued))
  }

  // The futures left after deleting the collected ones.
  function Drop(futures: seq<Future>, batch: set<string>): seq<Future> {
    if futures == [] then []
    else (if futures[0].node.name in batch then [] else [futures[0]]) + Drop(futures[1..], batch)
  }

  function BatchNodes(futures: seq<Future>, batch: set<string>): seq<Node> {
    if futures == [] then []
    else (if futures[0].node.name in batch then [futures[0].node] else []) + BatchNodes(futures[1..], batch)
  }

  predicate Succeeded(f: Future) {
    f.phase.Done? && f.phase.outcome.Ok?
  }

  // The outputs of the collected futures.
  function BatchOutputs(futures: seq<Future>, batch: set<string>): map<string, Value> {
    if futures == [] then map[]
    else
      var head, rest := futures[0], BatchOutputs(futures[1..], batch);
      if head.node.name in batch && Succeeded(head) then rest[head.node.name := head.phase.outcome.value] else rest
  }

  function Busy(futures: seq<Future>): nat {
    if futures == [] then 0
    else (if futures[0].phase.Queued? || futures[0].phase.Done? then 0 else 1) + Busy(futures[1..])
  }

  ghost function InitialState(cfg: Config): State {
    var pending := PendingOf(cfg.nodes);
    State(WaitingNodes(pending, map[]), Submit(ReadyNodes(pending, map[]), false), [], map[], Running)
  }

  // At least one node is still without an output: the loop goes on.
  ghost predicate Looping(cfg: Config, s: State) {
    s.status.Running? && |s.outputs| != |cfg.nodes|
  }

  // `wait` answers with finished futures; it answers with none only if there is nothing to wait for.
  ghost predicate Collectable(cfg: Config, s: State, batch: set<string>) {
    && Looping(cfg, s)
    && batch <= FutureNames(s.futures)
    && (forall f :: f in s.futures && f.node.name in batch ==> f.phase.Done?)
    && (batch == {} ==> s.futures == [])
  }

  ghost predicate Failing(s: State, batch: set<string>, failure: Failure) {
    exists f :: f in s.futures && f.node.name in batch && f.phase == Done(Err(failure))
  }

  ghost function Collected(s: State, batch: set<string>): State
    requires forall f :: f in s.futures && f.node.name in batch ==> Succeeded(f)
  {
    var outputs := s.outputs + BatchOutputs(s.futures, batch);
    State(WaitingNodes(s.pending, outputs),
          Drop(s.futures, batch) + Submit(ReadyNodes(s.pending, outputs), true),
          s.completed + BatchNodes(s.futures, batch),
          outputs,
          s.status)
  }

  ghost predicate NextStep(cfg: Config, s: State, t: State, step: Step) {
    match step
    case Advance(i) =>
      && s.status.Running?
      && i < |s.futures|
      && !s.futures[i].phase.Done?
      && (s.futures[i].phase.Queued? ==> Busy(s.futures) < cfg.workers)
      && var f := s.futures[i];
         var phase := AdvancePhase(f.node, f.phase, View(f, s.outputs), cfg.env);
         t == s.(futures := s.futures[i := f.(phase := phase)])
    case Collect(batch) =>
      && Collectable(cfg, s, batch)
      && (if forall f :: f in s.futures && f.node.name in batch ==> Succeeded(f)
          then t == Collected(s, batch)
          else exists failure :: Failing(s, batch, failure) && t == s.(status := Raised(failure)))
    case Return =>
      && s.status.Running?
      && |s.outputs| == |cfg.nodes|
      && t == s.(status := Returned)
  }

  ghost predicate Next(cfg: Config, s: State, t: State) {
    exists step :: NextStep(cfg, s, t, step)
  }

  // A finite run: it starts in the initial state and every state follows from the one before.
  ghost predicate IsRun(cfg: Config, run: seq<State>) {
    && run != []
    && run[0] == InitialState(cfg)
    && forall k :: 0 <= k < |run| - 1 ==> Next(cfg, run[k], run[k + 1])
  }
}
