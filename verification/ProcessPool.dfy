/** The pool that runs a batch. */
module ProcessPool {
  import opened FlowContracts

  // Worker threads take tasks from one shared queue.  Each owns a child process with a private input
  // and a private output queue; after a timeout it abandons the process together with both queues
  // and starts a new one.  A worker never looks at the index of a result it receives.

  datatype Task = Task(index: int, inputs: Row)

  datatype LineStatus = Completed | Failed

  datatype LineBody = LineBody(status: LineStatus, aggregationInputs: map<string, Value>)

  datatype LineResult = LineResult(index: int, body: LineBody)

  // What a child puts into its output queue: node and flow run records, and line results.
  datatype Message = RunRecord | LineDone(result: LineResult)

  datatype Child = Idle | Executing(task: Task) | Dead

  datatype Process = Process(inputQueue: seq<Task>, outputQueue: seq<Message>, child: Child)

  datatype Worker = Ready(pid: nat) | Waiting(pid: nat, task: Task) | Exited

  // Processes are never removed: an abandoned one may go on for a while.  `credited` remembers for
  // which task a worker was waiting when it appended the result at the same position.
  datatype State = State(
    tasks: seq<Task>, workers: seq<Worker>, processes: seq<Process>, results: seq<LineResult>, credited: seq<Task>)

  datatype Step =
    | Take(w: nat) | Exit(w: nat) | Receive(w: nat) | Timeout(w: nat)
    | ChildGet(p: nat) | ChildRecord(p: nat) | ChildFinish(p: nat) | ChildLose(p: nat) | ChildDie(p: nat, keep: nat)

  // A batch and what executing a line answers.
  datatype Config = Config(batch: seq<Task>, exec: Row -> LineBody)

  const FRESH_PROCESS := Process([], [], Idle)
  const TIMED_OUT := LineBody(Failed, map[])

  ghost function InitialState(cfg: Config, workerCount: nat): State {
    State(cfg.batch,
          seq(workerCount, i requires 0 <= i < workerCount => Ready(i)),
          seq(workerCount, i requires 0 <= i < workerCount => FRESH_PROCESS),
          [], [])
  }

  ghost predicate NextStep(cfg: Config, s: State, t: State, step: Step) {
    match step
    case Take(w) =>
      && w < |s.workers| && s.workers[w].Ready? && s.workers[w].pid < |s.processes| && s.tasks != []
      && var pid := s.workers[w].pid;
         var process := s.processes[pid];
         t == s.(tasks := s.tasks[1..],
                 workers := s.workers[w := Waiting(pid, s.tasks[0])],
                 processes := s.processes[pid := process.(inputQueue := process.inputQueue + [s.tasks[0]])])
    case Exit(w) =>
      && w < |s.workers| && s.workers[w].Ready? && s.tasks == []
      && t == s.(workers := s.workers[w := Exited])
    case Receive(w) =>
      && w < |s.workers| && s.workers[w].Waiting? && s.workers[w].pid < |s.processes|
      && s.processes[s.workers[w].pid].outputQueue != []
      && var pid := s.workers[w].pid;
         var process := s.processes[pid];
         var processes := s.processes[pid := process.(outputQueue := process.outputQueue[1..])];
         (match process.outputQueue[0]
          case RunRecord => t == s.(processes := processes)
          case LineDone(result) =>
            t == s.(processes := processes, workers := s.workers[w := Ready(pid)],
                    results := s.results + [result], credited := s.credited + [s.workers[w].task]))
    case Timeout(w) =>
      && w < |s.workers| && s.workers[w].Waiting?
      && t == s.(processes := s.processes + [FRESH_PROCESS],
                 workers := s.workers[w := Ready(|s.processes|)],
                 results := s.results + [LineResult(s.workers[w].task.index, TIMED_OUT)],
                 credited := s.credited + [s.workers[w].task])
    case ChildGet(p) =>
      && p < |s.processes| && s.processes[p].child.Idle? && s.processes[p].inputQueue != []
      && t == s.(processes := s.processes[p :=
           s.processes[p].(inputQueue := s.processes[p].inputQueue[1..],
               child := Executing(s.processes[p].inputQueue[0]))])
    case ChildRecord(p) =>
      && p < |s.processes| && s.processes[p].child.Executing?
      && t == s.(processes := s.processes[p :=
           s.processes[p].(outputQueue := s.processes[p].outputQueue + [RunRecord])])
    case ChildFinish(p) =>
      && p < |s.processes| && s.processes[p].child.Executing?
      && var task := s.processes[p].child.task;
         t == s.(processes := s.processes[p :=
           s.processes[p].(outputQueue := s.processes[p].outputQueue +
               [LineDone(LineResult(task.index, cfg.exec(task.inputs)))],
                           child := Idle)])
    case ChildLose(p) =>   // the result could not be serialised
      && p < |s.processes| && s.processes[p].child.Executing?
      && t == s.(processes := s.processes[p := s.processes[p].(child := Idle)])
    case ChildDie(p, keep) =>   // what was not flushed is lost
      && p < |s.processes| && keep <= |s.processes[p].outputQueue|
      && t == s.(processes := s.processes[p :=
           s.processes[p].(child := Dead, outputQueue := s.processes[p].outputQueue[..keep])])
  }

  ghost predicate Next(cfg: Config, s: State, t: State) {
    exists step :: NextStep(cfg, s, t, step)
  }

  ghost predicate IsRun(cfg: Config, workerCount: nat, run: seq<State>) {
    && run != []
    && run[0] == InitialState(cfg, workerCount)
    && forall k :: 0 <= k < |run| - 1 ==> Next(cfg, run[k], run[k + 1])
  }

  ghost predicate Finished(s: State) {
    forall w :: 0 <= w < |s.workers| ==> s.workers[w].Exited?
  }

  // ---------- the queue invariant ----------

  ghost predicate OnlyRecords(queue: seq<Message>) {
    forall m :: m in queue ==> m.RunRecord?
  }

  // Nothing of any line is left in the process.
  ghost predicate Quiet(p: Process) {
    p.inputQueue == [] && p.outputQueue == [] && !p.child.Executing?
  }

  // The process holds at most one trace of a line, and it is this line.
  ghost predicate HandlesOnly(cfg: Config, p: Process, task: Task) {
    || (p.inputQueue == [task] && p.outputQueue == [] && !p.child.Executing?)
    || (p.inputQueue == [] && p.child == Executing(task) && OnlyRecords(p.outputQueue))
    || (p.inputQueue == [] && !p.child.Executing? && OnlyRecords(p.outputQueue))
    || (p.inputQueue == [] && !p.child.Executing? && |p.outputQueue| > 0
        && OnlyRecords(p.outputQueue[..|p.outputQueue| - 1])
        && p.outputQueue[|p.outputQueue| - 1] == LineDone(LineResult(task.index, cfg.exec(task.inputs))))
  }

  ghost predicate WorkerOk(cfg: Config, s: State, w: Worker) {
    match w
    case Exited => true
    case Ready(pid) => pid < |s.processes| && Quiet(s.processes[pid])
    case Waiting(pid, task) => pid < |s.processes| && HandlesOnly(cfg, s.processes[pid], task)
  }

  // No two workers share a process.
  ghost predicate PrivateProcesses(workers: seq<Worker>) {
    forall v, w :: 0 <= v < w < |workers| && !workers[v].Exited? && !workers[w].Exited? ==>
        workers[v].pid != workers[w].pid
  }

  // The result is one of the task it was credited to.
  ghost predicate Credits(cfg: Config, r: LineResult, task: Task) {
    r.index == task.index && (r.body == cfg.exec(task.inputs) || r.body == TIMED_OUT)
  }

  // One result for every task of the batch and no others: the results can be credited to the tasks.
  ghost predicate IsCrediting(cfg: Config, results: seq<LineResult>, credited: seq<Task>) {
    && |credited| == |results|
    && multiset(credited) == multiset(cfg.batch)
    && forall k :: 0 <= k < |results| ==> Credits(cfg, results[k], credited[k])
  }

  // How many workers are waiting for the task.
  function WaitingFor(workers: seq<Worker>, task: Task): nat {
    if workers == [] then 0
    else WaitingFor(workers[..|workers| - 1], task) + WaitsFor(workers[|workers| - 1], task)
  }

  function WaitsFor(w: Worker, task: Task): nat {
    if w.Waiting? && w.task == task then 1 else 0
  }

  ghost predicate WorkersOk(cfg: Config, s: State) {
    && (forall w :: w in s.workers ==> WorkerOk(cfg, s, w))
    && PrivateProcesses(s.workers)
  }

  // Every task is credited, in the hands of a worker or still queued.
  ghost predicate BooksBalance(cfg: Config, s: State) {
    && |s.credited| == |s.results|
    && (forall k :: 0 <= k < |s.results| ==> Credits(cfg, s.results[k], s.credited[k]))
    && (forall task :: multiset(s.credited)[task] + WaitingFor(s.workers, task) + multiset(s.tasks)[task]
                       == multiset(cfg.batch)[task])
    && ((exists w :: w in s.workers && w.Exited?) ==> s.tasks == [])
  }

  ghost predicate Inv(cfg: Config, s: State) {
    WorkersOk(cfg, s) && BooksBalance(cfg, s)
  }

  lemma {:induction false} ChangeWorker(workers: seq<Worker>, i: nat, w: Worker, task: Task)
    requires i < |workers|
    ensures WaitingFor(workers[i := w], task) + WaitsFor(workers[i], task) ==
        WaitingFor(workers, task) + WaitsFor(w, task)
  {
    var n := |workers| - 1;
    if i == n {
      assert workers[i := w][..n] == workers[..n];
    } else {
      assert workers[i := w][..n] == workers[..n][i := w];
      ChangeWorker(workers[..n], i, w, task);
    }
  }

  // A change of one process and its worker leaves the other workers as they were.
  lemma {:induction false} OthersOk(cfg: Config, s: State, t: State, i: nat, worker: Worker)
    requires WorkersOk(cfg, s) && i < |s.workers| && !s.workers[i].Exited?
    requires t.workers == s.workers[i := worker] && |t.processes| >= |s.processes|
    requires forall p :: 0 <= p < |s.processes| && p != s.workers[i].pid ==> t.processes[p] == s.processes[p]
    requires WorkerOk(cfg, t, worker)
    requires worker.Exited? || worker.pid == s.workers[i].pid || worker.pid >= |s.processes|
    ensures WorkersOk(cfg, t)
  {
    forall w | w in t.workers ensures WorkerOk(cfg, t, w) {
      var k :| 0 <= k < |t.workers| && t.workers[k] == w;
      if k != i {
        assert s.workers[k] in s.workers;
        assert WorkerOk(cfg, s, w);
      }
    }
    forall v, w | 0 <= v < w < |t.workers| && !t.workers[v].Exited? && !t.workers[w].Exited?
      ensures t.workers[v].pid != t.workers[w].pid {
      assert s.workers[v] in s.workers && s.workers[w] in s.workers;
      assert WorkerOk(cfg, s, s.workers[v]) && WorkerOk(cfg, s, s.workers[w]);
    }
  }

  lemma {:induction false} InitialInv(cfg: Config, workerCount: nat)
    ensures Inv(cfg, InitialState(cfg, workerCount))
  {
    forall task {
      NobodyWaiting(InitialState(cfg, workerCount).workers, task);
    }
  }

  lemma {:induction false} NobodyWaiting(workers: seq<Worker>, task: Task)
    requires forall w :: w in workers ==> !w.Waiting?
    ensures WaitingFor(workers, task) == 0
  {
    if workers != [] {
      NobodyWaiting(workers[..|workers| - 1], task);
      assert workers[|workers| - 1] in workers;
    }
  }

  lemma {:induction false} ExitedTransfers(workers: seq<Worker>, i: nat, worker: Worker)
    requires i < |workers| && !worker.Exited?
    ensures (exists w :: w in workers[i := worker] && w.Exited?) ==> exists w :: w in workers && w.Exited?
  {
    if w :| w in workers[i := worker] && w.Exited? {
      var k :| 0 <= k < |workers| && workers[i := worker][k] == w;
      assert workers[k] in workers;
    }
  }

  lemma {:induction false} TakeInv(cfg: Config, s: State, t: State, w: nat)
    requires Inv(cfg, s) && NextStep(cfg, s, t, Take(w))
    ensures Inv(cfg, t)
  {
    assert WorkersOk(cfg, t) by {
      assert s.workers[w] in s.workers;
      assert WorkerOk(cfg, s, s.workers[w]);
      OthersOk(cfg, s, t, w, t.workers[w]);
    }
    assert BooksBalance(cfg, t) by {
      TakeBooks(cfg, s, t, w, s.workers[w].pid);
    }
  }

  // The first task moves from the queue into the hands of a worker.
  lemma {:induction false} TakeBooks(cfg: Config, s: State, t: State, w: nat, pid: nat)
    requires BooksBalance(cfg, s) && w < |s.workers| && s.workers[w].Ready? && s.tasks != []
    requires t.workers == s.workers[w := Waiting(pid, s.tasks[0])] && t.tasks == s.tasks[1..]
    requires t.results == s.results && t.credited == s.credited
    ensures BooksBalance(cfg, t)
  {
    forall task {
      ChangeWorker(s.workers, w, t.workers[w], task);
    }
    assert s.tasks == [s.tasks[0]] + s.tasks[1..];
    ExitedTransfers(s.workers, w, t.workers[w]);
  }

  lemma {:induction false} ExitInv(cfg: Config, s: State, t: State, w: nat)
    requires Inv(cfg, s) && NextStep(cfg, s, t, Exit(w))
    ensures Inv(cfg, t)
  {
    OthersOk(cfg, s, t, w, Exited);
    forall task {
      ChangeWorker(s.workers, w, Exited, task);
    }
  }

  // A worker that stops waiting books one result for the task it was waiting for.
  lemma {:induction false} BookResult(cfg: Config, s: State, t: State, w: nat, pid: nat, result: LineResult)
    requires BooksBalance(cfg, s) && w < |s.workers| && s.workers[w].Waiting?
    requires t.workers == s.workers[w := Ready(pid)] && t.tasks == s.tasks
    requires t.results == s.results + [result] && t.credited == s.credited + [s.workers[w].task]
    requires Credits(cfg, result, s.workers[w].task)
    ensures BooksBalance(cfg, t)
  {
    forall task {
      ChangeWorker(s.workers, w, Ready(pid), task);
    }
    ExitedTransfers(s.workers, w, Ready(pid));
  }

  lemma {:induction false} ReceiveInv(cfg: Config, s: State, t: State, w: nat)
    requires Inv(cfg, s) && NextStep(cfg, s, t, Receive(w))
    ensures Inv(cfg, t)
  {
    assert s.workers[w] in s.workers;
    assert WorkerOk(cfg, s, s.workers[w]);
    var pid, task := s.workers[w].pid, s.workers[w].task;
    ReceiveFromHandling(cfg, s.processes[pid], task);
    match s.processes[pid].outputQueue[0]
    case RunRecord =>
      assert t.workers == s.workers[w := s.workers[w]];
      OthersOk(cfg, s, t, w, s.workers[w]);
    case LineDone(result) =>
      OthersOk(cfg, s, t, w, Ready(pid));
      BookResult(cfg, s, t, w, pid, result);
  }

  // The first line result a waiting worker finds is that of its own task, and it is the last message.
  lemma {:induction false} ReceiveFromHandling(cfg: Config, p: Process, task: Task)
    requires HandlesOnly(cfg, p, task) && p.outputQueue != []
    ensures var rest := p.(outputQueue := p.outputQueue[1..]);
      match p.outputQueue[0]
      case RunRecord => HandlesOnly(cfg, rest, task)
      case LineDone(result) => Quiet(rest) && Credits(cfg, result, task)
  {
    var queue := p.outputQueue;
    assert queue[0] in queue;
    if !OnlyRecords(queue) {
      var n := |queue| - 1;
      if n > 0 {
        assert queue[..n][0] in queue[..n];
        assert queue[1..][..n - 1] == queue[..n][1..];
      }
    }
  }

  lemma {:induction false} TimeoutInv(cfg: Config, s: State, t: State, w: nat)
    requires Inv(cfg, s) && NextStep(cfg, s, t, Timeout(w))
    ensures Inv(cfg, t)
  {
    OthersOk(cfg, s, t, w, t.workers[w]);
    BookResult(cfg, s, t, w, |s.processes|, LineResult(s.workers[w].task.index, TIMED_OUT));
  }

  ghost predicate ChildStep(step: Step) {
    step.ChildGet? || step.ChildRecord? || step.ChildFinish? || step.ChildLose? || step.ChildDie?
  }

  lemma {:induction false} ChildInv(cfg: Config, s: State, t: State, step: Step)
    requires Inv(cfg, s) && NextStep(cfg, s, t, step) && ChildStep(step)
    ensures Inv(cfg, t)
  {
    var p := step.p;
    forall w | w in t.workers ensures WorkerOk(cfg, t, w) {
      assert WorkerOk(cfg, s, w);
      if !w.Exited? && w.pid == p {
        ChildKeepsHandling(cfg, s, t, step, w);
      }
    }
  }

  lemma {:induction false} ChildKeepsHandling(cfg: Config, s: State, t: State, step: Step, w: Worker)
    requires NextStep(cfg, s, t, step) && ChildStep(step)
    requires WorkerOk(cfg, s, w) && !w.Exited? && w.pid == step.p
    ensures WorkerOk(cfg, t, w)
  {
    var a, b := s.processes[step.p], t.processes[step.p];
    match step
    case ChildGet(_) =>
    case ChildRecord(_) =>
    case ChildFinish(_) =>
      assert b.outputQueue[..|b.outputQueue| - 1] == a.outputQueue;
    case ChildLose(_) =>
    case ChildDie(_, keep) =>
      if keep == |a.outputQueue| {
        assert b.outputQueue == a.outputQueue;
      } else if w.Waiting? && !OnlyRecords(a.outputQueue) {
        assert b.outputQueue == a.outputQueue[..|a.outputQueue| - 1][..keep];
      }
  }

  lemma {:induction false} NextInv(cfg: Config, s: State, t: State)
    requires Inv(cfg, s) && Next(cfg, s, t)
    ensures Inv(cfg, t)
  {
    var step :| NextStep(cfg, s, t, step);
    match step
    case Take(w) => TakeInv(cfg, s, t, w);
    case Exit(w) => ExitInv(cfg, s, t, w);
    case Receive(w) => ReceiveInv(cfg, s, t, w);
    case Timeout(w) => TimeoutInv(cfg, s, t, w);
    case _ => ChildInv(cfg, s, t, step);
  }

  lemma {:induction false} RunStepInv(cfg: Config, workerCount: nat, run: seq<State>, k: nat)
    requires IsRun(cfg, workerCount, run) && k < |run| - 1 && Inv(cfg, run[k])
    ensures Inv(cfg, run[k + 1]) && |run[k + 1].workers| == |run[k].workers|
  {
    NextInv(cfg, run[k], run[k + 1]);
    SameWorkerCount(cfg, run[k], run[k + 1]);
  }

  lemma {:induction false} SameWorkerCount(cfg: Config, s: State, t: State)
    requires Next(cfg, s, t)
    ensures |t.workers| == |s.workers|
  {
    var step :| NextStep(cfg, s, t, step);
  }

  lemma {:induction false} RunInv(cfg: Config, workerCount: nat, run: seq<State>, k: nat)
    requires IsRun(cfg, workerCount, run) && k < |run|
    ensures Inv(cfg, run[k]) && |run[k].workers| == workerCount
  {
    if k == 0 {
      InitialInv(cfg, workerCount);
    } else {
      RunInv(cfg, workerCount, run, k - 1);
      RunStepInv(cfg, workerCount, run, k - 1);
    }
  }

  /** A late result is never credited to another line: when a worker takes a task, no message of an
      earlier line is left in the queues it is about to use. */
  lemma {:induction false} NothingLeftAtTake(cfg: Config, workerCount: nat, run: seq<State>, k: nat, w: nat)
    requires IsRun(cfg, workerCount, run) && k < |run|
    requires w < |run[k].workers| && run[k].workers[w].Ready?
    ensures run[k].workers[w].pid < |run[k].processes| && Quiet(run[k].processes[run[k].workers[w].pid])
  {
    RunInv(cfg, workerCount, run, k);
    assert run[k].workers[w] in run[k].workers;
    assert WorkerOk(cfg, run[k], run[k].workers[w]);
  }

  /** Exactly once: when all workers have left, every task of the batch has been credited with exactly
      one result, which carries the index of that task and either what its line computes or the
      timeout; and no other results exist.  That they all leave is stated by FairRunReturns. */
  lemma {:induction false} ExactlyOnce(cfg: Config, workerCount: nat, run: seq<State>)
    requires IsRun(cfg, workerCount, run) && workerCount > 0 && Finished(run[|run| - 1])
    ensures IsCrediting(cfg, run[|run| - 1].results, run[|run| - 1].credited)
    ensures |run[|run| - 1].results| == |cfg.batch|
  {
    var last := run[|run| - 1];
    RunInv(cfg, workerCount, run, |run| - 1);
    assert last.workers[0] in last.workers;
    forall task ensures multiset(last.credited)[task] == multiset(cfg.batch)[task] {
      NobodyWaiting(last.workers, task);
    }
    assert multiset(last.credited) == multiset(cfg.batch);
    assert |multiset(last.credited)| == |last.credited| && |multiset(cfg.batch)| == |cfg.batch|;
  }

  // ---------- the run ends ----------

  function WorkerWork(workers: seq<Worker>): nat {
    if workers == [] then 0
    else WorkerWork(workers[..|workers| - 1])
         + (match workers[|workers| - 1] case Waiting(_, _) => 2 case Ready(_) => 1 case Exited => 0)
  }

  // What the workers still have to do: it falls with every task taken, result obtained and exit.
  function ParentWork(s: State): nat {
    2 * |s.tasks| + WorkerWork(s.workers)
  }

  lemma {:induction false} ChangeWorkerWork(workers: seq<Worker>, i: nat, w: Worker)
    requires i < |workers|
    ensures WorkerWork(workers[i := w]) + WorkerWork([workers[i]]) == WorkerWork(workers) + WorkerWork([w])
  {
    var n := |workers| - 1;
    assert [w][..0] == [] && [workers[i]][..0] == [];
    if i == n {
      assert workers[i := w][..n] == workers[..n];
    } else {
      assert workers[i := w][..n] == workers[..n][i := w];
      ChangeWorkerWork(workers[..n], i, w);
    }
  }

  // A worker takes a task, books a result or leaves.
  ghost predicate GetsOn(s: State, t: State, step: Step) {
    step.Take? || step.Exit? || step.Timeout? || |t.results| > |s.results|
  }

  /** No step raises the parent's work, and a worker that gets on lowers it. */
  lemma {:induction false} ParentProgress(cfg: Config, s: State, t: State, step: Step)
    requires NextStep(cfg, s, t, step)
    ensures ParentWork(t) <= ParentWork(s)
    ensures GetsOn(s, t, step) ==> ParentWork(t) < ParentWork(s)
  {
    if !ChildStep(step) {
      var w := step.w;
      assert [s.workers[w]][..0] == [] && [t.workers[w]][..0] == [];
      ChangeWorkerWork(s.workers, w, t.workers[w]);
      assert t.workers == s.workers[w := t.workers[w]];
    }
  }

  ghost predicate Productive(cfg: Config, s: State, t: State) {
    exists step :: NextStep(cfg, s, t, step) && GetsOn(s, t, step)
  }

  lemma {:induction false} NextWork(cfg: Config, s: State, t: State)
    requires Next(cfg, s, t)
    ensures ParentWork(t) <= ParentWork(s)
    ensures Productive(cfg, s, t) ==> ParentWork(t) < ParentWork(s)
  {
    var step :| NextStep(cfg, s, t, step);
    ParentProgress(cfg, s, t, step);
    if Productive(cfg, s, t) {
      var other :| NextStep(cfg, s, t, other) && GetsOn(s, t, other);
      ParentProgress(cfg, s, t, other);
    }
  }

  /** As long as some worker is left one can get on, if only by timeout. */
  lemma {:induction false} ParentStepEnabled(cfg: Config, s: State) returns (t: State)
    requires Inv(cfg, s) && !Finished(s)
    ensures Productive(cfg, s, t) && Next(cfg, s, t)
  {
    var w :| 0 <= w < |s.workers| && !s.workers[w].Exited?;
    var worker := s.workers[w];
    assert worker in s.workers && WorkerOk(cfg, s, worker);
    if worker.Waiting? {
      t := s.(processes := s.processes + [FRESH_PROCESS],
              workers := s.workers[w := Ready(|s.processes|)],
              results := s.results + [LineResult(worker.task.index, TIMED_OUT)],
              credited := s.credited + [worker.task]);
      assert NextStep(cfg, s, t, Timeout(w)) && GetsOn(s, t, Timeout(w));
    } else if s.tasks == [] {
      t := s.(workers := s.workers[w := Exited]);
      assert NextStep(cfg, s, t, Exit(w)) && GetsOn(s, t, Exit(w));
    } else {
      var process := s.processes[worker.pid];
      t := s.(tasks := s.tasks[1..],
              workers := s.workers[w := Waiting(worker.pid, s.tasks[0])],
              processes := s.processes[worker.pid := process.(inputQueue := process.inputQueue + [s.tasks[0]])]);
      assert NextStep(cfg, s, t, Take(w)) && GetsOn(s, t, Take(w));
    }
  }

  lemma {:induction false} RunSnoc(cfg: Config, workerCount: nat, run: seq<State>, t: State)
    requires IsRun(cfg, workerCount, run) && Next(cfg, run[|run| - 1], t)
    ensures IsRun(cfg, workerCount, run + [t])
  {
    var longer := run + [t];
    forall k | 0 <= k < |longer| - 1 ensures Next(cfg, longer[k], longer[k + 1]) {
      if k < |run| - 1 {
        assert Next(cfg, run[k], run[k + 1]);
      }
    }
  }

  /** From wherever a run has got to, all workers can leave within as many steps as there is work left. */
  lemma {:induction false} RunCanFinish(cfg: Config, workerCount: nat, run: seq<State>) returns (longer: seq<State>)
    requires IsRun(cfg, workerCount, run)
    ensures IsRun(cfg, workerCount, longer) && run <= longer && Finished(longer[|longer| - 1])
    ensures |longer| <= |run| + ParentWork(run[|run| - 1])
    decreases ParentWork(run[|run| - 1])
  {
    if Finished(run[|run| - 1]) {
      longer := run;
    } else {
      var t := RunGetsOn(cfg, workerCount, run);
      var next := run + [t];
      assert next[|next| - 1] == t;
      longer := RunCanFinish(cfg, workerCount, next);
      PrefixOfPrefix(run, t, longer);
    }
  }

  lemma {:induction false} RunGetsOn(cfg: Config, workerCount: nat, run: seq<State>) returns (t: State)
    requires IsRun(cfg, workerCount, run) && !Finished(run[|run| - 1])
    ensures IsRun(cfg, workerCount, run + [t]) && ParentWork(t) < ParentWork(run[|run| - 1])
  {
    RunInv(cfg, workerCount, run, |run| - 1);
    t := ParentStepEnabled(cfg, run[|run| - 1]);
    NextWork(cfg, run[|run| - 1], t);
    RunSnoc(cfg, workerCount, run, t);
  }

  lemma {:induction false} PrefixOfPrefix<T>(a: seq<T>, x: T, b: seq<T>)
    requires a + [x] <= b
    ensures a <= b
  {
    assert (a + [x])[..|a|] == a;
  }

  // How often a worker has got on.
  ghost function ProductiveSteps(cfg: Config, run: seq<State>): nat
    requires run != []
  {
    var n := |run| - 1;
    if n == 0 then 0
    else ProductiveSteps(cfg, run[..n]) + (if Productive(cfg, run[n - 1], run[n]) then 1 else 0)
  }

  lemma {:induction false} InitialWork(cfg: Config, workerCount: nat)
    ensures ParentWork(InitialState(cfg, workerCount)) == 2 * |cfg.batch| + workerCount
  {
    AllReady(InitialState(cfg, workerCount).workers);
  }

  lemma {:induction false} AllReady(workers: seq<Worker>)
    requires forall w :: w in workers ==> w.Ready?
    ensures WorkerWork(workers) == |workers|
  {
    if workers != [] {
      assert workers[|workers| - 1] in workers;
      AllReady(workers[..|workers| - 1]);
    }
  }

  /** In any run, however long, the workers get on at most twice for every line and once each. */
  lemma {:induction false} ProductiveStepsBounded(cfg: Config, workerCount: nat, run: seq<State>)
    requires IsRun(cfg, workerCount, run)
    ensures ProductiveSteps(cfg, run) + ParentWork(run[|run| - 1]) <= 2 * |cfg.batch| + workerCount
  {
    var n := |run| - 1;
    if n == 0 {
      InitialWork(cfg, workerCount);
    } else {
      RunPrefix(cfg, workerCount, run);
      ProductiveStepsBounded(cfg, workerCount, run[..n]);
      assert Next(cfg, run[n - 1], run[n - 1 + 1]);
      NextWork(cfg, run[n - 1], run[n]);
    }
  }

  lemma {:induction false} RunPrefix(cfg: Config, workerCount: nat, run: seq<State>)
    requires IsRun(cfg, workerCount, run) && |run| > 1
    ensures IsRun(cfg, workerCount, run[..|run| - 1])
  {
    var init := run[..|run| - 1];
    forall k | 0 <= k < |init| - 1 ensures Next(cfg, init[k], init[k + 1]) {
      assert Next(cfg, run[k], run[k + 1]);
    }
  }

  // ---------- infinite runs ----------

  ghost predicate StepAt(cfg: Config, states: nat -> State, k: nat) {
    Next(cfg, states(k), states(k + 1))
  }

  ghost predicate IsInfiniteRun(cfg: Config, workerCount: nat, states: nat -> State) {
    states(0) == InitialState(cfg, workerCount) && forall k :: StepAt(cfg, states, k)
  }

  ghost predicate FinishedAt(states: nat -> State, k: nat) {
    Finished(states(k))
  }

  ghost predicate ProductiveAt(cfg: Config, states: nat -> State, k: nat) {
    Productive(cfg, states(k), states(k + 1))
  }

  ghost predicate ProductiveFrom(cfg: Config, states: nat -> State, k: nat) {
    exists j :: j >= k && ProductiveAt(cfg, states, j)
  }

  // As long as a worker is left, some worker gets on sooner or later: a ready one takes a task or
  // leaves, and the wait for a result ends with the result or with the timeout.
  ghost predicate Fair(cfg: Config, states: nat -> State) {
    forall k :: FinishedAt(states, k) || ProductiveFrom(cfg, states, k)
  }

  lemma {:induction false} WorkNeverRises(cfg: Config, states: nat -> State, i: nat, j: nat)
    requires (forall k :: StepAt(cfg, states, k)) && i <= j
    ensures ParentWork(states(j)) <= ParentWork(states(i))
    decreases j
  {
    if i < j {
      WorkNeverRises(cfg, states, i, j - 1);
      assert StepAt(cfg, states, j - 1);
      NextWork(cfg, states(j - 1), states(j));
    }
  }

  lemma {:induction false} FinishesFrom(cfg: Config, states: nat -> State, k: nat) returns (n: nat)
    requires (forall i :: StepAt(cfg, states, i)) && Fair(cfg, states)
    ensures FinishedAt(states, n)
    decreases ParentWork(states(k))
  {
    if FinishedAt(states, k) {
      n := k;
    } else {
      assert ProductiveFrom(cfg, states, k);
      var j :| j >= k && ProductiveAt(cfg, states, j);
      WorkNeverRises(cfg, states, k, j);
      assert StepAt(cfg, states, j);
      NextWork(cfg, states(j), states(j + 1));
      n := FinishesFrom(cfg, states, j + 1);
    }
  }

  /** `run` returns, with exactly one result for every line: whatever the children do, a fair infinite
      run comes to a state in which all workers have left, and its results are those of the batch. */
  lemma {:induction false} FairRunReturns(cfg: Config, workerCount: nat, states: nat -> State) returns (n: nat)
    requires IsInfiniteRun(cfg, workerCount, states) && Fair(cfg, states) && workerCount > 0
    ensures Finished(states(n)) && IsCrediting(cfg, states(n).results, states(n).credited)
    ensures |states(n).results| == |cfg.batch|
  {
    n := FinishesFrom(cfg, states, 0);
    var run := seq(n + 1, (k: nat) => states(k));
    forall k | 0 <= k < |run| - 1 ensures Next(cfg, run[k], run[k + 1]) {
      assert StepAt(cfg, states, k);
    }
    ExactlyOnce(cfg, workerCount, run);
  }
}
