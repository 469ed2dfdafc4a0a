/** The sequential meaning of a set of nodes. */
module Evaluation {
  import opened Prelude
  import opened FlowContracts
  import opened InputParser

  // The nodes are evaluated one after the other in an order in which every node follows its
  // dependencies; what comes out does not depend on which order.

  // Run the nodes in the given order; the first failure aborts.
  function EvalInOrder(nodes: seq<Node>, env: Environment): Result<map<string, Value>, Failure> {
    if nodes == [] then Ok(map[])
    else
      var last := nodes[|nodes| - 1];
      match EvalInOrder(nodes[..|nodes| - 1], env)
      case Err(failure) => Err(failure)
      case Ok(outputs) =>
        match ExecNode(last, outputs, env)
        case Err(failure) => Err(failure)
        case Ok(value) => Ok(outputs[last.name := value])
  }

  // As above, but a failing node only takes its dependents down with it.
  ghost function PartialEval(nodes: seq<Node>, env: Environment): map<string, Value> {
    if nodes == [] then map[]
    else
      var last := nodes[|nodes| - 1];
      var outputs := PartialEval(nodes[..|nodes| - 1], env);
      if References(last) <= outputs.Keys && ExecNode(last, outputs, env).Ok?
      then outputs[last.name := ExecNode(last, outputs, env).value]
      else outputs
  }

  // Some node whose dependencies all have outputs fails on them in this way.
  ghost predicate FailsIn(nodes: seq<Node>, outputs: map<string, Value>, env: Environment, failure: Failure) {
    exists n :: n in nodes && FailsAt(n, outputs, env, failure)
  }

  ghost predicate FailsAt(n: Node, outputs: map<string, Value>, env: Environment, failure: Failure) {
    References(n) <= outputs.Keys && ExecNode(n, outputs, env) == Err(failure)
  }

  // A map that gives a node an output exactly when its dependencies have one and it succeeds on them.
  ghost predicate Solution(nodes: seq<Node>, outputs: map<string, Value>, env: Environment) {
    && outputs.Keys <= Names(nodes)
    && forall n :: n in nodes ==> SolvedAt(n, outputs, env)
  }

  ghost predicate SolvedAt(n: Node, outputs: map<string, Value>, env: Environment) {
    if References(n) <= outputs.Keys && ExecNode(n, outputs, env).Ok?
    then n.name in outputs && outputs[n.name] == ExecNode(n, outputs, env).value
    else n.name !in outputs
  }

  lemma {:induction false} TopologicalPrefix(nodes: seq<Node>, k: nat)
    requires Topological(nodes) && k <= |nodes|
    ensures Topological(nodes[..k])
  {
    forall i | 0 <= i < k ensures Preceded(nodes[..k], i) {
      assert Preceded(nodes, i);
      assert nodes[..k][..i] == nodes[..i];
    }
  }

  // The last node of a topological list is new, and no node of the list refers to it.
  lemma {:induction false} LastIsFresh(nodes: seq<Node>)
    requires nodes != [] && Topological(nodes)
    ensures nodes[|nodes| - 1].name !in Names(nodes[..|nodes| - 1])
    ensures forall n :: n in nodes ==> nodes[|nodes| - 1].name !in References(n)
    ensures forall n :: n in nodes ==> References(n) <= Names(nodes[..|nodes| - 1])
    ensures Names(nodes) == Names(nodes[..|nodes| - 1]) + {nodes[|nodes| - 1].name}
  {
    var init, last := nodes[..|nodes| - 1], nodes[|nodes| - 1];
    assert nodes == init + [last];
    forall n | n in nodes ensures References(n) <= Names(init) {
      var k :| 0 <= k < |nodes| && nodes[k] == n;
      assert Preceded(nodes, k);
    }
  }

  // Adding an output no node refers to leaves a node where it was.
  lemma {:induction false} SolvedAtFrame(
    n: Node, before: map<string, Value>, name: string, value: Value, env: Environment)
    requires SolvedAt(n, before, env)
    requires name !in References(n) && n.name != name
    ensures SolvedAt(n, before[name := value], env)
  {
    var after := before[name := value];
    if References(n) <= before.Keys {
      ExecNodeAgree(n, before, after, env);
    }
  }

  lemma {:induction false} SolutionExtends(
    nodes: seq<Node>, before: map<string, Value>, after: map<string, Value>, env: Environment)
    requires nodes != [] && Topological(nodes)
    requires Solution(nodes[..|nodes| - 1], before, env)
    requires var last := nodes[|nodes| - 1];
      after == if References(last) <= before.Keys && ExecNode(last, before, env).Ok?
               then before[last.name := ExecNode(last, before, env).value] else before
    ensures Solution(nodes, after, env)
  {
    var init, last := nodes[..|nodes| - 1], nodes[|nodes| - 1];
    LastIsFresh(nodes);
    forall n | n in nodes ensures SolvedAt(n, after, env) {
      if n == last {
        if References(n) <= before.Keys {
          ExecNodeAgree(n, before, after, env);
        }
      } else {
        assert n in init;
        if after != before {
          SolvedAtFrame(n, before, last.name, after[last.name], env);
        }
      }
    }
  }

  lemma {:induction false} PartialEvalSolves(nodes: seq<Node>, env: Environment)
    requires Topological(nodes)
    ensures Solution(nodes, PartialEval(nodes, env), env)
  {
    if nodes != [] {
      TopologicalPrefix(nodes, |nodes| - 1);
      PartialEvalSolves(nodes[..|nodes| - 1], env);
      SolutionExtends(nodes, PartialEval(nodes[..|nodes| - 1], env), PartialEval(nodes, env), env);
    }
  }

  lemma {:induction false} SolutionUnique(
    nodes: seq<Node>, a: map<string, Value>, b: map<string, Value>, k: nat, env: Environment)
    requires Topological(nodes) && k <= |nodes|
    requires Solution(nodes, a, env) && Solution(nodes, b, env)
    ensures forall x :: x in Names(nodes[..k]) ==> (x in a <==> x in b) && (x in a ==> a[x] == b[x])
  {
    if k > 0 {
      SolutionUnique(nodes, a, b, k - 1, env);
      var n := nodes[k - 1];
      assert nodes[..k] == nodes[..k - 1] + [n];
      assert Preceded(nodes, k - 1);
      assert SolvedAt(n, a, env) && SolvedAt(n, b, env);
      if References(n) <= a.Keys {
        ExecNodeAgree(n, a, b, env);
      }
    }
  }

  lemma {:induction false} EvalInOrderStep(nodes: seq<Node>, before: map<string, Value>, env: Environment)
    requires nodes != [] && Topological(nodes)
    requires before == PartialEval(nodes[..|nodes| - 1], env)
    requires before.Keys <= Names(nodes[..|nodes| - 1])
    requires EvalInOrder(nodes[..|nodes| - 1], env).Ok? <==> Names(nodes[..|nodes| - 1]) == before.Keys
    requires EvalInOrder(nodes[..|nodes| - 1], env).Ok? ==> EvalInOrder(nodes[..|nodes| - 1], env).value == before
    ensures EvalInOrder(nodes, env).Ok? <==> Names(nodes) == PartialEval(nodes, env).Keys
    ensures EvalInOrder(nodes, env).Ok? ==> EvalInOrder(nodes, env).value == PartialEval(nodes, env)
  {
    LastIsFresh(nodes);
    var last := nodes[|nodes| - 1];
    assert last in nodes;
    assert References(last) <= Names(nodes[..|nodes| - 1]);
    var after := PartialEval(nodes, env);
    if EvalInOrder(nodes[..|nodes| - 1], env).Err? {
      var x :| x in Names(nodes[..|nodes| - 1]) && x !in before;
      assert x != last.name && x !in after;
    } else if ExecNode(last, before, env).Err? {
      assert last.name !in after;
    } else {
      assert after == before[last.name := ExecNode(last, before, env).value];
    }
  }

  lemma {:induction false} EvalInOrderIsPartialEval(nodes: seq<Node>, env: Environment)
    requires Topological(nodes)
    ensures EvalInOrder(nodes, env).Ok? <==> Names(nodes) == PartialEval(nodes, env).Keys
    ensures EvalInOrder(nodes, env).Ok? ==> EvalInOrder(nodes, env).value == PartialEval(nodes, env)
  {
    if nodes == [] {
      assert Names(nodes) == {};
    } else {
      var init := nodes[..|nodes| - 1];
      TopologicalPrefix(nodes, |nodes| - 1);
      LastIsFresh(nodes);
      PartialEvalSolves(init, env);
      EvalInOrderIsPartialEval(init, env);
      EvalInOrderStep(nodes, PartialEval(init, env), env);
    }
  }

  lemma {:induction false} EqualOnNames(a: map<string, Value>, b: map<string, Value>, names: set<string>)
    requires a.Keys <= names && b.Keys <= names
    requires forall x :: x in names ==> (x in a <==> x in b) && (x in a ==> a[x] == b[x])
    ensures a == b
  {
    assert a.Keys == b.Keys;
  }

  /** Any solution over the nodes decides the sequential evaluation of every topological order. */
  lemma {:induction false} SolutionDecides(
    nodes: seq<Node>, order: seq<Node>, outputs: map<string, Value>, env: Environment)
    requires Orders(order, nodes)
    requires Solution(nodes, outputs, env)
    ensures EvalInOrder(order, env).Ok? <==> outputs.Keys == Names(nodes)
    ensures EvalInOrder(order, env).Ok? ==> EvalInOrder(order, env).value == outputs
  {
    PermutationKeepsNames(order, nodes);
    PartialEvalSolves(order, env);
    EvalInOrderIsPartialEval(order, env);
    SolutionUnique(order, outputs, PartialEval(order, env), |order|, env);
    assert order[..|order|] == order;
    EqualOnNames(outputs, PartialEval(order, env), Names(order));
  }

  /** Two topological orders of the same nodes both fail or both give the same outputs. */
  lemma {:induction false} OrderIrrelevant(a: seq<Node>, b: seq<Node>, env: Environment)
    requires multiset(a) == multiset(b) && Topological(a) && Topological(b)
    ensures EvalInOrder(a, env).Ok? <==> EvalInOrder(b, env).Ok?
    ensures EvalInOrder(a, env).Ok? ==> EvalInOrder(a, env).value == EvalInOrder(b, env).value
  {
    PartialEvalSolves(a, env);
    PermutationKeepsNames(a, b);
    SolutionDecides(a, b, PartialEval(a, env), env);
    SolutionDecides(a, a, PartialEval(a, env), env);
  }

  lemma {:induction false} OrderedSolution(order: seq<Node>, nodes: seq<Node>, env: Environment)
    requires Orders(order, nodes)
    ensures Solution(nodes, PartialEval(order, env), env)
  {
    PartialEvalSolves(order, env);
    PermutationKeepsNames(order, nodes);
  }

  // A node that fails on the outputs it can have makes the one-by-one evaluation fail.
  lemma {:induction false} FailingEvaluation(order: seq<Node>, nodes: seq<Node>, env: Environment, failure: Failure)
    requires Orders(order, nodes) && FailsIn(nodes, PartialEval(order, env), env, failure)
    ensures EvalInOrder(order, env).Err?
  {
    var n :| n in nodes && FailsAt(n, PartialEval(order, env), env, failure);
    OrderedSolution(order, nodes, env);
    assert SolvedAt(n, PartialEval(order, env), env);
    PermutationKeepsNames(order, nodes);
    assert n.name in Names(order);
    EvalInOrderIsPartialEval(order, env);
  }

  lemma {:induction false} FailureStays(nodes: seq<Node>, n: Node, env: Environment, failure: Failure)
    requires nodes != [] && Topological(nodes) && n in nodes[..|nodes| - 1]
    requires FailsAt(n, PartialEval(nodes[..|nodes| - 1], env), env, failure)
    ensures FailsAt(n, PartialEval(nodes, env), env, failure)
  {
    LastIsFresh(nodes);
    assert n in nodes;
    ExecNodeAgree(n, PartialEval(nodes[..|nodes| - 1], env), PartialEval(nodes, env), env);
  }

  lemma {:induction false} FirstFailure(nodes: seq<Node>, env: Environment)
    requires nodes != [] && Topological(nodes)
    requires EvalInOrder(nodes[..|nodes| - 1], env).Ok? && EvalInOrder(nodes, env).Err?
    ensures FailsAt(nodes[|nodes| - 1], PartialEval(nodes, env), env, EvalInOrder(nodes, env).error)
  {
    var init := nodes[..|nodes| - 1];
    TopologicalPrefix(nodes, |nodes| - 1);
    LastIsFresh(nodes);
    EvalInOrderIsPartialEval(init, env);
    assert nodes[|nodes| - 1] in nodes;
  }

  /** The one-by-one evaluation too fails with the failure of a node that has all its dependencies. */
  lemma {:induction false} EvaluationFailsIn(nodes: seq<Node>, env: Environment)
    requires Topological(nodes) && EvalInOrder(nodes, env).Err?
    ensures FailsIn(nodes, PartialEval(nodes, env), env, EvalInOrder(nodes, env).error)
  {
    var init, failure := nodes[..|nodes| - 1], EvalInOrder(nodes, env).error;
    if EvalInOrder(init, env).Err? {
      TopologicalPrefix(nodes, |nodes| - 1);
      EvaluationFailsIn(init, env);
      var n :| n in init && FailsAt(n, PartialEval(init, env), env, failure);
      FailureStays(nodes, n, env, failure);
    } else {
      FirstFailure(nodes, env);
    }
  }

  /** Ordered nodes evaluate to these outputs if and only if there is one for each of them, and each is
      what its node computes from the others. */
  lemma {:induction false} EvaluationMeans(nodes: seq<Node>, env: Environment, outputs: map<string, Value>)
    requires Topological(nodes)
    ensures EvalInOrder(nodes, env) == Ok(outputs) <==>
      && outputs.Keys == Names(nodes)
      && forall n :: n in nodes ==> n.name in outputs && ExecNode(n, outputs, env) == Ok(outputs[n.name])
  {
    assert Orders(nodes, nodes);
    OrderedSolution(nodes, nodes, env);
    EvalInOrderIsPartialEval(nodes, env);
    OrderedIsClosed(nodes, nodes);
    if EvalInOrder(nodes, env) == Ok(outputs) {
      forall n | n in nodes ensures n.name in outputs && ExecNode(n, outputs, env) == Ok(outputs[n.name]) {
        assert n.name in Names(nodes) && SolvedAt(n, outputs, env);
      }
    }
    if && outputs.Keys == Names(nodes)
       && forall n :: n in nodes ==> n.name in outputs && ExecNode(n, outputs, env) == Ok(outputs[n.name])
    {
      forall n | n in nodes ensures SolvedAt(n, outputs, env) {
      }
      SolutionDecides(nodes, nodes, outputs, env);
    }
  }
}
