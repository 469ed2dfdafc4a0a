/** What running a node answers. */
module NodeOutcome {
  import opened Prelude
  import opened FlowContracts
  import opened InputParser

  // The meaning of assignments and nodes as relations, independent of the order in which the parser
  // looks at things.

  // ---------- assignments ----------

  ghost predicate ResolvesTo(a: InputAssignment, outputs: map<string, Value>, env: Environment, value: Value) {
    || (a.Literal? && value == a.value)
    || (a.FlowInput? && a.name in env.flowInputs && value == env.flowInputs[a.name])
    || (a.NodeReference? && a.section == "output" && a.node in outputs
        && env.property(outputs[a.node], a.property) == Ok(value))
  }

  ghost predicate Unresolvable(a: InputAssignment, outputs: map<string, Value>, env: Environment, failure: Failure) {
    || (a.FlowInput? && a.name !in env.flowInputs && failure == InputNotFound(a.name))
    || (a.NodeReference? && a.section != "output" && failure == UnsupportedReference(a.section))
    || (a.NodeReference? && a.section == "output" && a.node !in outputs
        && failure == InputNotFoundFromAncestorNodeOutput(a.node))
    || (a.NodeReference? && a.section == "output" && a.node in outputs && failure.InvalidReferenceProperty?
        && env.property(outputs[a.node], a.property) == Err(failure.message))
  }

  /** An assignment resolves to the value it stands for, and to nothing else; otherwise it fails for the
      one reason that applies. */
  lemma {:induction false} ParseValueMeans(a: InputAssignment, outputs: map<string, Value>, env: Environment)
    ensures forall value :: ParseValue(a, outputs, env) == Ok(value) <==> ResolvesTo(a, outputs, env, value)
    ensures forall failure :: ParseValue(a, outputs, env) == Err(failure) <==> Unresolvable(a, outputs, env, failure)
  {
    var r := ParseValue(a, outputs, env);
    if a.NodeReference? && a.section == "output" && a.node in outputs {
      match env.property(outputs[a.node], a.property)
      case Ok(value) => assert r == Ok(value);
      case Err(message) => assert r == Err(InvalidReferenceProperty(message));
    }
  }

  // ---------- the arguments of a tool ----------

  ghost predicate ArgumentAt(n: Node, outputs: map<string, Value>, env: Environment, args: seq<Argument>, k: nat) {
    && k < |args| && k < |n.inputs|
    && args[k].name == n.inputs[k].name
    && ResolvesTo(n.inputs[k].assignment, outputs, env, args[k].value)
  }

  // One argument for every input, under its name and in its place.
  ghost predicate Arguments(n: Node, outputs: map<string, Value>, env: Environment, args: seq<Argument>) {
    |args| == |n.inputs| && forall k: nat :: k < |args| ==> ArgumentAt(n, outputs, env, args, k)
  }

  // The input at position k is the first that cannot be resolved.
  ghost predicate FirstUnresolved(n: Node, outputs: map<string, Value>, env: Environment, k: nat, failure: Failure) {
    && k < |n.inputs| && Unresolvable(n.inputs[k].assignment, outputs, env, failure)
    && exists args :: |args| == k && forall j: nat :: j < k ==> ArgumentAt(n, outputs, env, args, j)
  }

  // From the first arguments on, parsing either completes them or stops at an input.
  lemma {:induction false} ParseInputsMeans(n: Node, args: seq<Argument>, outputs: map<string, Value>, env: Environment)
    requires |args| <= |n.inputs| && forall k: nat :: k < |args| ==> ArgumentAt(n, outputs, env, args, k)
    ensures match ParseInputs(n, args, outputs, env)
      case Ok(all) => Arguments(n, outputs, env, all)
      case Err(failure) => exists k: nat :: FirstUnresolved(n, outputs, env, k, failure)
    decreases |n.inputs| - |args|
  {
    if |args| < |n.inputs| {
      var input := n.inputs[|args|];
      ParseValueMeans(input.assignment, outputs, env);
      match ParseValue(input.assignment, outputs, env)
      case Err(failure) =>
        assert FirstUnresolved(n, outputs, env, |args|, failure);
      case Ok(value) =>
        var longer := args + [Argument(input.name, value)];
        forall k: nat | k < |longer| ensures ArgumentAt(n, outputs, env, longer, k) {
          if k < |args| {
            assert ArgumentAt(n, outputs, env, args, k);
          }
        }
        ParseInputsMeans(n, longer, outputs, env);
    }
  }

  lemma {:induction false} ArgumentsOnce(
    n: Node, outputs: map<string, Value>, env: Environment, a: seq<Argument>, b: seq<Argument>)
    requires Arguments(n, outputs, env, a) && Arguments(n, outputs, env, b)
    ensures a == b
  {
    forall k: nat | k < |a| ensures a[k] == b[k] {
      assert ArgumentAt(n, outputs, env, a, k) && ArgumentAt(n, outputs, env, b, k);
    }
  }

  lemma {:induction false} NotBoth(
    n: Node, outputs: map<string, Value>, env: Environment, args: seq<Argument>, k: nat, failure: Failure)
    requires FirstUnresolved(n, outputs, env, k, failure)
    ensures !Arguments(n, outputs, env, args)
  {
    assert !ArgumentAt(n, outputs, env, args, k);
  }

  lemma {:induction false} NothingEarlier(
    n: Node, outputs: map<string, Value>, env: Environment, j: nat, k: nat, failure: Failure)
    requires FirstUnresolved(n, outputs, env, k, failure) && j < k
    ensures forall other :: !FirstUnresolved(n, outputs, env, j, other)
  {
    var args :| |args| == k && forall i: nat :: i < k ==> ArgumentAt(n, outputs, env, args, i);
    assert ArgumentAt(n, outputs, env, args, j);
  }

  lemma {:induction false} UnresolvedOnce(
    n: Node, outputs: map<string, Value>, env: Environment, j: nat, k: nat, a: Failure, b: Failure)
    requires FirstUnresolved(n, outputs, env, j, a) && FirstUnresolved(n, outputs, env, k, b)
    ensures j == k && a == b
  {
    if j < k {
      NothingEarlier(n, outputs, env, j, k, b);
    } else if k < j {
      NothingEarlier(n, outputs, env, k, j, a);
    }
  }

  // ---------- nodes ----------

  // The tool's answer as the outcome of a node.
  ghost predicate ToolAnswers(n: Node, args: seq<Argument>, env: Environment, outcome: Result<Value, Failure>) {
    match env.tool(n.name, args)
    case Ok(value) => outcome == Ok(value)
    case Err(message) => outcome == Err(ToolFailure(message))
  }

  /** Without a skip condition the tool receives exactly the values of the inputs, by name and in order,
      and its answer is the outcome; or the first input that cannot be resolved makes the node fail. */
  lemma {:induction false} ToolReceives(n: Node, outputs: map<string, Value>, env: Environment)
    requires n.skip.None?
    ensures forall args :: Arguments(n, outputs, env, args) ==> ToolAnswers(n, args, env, ExecNode(n, outputs, env))
    ensures forall k: nat, failure :: FirstUnresolved(n, outputs, env, k, failure) ==>
              ExecNode(n, outputs, env) == Err(failure)
    ensures (exists args :: Arguments(n, outputs, env, args))
         || exists k: nat, failure :: FirstUnresolved(n, outputs, env, k, failure)
  {
    ParseInputsMeans(n, [], outputs, env);
    match ParseInputs(n, [], outputs, env)
    case Ok(all) =>
      forall args | Arguments(n, outputs, env, args) ensures args == all {
        ArgumentsOnce(n, outputs, env, args, all);
      }
      forall k: nat, failure ensures !FirstUnresolved(n, outputs, env, k, failure) {
        if FirstUnresolved(n, outputs, env, k, failure) {
          NotBoth(n, outputs, env, all, k, failure);
        }
      }
    case Err(failure) =>
      var k: nat :| FirstUnresolved(n, outputs, env, k, failure);
      forall args ensures !Arguments(n, outputs, env, args) {
        NotBoth(n, outputs, env, args, k, failure);
      }
      forall j: nat, other | FirstUnresolved(n, outputs, env, j, other) ensures other == failure {
        UnresolvedOnce(n, outputs, env, j, k, other, failure);
      }
  }

  // The skip condition resolves to a value that is the same as the one it is compared with.
  ghost predicate Skipped(n: Node, outputs: map<string, Value>, env: Environment) {
    n.skip.Some? && exists value ::
      ResolvesTo(n.skip.value.condition, outputs, env, value) && env.same(value, n.skip.value.conditionValue)
  }

  // There is no skip condition, or it resolves to a value that differs.
  ghost predicate NotSkipped(n: Node, outputs: map<string, Value>, env: Environment) {
    n.skip.Some? ==> exists value ::
      ResolvesTo(n.skip.value.condition, outputs, env, value) && !env.same(value, n.skip.value.conditionValue)
  }

  /** A skipped node answers with its return value, whatever its tool and its inputs are. */
  lemma {:induction false} SkippedReturns(n: Node, outputs: map<string, Value>, env: Environment)
    requires Skipped(n, outputs, env)
    ensures forall value :: ExecNode(n, outputs, env) == Ok(value)
              <==> ResolvesTo(n.skip.value.returnValue, outputs, env, value)
    ensures forall failure :: ExecNode(n, outputs, env) == Err(failure)
              <==> Unresolvable(n.skip.value.returnValue, outputs, env, failure)
    ensures forall tool, inputs ::
              ExecNode(n.(inputs := inputs), outputs, env.(tool := tool)) == ExecNode(n, outputs, env)
  {
    ParseValueMeans(n.skip.value.condition, outputs, env);
    ParseValueMeans(n.skip.value.returnValue, outputs, env);
    var value :| ResolvesTo(n.skip.value.condition, outputs, env, value)
      && env.same(value, n.skip.value.conditionValue);
    assert ParseValue(n.skip.value.condition, outputs, env) == Ok(value);
    forall tool, inputs
      ensures ExecNode(n.(inputs := inputs), outputs, env.(tool := tool)) == ExecNode(n, outputs, env)
    {
      OtherTool(n.skip.value.condition, outputs, env, tool);
      OtherTool(n.skip.value.returnValue, outputs, env, tool);
    }
  }

  lemma {:induction false} OtherTool(
    a: InputAssignment, outputs: map<string, Value>, env: Environment,
    tool: (string, seq<Argument>) -> Result<Value, string>)
    ensures ParseValue(a, outputs, env.(tool := tool)) == ParseValue(a, outputs, env)
  {
  }

  /** A node whose condition does not hold is run as if it had none. */
  lemma {:induction false} NotSkippedRuns(n: Node, outputs: map<string, Value>, env: Environment)
    requires NotSkipped(n, outputs, env)
    ensures ExecNode(n, outputs, env) == ExecNode(n.(skip := None), outputs, env)
  {
    if n.skip.Some? {
      ParseValueMeans(n.skip.value.condition, outputs, env);
    }
    SameArguments(n, [], outputs, env);
  }

  lemma {:induction false} SameArguments(n: Node, args: seq<Argument>, outputs: map<string, Value>, env: Environment)
    requires |args| <= |n.inputs|
    ensures ParseInputs(n.(skip := None), args, outputs, env) == ParseInputs(n, args, outputs, env)
    decreases |n.inputs| - |args|
  {
    if |args| < |n.inputs| {
      match ParseValue(n.inputs[|args|].assignment, outputs, env)
      case Err(_) =>
      case Ok(value) => SameArguments(n, args + [Argument(n.inputs[|args|].name, value)], outputs, env);
    }
  }

  // A condition that cannot be resolved.
  ghost predicate ConditionFails(n: Node, outputs: map<string, Value>, env: Environment, failure: Failure) {
    n.skip.Some? && Unresolvable(n.skip.value.condition, outputs, env, failure)
  }

  // ---------- the outcome as a relation ----------

  ghost predicate Gives(n: Node, outputs: map<string, Value>, env: Environment, value: Value) {
    || (Skipped(n, outputs, env) && ResolvesTo(n.skip.value.returnValue, outputs, env, value))
    || (NotSkipped(n, outputs, env)
        && exists args :: Arguments(n, outputs, env, args) && env.tool(n.name, args) == Ok(value))
  }

  ghost predicate FailsWith(n: Node, outputs: map<string, Value>, env: Environment, failure: Failure) {
    || ConditionFails(n, outputs, env, failure)
    || (Skipped(n, outputs, env) && Unresolvable(n.skip.value.returnValue, outputs, env, failure))
    || (NotSkipped(n, outputs, env) && exists k: nat :: FirstUnresolved(n, outputs, env, k, failure))
    || (NotSkipped(n, outputs, env) && failure.ToolFailure?
        && exists args :: Arguments(n, outputs, env, args) && env.tool(n.name, args) == Err(failure.message))
  }

  lemma {:induction false} RunOutcome(n: Node, outputs: map<string, Value>, env: Environment)
    requires NotSkipped(n, outputs, env) && !Skipped(n, outputs, env)
    requires forall failure :: !ConditionFails(n, outputs, env, failure)
    ensures forall value :: ExecNode(n, outputs, env) == Ok(value) <==> Gives(n, outputs, env, value)
    ensures forall failure :: ExecNode(n, outputs, env) == Err(failure) <==> FailsWith(n, outputs, env, failure)
  {
    var m := n.(skip := None);
    NotSkippedRuns(n, outputs, env);
    ToolReceives(m, outputs, env);
    forall args ensures Arguments(m, outputs, env, args) <==> Arguments(n, outputs, env, args) {
      forall k: nat ensures ArgumentAt(m, outputs, env, args, k) <==> ArgumentAt(n, outputs, env, args, k) {
      }
    }
    forall k: nat, failure
      ensures FirstUnresolved(m, outputs, env, k, failure) <==> FirstUnresolved(n, outputs, env, k, failure)
    {
      forall args, j: nat ensures ArgumentAt(m, outputs, env, args, j) <==> ArgumentAt(n, outputs, env, args, j) {
      }
    }
  }

  /** The outcome of a node, in all cases. */
  lemma {:induction false} OutcomeMeans(n: Node, outputs: map<string, Value>, env: Environment)
    ensures forall value :: ExecNode(n, outputs, env) == Ok(value) <==> Gives(n, outputs, env, value)
    ensures forall failure :: ExecNode(n, outputs, env) == Err(failure) <==> FailsWith(n, outputs, env, failure)
  {
    if n.skip.None? {
      RunOutcome(n, outputs, env);
    } else {
      ParseValueMeans(n.skip.value.condition, outputs, env);
      match ParseValue(n.skip.value.condition, outputs, env)
      case Err(failure) =>
        assert ConditionFails(n, outputs, env, failure);
      case Ok(value) =>
        if env.same(value, n.skip.value.conditionValue) {
          SkippedReturns(n, outputs, env);
        } else {
          RunOutcome(n, outputs, env);
        }
    }
  }

  lemma {:induction false} NotSkippedTwice(n: Node, outputs: map<string, Value>, env: Environment)
    requires Skipped(n, outputs, env)
    ensures !NotSkipped(n, outputs, env)
  {
    ParseValueMeans(n.skip.value.condition, outputs, env);
  }

  // The output of a node is its return value if its skip condition holds, and otherwise the answer of its
  // tool to the values of its inputs.
  ghost predicate RightOutput(n: Node, outputs: map<string, Value>, env: Environment, value: Value) {
    && (Skipped(n, outputs, env) || NotSkipped(n, outputs, env))
    && (Skipped(n, outputs, env) ==> ResolvesTo(n.skip.value.returnValue, outputs, env, value))
    && (NotSkipped(n, outputs, env) ==>
          exists args :: Arguments(n, outputs, env, args) && env.tool(n.name, args) == Ok(value))
  }

  // Every node has its right output, and there are no other outputs.
  ghost predicate RightOutputs(nodes: seq<Node>, outputs: map<string, Value>, env: Environment) {
    && outputs.Keys == Names(nodes)
    && forall n :: n in nodes ==> n.name in outputs && RightOutput(n, outputs, env, outputs[n.name])
  }

  lemma {:induction false} GivesRightOutput(n: Node, outputs: map<string, Value>, env: Environment, value: Value)
    ensures ExecNode(n, outputs, env) == Ok(value) <==> RightOutput(n, outputs, env, value)
  {
    OutcomeMeans(n, outputs, env);
    if Skipped(n, outputs, env) {
      NotSkippedTwice(n, outputs, env);
    }
  }

  /** A node depends on exactly the nodes that its inputs, its skip condition and its return value name. */
  lemma {:induction false} ReferencesAre(n: Node, x: string)
    ensures x in References(n) <==>
      || (exists k :: 0 <= k < |n.inputs| && n.inputs[k].assignment.NodeReference? && n.inputs[k].assignment.node == x)
      || (n.skip.Some? && n.skip.value.condition.NodeReference? && n.skip.value.condition.node == x)
      || (n.skip.Some? && n.skip.value.returnValue.NodeReference? && n.skip.value.returnValue.node == x)
  {
    InputReferences(n);
    if x in References(n) {
      var a :| a in Assignments(n) && a.NodeReference? && a.node == x;
      var k :| 0 <= k < |Assignments(n)| && Assignments(n)[k] == a;
      assert k < |n.inputs| ==> n.inputs[k].assignment == a;
    }
  }
}
