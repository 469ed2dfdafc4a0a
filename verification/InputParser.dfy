/** How an assignment is resolved against the outputs so far, and how a single node runs. */
module InputParser {
  import opened Prelude
  import opened FlowContracts

  datatype Failure =
    | InputNotFound(name: string)
    | UnsupportedReference(section: string)
    | InputNotFoundFromAncestorNodeOutput(node: string)
    | InvalidReferenceProperty(message: string)
    | ToolFailure(message: string)

  datatype Argument = Argument(name: string, value: Value)

  /** What a run gets from outside: the flow inputs, the tools (deterministic, possibly failing),
      the property accessor of node outputs and Python's `==` on values. */
  datatype Environment = Environment(
    flowInputs: map<string, Value>,
    tool: (string, seq<Argument>) -> Result<Value, string>,
    property: (Value, string) -> Result<Value, string>,
    same: (Value, Value) -> bool)

  function ParseValue(a: InputAssignment, outputs: map<string, Value>, env: Environment): Result<Value, Failure> {
    match a
    case Literal(value) => Ok(value)
    case FlowInput(name, _) =>
      if name in env.flowInputs then Ok(env.flowInputs[name]) else Err(InputNotFound(name))
    case NodeReference(node, section, property) =>
      if section != "output" then Err(UnsupportedReference(section))
      else if node !in outputs then Err(InputNotFoundFromAncestorNodeOutput(node))
      else match env.property(outputs[node], property)
        case Ok(value) => Ok(value)
        case Err(message) => Err(InvalidReferenceProperty(message))
  }

  // Resolves the inputs from position k on, in order, stopping at the first failure.
  function ParseInputs(node: Node, args: seq<Argument>, outputs: map<string, Value>, env: Environment)
    : Result<seq<Argument>, Failure>
    requires |args| <= |node.inputs|
    decreases |node.inputs| - |args|
  {
    if |args| == |node.inputs| then Ok(args)
    else
      var input := node.inputs[|args|];
      match ParseValue(input.assignment, outputs, env)
      case Err(failure) => Err(failure)
      case Ok(value) => ParseInputs(node, args + [Argument(input.name, value)], outputs, env)
  }

  function CallTool(node: Node, args: seq<Argument>, env: Environment): Result<Value, Failure> {
    match env.tool(node.name, args)
    case Ok(value) => Ok(value)
    case Err(message) => Err(ToolFailure(message))
  }

  function RunTool(node: Node, outputs: map<string, Value>, env: Environment): Result<Value, Failure> {
    match ParseInputs(node, [], outputs, env)
    case Err(failure) => Err(failure)
    case Ok(args) => CallTool(node, args, env)
  }

  // One node, from the outputs of the nodes before it.
  function ExecNode(node: Node, outputs: map<string, Value>, env: Environment): Result<Value, Failure> {
    match node.skip
    case None => RunTool(node, outputs, env)
    case Some(skip) =>
      match ParseValue(skip.condition, outputs, env)
      case Err(failure) => Err(failure)
      case Ok(value) =>
        if env.same(value, skip.conditionValue) then ParseValue(skip.returnValue, outputs, env)
        else RunTool(node, outputs, env)
  }

  // Two output maps that a node cannot tell apart.
  ghost predicate AgreeOn(names: set<string>, a: map<string, Value>, b: map<string, Value>) {
    forall x :: x in names ==> x in a && x in b && a[x] == b[x]
  }

  lemma {:induction false} InputReferences(node: Node)
    ensures forall k :: 0 <= k < |node.inputs| && node.inputs[k].assignment.NodeReference?
              ==> node.inputs[k].assignment.node in References(node)
    ensures node.skip.Some? ==>
              && (node.skip.value.condition.NodeReference? ==> node.skip.value.condition.node in References(node))
              && (node.skip.value.returnValue.NodeReference? ==> node.skip.value.returnValue.node in References(node))
  {
    var all := Assignments(node);
    forall k | 0 <= k < |node.inputs| ensures all[k] == node.inputs[k].assignment && all[k] in all {
    }
    if node.skip.Some? {
      assert all[|node.inputs|] == node.skip.value.condition;
      assert all[|node.inputs| + 1] == node.skip.value.returnValue;
    }
  }

  lemma {:induction false} ParseInputsAgree(
    node: Node, args: seq<Argument>, a: map<string, Value>, b: map<string, Value>, env: Environment)
    requires |args| <= |node.inputs| && AgreeOn(References(node), a, b)
    ensures ParseInputs(node, args, a, env) == ParseInputs(node, args, b, env)
    decreases |node.inputs| - |args|
  {
    InputReferences(node);
    if |args| < |node.inputs| {
      var input := node.inputs[|args|];
      assert ParseValue(input.assignment, a, env) == ParseValue(input.assignment, b, env);
      match ParseValue(input.assignment, a, env)
      case Err(_) =>
      case Ok(value) => ParseInputsAgree(node, args + [Argument(input.name, value)], a, b, env);
    }
  }

  // The outcome of a node depends on nothing but the outputs of the nodes it refers to.
  lemma {:induction false} ExecNodeAgree(node: Node, a: map<string, Value>, b: map<string, Value>, env: Environment)
    requires AgreeOn(References(node), a, b)
    ensures ExecNode(node, a, env) == ExecNode(node, b, env)
  {
    InputReferences(node);
    ParseInputsAgree(node, [], a, b, env);
  }
}
