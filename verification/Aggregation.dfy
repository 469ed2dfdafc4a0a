/** The bulk run from line results to aggregation nodes. */
module Aggregation {
  import opened Prelude
  import opened FlowContracts
  import opened InputParser
  import opened NodeOutcome
  import opened Evaluation
  import opened FlowRun
  import opened ReferenceText
  import opened LineMerge
  import opened InputsMapping
  import opened ProcessPool
  import opened BatchOrder

  // There is one column per reference and flow input, holding the succeeded lines in order.

  /** A validated flow with the names of its inputs, the tools, the conversion of flow inputs to their
      types, and whether the flow outputs of a line can be built and then serialised. */
  datatype BulkFlow = BulkFlow(
    nodes: seq<Node>,
    inputs: seq<string>,
    env: Environment,
    convert: (string, Value) -> Option<Value>,
    outputsBuilt: (Row, map<string, Value>) -> bool,
    serializable: (Row, map<string, Value>) -> bool)

  datatype BulkError = InputMissing(name: string) | InputOfWrongType(name: string) | IndexError

  // ---------- what aggregation nodes need from the lines ----------

  predicate NormalName(nodes: seq<Node>, name: string) {
    exists n :: n in nodes && n.name == name && !n.aggregation
  }

  // The assignment of an aggregation node refers to a node that is run for every line.
  predicate NeedsColumn(nodes: seq<Node>, a: InputAssignment) {
    a.NodeReference? && NormalName(nodes, a.node)
  }

  function TextOf(a: InputAssignment): string
    requires a.NodeReference?
  {
    Serialize(a).text
  }

  ghost predicate IsAggregationReference(nodes: seq<Node>, text: string) {
    exists n, i :: n in nodes && n.aggregation && 0 <= i < |n.inputs|
      && NeedsColumn(nodes, n.inputs[i].assignment) && TextOf(n.inputs[i].assignment) == text
  }

  // The texts for the first count inputs of a node are collected.
  ghost predicate Collects(nodes: seq<Node>, node: Node, count: nat, texts: set<string>) {
    forall i :: 0 <= i < count && i < |node.inputs| && NeedsColumn(nodes, node.inputs[i].assignment)
      ==> TextOf(node.inputs[i].assignment) in texts
  }

  /** The texts of all references from inputs of aggregation nodes to normal nodes. */
  method AggregationReferences(nodes: seq<Node>) returns (texts: set<string>)
    ensures forall text :: text in texts <==> IsAggregationReference(nodes, text)
  {
    texts := {};
    for k := 0 to |nodes|
      invariant forall text :: text in texts ==> IsAggregationReference(nodes, text)
      invariant forall j :: 0 <= j < k && nodes[j].aggregation ==> Collects(nodes, nodes[j], |nodes[j].inputs|, texts)
    {
      if nodes[k].aggregation {
        texts := ReferencesOfNode(nodes, nodes[k], texts);
      }
    }
    forall text | IsAggregationReference(nodes, text) ensures text in texts {
      var n, i :| n in nodes && n.aggregation && 0 <= i < |n.inputs|
        && NeedsColumn(nodes, n.inputs[i].assignment) && TextOf(n.inputs[i].assignment) == text;
      assert Collects(nodes, n, |n.inputs|, texts);
    }
  }

  // The inner loop: the inputs of one aggregation node.
  method ReferencesOfNode(nodes: seq<Node>, node: Node, before: set<string>) returns (texts: set<string>)
    requires node in nodes && node.aggregation
    ensures before <= texts && Collects(nodes, node, |node.inputs|, texts)
    ensures forall text :: text in texts && text !in before ==> IsAggregationReference(nodes, text)
  {
    texts := before;
    for i := 0 to |node.inputs|
      invariant before <= texts && Collects(nodes, node, i, texts)
      invariant forall text :: text in texts && text !in before ==> IsAggregationReference(nodes, text)
    {
      if NeedsColumn(nodes, node.inputs[i].assignment) {
        texts := texts + {TextOf(node.inputs[i].assignment)};
      }
    }
  }

  // ---------- one line ----------

  // The first of the names that the row lacks.
  function FirstMissing(keys: seq<string>, row: Row): Option<string> {
    if keys == [] then None else if keys[0] !in row then Some(keys[0]) else FirstMissing(keys[1..], row)
  }

  // The row with the named inputs converted; the first that is not of its type fails.
  function ConvertInputs(keys: seq<string>, flow: BulkFlow, row: Row): Result<Row, BulkError> {
    if keys == [] then Ok(row)
    else
      match ConvertInputs(keys[..|keys| - 1], flow, row)
      case Err(error) => Err(error)
      case Ok(converted) =>
        var key := keys[|keys| - 1];
        if key !in row then Ok(converted)
        else match flow.convert(key, row[key])
          case None => Err(InputOfWrongType(key))
          case Some(value) => Ok(converted[key := value])
  }

  // First all flow inputs are looked for, then they are converted.
  function LineInputs(flow: BulkFlow, row: Row): Result<Row, BulkError> {
    match FirstMissing(flow.inputs, row)
    case Some(key) => Err(InputMissing(key))
    case None => ConvertInputs(flow.inputs, flow, row)
  }

  // The flow input can be converted for the row, if it has it.
  predicate Converts(flow: BulkFlow, row: Row, key: string) {
    key in row ==> flow.convert(key, row[key]).Some?
  }

  ghost predicate AllPresent(flow: BulkFlow, row: Row) {
    forall key :: key in flow.inputs ==> key in row
  }

  // The row has every flow input, and each is of its type.
  ghost predicate InputsGood(flow: BulkFlow, row: Row) {
    forall key :: key in flow.inputs ==> key in row && Converts(flow, row, key)
  }

  // The named inputs have their converted values, and everything else is as in the row.
  ghost predicate IsConverted(keys: seq<string>, flow: BulkFlow, row: Row, inputs: Row) {
    && inputs.Keys == row.Keys
    && forall key :: key in row ==>
         if key in keys then flow.convert(key, row[key]) == Some(inputs[key]) else inputs[key] == row[key]
  }

  // The key at position k is the first without the property.
  ghost predicate FirstWithout(keys: seq<string>, holds: string -> bool, key: string) {
    exists k :: 0 <= k < |keys| && keys[k] == key && !holds(key) && forall j :: 0 <= j < k ==> holds(keys[j])
  }

  lemma {:induction false} FirstMissingMeans(keys: seq<string>, row: Row)
    ensures match FirstMissing(keys, row)
      case None => forall key :: key in keys ==> key in row
      case Some(key) => FirstWithout(keys, (k: string) => k in row, key)
  {
    var present := (k: string) => k in row;
    if keys != [] && keys[0] in row {
      FirstMissingMeans(keys[1..], row);
      if FirstMissing(keys[1..], row).Some? {
        var key := FirstMissing(keys, row).value;
        var k :| 0 <= k < |keys| - 1 && keys[1..][k] == key && forall j :: 0 <= j < k ==> present(keys[1..][j]);
        assert keys[k + 1] == key;
        forall j | 0 <= j < k + 1 ensures present(keys[j]) {
          assert j > 0 ==> keys[j] == keys[1..][j - 1];
        }
        assert FirstWithout(keys, present, key);
      }
    } else if keys != [] {
      assert FirstWithout(keys, present, keys[0]);
    }
  }

  lemma {:induction false} ConvertInputsMeans(keys: seq<string>, flow: BulkFlow, row: Row)
    ensures match ConvertInputs(keys, flow, row)
      case Ok(inputs) => (forall key :: key in keys ==> Converts(flow, row, key))
          && IsConverted(keys, flow, row, inputs)
      case Err(error) =>
        error.InputOfWrongType? && FirstWithout(keys, (k: string) => Converts(flow, row, k), error.name)
  {
    if keys != [] {
      var init, key := keys[..|keys| - 1], keys[|keys| - 1];
      var good := (k: string) => Converts(flow, row, k);
      assert keys == init + [key];
      ConvertInputsMeans(init, flow, row);
      match ConvertInputs(init, flow, row)
      case Err(error) =>
        var k :| 0 <= k < |init| && init[k] == error.name && !good(error.name) && forall j :: 0 <= j < k ==>
            good(init[j]);
        assert keys[k] == error.name;
        assert FirstWithout(keys, good, error.name);
      case Ok(inputs) =>
        if !Converts(flow, row, key) {
          assert keys[|init|] == key && forall j :: 0 <= j < |init| ==> good(keys[j]);
          assert FirstWithout(keys, good, key);
        }
    }
  }

  lemma {:induction false} FirstOfMany(keys: seq<string>, holds: string -> bool, a: string, b: string)
    requires FirstWithout(keys, holds, a)
    ensures a in keys && !holds(a) && (FirstWithout(keys, holds, b) ==> a == b)
  {
  }

  lemma {:induction false} ConvertedOnce(keys: seq<string>, flow: BulkFlow, row: Row, a: Row, b: Row)
    requires IsConverted(keys, flow, row, a) && IsConverted(keys, flow, row, b)
    ensures a == b
  {
    forall key | key in a ensures a[key] == b[key] {
    }
  }

  /** A line has its inputs if and only if every flow input is there and of its type; then they are the
      row with the flow inputs converted.  Otherwise the first missing one is reported, or if there is
      none the first of the wrong type. */
  lemma {:induction false} LineInputsMeans(flow: BulkFlow, row: Row)
    ensures forall inputs :: LineInputs(flow, row) == Ok(inputs)
              <==> InputsGood(flow, row) && IsConverted(flow.inputs, flow, row, inputs)
    ensures LineInputs(flow, row).Ok? <==> InputsGood(flow, row)
    ensures forall key :: LineInputs(flow, row) == Err(InputMissing(key))
              <==> FirstWithout(flow.inputs, (k: string) => k in row, key)
    ensures forall key :: LineInputs(flow, row) == Err(InputOfWrongType(key))
              <==> AllPresent(flow, row) && FirstWithout(flow.inputs, (k: string) => Converts(flow, row, k), key)
  {
    var present, good := (k: string) => k in row, (k: string) => Converts(flow, row, k);
    FirstMissingMeans(flow.inputs, row);
    ConvertInputsMeans(flow.inputs, flow, row);
    match FirstMissing(flow.inputs, row)
    case Some(missing) =>
      FirstOfMany(flow.inputs, present, missing, missing);
      forall key {
        FirstOfMany(flow.inputs, present, missing, key);
      }
    case None =>
      match LineInputs(flow, row)
      case Ok(converted) =>
        forall inputs | IsConverted(flow.inputs, flow, row, inputs) ensures inputs == converted {
          ConvertedOnce(flow.inputs, flow, row, inputs, converted);
        }
      case Err(error) =>
        forall key {
          FirstOfMany(flow.inputs, good, error.name, key);
        }
  }

  function LineOutputs(flow: BulkFlow, inputs: Row): Result<map<string, Value>, Failure> {
    EvalInOrder(NormalNodes(flow.nodes), flow.env.(flowInputs := inputs))
  }

  // A reference is looked up by its text, without flow inputs.
  function Extract(flow: BulkFlow, text: string, outputs: map<string, Value>): Result<Value, Failure> {
    ParseValue(Deserialize(Text(text)), outputs, flow.env.(flowInputs := map[]))
  }

  function ExecLine(flow: BulkFlow, references: set<string>, row: Row): LineBody {
    match LineInputs(flow, row)
    case Err(_) => LineBody(Failed, map[])
    case Ok(inputs) =>
      match LineOutputs(flow, inputs)
      case Err(_) => LineBody(Failed, map[])
      case Ok(outputs) =>
        if flow.outputsBuilt(inputs, outputs) && forall text :: text in references ==> Extract(flow, text, outputs).Ok?
        then LineBody(if flow.serializable(inputs, outputs) then Completed else Failed,
                      map text | text in references :: Extract(flow, text, outputs).value)
        else LineBody(Failed, map[])
  }

  /** The normal nodes of a line evaluate to these outputs if and only if there is one for each of them
      and each is right: the return value of a skipped node, the answer of its tool otherwise. */
  lemma {:induction false} LineOutputsMean(flow: BulkFlow, inputs: Row, outputs: map<string, Value>)
    requires Topological(NormalNodes(flow.nodes))
    ensures var nodes, env := NormalNodes(flow.nodes), flow.env.(flowInputs := inputs);
      LineOutputs(flow, inputs) == Ok(outputs) <==> RightOutputs(nodes, outputs, env)
  {
    var nodes, env := NormalNodes(flow.nodes), flow.env.(flowInputs := inputs);
    EvaluationMeans(nodes, env, outputs);
    forall n | n in nodes && n.name in outputs
      ensures RightOutput(n, outputs, env, outputs[n.name]) <==> ExecNode(n, outputs, env) == Ok(outputs[n.name])
    {
      GivesRightOutput(n, outputs, env, outputs[n.name]);
    }
  }

  // The line gets all the way through.
  ghost predicate Succeeds(flow: BulkFlow, references: set<string>, inputs: Row, outputs: map<string, Value>) {
    && LineOutputs(flow, inputs) == Ok(outputs)
    && flow.outputsBuilt(inputs, outputs)
    && flow.serializable(inputs, outputs)
    && forall text :: text in references ==> Extract(flow, text, outputs).Ok?
  }

  ghost predicate LineCompletes(flow: BulkFlow, references: set<string>, row: Row) {
    InputsGood(flow, row) && exists inputs, outputs ::
      IsConverted(flow.inputs, flow, row, inputs) && Succeeds(flow, references, inputs, outputs)
  }

  /** A line is completed if and only if its flow inputs are there and of their types, its normal nodes
      evaluate, its outputs can be built and serialised, and all collected references resolve. */
  lemma {:induction false} CompletedIff(flow: BulkFlow, references: set<string>, row: Row)
    ensures ExecLine(flow, references, row).status.Completed? <==> LineCompletes(flow, references, row)
    ensures ExecLine(flow, references, row).status.Failed? <==> !LineCompletes(flow, references, row)
  {
    LineInputsMeans(flow, row);
    if LineInputs(flow, row).Ok? {
      var converted := LineInputs(flow, row).value;
      if ExecLine(flow, references, row).status.Completed? {
        assert Succeeds(flow, references, converted, LineOutputs(flow, converted).value);
      }
      if LineCompletes(flow, references, row) {
        var inputs, outputs :| IsConverted(flow.inputs, flow, row, inputs)
            && Succeeds(flow, references, inputs, outputs);
        assert LineInputs(flow, row) == Ok(inputs);
      }
    }
  }

  // ---------- the hand-over ----------

  function Get(row: Row, key: string): Value {
    if key in row then row[key] else Null
  }

  function Column(rows: seq<Row>, key: string): seq<Value> {
    Map(rows, (row: Row) => Get(row, key))
  }

  // Position i is what row i has for the key, or null.
  ghost predicate HoldsColumn(column: seq<Value>, rows: seq<Row>, key: string) {
    |column| == |rows| && forall i :: 0 <= i < |rows| ==> column[i] == Get(rows[i], key)
  }

  // Without keys the keys of the first row are taken, so there must be one.
  function Transpose(rows: seq<Row>, keys: set<string>): (columns: Option<map<string, seq<Value>>>)
    ensures columns.None? <==> keys == {} && rows == []
    ensures columns.Some? ==> columns.value.Keys == if keys == {} then rows[0].Keys else keys
    ensures columns.Some? ==> forall key :: key in columns.value ==> HoldsColumn(columns.value[key], rows, key)
  {
    if keys != {} then Some(map key | key in keys :: Column(rows, key))
    else if rows == [] then None
    else Some(map key | key in rows[0] :: Column(rows, key))
  }

  function Succeeded(results: seq<LineResult>): (indexes: seq<nat>)
    ensures forall i :: 0 <= i < |indexes| ==> indexes[i] < |results|
  {
    if results == [] then []
    else
      Succeeded(results[..|results| - 1])
      + (if results[|results| - 1].body.status.Completed? then [|results| - 1] else [])
  }

  function Pick<T>(values: seq<T>, indexes: seq<nat>): seq<T>
    requires forall i :: 0 <= i < |indexes| ==> indexes[i] < |values|
  {
    seq(|indexes|, i requires 0 <= i < |indexes| => values[indexes[i]])
  }

  function EnsureAll(flow: BulkFlow, rows: seq<Row>): Result<seq<Row>, BulkError> {
    if rows == [] then Ok([])
    else
      match EnsureAll(flow, rows[..|rows| - 1])
      case Err(error) => Err(error)
      case Ok(converted) =>
        match LineInputs(flow, rows[|rows| - 1])
        case Err(error) => Err(error)
        case Ok(row) => Ok(converted + [row])
  }

  function AggregationRow(r: LineResult): Row {
    r.body.aggregationInputs
  }

  datatype Columns = Columns(flowInputs: map<string, seq<Value>>, references: map<string, seq<Value>>)

  function HandOver(flow: BulkFlow, references: set<string>, batch: seq<Row>, results: seq<LineResult>)
    : Result<Columns, BulkError>
    requires |results| <= |batch|
  {
    var succeeded := Succeeded(results);
    match EnsureAll(flow, Pick(batch, succeeded))
    case Err(error) => Err(error)
    case Ok(rows) =>
      var flowInputs := Transpose(rows, set k | k in flow.inputs);
      var all := Transpose(Map(results, AggregationRow), references);
      if flowInputs.None? || all.None? then Err(IndexError)
      else Ok(Columns(flowInputs.value,
                      map text | text in all.value :: Pick(all.value[text], succeeded)))
  }

  // ---------- alignment ----------

  // Line j of the batch ran to the end and gave these outputs.
  ghost predicate LineGave(flow: BulkFlow, row: Row, inputs: Row, outputs: map<string, Value>) {
    LineInputs(flow, row) == Ok(inputs) && LineOutputs(flow, inputs) == Ok(outputs)
  }

  lemma {:induction false} SucceededFacts(results: seq<LineResult>)
    ensures forall i, j :: 0 <= i < j < |Succeeded(results)| ==> Succeeded(results)[i] < Succeeded(results)[j]
    ensures forall j: nat :: j in Succeeded(results) <==> j < |results| && results[j].body.status.Completed?
  {
    if results != [] {
      var init := results[..|results| - 1];
      SucceededFacts(init);
      forall j: nat | j < |init| ensures init[j] == results[j] {
      }
    }
  }

  // A completed line has run, and its references could be looked up.
  lemma {:induction false} CompletedRan(
    flow: BulkFlow, references: set<string>, row: Row) returns (inputs: Row, outputs: map<string, Value>)
    requires ExecLine(flow, references, row).status.Completed?
    ensures LineGave(flow, row, inputs, outputs)
    ensures forall key :: key in flow.inputs ==> key in row && flow.convert(key, row[key]) == Some(Get(inputs, key))
    ensures ExecLine(flow, references, row).aggregationInputs.Keys == references
    ensures forall text :: text in references ==>
              Extract(flow, text, outputs) == Ok(ExecLine(flow, references, row).aggregationInputs[text])
  {
    inputs := LineInputs(flow, row).value;
    outputs := LineOutputs(flow, inputs).value;
    LineInputsMeans(flow, row);
  }

  lemma {:induction false} EnsureAllFacts(flow: BulkFlow, rows: seq<Row>)
    ensures EnsureAll(flow, rows).Ok? <==> forall i :: 0 <= i < |rows| ==> LineInputs(flow, rows[i]).Ok?
    ensures EnsureAll(flow, rows).Ok? ==>
      && |EnsureAll(flow, rows).value| == |rows|
      && forall i :: 0 <= i < |rows| ==> LineInputs(flow, rows[i]) == Ok(EnsureAll(flow, rows).value[i])
  {
    if rows != [] {
      EnsureAllFacts(flow, rows[..|rows| - 1]);
    }
  }

  // Position i of every column belongs to the i-th succeeded line.
  ghost predicate ColumnsAligned(
    flow: BulkFlow, references: set<string>, batch: seq<Row>, results: seq<LineResult>, columns: Columns)
    requires |results| <= |batch|
  {
    var succeeded := Succeeded(results);
    && (forall key :: key in flow.inputs ==> key in columns.flowInputs && |columns.flowInputs[key]| == |succeeded|)
    && (forall text :: text in references ==> text in columns.references && |columns.references[text]| == |succeeded|)
    && forall i :: 0 <= i < |succeeded| ==> PositionAligned(flow, references, batch[succeeded[i]], columns, i)
  }

  ghost predicate PositionAligned(flow: BulkFlow, references: set<string>, row: Row, columns: Columns, i: nat) {
    exists inputs, outputs :: LineGave(flow, row, inputs, outputs)
      && (forall key :: key in flow.inputs && key in columns.flowInputs && i < |columns.flowInputs[key]|
            ==> key in row && flow.convert(key, row[key]) == Some(columns.flowInputs[key][i]))
      && (forall text :: text in references && text in columns.references && i < |columns.references[text]|
            ==> Extract(flow, text, outputs) == Ok(columns.references[text][i]))
  }

  /** If the results stand row by row, the hand-over fails only for want of any row to take keys from,
      and otherwise all its columns are aligned. */
  lemma {:induction false} HandOverAligned(
    flow: BulkFlow, references: set<string>, cfg: Config, batch: seq<Row>, numbers: seq<int>,
    results: seq<LineResult>)
    requires RowByRow(cfg, batch, numbers, results)
    requires forall row :: cfg.exec(row) == ExecLine(flow, references, row)
    ensures HandOver(flow, references, batch, results).Err? <==>
              (flow.inputs == [] && Succeeded(results) == []) || (references == {} && results == [])
    ensures HandOver(flow, references, batch, results).Ok? ==>
              ColumnsAligned(flow, references, batch, results, HandOver(flow, references, batch, results).value)
  {
    var succeeded := Succeeded(results);
    var rows := Pick(batch, succeeded);
    SucceededFacts(results);
    forall i | 0 <= i < |rows|
      ensures ExecLine(flow, references, rows[i]) == results[succeeded[i]].body
          && results[succeeded[i]].body.status.Completed?
      ensures LineInputs(flow, rows[i]).Ok?
    {
      SucceededBody(flow, references, cfg, batch, numbers, results, succeeded[i]);
    }
    EnsureAllFacts(flow, rows);
    var keys := set k | k in flow.inputs;
    assert keys == {} <==> flow.inputs == [] by {
      if flow.inputs != [] {
        assert flow.inputs[0] in keys;
      }
    }
    if HandOver(flow, references, batch, results).Ok? {
      var columns := HandOver(flow, references, batch, results).value;
      forall i | 0 <= i < |succeeded| ensures PositionAligned(flow, references, batch[succeeded[i]], columns, i) {
        PositionIsAligned(flow, references, batch, results, columns, i);
      }
    }
  }

  lemma {:induction false} SucceededBody(
    flow: BulkFlow, references: set<string>, cfg: Config, batch: seq<Row>, numbers: seq<int>,
    results: seq<LineResult>, j: nat)
    requires RowByRow(cfg, batch, numbers, results) && j in Succeeded(results)
    requires forall row :: cfg.exec(row) == ExecLine(flow, references, row)
    ensures j < |batch| && ExecLine(flow, references, batch[j]) == results[j].body && results[j].body.status.Completed?
    ensures LineInputs(flow, batch[j]).Ok?
  {
    SucceededFacts(results);
    assert Credits(cfg, results[j], Task(numbers[j], batch[j]));
  }

  lemma {:induction false} PositionIsAligned(
    flow: BulkFlow, references: set<string>, batch: seq<Row>, results: seq<LineResult>, columns: Columns, i: nat)
    requires |results| <= |batch| && i < |Succeeded(results)|
    requires HandOver(flow, references, batch, results) == Ok(columns)
    requires var j := Succeeded(results)[i];
      ExecLine(flow, references, batch[j]) == results[j].body && results[j].body.status.Completed?
    ensures PositionAligned(flow, references, batch[Succeeded(results)[i]], columns, i)
  {
    var j := Succeeded(results)[i];
    var row := batch[j];
    var inputs, outputs := CompletedRan(flow, references, row);
    InputsAtPosition(flow, references, batch, results, columns, i);
    ReferencesAtPosition(flow, references, batch, results, columns, i);
    forall key | key in flow.inputs && key in columns.flowInputs && i < |columns.flowInputs[key]|
      ensures key in row && flow.convert(key, row[key]) == Some(columns.flowInputs[key][i]) {
      assert columns.flowInputs[key][i] == Get(inputs, key);
    }
    forall text | text in references && text in columns.references && i < |columns.references[text]|
      ensures Extract(flow, text, outputs) == Ok(columns.references[text][i]) {
      assert columns.references[text][i] == Get(results[j].body.aggregationInputs, text);
    }
  }

  lemma {:induction false} InputsAtPosition(
    flow: BulkFlow, references: set<string>, batch: seq<Row>, results: seq<LineResult>, columns: Columns, i: nat)
    requires |results| <= |batch| && i < |Succeeded(results)|
    requires HandOver(flow, references, batch, results) == Ok(columns)
    ensures var inputs := LineInputs(flow, batch[Succeeded(results)[i]]);
      inputs.Ok? && forall key :: key in columns.flowInputs ==>
        i < |columns.flowInputs[key]| && columns.flowInputs[key][i] == Get(inputs.value, key)
  {
    var succeeded := Succeeded(results);
    EnsureAllFacts(flow, Pick(batch, succeeded));
    HandOverColumns(flow, references, batch, results, columns);
    var rows := EnsureAll(flow, Pick(batch, succeeded)).value;
    assert Pick(batch, succeeded)[i] == batch[succeeded[i]];
    assert LineInputs(flow, batch[succeeded[i]]) == Ok(rows[i]);
    forall key | key in columns.flowInputs
      ensures i < |columns.flowInputs[key]| && columns.flowInputs[key][i] == Get(rows[i], key)
    {
      assert columns.flowInputs[key] == Column(rows, key);
    }
  }

  lemma {:induction false} ReferencesAtPosition(
    flow: BulkFlow, references: set<string>, batch: seq<Row>, results: seq<LineResult>, columns: Columns, i: nat)
    requires |results| <= |batch| && i < |Succeeded(results)|
    requires HandOver(flow, references, batch, results) == Ok(columns)
    ensures forall text :: text in columns.references ==>
              && i < |columns.references[text]|
              && columns.references[text][i] == Get(results[Succeeded(results)[i]].body.aggregationInputs, text)
  {
    var succeeded, all := Succeeded(results), Map(results, AggregationRow);
    HandOverColumns(flow, references, batch, results, columns);
    assert all[succeeded[i]] == results[succeeded[i]].body.aggregationInputs;
    forall text | text in columns.references
      ensures i < |columns.references[text]| && columns.references[text][i] == Get(all[succeeded[i]], text)
    {
      assert columns.references[text] == Pick(Column(all, text), succeeded);
      assert columns.references[text][i] == Column(all, text)[succeeded[i]];
    }
  }

  lemma {:induction false} HandOverColumns(
    flow: BulkFlow, references: set<string>, batch: seq<Row>, results: seq<LineResult>, columns: Columns)
    requires |results| <= |batch| && HandOver(flow, references, batch, results) == Ok(columns)
    ensures var rows := EnsureAll(flow, Pick(batch, Succeeded(results)));
      rows.Ok? && forall key :: key in columns.flowInputs ==> columns.flowInputs[key] == Column(rows.value, key)
    ensures forall text :: text in columns.references ==>
              columns.references[text] == Pick(Column(Map(results, AggregationRow), text), Succeeded(results))
  {
  }

  /** With results row by row the handed-over lines are exactly those that complete and did not time out. */
  lemma {:induction false} SucceededIff(
    flow: BulkFlow, references: set<string>, cfg: Config, batch: seq<Row>, numbers: seq<int>,
    results: seq<LineResult>)
    requires RowByRow(cfg, batch, numbers, results)
    requires forall row :: cfg.exec(row) == ExecLine(flow, references, row)
    ensures forall j: nat :: j in Succeeded(results) <==>
              j < |results| && results[j].body != TIMED_OUT && LineCompletes(flow, references, batch[j])
  {
    SucceededFacts(results);
    forall j: nat | j < |results|
      ensures j in Succeeded(results) <==> results[j].body != TIMED_OUT && LineCompletes(flow, references, batch[j])
    {
      CompletedIff(flow, references, batch[j]);
      assert Credits(cfg, results[j], Task(numbers[j], batch[j]));
    }
  }

  // ---------- the inputs of aggregation nodes ----------

  // A reference whose text names a column becomes the literal list of that column.
  function TryGetAggregationInput(a: InputAssignment, columns: map<string, seq<Value>>): InputAssignment {
    if a.NodeReference? && TextOf(a) in columns then Literal(List(columns[TextOf(a)])) else a
  }

  /** Literals, flow inputs and references without a column keep their meaning for the node; a reference
      with a column means the list of it, whatever the outputs are. */
  lemma {:induction false} AggregationInputMeans(
    a: InputAssignment, columns: map<string, seq<Value>>, outputs: map<string, Value>, env: Environment, value: Value)
    ensures ResolvesTo(TryGetAggregationInput(a, columns), outputs, env, value) <==>
              if a.NodeReference? && TextOf(a) in columns then value == List(columns[TextOf(a)])
              else ResolvesTo(a, outputs, env, value)
    ensures !(a.NodeReference? && TextOf(a) in columns) ==> TryGetAggregationInput(a, columns) == a
  {
  }

  // The line of the row ran, and the reference has this value on it.
  ghost predicate ValueOnLine(flow: BulkFlow, row: Row, a: InputAssignment, value: Value) {
    exists inputs, outputs ::
      LineGave(flow, row, inputs, outputs) && ParseValue(a, outputs, flow.env.(flowInputs := inputs)) == Ok(value)
  }

  // Looking a faithful reference up by its text is resolving the reference.
  lemma {:induction false} ExtractIsParse(flow: BulkFlow, a: InputAssignment, inputs: Row, outputs: map<string, Value>)
    requires Faithful(a)
    ensures Extract(flow, TextOf(a), outputs) == ParseValue(a, outputs, flow.env.(flowInputs := inputs))
  {
    NodeReferenceRoundTrip(a.node, a.section, a.property);
    assert Deserialize(Text(TextOf(a))) == a;
  }

  lemma {:induction false} ColumnHoldsValue(
    flow: BulkFlow, references: set<string>, row: Row, columns: Columns, a: InputAssignment, i: nat)
    requires Faithful(a) && TextOf(a) in references && TextOf(a) in columns.references
    requires i < |columns.references[TextOf(a)]| && PositionAligned(flow, references, row, columns, i)
    ensures ValueOnLine(flow, row, a, columns.references[TextOf(a)][i])
  {
    var inputs, outputs :| LineGave(flow, row, inputs, outputs)
      && forall text :: text in references && text in columns.references && i < |columns.references[text]|
           ==> Extract(flow, text, outputs) == Ok(columns.references[text][i]);
    ExtractIsParse(flow, a, inputs, outputs);
  }

  /** An input `${n.output.p}` of an aggregation node receives exactly the values of that reference on
      the succeeded lines, in line order. */
  lemma {:induction false} AggregationInputReceives(
    flow: BulkFlow, references: set<string>, batch: seq<Row>, results: seq<LineResult>, columns: Columns,
    a: InputAssignment)
    requires |results| <= |batch| && ColumnsAligned(flow, references, batch, results, columns)
    requires Faithful(a) && TextOf(a) in references
    ensures var received := TryGetAggregationInput(a, columns.references);
      && received.Literal? && received.value.List? && |received.value.items| == |Succeeded(results)|
      && forall i :: 0 <= i < |Succeeded(results)| ==>
           ValueOnLine(flow, batch[Succeeded(results)[i]], a, received.value.items[i])
  {
    var succeeded := Succeeded(results);
    forall i | 0 <= i < |succeeded|
      ensures ValueOnLine(flow, batch[succeeded[i]], a, columns.references[TextOf(a)][i])
    {
      ColumnHoldsValue(flow, references, batch[succeeded[i]], columns, a, i);
    }
  }

  /** A reference of an aggregation node to a node named "flow" or "inputs" makes every line fail:
      its text is taken for a flow input, and the look-up has none. */
  lemma {:induction false} ReservedReferenceFails(flow: BulkFlow, references: set<string>, a: InputAssignment, row: Row)
    requires a.NodeReference? && '.' !in a.node && Reserved(a.node) && TextOf(a) in references
    ensures ExecLine(flow, references, row).status.Failed?
  {
    PathMeaning(a.node, a.section, a.property);
    Unwrap(ReferencePath(a.node, a.section, a.property));
  }

  /** End to end: the rows are numbered, executed by the pool under any interleaving, sorted and handed
      over.  There are as many results as line numbers; they stand row by row exactly if the given line
      numbers are absent, repeated or ascending, and then every column position belongs to one line, in
      line order. */
  lemma {:induction false} BulkRunAligned(
    flow: BulkFlow, references: set<string>, batch: seq<Row>, rank: LineOrder, exec: Row -> LineBody,
    workerCount: nat, run: seq<State>)
    requires workerCount > 0 && forall row :: exec(row) == ExecLine(flow, references, row)
    requires IsRun(Config(Tasks(LineNumbers(batch, rank), batch), exec), workerCount, run) && Finished(run[|run| - 1])
    ensures var cfg := Config(Tasks(LineNumbers(batch, rank), batch), exec);
      var results := SortByIndex(run[|run| - 1].results);
      && |results| == |LineNumbers(batch, rank)| <= |batch|
      && (RowByRow(cfg, batch, LineNumbers(batch, rank), results) <==> OrderedNumbers(batch, rank))
      && (OrderedNumbers(batch, rank) && HandOver(flow, references, batch, results).Ok? ==>
            ColumnsAligned(flow, references, batch, results, HandOver(flow, references, batch, results).value))
      && (OrderedNumbers(batch, rank) ==> forall j: nat :: j in Succeeded(results) <==>
            j < |results| && results[j].body != TIMED_OUT && LineCompletes(flow, references, batch[j]))
  {
    var cfg := Config(Tasks(LineNumbers(batch, rank), batch), exec);
    var last := run[|run| - 1];
    ExactlyOnce(cfg, workerCount, run);
    assert IsCrediting(cfg, last.results, last.credited);
    RowByRowIff(batch, rank, exec, last.results);
    EveryRowAnsweredIff(batch, rank, exec, last.results);
    if OrderedNumbers(batch, rank) {
      HandOverAligned(flow, references, cfg, batch, LineNumbers(batch, rank), SortByIndex(last.results));
      SucceededIff(flow, references, cfg, batch, LineNumbers(batch, rank), SortByIndex(last.results));
    }
  }

  /** In a batch mapped from joined inputs every row carries a number, and if the first input is
      positional or ascending they ascend. */
  lemma {:induction false} MappedBatchIsGood(
    inputs: seq<Source>, merged: seq<MergedLine>, mapping: seq<MappingEntry>, batch: seq<Row>, rank: LineOrder)
    requires (forall n, m :: n < m ==> rank(Number(n)) < rank(Number(m)))
    requires inputs != [] && IsJoin(inputs, merged) && ImagesInOrder(merged, mapping, batch) && Ascending(inputs[0])
    ensures OrderedNumbers(batch, rank) && CompleteNumbers(batch, rank)
    ensures forall p: nat :: p < |batch| ==> OwnNumber(batch, rank, p)
  {
    forall k | 0 <= k < |batch|
      ensures LINE_NUMBER_KEY in batch[k] && batch[k][LINE_NUMBER_KEY] == merged[k].line && merged[k].line.Number? {
      assert IsImage(InputsMapping.LineInputs(merged[k]), mapping, batch[k]);
      JoinedLineIsNumber(inputs, merged, k);
    }
    GivenNumbersFacts(batch, rank);
    var given := GivenNumbers(batch, rank);
    forall i, j | 0 <= i < j < |given| ensures given[i] < given[j] {
      JoinAscending(inputs, merged, i, j);
    }
    AscendingAreOwn(batch, rank);
  }

  lemma {:induction false} JoinedLineIsNumber(inputs: seq<Source>, merged: seq<MergedLine>, k: nat)
    requires inputs != [] && IsJoin(inputs, merged) && Ascending(inputs[0]) && k < |merged|
    ensures merged[k].line.Number?
  {
    assert LinesOf(merged)[k] == merged[k].line;
    assert merged[k].line in LinesOf(merged);
    assert Supplies(inputs[0], merged[k].line);
  }
}
