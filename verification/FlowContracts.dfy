/** The flow contract: values, input assignments, nodes and the references between them. */
module FlowContracts {
  import opened Prelude

  datatype Value =
    | Null
    | Bool(flag: bool)
    | Number(n: int)
    | Text(text: string)
    | List(items: seq<Value>)
    | Dict(entries: map<string, Value>)

  // One line of input data.
  type Row = map<string, Value>

  // A flow input keeps the prefix it was spelled with ("flow." or "inputs.").
  datatype InputAssignment =
    | Literal(value: Value)
    | FlowInput(name: string, prefix: string)
    | NodeReference(node: string, section: string, property: string)

  datatype NodeInput = NodeInput(name: string, assignment: InputAssignment)

  datatype SkipCondition =
    SkipCondition(condition: InputAssignment, conditionValue: Value, returnValue: InputAssignment)

  // The inputs of a node are a dictionary; the sequence is its insertion order.
  datatype Node =
    Node(name: string, inputs: seq<NodeInput>, skip: Option<SkipCondition>, aggregation: bool)

  datatype Flow = Flow(nodes: seq<Node>, inputs: set<string>)

  // Every assignment a node depends on: its inputs, then the skip condition and return value.
  function Assignments(node: Node): seq<InputAssignment> {
    seq(|node.inputs|, i requires 0 <= i < |node.inputs| => node.inputs[i].assignment)
    + (if node.skip.Some? then [node.skip.value.condition, node.skip.value.returnValue] else [])
  }

  // The names of the nodes a node refers to.
  function References(node: Node): set<string> {
    set a | a in Assignments(node) && a.NodeReference? :: a.node
  }

  function Names(nodes: seq<Node>): set<string> {
    set n | n in nodes :: n.name
  }

  ghost predicate DistinctNames(nodes: seq<Node>) {
    forall i, j :: 0 <= i < j < |nodes| ==> nodes[i].name != nodes[j].name
  }

  // Every node comes after all the nodes it refers to.
  ghost predicate DependenciesFirst(nodes: seq<Node>) {
    forall k :: 0 <= k < |nodes| ==> Preceded(nodes, k)
  }

  ghost predicate Preceded(nodes: seq<Node>, k: nat)
    requires k < |nodes|
  {
    References(nodes[k]) <= Names(nodes[..k])
  }

  ghost predicate Topological(nodes: seq<Node>) {
    DistinctNames(nodes) && DependenciesFirst(nodes)
  }

  // An order of the nodes in which every node follows its dependencies.
  ghost predicate Orders(order: seq<Node>, nodes: seq<Node>) {
    multiset(order) == multiset(nodes) && Topological(order)
  }

  ghost predicate Orderable(nodes: seq<Node>) {
    exists order :: Orders(order, nodes)
  }

  // No node of the list refers to a node outside it.
  ghost predicate Closed(nodes: seq<Node>) {
    forall n :: n in nodes ==> References(n) <= Names(nodes)
  }

  lemma {:induction false} NamesCardinality(nodes: seq<Node>)
    requires DistinctNames(nodes)
    ensures |Names(nodes)| == |nodes|
  {
    var names := seq(|nodes|, i requires 0 <= i < |nodes| => nodes[i].name);
    DistinctCardinality(names);
    assert Names(nodes) == set x | x in names by {
      forall x | x in Names(nodes) ensures x in names {
        var n :| n in nodes && n.name == x;
        var k :| 0 <= k < |nodes| && nodes[k] == n;
        assert names[k] == x;
      }
    }
  }

  lemma {:induction false} NamesOfUnion(nodes: seq<Node>, a: seq<Node>, b: seq<Node>)
    requires forall n :: n in nodes <==> n in a || n in b
    ensures Names(nodes) == Names(a) + Names(b)
  {
  }

  lemma {:induction false} PermutationKeepsNames(a: seq<Node>, b: seq<Node>)
    requires multiset(a) == multiset(b)
    ensures forall n :: n in a <==> n in b
    ensures Names(a) == Names(b) && |a| == |b|
  {
    assert forall n :: n in a <==> n in multiset(a);
    assert forall n :: n in b <==> n in multiset(b);
    assert |multiset(a)| == |a| && |multiset(b)| == |b|;
  }

  lemma {:induction false} DistinctMultiplicity(nodes: seq<Node>, n: Node)
    requires DistinctNames(nodes)
    ensures multiset(nodes)[n] == if n in nodes then 1 else 0
  {
    if nodes != [] {
      var init, last := nodes[..|nodes| - 1], nodes[|nodes| - 1];
      assert nodes == init + [last];
      DistinctMultiplicity(init, n);
    }
  }

  lemma {:induction false} SameNamesPermutation(a: seq<Node>, b: seq<Node>)
    requires DistinctNames(a) && DistinctNames(b) && Names(a) == Names(b)
    requires forall n :: n in a ==> n in b
    ensures multiset(a) == multiset(b)
  {
    forall n ensures multiset(a)[n] == multiset(b)[n] {
      DistinctMultiplicity(a, n);
      DistinctMultiplicity(b, n);
      if n in b {
        assert n.name in Names(b);
        var m :| m in a && m.name == n.name;
        SameNameSameNode(b, m, n);
      }
    }
  }

  lemma {:induction false} RepeatedMultiplicity(nodes: seq<Node>, i: nat, j: nat)
    requires i < j < |nodes| && nodes[i] == nodes[j]
    ensures multiset(nodes)[nodes[i]] >= 2
  {
    var front, back := nodes[..j], nodes[j..];
    assert nodes == front + back && front[i] == nodes[i] && back[0] == nodes[i];
  }

  lemma {:induction false} PermutationDistinct(a: seq<Node>, b: seq<Node>)
    requires multiset(a) == multiset(b) && DistinctNames(a)
    ensures DistinctNames(b)
  {
    forall i, j | 0 <= i < j < |b| ensures b[i].name != b[j].name {
      if b[i].name == b[j].name {
        PermutationKeepsNames(a, b);
        SameNameSameNode(a, b[i], b[j]);
        DistinctMultiplicity(a, b[i]);
        RepeatedMultiplicity(b, i, j);
      }
    }
  }

  lemma {:induction false} OrdersDistinct(order: seq<Node>, nodes: seq<Node>)
    requires Orders(order, nodes)
    ensures DistinctNames(nodes)
  {
    PermutationDistinct(order, nodes);
  }

  lemma {:induction false} OrderedIsClosed(order: seq<Node>, nodes: seq<Node>)
    requires Orders(order, nodes)
    ensures Closed(nodes)
  {
    PermutationKeepsNames(order, nodes);
    forall n | n in nodes ensures References(n) <= Names(nodes) {
      var k :| 0 <= k < |order| && order[k] == n;
      assert Preceded(order, k);
      assert Names(order[..k]) <= Names(order);
    }
  }

  // In a list with distinct names a node is determined by its name.
  lemma {:induction false} SameNameSameNode(nodes: seq<Node>, m: Node, n: Node)
    requires DistinctNames(nodes) && m in nodes && n in nodes
    ensures m.name == n.name ==> m == n
  {
    var i :| 0 <= i < |nodes| && nodes[i] == m;
    var j :| 0 <= j < |nodes| && nodes[j] == n;
  }
}
