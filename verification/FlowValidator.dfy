/** Validation of the node graph, and the order of its nodes. */
module FlowValidator {
  import opened Prelude
  import opened FlowContracts

  datatype FlowError =
    | DuplicateNodeName(name: string)
    | InputReferenceNotFound(node: string, input: string)
    | NodeReferenceNotFound(node: string, reference: string)
    | NodeCircularDependency

  // ---------- the dependency graph ----------

  // A node named `a` refers to `b`, in an input or in its skip condition.
  ghost predicate DependsOn(nodes: seq<Node>, a: string, b: string) {
    exists n :: n in nodes && n.name == a && b in References(n)
  }

  ghost predicate IsCycle(nodes: seq<Node>, path: seq<string>) {
    && |path| >= 2
    && path[0] == path[|path| - 1]
    && IsWalk(nodes, path)
  }

  ghost predicate IsWalk(nodes: seq<Node>, path: seq<string>) {
    forall i :: 0 <= i < |path| - 1 ==> DependsOn(nodes, path[i], path[i + 1])
  }

  ghost predicate HasCycle(nodes: seq<Node>) {
    exists path :: IsCycle(nodes, path)
  }

  // All the names that nodes of the given name refer to.
  function Dependencies(nodes: seq<Node>, name: string): set<string> {
    set n, d | n in nodes && n.name == name && d in References(n) :: d
  }

  predicate Available(nodes: seq<Node>, n: Node, picked: set<string>) {
    n.name !in picked && Dependencies(nodes, n.name) <= picked
  }

  // nodes[i] is the first node that is not yet picked and whose dependencies all are.
  ghost predicate FirstAvailable(nodes: seq<Node>, picked: set<string>, i: nat) {
    && i < |nodes|
    && Available(nodes, nodes[i], picked)
    && forall j :: 0 <= j < i ==> !Available(nodes, nodes[j], picked)
  }

  // Position k of the list holds the first node available after its predecessors.
  ghost predicate GreedyAt(nodes: seq<Node>, sorted: seq<Node>, k: nat)
    requires k < |sorted|
  {
    exists i: nat :: FirstAvailable(nodes, Names(sorted[..k]), i) && nodes[i] == sorted[k]
  }

  ghost predicate Greedy(nodes: seq<Node>, sorted: seq<Node>) {
    forall k :: 0 <= k < |sorted| ==> GreedyAt(nodes, sorted, k)
  }

  ghost predicate Stuck(nodes: seq<Node>, picked: set<string>) {
    forall n :: n in nodes ==> !Available(nodes, n, picked)
  }

  // ---------- what a greedy list is ----------

  lemma {:induction false} DependenciesOf(nodes: seq<Node>, n: Node)
    requires n in nodes
    ensures References(n) <= Dependencies(nodes, n.name)
    ensures DistinctNames(nodes) ==> Dependencies(nodes, n.name) == References(n)
  {
    if DistinctNames(nodes) {
      forall d | d in Dependencies(nodes, n.name) ensures d in References(n) {
        var m :| m in nodes && m.name == n.name && d in References(m);
        SameNameSameNode(nodes, m, n);
      }
    }
  }

  lemma {:induction false} GreedyTopological(nodes: seq<Node>, sorted: seq<Node>)
    requires Greedy(nodes, sorted)
    ensures Topological(sorted)
    ensures forall n :: n in sorted ==> n in nodes
  {
    forall k | 0 <= k < |sorted|
      ensures Preceded(sorted, k) && sorted[k] in nodes && sorted[k].name !in Names(sorted[..k])
    {
      assert GreedyAt(nodes, sorted, k);
      var i: nat :| FirstAvailable(nodes, Names(sorted[..k]), i) && nodes[i] == sorted[k];
      DependenciesOf(nodes, nodes[i]);
    }
    forall i, j | 0 <= i < j < |sorted| ensures sorted[i].name != sorted[j].name {
      assert sorted[..j][i] == sorted[i];
    }
  }

  /** A greedy list as long as the flow is a topological order of it, and its names are distinct. */
  lemma {:induction false} GreedyComplete(nodes: seq<Node>, sorted: seq<Node>)
    requires Greedy(nodes, sorted) && |sorted| == |nodes|
    ensures DistinctNames(nodes) && Orders(sorted, nodes)
  {
    GreedyTopological(nodes, sorted);
    NamesCardinality(sorted);
    NamesAtMost(nodes);
    SubsetCardinality(Names(sorted), Names(nodes));
    SameNamesPermutation(sorted, nodes);
  }

  // No more names than nodes, and as many only if no name is repeated.
  lemma {:induction false} NamesAtMost(nodes: seq<Node>)
    ensures |Names(nodes)| <= |nodes|
    ensures |Names(nodes)| == |nodes| ==> DistinctNames(nodes)
  {
    if nodes != [] {
      var init, last := nodes[..|nodes| - 1], nodes[|nodes| - 1];
      assert nodes == init + [last];
      NamesAtMost(init);
      assert Names(nodes) == Names(init) + {last.name};
    } else {
      assert Names(nodes) == {};
    }
  }

  /** An order of the nodes leaves no room for a cycle. */
  lemma {:induction false} OrderedAcyclic(nodes: seq<Node>, sorted: seq<Node>, path: seq<string>)
    requires Orders(sorted, nodes)
    ensures !IsCycle(nodes, path)
  {
    if IsCycle(nodes, path) {
      PermutationKeepsNames(sorted, nodes);
      assert DependsOn(nodes, path[0], path[0 + 1]);
      var n :| n in nodes && n.name == path[0] && path[1] in References(n);
      var k :| 0 <= k < |sorted| && sorted[k] == n;
      WalkDescends(nodes, sorted, path, |path| - 1, k);
    }
  }

  // Following dependencies goes strictly backwards in the order.
  lemma {:induction false} WalkDescends(nodes: seq<Node>, sorted: seq<Node>, path: seq<string>, m: nat, k: nat)
    requires Orders(sorted, nodes) && IsWalk(nodes, path)
    requires 1 <= m < |path| && k < |sorted| && sorted[k].name == path[0]
    ensures exists j :: 0 <= j < k && sorted[j].name == path[m]
  {
    PermutationKeepsNames(sorted, nodes);
    var i := k;
    if m > 1 {
      WalkDescends(nodes, sorted, path, m - 1, k);
      i :| 0 <= i < k && sorted[i].name == path[m - 1];
    }
    assert DependsOn(nodes, path[m - 1], path[m - 1 + 1]);
    var n :| n in nodes && n.name == path[m - 1] && path[m] in References(n);
    SameNameSameNode(sorted, n, sorted[i]);
    assert Preceded(sorted, i);
    var d :| d in sorted[..i] && d.name == path[m];
    var j :| 0 <= j < i && sorted[..i][j] == d;
    assert sorted[j].name == path[m];
  }

  /** A selection that is stuck before its end runs in a circle. */
  lemma {:induction false} StuckHasCycle(nodes: seq<Node>, picked: set<string>, start: string)
    requires Closed(nodes) && Stuck(nodes, picked)
    requires start in Names(nodes) && start !in picked
    ensures HasCycle(nodes)
  {
    var open := Names(nodes) - picked;
    var walk := LongWalk(nodes, picked, start, |open| + 1);
    Pigeonhole(walk, open);
    var i, j :| 0 <= i < j < |walk| && walk[i] == walk[j];
    RepeatClosesCycle(nodes, walk, i, j);
  }

  lemma {:induction false} RepeatClosesCycle(nodes: seq<Node>, walk: seq<string>, i: nat, j: nat)
    requires IsWalk(nodes, walk) && i < j < |walk| && walk[i] == walk[j]
    ensures HasCycle(nodes)
  {
    var path := walk[i..j + 1];
    forall k | 0 <= k < |path| - 1 ensures DependsOn(nodes, path[k], path[k + 1]) {
      assert DependsOn(nodes, walk[i + k], walk[i + k + 1]);
    }
    assert IsCycle(nodes, path);
  }

  lemma {:induction false} LongWalk(nodes: seq<Node>, picked: set<string>, start: string, length: nat)
    returns (walk: seq<string>)
    requires Closed(nodes) && Stuck(nodes, picked) && length > 0
    requires start in Names(nodes) && start !in picked
    ensures |walk| == length && IsWalk(nodes, walk)
    ensures forall x :: x in walk ==> x in Names(nodes) && x !in picked
  {
    if length == 1 {
      walk := [start];
    } else {
      walk := LongWalk(nodes, picked, start, length - 1);
      var last := walk[|walk| - 1];
      assert last in walk;
      var d := BlockingDependency(nodes, picked, last);
      WalkSnoc(nodes, walk, d);
      walk := walk + [d];
    }
  }

  // A node that was not picked is kept back by a dependency that was not picked either.
  lemma {:induction false} BlockingDependency(nodes: seq<Node>, picked: set<string>, x: string) returns (d: string)
    requires Closed(nodes) && Stuck(nodes, picked) && x in Names(nodes) && x !in picked
    ensures DependsOn(nodes, x, d) && d in Names(nodes) && d !in picked
  {
    var n :| n in nodes && n.name == x;
    assert !Available(nodes, n, picked);
    d :| d in Dependencies(nodes, x) && d !in picked;
    var m :| m in nodes && m.name == x && d in References(m);
  }

  lemma {:induction false} WalkSnoc(nodes: seq<Node>, walk: seq<string>, d: string)
    requires IsWalk(nodes, walk) && walk != [] && DependsOn(nodes, walk[|walk| - 1], d)
    ensures IsWalk(nodes, walk + [d])
  {
    var longer := walk + [d];
    forall k | 0 <= k < |longer| - 1 ensures DependsOn(nodes, longer[k], longer[k + 1]) {
      if k < |walk| - 1 {
        assert DependsOn(nodes, walk[k], walk[k + 1]);
      }
    }
  }

  // ---------- the canonical order ----------

  lemma {:induction false} FirstDifference(a: seq<Node>, b: seq<Node>) returns (k: nat)
    requires |a| == |b| && a != b
    ensures k < |a| && a[..k] == b[..k] && a[k] != b[k]
  {
    k := 0;
    while a[k] == b[k]
      invariant k < |a| && a[..k] == b[..k]
      decreases |a| - k
    {
      k := k + 1;
    }
  }

  /** Among all orders the greedy one is lexicographically least by position in the flow: where
      another order first departs from it, the other has a node that stands later in the flow. */
  lemma {:induction false} GreedyIsLeast(nodes: seq<Node>, sorted: seq<Node>, order: seq<Node>)
    requires Greedy(nodes, sorted) && |sorted| == |nodes|
    requires Orders(order, nodes) && order != sorted
    ensures |order| == |sorted|
    ensures exists k, i, j :: 0 <= k < |sorted| && 0 <= i < j < |nodes|
              && sorted[..k] == order[..k] && sorted[k] == nodes[i] && order[k] == nodes[j]
  {
    PermutationKeepsNames(order, nodes);
    GreedyComplete(nodes, sorted);
    var k := FirstDifference(sorted, order);
    assert GreedyAt(nodes, sorted, k);
    var i: nat :| FirstAvailable(nodes, Names(sorted[..k]), i) && nodes[i] == sorted[k];
    assert order[k] in order;
    var j :| 0 <= j < |nodes| && nodes[j] == order[k];
    DependenciesOf(nodes, nodes[j]);
    assert Preceded(order, k);
    assert order[k].name !in Names(order[..k]);
    assert Available(nodes, nodes[j], Names(sorted[..k]));
    assert sorted[..k] == order[..k] && sorted[k] == nodes[i] && order[k] == nodes[j] && i < j;
  }

  /** A flow that is in order already keeps its order; sorting twice is sorting once. */
  lemma {:induction false} OrderedIsFixed(nodes: seq<Node>, sorted: seq<Node>)
    requires Greedy(nodes, sorted) && |sorted| == |nodes| && Topological(nodes)
    ensures sorted == nodes
  {
    OrderedPrefixFixed(nodes, sorted, |nodes|);
    assert sorted[..|nodes|] == sorted && nodes[..|nodes|] == nodes;
  }

  lemma {:induction false} OrderedPrefixFixed(nodes: seq<Node>, sorted: seq<Node>, k: nat)
    requires Greedy(nodes, sorted) && |sorted| == |nodes| && Topological(nodes) && k <= |nodes|
    ensures sorted[..k] == nodes[..k]
  {
    if k > 0 {
      OrderedPrefixFixed(nodes, sorted, k - 1);
      assert GreedyAt(nodes, sorted, k - 1);
      var i: nat :| FirstAvailable(nodes, Names(sorted[..k - 1]), i) && nodes[i] == sorted[k - 1];
      NextInOrder(nodes, k - 1, i);
    }
  }

  // After the first k nodes of an ordered flow the next available one is the node at position k.
  lemma {:induction false} NextInOrder(nodes: seq<Node>, k: nat, i: nat)
    requires Topological(nodes) && k < |nodes| && FirstAvailable(nodes, Names(nodes[..k]), i)
    ensures i == k
  {
    assert Preceded(nodes, k);
    DependenciesOf(nodes, nodes[k]);
    assert nodes[k].name !in Names(nodes[..k]);
    assert Available(nodes, nodes[k], Names(nodes[..k]));
  }

  // ---------- the validator ----------

  /** Raises NodeReferenceNotFound if and only if some reference dangles; otherwise
      NodeCircularDependency if and only if a name is repeated or the graph has a cycle; otherwise
      answers with the greedy topological order. */
  method EnsureNodesOrder(nodes: seq<Node>) returns (r: Result<seq<Node>, FlowError>)
    ensures r.Err? && r.error.NodeReferenceNotFound? <==> !Closed(nodes)
    ensures r.Err? && r.error.NodeReferenceNotFound? ==>
              DependsOn(nodes, r.error.node, r.error.reference) && r.error.reference !in Names(nodes)
    ensures r == Err(NodeCircularDependency) <==>
              Closed(nodes) && (!DistinctNames(nodes) || HasCycle(nodes))
    ensures r.Ok? <==> Closed(nodes) && DistinctNames(nodes) && !HasCycle(nodes)
    ensures r.Ok? ==> Orders(r.value, nodes) && Greedy(nodes, r.value)
  {
    var dangling := FindDangling(nodes);
    if dangling.Some? {
      return Err(dangling.value);
    }
    var sorted: seq<Node> := [];
    var picked: set<string> := {};
    for round := 0 to |nodes|
      invariant |sorted| == round && picked == Names(sorted) && Greedy(nodes, sorted)
    {
      var i := PickAvailable(nodes, picked);
      if i == |nodes| {
        StuckMeansCircular(nodes, sorted);
        return Err(NodeCircularDependency);
      }
      GreedySnoc(nodes, sorted, i);
      sorted := sorted + [nodes[i]];
      picked := picked + {nodes[i].name};
    }
    GreedyComplete(nodes, sorted);
    forall path ensures !IsCycle(nodes, path) {
      OrderedAcyclic(nodes, sorted, path);
    }
    r := Ok(sorted);
  }

  lemma {:induction false} GreedySnoc(nodes: seq<Node>, sorted: seq<Node>, i: nat)
    requires Greedy(nodes, sorted) && FirstAvailable(nodes, Names(sorted), i)
    ensures Greedy(nodes, sorted + [nodes[i]])
    ensures Names(sorted + [nodes[i]]) == Names(sorted) + {nodes[i].name}
  {
    var longer := sorted + [nodes[i]];
    forall k | 0 <= k < |longer| ensures GreedyAt(nodes, longer, k) {
      if k < |sorted| {
        assert GreedyAt(nodes, sorted, k);
        assert longer[..k] == sorted[..k];
      } else {
        assert longer[..k] == sorted;
      }
    }
  }

  lemma {:induction false} StuckMeansCircular(nodes: seq<Node>, sorted: seq<Node>)
    requires Closed(nodes) && Greedy(nodes, sorted) && |sorted| < |nodes|
    requires Stuck(nodes, Names(sorted))
    ensures !DistinctNames(nodes) || HasCycle(nodes)
  {
    if DistinctNames(nodes) {
      GreedyTopological(nodes, sorted);
      NamesCardinality(nodes);
      NamesCardinality(sorted);
      if Names(nodes) <= Names(sorted) {
        SubsetCardinality(Names(nodes), Names(sorted));
      } else {
        var start :| start in Names(nodes) && start !in Names(sorted);
        StuckHasCycle(nodes, Names(sorted), start);
      }
    }
  }

  // The first reference, node by node, to a name that is not in the flow.
  method FindDangling(nodes: seq<Node>) returns (found: Option<FlowError>)
    ensures found.None? <==> Closed(nodes)
    ensures found.Some? ==> found.value.NodeReferenceNotFound?
    ensures found.Some? ==>
      DependsOn(nodes, found.value.node, found.value.reference) && found.value.reference !in Names(nodes)
  {
    var names := Names(nodes);
    for k := 0 to |nodes|
      invariant forall i :: 0 <= i < k ==> References(nodes[i]) <= names
    {
      var all := Assignments(nodes[k]);
      for a := 0 to |all|
        invariant forall i :: 0 <= i < a && all[i].NodeReference? ==> all[i].node in names
      {
        if all[a].NodeReference? && all[a].node !in names {
          assert all[a].node in References(nodes[k]);
          assert DependsOn(nodes, nodes[k].name, all[a].node);
          return Some(NodeReferenceNotFound(nodes[k].name, all[a].node));
        }
      }
    }
    found := None;
  }

  method PickAvailable(nodes: seq<Node>, picked: set<string>) returns (i: nat)
    ensures i <= |nodes|
    ensures i < |nodes| ==> FirstAvailable(nodes, picked, i)
    ensures i == |nodes| ==> Stuck(nodes, picked)
  {
    i := 0;
    while i < |nodes|
      invariant i <= |nodes|
      invariant forall j :: 0 <= j < i ==> !Available(nodes, nodes[j], picked)
    {
      if Available(nodes, nodes[i], picked) {
        return;
      }
      i := i + 1;
    }
  }

  // An input (not the skip condition) that refers to a flow input the flow does not have.
  ghost predicate DanglingInput(flow: Flow, node: Node, input: string) {
    && input !in flow.inputs
    && exists i :: 0 <= i < |node.inputs| && node.inputs[i].assignment.FlowInput?
        && node.inputs[i].assignment.name == input
  }

  ghost predicate InputsPresent(flow: Flow) {
    forall n, input :: n in flow.nodes ==> !DanglingInput(flow, n, input)
  }

  /** The whole topology check: the errors have a fixed precedence, and a flow passes exactly when
      names are distinct, flow inputs exist, node references exist and there is no cycle. */
  method ValidateNodesTopology(flow: Flow) returns (r: Result<seq<Node>, FlowError>)
    ensures r.Ok? <==> DistinctNames(flow.nodes) && InputsPresent(flow)
                       && Closed(flow.nodes) && !HasCycle(flow.nodes)
    ensures r.Ok? ==> Orders(r.value, flow.nodes) && Greedy(flow.nodes, r.value)
    ensures r.Err? && r.error.DuplicateNodeName? <==> !DistinctNames(flow.nodes)
    ensures r.Err? && r.error.InputReferenceNotFound? <==> DistinctNames(flow.nodes) && !InputsPresent(flow)
    ensures r == Err(NodeCircularDependency) <==>
              DistinctNames(flow.nodes) && InputsPresent(flow) && Closed(flow.nodes) && HasCycle(flow.nodes)
  {
    var names: set<string> := {};
    for k := 0 to |flow.nodes|
      invariant names == Names(flow.nodes[..k]) && DistinctNames(flow.nodes[..k])
    {
      var node := flow.nodes[k];
      assert flow.nodes[..k + 1] == flow.nodes[..k] + [node];
      if node.name in names {
        var m :| m in flow.nodes[..k] && m.name == node.name;
        return Err(DuplicateNodeName(node.name));
      }
      names := names + {node.name};
    }
    assert flow.nodes[..|flow.nodes|] == flow.nodes;
    for k := 0 to |flow.nodes|
      invariant forall j, input :: 0 <= j < k ==> !DanglingInput(flow, flow.nodes[j], input)
    {
      var inputs := flow.nodes[k].inputs;
      for i := 0 to |inputs|
        invariant forall j :: 0 <= j < i && inputs[j].assignment.FlowInput? ==> inputs[j].assignment.name in flow.inputs
      {
        if inputs[i].assignment.FlowInput? && inputs[i].assignment.name !in flow.inputs {
          assert DanglingInput(flow, flow.nodes[k], inputs[i].assignment.name);
          return Err(InputReferenceNotFound(flow.nodes[k].name, inputs[i].assignment.name));
        }
      }
    }
    r := EnsureNodesOrder(flow.nodes);
  }
}
