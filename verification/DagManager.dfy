/** The bookkeeping of pending and completed nodes. */
module DagManager {
  import opened FlowContracts

  predicate IsReady(node: Node, outputs: map<string, Value>) {
    References(node) <= outputs.Keys
  }

  function ReadyNodes(pending: seq<Node>, outputs: map<string, Value>): seq<Node> {
    if pending == [] then []
    else (if IsReady(pending[0], outputs) then [pending[0]] else []) + ReadyNodes(pending[1..], outputs)
  }

  function WaitingNodes(pending: seq<Node>, outputs: map<string, Value>): seq<Node> {
    if pending == [] then []
    else (if IsReady(pending[0], outputs) then [] else [pending[0]]) + WaitingNodes(pending[1..], outputs)
  }

  function Without(nodes: seq<Node>, names: set<string>): seq<Node> {
    if nodes == [] then []
    else (if nodes[0].name in names then [] else [nodes[0]]) + Without(nodes[1..], names)
  }

  // A dictionary from name to node: the position of the first node of a name, the value of the last.
  function PendingOf(nodes: seq<Node>): seq<Node> {
    if nodes == [] then [] else Store(PendingOf(nodes[..|nodes| - 1]), nodes[|nodes| - 1])
  }

  function Store(entries: seq<Node>, node: Node): seq<Node> {
    if entries == [] then [node]
    else if entries[0].name == node.name then [node] + entries[1..]
    else [entries[0]] + Store(entries[1..], node)
  }

  lemma {:induction false} StoreNames(entries: seq<Node>, node: Node)
    ensures Names(Store(entries, node)) == Names(entries) + {node.name}
  {
    if entries == [] {
      NamesOfCons(node, []);
      assert [node] + [] == [node];
    } else {
      var head, tail := entries[0], entries[1..];
      assert entries == [head] + tail;
      NamesOfCons(head, tail);
      if head.name == node.name {
        NamesOfCons(node, tail);
      } else {
        StoreNames(tail, node);
        NamesOfCons(head, Store(tail, node));
      }
    }
  }

  lemma {:induction false} StoreKeepsDistinct(entries: seq<Node>, node: Node)
    requires DistinctNames(entries)
    ensures DistinctNames(Store(entries, node))
  {
    if entries != [] {
      var head, tail := entries[0], entries[1..];
      TailDistinct(entries);
      if head.name == node.name {
        ConsDistinct(node, tail);
      } else {
        StoreKeepsDistinct(tail, node);
        StoreNames(tail, node);
        forall n | n in Store(tail, node) ensures n.name != head.name {
          assert n.name in Names(tail) + {node.name};
        }
        ConsDistinct(head, Store(tail, node));
      }
    }
  }

  lemma {:induction false} TailDistinct(entries: seq<Node>)
    requires DistinctNames(entries) && entries != []
    ensures DistinctNames(entries[1..]) && entries[0].name !in Names(entries[1..])
    ensures forall n :: n in entries[1..] ==> n.name != entries[0].name
  {
    forall n | n in entries[1..] ensures n.name != entries[0].name {
      var k :| 0 <= k < |entries| - 1 && entries[1..][k] == n;
      assert entries[k + 1] == n;
    }
  }

  lemma {:induction false} StoreNew(entries: seq<Node>, node: Node)
    requires node.name !in Names(entries)
    ensures Store(entries, node) == entries + [node]
  {
    if entries != [] {
      assert entries[0] in entries && Names(entries[1..]) <= Names(entries);
      StoreNew(entries[1..], node);
      assert [entries[0]] + (entries[1..] + [node]) == entries + [node];
    }
  }

  lemma {:induction false} NamesOfCons(head: Node, tail: seq<Node>)
    ensures Names([head] + tail) == {head.name} + Names(tail)
  {
  }

  lemma {:induction false} NamesOfSnoc(init: seq<Node>, last: Node)
    ensures Names(init + [last]) == Names(init) + {last.name}
  {
  }

  lemma {:induction false} InitDistinct(init: seq<Node>, last: Node)
    requires DistinctNames(init + [last])
    ensures DistinctNames(init) && last.name !in Names(init)
  {
    var all := init + [last];
    forall n | n in init ensures n.name != last.name {
      var k :| 0 <= k < |init| && init[k] == n;
      assert all[k] == n && all[|init|] == last;
    }
    forall i, j | 0 <= i < j < |init| ensures init[i].name != init[j].name {
      assert all[i] == init[i] && all[j] == init[j];
    }
  }

  // A stored node replaces the one of its name, in its place, or comes last.
  lemma {:induction false} StoreMembers(entries: seq<Node>, node: Node, m: Node)
    requires DistinctNames(entries)
    ensures m in Store(entries, node) <==> m == node || (m in entries && m.name != node.name)
  {
    if entries != [] {
      TailDistinct(entries);
      assert entries == [entries[0]] + entries[1..];
      if entries[0].name != node.name {
        StoreMembers(entries[1..], node, m);
      }
    }
  }

  function NamesInOrder(nodes: seq<Node>): seq<string> {
    seq(|nodes|, i requires 0 <= i < |nodes| => nodes[i].name)
  }

  lemma {:induction false} NamesInOrderCons(head: Node, tail: seq<Node>)
    ensures NamesInOrder([head] + tail) == [head.name] + NamesInOrder(tail)
  {
  }

  lemma {:induction false} StorePlaces(entries: seq<Node>, node: Node)
    ensures NamesInOrder(Store(entries, node))
         == NamesInOrder(entries) + (if node.name in Names(entries) then [] else [node.name])
  {
    if entries == [] {
      assert NamesInOrder([node]) == [node.name];
    } else {
      var head, tail := entries[0], entries[1..];
      assert entries == [head] + tail;
      NamesOfCons(head, tail);
      NamesInOrderCons(head, tail);
      if head.name == node.name {
        NamesInOrderCons(node, tail);
      } else {
        StorePlaces(tail, node);
        NamesInOrderCons(head, Store(tail, node));
      }
    }
  }

  ghost predicate LastOfName(nodes: seq<Node>, n: Node) {
    exists i: nat :: IsLastOfName(nodes, n, i)
  }

  ghost predicate IsLastOfName(nodes: seq<Node>, n: Node, i: nat) {
    i < |nodes| && nodes[i] == n && forall j :: i < j < |nodes| ==> nodes[j].name != n.name
  }

  lemma {:induction false} LastOfNameSnoc(init: seq<Node>, last: Node, n: Node)
    ensures LastOfName(init + [last], n) <==> n == last || (n.name != last.name && LastOfName(init, n))
  {
    var all := init + [last];
    if n == last {
      assert IsLastOfName(all, n, |init|);
    } else if LastOfName(all, n) {
      var i: nat :| IsLastOfName(all, n, i);
      assert all[|init|] == last && forall j :: 0 <= j < |init| ==> all[j] == init[j];
      assert IsLastOfName(init, n, i);
    } else if n.name != last.name && LastOfName(init, n) {
      var i: nat :| IsLastOfName(init, n, i);
      assert IsLastOfName(all, n, i);
    }
  }

  /** The dictionary holds the last node of every name. */
  lemma {:induction false} PendingHoldsLast(nodes: seq<Node>, n: Node)
    ensures n in PendingOf(nodes) <==> LastOfName(nodes, n)
  {
    if nodes != [] {
      var init, last := nodes[..|nodes| - 1], nodes[|nodes| - 1];
      assert nodes == init + [last];
      PendingHoldsLast(init, n);
      PendingOfDistinct(init);
      StoreMembers(PendingOf(init), last, n);
      LastOfNameSnoc(init, last, n);
    }
  }

  /** Nothing is lost in the dictionary when the names differ. */
  lemma {:induction false} PendingOfDistinct(nodes: seq<Node>)
    ensures DistinctNames(PendingOf(nodes))
    ensures Names(PendingOf(nodes)) == Names(nodes)
    ensures DistinctNames(nodes) ==> PendingOf(nodes) == nodes
  {
    if nodes != [] {
      var init, last := nodes[..|nodes| - 1], nodes[|nodes| - 1];
      assert nodes == init + [last];
      PendingOfDistinct(init);
      StoreKeepsDistinct(PendingOf(init), last);
      StoreNames(PendingOf(init), last);
      NamesOfSnoc(init, last);
      if DistinctNames(nodes) {
        InitDistinct(init, last);
        StoreNew(init, last);
      }
    }
  }

  lemma {:induction false} SplitMembers(pending: seq<Node>, outputs: map<string, Value>)
    ensures forall n :: n in ReadyNodes(pending, outputs) <==> n in pending && IsReady(n, outputs)
    ensures forall n :: n in WaitingNodes(pending, outputs) <==> n in pending && !IsReady(n, outputs)
  {
    if pending != [] {
      SplitMembers(pending[1..], outputs);
    }
  }

  lemma {:induction false} SplitDistinct(pending: seq<Node>, outputs: map<string, Value>)
    requires DistinctNames(pending)
    ensures DistinctNames(ReadyNodes(pending, outputs)) && DistinctNames(WaitingNodes(pending, outputs))
  {
    if pending != [] {
      var head, tail := pending[0], pending[1..];
      TailDistinct(pending);
      SplitDistinct(tail, outputs);
      SplitMembers(tail, outputs);
      ConsDistinct(head, ReadyNodes(tail, outputs));
      ConsDistinct(head, WaitingNodes(tail, outputs));
    }
  }

  /** Popping splits the pending nodes in two; both halves keep their order and distinct names. */
  lemma {:induction false} PopSplits(pending: seq<Node>, outputs: map<string, Value>)
    ensures forall n :: n in ReadyNodes(pending, outputs) <==> n in pending && IsReady(n, outputs)
    ensures forall n :: n in WaitingNodes(pending, outputs) <==> n in pending && !IsReady(n, outputs)
    ensures DistinctNames(pending) ==>
      && DistinctNames(ReadyNodes(pending, outputs))
      && DistinctNames(WaitingNodes(pending, outputs))
      && Names(ReadyNodes(pending, outputs)) !! Names(WaitingNodes(pending, outputs))
  {
    SplitMembers(pending, outputs);
    if DistinctNames(pending) {
      SplitDistinct(pending, outputs);
      forall m, n | m in ReadyNodes(pending, outputs) && n in WaitingNodes(pending, outputs) ensures m.name != n.name {
        SameNameSameNode(pending, m, n);
      }
    }
  }

  // One of the nodes before another, in a list.
  ghost predicate Before(nodes: seq<Node>, m: Node, n: Node) {
    exists i, j :: 0 <= i < j < |nodes| && nodes[i] == m && nodes[j] == n
  }

  /** Nodes that are ready keep their order among one another, and so do those that wait. */
  lemma {:induction false} SplitKeepsOrder(pending: seq<Node>, outputs: map<string, Value>, m: Node, n: Node)
    requires Before(pending, m, n)
    ensures IsReady(m, outputs) && IsReady(n, outputs) ==> Before(ReadyNodes(pending, outputs), m, n)
    ensures !IsReady(m, outputs) && !IsReady(n, outputs) ==> Before(WaitingNodes(pending, outputs), m, n)
  {
    var i, j :| 0 <= i < j < |pending| && pending[i] == m && pending[j] == n;
    var tail := pending[1..];
    if i == 0 {
      assert tail[j - 1] == n;
      SplitMembers(tail, outputs);
      if IsReady(m, outputs) && IsReady(n, outputs) {
        ConsBefore(m, ReadyNodes(tail, outputs), n);
      }
      if !IsReady(m, outputs) && !IsReady(n, outputs) {
        ConsBefore(m, WaitingNodes(tail, outputs), n);
      }
    } else {
      assert tail[i - 1] == m && tail[j - 1] == n;
      SplitKeepsOrder(tail, outputs, m, n);
      StillBefore(if IsReady(pending[0], outputs) then [pending[0]] else [], ReadyNodes(tail, outputs), m, n);
      StillBefore(if IsReady(pending[0], outputs) then [] else [pending[0]], WaitingNodes(tail, outputs), m, n);
    }
  }

  lemma {:induction false} ConsBefore(m: Node, tail: seq<Node>, n: Node)
    requires n in tail
    ensures Before([m] + tail, m, n)
  {
    var k :| 0 <= k < |tail| && tail[k] == n;
    assert ([m] + tail)[0] == m && ([m] + tail)[k + 1] == n;
  }

  lemma {:induction false} StillBefore(front: seq<Node>, back: seq<Node>, m: Node, n: Node)
    ensures Before(back, m, n) ==> Before(front + back, m, n)
  {
    if i, j :| 0 <= i < j < |back| && back[i] == m && back[j] == n {
      assert (front + back)[|front| + i] == m && (front + back)[|front| + j] == n;
    }
  }

  lemma {:induction false} ConsDistinct(head: Node, tail: seq<Node>)
    requires DistinctNames(tail)
    ensures (forall n :: n in tail ==> n.name != head.name) ==> DistinctNames([head] + tail)
  {
    var all := [head] + tail;
    if forall n :: n in tail ==> n.name != head.name {
      forall i, j | 0 <= i < j < |all| ensures all[i].name != all[j].name {
        assert all[j] == tail[j - 1];
      }
    }
  }

  lemma {:induction false} WithoutReadyIsWaiting(pending: seq<Node>, outputs: map<string, Value>, names: set<string>)
    requires forall n :: n in pending ==> (n.name in names <==> IsReady(n, outputs))
    ensures Without(pending, names) == WaitingNodes(pending, outputs)
  {
    if pending != [] {
      WithoutReadyIsWaiting(pending[1..], outputs, names);
    }
  }

  lemma {:induction false} WithoutTwice(nodes: seq<Node>, a: set<string>, b: set<string>)
    ensures Without(Without(nodes, a), b) == Without(nodes, a + b)
  {
    if nodes != [] {
      WithoutTwice(nodes[1..], a, b);
      if nodes[0].name in a {
        assert Without(nodes, a) == Without(nodes[1..], a);
      } else {
        assert Without(nodes, a)[1..] == Without(nodes[1..], a);
      }
    }
  }

  lemma {:induction false} WithoutOneMore(nodes: seq<Node>, removed: seq<Node>, k: nat)
    requires k < |removed|
    ensures Without(Without(nodes, Names(removed[..k])), {removed[k].name}) == Without(nodes, Names(removed[..k + 1]))
  {
    WithoutTwice(nodes, Names(removed[..k]), {removed[k].name});
    assert removed[..k + 1] == removed[..k] + [removed[k]];
    assert Names(removed[..k + 1]) == Names(removed[..k]) + {removed[k].name};
  }

  // Deleting the ready nodes by name leaves the waiting ones.
  lemma {:induction false} WithoutReady(pending: seq<Node>, outputs: map<string, Value>)
    requires DistinctNames(pending)
    ensures Without(pending, Names(ReadyNodes(pending, outputs))) == WaitingNodes(pending, outputs)
  {
    var ready := ReadyNodes(pending, outputs);
    PopSplits(pending, outputs);
    forall n | n in pending ensures n.name in Names(ready) <==> IsReady(n, outputs) {
      if n.name in Names(ready) {
        var m :| m in ready && m.name == n.name;
        SameNameSameNode(pending, m, n);
      }
    }
    WithoutReadyIsWaiting(pending, outputs, Names(ready));
  }

  lemma {:induction false} WithoutNone(nodes: seq<Node>)
    ensures Without(nodes, {}) == nodes
  {
    if nodes != [] {
      WithoutNone(nodes[1..]);
    }
  }

  lemma {:induction false} ReadyNodesCons(node: Node, rest: seq<Node>, outputs: map<string, Value>)
    ensures ReadyNodes([node] + rest, outputs)
         == (if IsReady(node, outputs) then [node] else []) + ReadyNodes(rest, outputs)
  {
    assert ([node] + rest)[1..] == rest;
  }

  lemma {:induction false} ReadyNodesSnoc(pending: seq<Node>, node: Node, outputs: map<string, Value>)
    ensures ReadyNodes(pending + [node], outputs)
         == ReadyNodes(pending, outputs) + (if IsReady(node, outputs) then [node] else [])
  {
    if pending != [] {
      assert pending + [node] == [pending[0]] + (pending[1..] + [node]);
      ReadyNodesCons(pending[0], pending[1..] + [node], outputs);
      ReadyNodesCons(pending[0], pending[1..], outputs);
      assert pending == [pending[0]] + pending[1..];
      ReadyNodesSnoc(pending[1..], node, outputs);
    }
  }

  class DAGManager {
    const nodes: seq<Node>
    var pendingNodes: seq<Node>
    var completedNodesOutputs: map<string, Value>

    ghost predicate Valid()
      reads this
    {
      DistinctNames(pendingNodes)
    }

    constructor (nodes: seq<Node>)
      ensures Valid()
      ensures this.nodes == nodes && completedNodesOutputs == map[]
      ensures pendingNodes == PendingOf(nodes)
    {
      this.nodes := nodes;
      this.completedNodesOutputs := map[];
      var entries: seq<Node> := [];
      for k := 0 to |nodes|
        invariant entries == PendingOf(nodes[..k])
      {
        assert nodes[..k + 1][..k] == nodes[..k];
        entries := Store(entries, nodes[k]);
      }
      assert nodes[..|nodes|] == nodes;
      PendingOfDistinct(nodes);
      this.pendingNodes := entries;
    }

    method IsNodeReady(node: Node) returns (ready: bool)
      ensures ready <==> IsReady(node, completedNodesOutputs)
    {
      var dependencies := Assignments(node);
      for k := 0 to |dependencies|
        invariant forall i :: 0 <= i < k && dependencies[i].NodeReference?
                    ==> dependencies[i].node in completedNodesOutputs
      {
        if dependencies[k].NodeReference? && dependencies[k].node !in completedNodesOutputs {
          assert dependencies[k].node in References(node);
          return false;
        }
      }
      ready := true;
    }

    // Hands out the ready nodes, in order, and forgets them.
    method PopReadyNodes() returns (ready: seq<Node>)
      requires Valid()
      modifies this`pendingNodes
      ensures Valid()
      ensures ready == ReadyNodes(old(pendingNodes), completedNodesOutputs)
      ensures pendingNodes == WaitingNodes(old(pendingNodes), completedNodesOutputs)
    {
      ready := [];
      var before := pendingNodes;
      for k := 0 to |before|
        invariant pendingNodes == before
        invariant ready == ReadyNodes(before[..k], completedNodesOutputs)
      {
        assert before[..k + 1] == before[..k] + [before[k]];
        ReadyNodesSnoc(before[..k], before[k], completedNodesOutputs);
        var b := IsNodeReady(before[k]);
        if b {
          ready := ready + [before[k]];
        }
      }
      assert before[..|before|] == before;
      WithoutNone(before);
      assert Names(ready[..0]) == {};
      for k := 0 to |ready|
        invariant pendingNodes == Without(before, Names(ready[..k]))
      {
        WithoutOneMore(before, ready, k);
        pendingNodes := Without(pendingNodes, {ready[k].name});
      }
      assert ready[..|ready|] == ready;
      WithoutReady(before, completedNodesOutputs);
      PopSplits(before, completedNodesOutputs);
    }

    method CompleteNodes(outputs: map<string, Value>)
      modifies this`completedNodesOutputs
      ensures completedNodesOutputs == old(completedNodesOutputs) + outputs
    {
      completedNodesOutputs := completedNodesOutputs + outputs;
    }

    method Completed() returns (done: bool)
      ensures done <==> |completedNodesOutputs| == |nodes|
    {
      done := |completedNodesOutputs| == |nodes|;
    }
  }
}
