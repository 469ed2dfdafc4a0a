/** Picking some nodes of an ordered flow. */
module NodeSelection {
  import opened Prelude
  import opened FlowContracts

  // References may be removed from the picked nodes.  The order is kept as long as the picked nodes
  // refer only to picked ones.

  function Select(nodes: seq<Node>, pick: Node -> Option<Node>): seq<Node> {
    if nodes == [] then []
    else
      var last := pick(nodes[|nodes| - 1]);
      Select(nodes[..|nodes| - 1], pick) + (if last.Some? then [last.value] else [])
  }

  // Picked nodes keep their names and gain no references.
  ghost predicate Narrows(pick: Node -> Option<Node>) {
    forall n :: pick(n).Some? ==> pick(n).value.name == n.name && References(pick(n).value) <= References(n)
  }

  lemma {:induction false} SelectMembers(nodes: seq<Node>, pick: Node -> Option<Node>)
    ensures forall m :: m in Select(nodes, pick) <==> exists n :: n in nodes && pick(n) == Some(m)
  {
    if nodes != [] {
      var init, last := nodes[..|nodes| - 1], nodes[|nodes| - 1];
      assert nodes == init + [last];
      SelectMembers(init, pick);
      forall m | m in Select(nodes, pick) ensures exists n :: n in nodes && pick(n) == Some(m) {
        if m !in Select(init, pick) {
          assert last in nodes && pick(last) == Some(m);
        }
      }
    }
  }

  lemma {:induction false} SelectDistinct(nodes: seq<Node>, pick: Node -> Option<Node>)
    requires DistinctNames(nodes) && Narrows(pick)
    ensures DistinctNames(Select(nodes, pick))
  {
    if nodes != [] {
      var init, last := nodes[..|nodes| - 1], nodes[|nodes| - 1];
      SelectDistinct(init, pick);
      SelectMembers(init, pick);
      if pick(last).Some? {
        SnocDistinct(Select(init, pick), pick(last).value);
      }
    }
  }

  lemma {:induction false} SnocDistinct(nodes: seq<Node>, last: Node)
    requires DistinctNames(nodes) && forall n :: n in nodes ==> n.name != last.name
    ensures DistinctNames(nodes + [last])
  {
    var all := nodes + [last];
    forall i, j | 0 <= i < j < |all| ensures all[i].name != all[j].name {
      assert all[i] in nodes;
    }
  }

  // `kept` names no dropped node, and the picked nodes refer to kept ones only.
  ghost predicate RefersToKept(nodes: seq<Node>, pick: Node -> Option<Node>, kept: set<string>) {
    && (forall n :: n in nodes && pick(n).None? ==> n.name !in kept)
    && (forall n :: n in nodes && pick(n).Some? ==> References(pick(n).value) <= kept)
  }

  lemma {:induction false} SelectInOrder(nodes: seq<Node>, pick: Node -> Option<Node>, kept: set<string>)
    requires DependenciesFirst(nodes) && Narrows(pick) && RefersToKept(nodes, pick, kept)
    ensures DependenciesFirst(Select(nodes, pick))
  {
    if nodes != [] {
      var init, last := nodes[..|nodes| - 1], nodes[|nodes| - 1];
      assert nodes == init + [last];
      forall k | 0 <= k < |init| ensures Preceded(init, k) {
        assert Preceded(nodes, k);
        assert init[..k] == nodes[..k];
      }
      SelectInOrder(init, pick, kept);
      if pick(last).None? {
        assert Select(nodes, pick) == Select(init, pick);
      } else {
        LastRefersToSelected(nodes, pick, kept);
        PrecededSnoc(Select(init, pick), pick(last).value);
      }
    }
  }

  lemma {:induction false} PrecededSnoc(nodes: seq<Node>, last: Node)
    requires DependenciesFirst(nodes) && References(last) <= Names(nodes)
    ensures DependenciesFirst(nodes + [last])
  {
    var all := nodes + [last];
    forall k | 0 <= k < |all| ensures Preceded(all, k) {
      if k < |nodes| {
        assert Preceded(nodes, k);
        assert all[..k] == nodes[..k];
      } else {
        assert all[..k] == nodes;
      }
    }
  }

  lemma {:induction false} LastRefersToSelected(nodes: seq<Node>, pick: Node -> Option<Node>, kept: set<string>)
    requires nodes != [] && DependenciesFirst(nodes) && Narrows(pick) && RefersToKept(nodes, pick, kept)
    requires pick(nodes[|nodes| - 1]).Some?
    ensures References(pick(nodes[|nodes| - 1]).value) <= Names(Select(nodes[..|nodes| - 1], pick))
  {
    var init, last := nodes[..|nodes| - 1], nodes[|nodes| - 1];
    assert last in nodes && Preceded(nodes, |nodes| - 1);
    SelectMembers(init, pick);
    forall x | x in References(pick(last).value) ensures x in Names(Select(init, pick)) {
      assert x in References(last) && x in kept;
      var n :| n in init && n.name == x;
      assert n in nodes;
      assert pick(n).value in Select(init, pick);
    }
  }

  /** The picked nodes of an ordered flow are in order if and only if they are closed. */
  lemma {:induction false} SelectTopologicalIff(nodes: seq<Node>, pick: Node -> Option<Node>)
    requires Topological(nodes) && Narrows(pick)
    ensures Topological(Select(nodes, pick)) <==> Closed(Select(nodes, pick))
  {
    var picked := Select(nodes, pick);
    SelectDistinct(nodes, pick);
    SelectMembers(nodes, pick);
    if Closed(picked) {
      forall n | n in nodes && pick(n).None? ensures n.name !in Names(picked) {
        forall m | m in picked ensures m.name != n.name {
          var source :| source in nodes && pick(source) == Some(m);
          SameNameSameNode(nodes, source, n);
        }
      }
      SelectInOrder(nodes, pick, Names(picked));
    }
    if Topological(picked) {
      OrderedIsClosed(picked, picked);
    }
  }

  /** They have an order at all if and only if they are closed; then their own order is one. */
  lemma {:induction false} SelectOrderableIff(nodes: seq<Node>, pick: Node -> Option<Node>)
    requires Topological(nodes) && Narrows(pick)
    ensures Orderable(Select(nodes, pick)) <==> Closed(Select(nodes, pick))
    ensures Closed(Select(nodes, pick)) ==> Orders(Select(nodes, pick), Select(nodes, pick))
  {
    SelectTopologicalIff(nodes, pick);
    if Closed(Select(nodes, pick)) {
      assert Orders(Select(nodes, pick), Select(nodes, pick));
    }
    if order :| Orders(order, Select(nodes, pick)) {
      OrderedIsClosed(order, Select(nodes, pick));
    }
  }
}
