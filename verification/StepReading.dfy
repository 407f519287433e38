// What one traversal step returns, read off the stored edges: their labels, ends and properties.

module StepReading {
  import opened Wrappers
  import opened Core
  import opened Patterns
  import opened Distance
  import opened Executor
  import opened Store

  // ----- Patterns, clause by clause -----

  // Each clause alone, and a pattern as all of its clauses together.
  lemma ClausesAdmit(node: Node, p: NodePattern)
    ensures forall x :: MatchNode(node, ANY_NODE.(id := Some(x))) <==> node.id == x
    ensures forall ts :: MatchNode(node, ANY_NODE.(types := ts)) <==> forall t | t in ts :: t in node.types
    ensures forall ps :: MatchNode(node, ANY_NODE.(properties := ps))
                         <==> forall k | k in ps :: k in node.properties && node.properties[k] == ps[k]
    ensures MatchNode(node, p)
            <==> && MatchNode(node, ANY_NODE.(id := p.id)) && MatchNode(node, ANY_NODE.(types := p.types))
                 && MatchNode(node, ANY_NODE.(properties := p.properties))
                 && MatchNode(node, ANY_NODE.(anyOf := p.anyOf)) && MatchNode(node, ANY_NODE.(noneOf := p.noneOf))
  {
  }

  // Alternatives are a disjunction, unless there are none, and exclusions a negated one.
  lemma BranchesAdmit(node: Node, ps: seq<NodePattern>)
    ensures MatchNode(node, ANY_NODE.(anyOf := ps)) <==> ps == [] || exists a | a in ps :: MatchNode(node, a)
    ensures MatchNode(node, ANY_NODE.(noneOf := ps)) <==> forall a | a in ps :: !MatchNode(node, a)
  {
  }

  // Nested, they express negation, disjunction and conjunction of any patterns.
  lemma PatternsAreBoolean(node: Node, p: NodePattern, q: NodePattern)
    ensures MatchNode(node, ANY_NODE.(noneOf := [p])) <==> !MatchNode(node, p)
    ensures MatchNode(node, ANY_NODE.(anyOf := [p, q])) <==> MatchNode(node, p) || MatchNode(node, q)
    ensures MatchNode(node, ANY_NODE.(noneOf := [ANY_NODE.(noneOf := [p]), ANY_NODE.(noneOf := [q])]))
            <==> MatchNode(node, p) && MatchNode(node, q)
  {
    hide MatchNode;
    var np, nq := ANY_NODE.(noneOf := [p]), ANY_NODE.(noneOf := [q]);
    BranchesAdmit(node, [p]);
    BranchesAdmit(node, [q]);
    BranchesAdmit(node, [np, nq]);
    BranchesAdmit(node, [p, q]);
    assert p in [p] && q in [q] && p in [p, q] && q in [p, q] && np in [np, nq] && nq in [np, nq];
  }

  // ----- Steps along stored edges -----

  // A stored edge that carries what the pattern asks for and leads from `x` to `y`, against its own
  // direction when the step is inbound.
  predicate LeadsOver(g: Graph, step: TraversalStep, x: NodeId, id: EdgeId, y: NodeId) {
    && id in g.edges
    && (if step.outbound then g.edges[id].source == x && g.edges[id].target == y
        else g.edges[id].source == y && g.edges[id].target == x)
    && (step.edge.relation.Some? ==> g.edges[id].relation == step.edge.relation.value)
    && forall k | k in step.edge.properties :: k in g.edges[id].properties
                                               && g.edges[id].properties[k] == step.edge.properties[k]
  }

  ghost predicate Adjacent(g: Graph, step: TraversalStep, x: NodeId, y: NodeId) {
    exists id :: LeadsOver(g, step, x, id, y)
  }

  // Nodes one after the other, each adjacent to the next.
  ghost predicate Path(g: Graph, step: TraversalStep, ns: seq<NodeId>, start: NodeId, end: NodeId) {
    && ns != [] && ns[0] == start && ns[|ns| - 1] == end
    && forall i | 0 <= i < |ns| - 1 :: Adjacent(g, step, ns[i], ns[i + 1])
  }

  ghost predicate PathOf(g: Graph, step: TraversalStep, start: NodeId, end: NodeId, n: nat) {
    exists ns :: |ns| == n + 1 && Path(g, step, ns, start, end)
  }

  ghost predicate Shortest(g: Graph, step: TraversalStep, start: NodeId, end: NodeId, n: nat) {
    PathOf(g, step, start, end, n) && forall k: nat | k < n :: !PathOf(g, step, start, end, k)
  }

  lemma HopLeads(g: Graph, step: TraversalStep, x: NodeId, id: EdgeId, y: NodeId)
    ensures Hop(g, step, x, id, y) <==> LeadsOver(g, step, x, id, y)
  {
  }

  lemma {:induction false} WalkHasPath(g: Graph, step: TraversalStep, start: NodeId, end: NodeId, es: seq<EdgeId>)
    returns (ns: seq<NodeId>)
    requires Walk(g, step, start, end, es)
    ensures |ns| == |es| + 1 && Path(g, step, ns, start, end)
    decreases |es|
  {
    hide Hop, LeadsOver, Near, Far;
    if es == [] {
      ns := [start];
    } else {
      var id := es[|es| - 1];
      var mid := Near(g.edges[id], step.outbound);
      var before := WalkHasPath(g, step, start, mid, es[..|es| - 1]);
      HopLeads(g, step, mid, id, end);
      ns := before + [end];
      forall i | 0 <= i < |ns| - 1 ensures Adjacent(g, step, ns[i], ns[i + 1]) {
        assert i < |before| - 1 ==> Adjacent(g, step, before[i], before[i + 1]);
      }
    }
  }

  lemma {:induction false} PathHasWalk(g: Graph, step: TraversalStep, ns: seq<NodeId>, start: NodeId, end: NodeId)
    returns (es: seq<EdgeId>)
    requires Path(g, step, ns, start, end)
    ensures |es| + 1 == |ns| && Walk(g, step, start, end, es)
    decreases |ns|
  {
    hide LeadsOver, Far;
    if |ns| == 1 {
      es := [];
    } else {
      var mid := ns[|ns| - 2];
      assert Adjacent(g, step, ns[|ns| - 2], ns[|ns| - 2 + 1]);
      var id :| LeadsOver(g, step, mid, id, end);
      HopLeads(g, step, mid, id, end);
      var before := PathHasWalk(g, step, ns[..|ns| - 1], start, mid);
      es := before + [id];
      assert es[..|es| - 1] == before;
    }
  }

  lemma ReachesOnPath(g: Graph, step: TraversalStep, start: NodeId, end: NodeId, n: nat)
    ensures Reachable(g, step, start, end, n) <==> PathOf(g, step, start, end, n)
  {
    hide Walk, Path;
    if Reachable(g, step, start, end, n) {
      var es :| |es| == n && Walk(g, step, start, end, es);
      var ns := WalkHasPath(g, step, start, end, es);
    }
    if PathOf(g, step, start, end, n) {
      var ns :| |ns| == n + 1 && Path(g, step, ns, start, end);
      var es := PathHasWalk(g, step, ns, start, end);
    }
  }

  lemma DistanceIsShortest(g: Graph, step: TraversalStep, start: NodeId, end: NodeId, n: nat)
    ensures IsDistance(g, step, start, end, n) <==> Shortest(g, step, start, end, n)
  {
    hide Reachable, PathOf;
    forall k: nat ensures Reachable(g, step, start, end, k) <==> PathOf(g, step, start, end, k) {
      ReachesOnPath(g, step, start, end, k);
    }
  }

  // ----- The results of a step -----

  // Exactly one hop unless a range is given.
  predicate InRange(step: TraversalStep, d: nat) {
    match step.edge.repeat
    case None => d == 1
    case Some(range) => range.0 <= d <= range.1
  }

  // The nodes in the results: stored, matching the target, and at a shortest distance in the range.
  lemma ResultNodes(g: Graph, step: TraversalStep, row: MatchRow, start: NodeId, out: seq<(MatchRow, NodeId)>,
                    node: NodeId)
    requires StepExact(g, step, row, start, out)
    ensures (exists i :: 0 <= i < |out| && out[i].1 == node)
            <==> && node in g.nodes && MatchNode(g.nodes[node], step.target)
                 && exists d: nat :: InRange(step, d) && Shortest(g, step, start, node, d)
  {
    hide MatchNode, Layer, IsDistance, Shortest, LastOfShortest, EmittedRow;
    forall d: nat ensures IsDistance(g, step, start, node, d) <==> Shortest(g, step, start, node, d) {
      DistanceIsShortest(g, step, start, node, d);
    }
    if i :| 0 <= i < |out| && out[i].1 == node {
      assert Emitted(g, step, row, start, out[i]);
      var d: nat :| EmittedAt(g, step, row, start, d, out[i]);
      LayerIsDistance(g, step, start, node, d);
      assert InRange(step, d);
    }
    if node in g.nodes && MatchNode(g.nodes[node], step.target)
       && exists d: nat :: InRange(step, d) && Shortest(g, step, start, node, d) {
      var d: nat :| InRange(step, d) && Shortest(g, step, start, node, d);
      assert HopRange(step).0 <= d <= HopRange(step).1;
      assert Leads(g, step, start, node);
      assert HasNode(out, node);
    }
  }

  // Without a range: the other nodes at the far end of one edge.
  lemma OneHopNodes(g: Graph, step: TraversalStep, row: MatchRow, start: NodeId, out: seq<(MatchRow, NodeId)>,
                    node: NodeId)
    requires StepExact(g, step, row, start, out) && step.edge.repeat == None
    ensures (exists i :: 0 <= i < |out| && out[i].1 == node)
            <==> && node in g.nodes && MatchNode(g.nodes[node], step.target)
                 && node != start && exists id :: LeadsOver(g, step, start, id, node)
  {
    hide StepExact, MatchNode, PathOf, LeadsOver;
    ResultNodes(g, step, row, start, out, node);
    ShortestOne(g, step, start, node);
    assert forall d: nat :: InRange(step, d) <==> d == 1;
  }

  lemma ShortestOne(g: Graph, step: TraversalStep, start: NodeId, node: NodeId)
    ensures Shortest(g, step, start, node, 1) <==> node != start && Adjacent(g, step, start, node)
  {
    hide Adjacent;
    assert PathOf(g, step, start, node, 0) <==> node == start by {
      if node == start {
        assert Path(g, step, [start], start, node);
      }
    }
    assert PathOf(g, step, start, node, 1) <==> Adjacent(g, step, start, node) by {
      if Adjacent(g, step, start, node) {
        assert Path(g, step, [start, node], start, node);
      }
      if PathOf(g, step, start, node, 1) {
        var ns :| |ns| == 2 && Path(g, step, ns, start, node);
        assert Adjacent(g, step, ns[0], ns[0 + 1]);
      }
    }
  }

  // The row of a result: the target's name is bound to the node, the edge's name to the last edge of a
  // shortest path, and nothing else changes. Where no edge was followed, no edge is bound.
  lemma ResultRow(g: Graph, step: TraversalStep, row: MatchRow, start: NodeId, out: seq<(MatchRow, NodeId)>, i: nat)
    requires StepExact(g, step, row, start, out) && i < |out|
    ensures out[i].0.nodes == match step.target.bind
                              case None => row.nodes
                              case Some(name) => row.nodes[name := out[i].1]
    ensures step.edge.bind == None || out[i].1 == start ==> out[i].0.edges == row.edges
    ensures step.edge.bind.Some? && out[i].1 != start ==>
              && step.edge.bind.value in out[i].0.edges
              && out[i].0.edges == row.edges[step.edge.bind.value := out[i].0.edges[step.edge.bind.value]]
              && exists near, d: nat :: LeadsOver(g, step, near, out[i].0.edges[step.edge.bind.value], out[i].1)
                                        && Shortest(g, step, start, near, d)
                                        && Shortest(g, step, start, out[i].1, d + 1)
  {
    hide MatchNode, Layer, LeadsOver, Shortest, Hop;
    assert Emitted(g, step, row, start, out[i]);
    var d: nat :| EmittedAt(g, step, row, start, d, out[i]);
    var node := out[i].1;
    var last :| LastOfShortest(g, step, start, node, d, last) && out[i].0 == EmittedRow(step, row, node, last);
    StartLayer(g, step, start, node, d);
    if d > 0 {
      var near := Near(g.edges[last.value], step.outbound);
      HopLeads(g, step, near, last.value, node);
      LayerIsDistance(g, step, start, near, d - 1);
      LayerIsDistance(g, step, start, node, d);
      DistanceIsShortest(g, step, start, near, d - 1);
      DistanceIsShortest(g, step, start, node, d);
      assert Shortest(g, step, start, node, (d - 1) + 1);
    }
  }

  lemma StartLayer(g: Graph, step: TraversalStep, start: NodeId, node: NodeId, d: nat)
    requires node in Layer(g, step, start, d)
    ensures node == start <==> d == 0
  {
    if d > 0 {
      BallGrows(g, step, start, 0, d - 1);
    }
  }

  // ----- Whole plans -----

  // A seed's row binds the seed's name, if it has one, and nothing else.
  lemma SeedRow(g: Graph, seed: NodePattern, frontier: Frontier, i: nat)
    requires SeedExact(g, seed, frontier) && i < |frontier|
    ensures frontier[i].1 in g.nodes && MatchNode(g.nodes[frontier[i].1], seed)
    ensures frontier[i].0 == match seed.bind
                             case None => MatchRow(map[], map[])
                             case Some(name) => MatchRow(map[name := frontier[i].1], map[])
  {
    hide MatchNode;
    assert IsSeed(g, seed, frontier[i].1);
  }

  function Before(parts: seq<Frontier>, i: nat): nat
    requires i <= |parts|
  {
    if i == 0 then 0 else Before(parts, i - 1) + |parts[i - 1]|
  }

  // The results of the entries follow each other in the order of the entries.
  lemma {:induction false} FlattenAt(parts: seq<Frontier>, i: nat, k: nat)
    requires i < |parts| && k < |parts[i]|
    ensures Before(parts, i) + k < |Flatten(parts)| == Before(parts, |parts|)
    ensures Flatten(parts)[Before(parts, i) + k] == parts[i][k]
    decreases |parts|
  {
    var init := parts[..|parts| - 1];
    BeforePrefix(parts, i);
    BeforePrefix(parts, |init|);
    FlattenLength(init);
    if i < |init| {
      FlattenAt(init, i, k);
    }
  }

  lemma {:induction false} BeforePrefix(parts: seq<Frontier>, i: nat)
    requires i < |parts|
    ensures Before(parts[..|parts| - 1], i) == Before(parts, i)
  {
    if i > 0 {
      BeforePrefix(parts, i - 1);
    }
  }

  lemma {:induction false} FlattenLength(parts: seq<Frontier>)
    ensures |Flatten(parts)| == Before(parts, |parts|)
    decreases |parts|
  {
    if parts != [] {
      BeforePrefix(parts, |parts| - 1);
      FlattenLength(parts[..|parts| - 1]);
    }
  }
}
