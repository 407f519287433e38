// The traversal executor of the in-memory store.

module Executor {
  import opened Wrappers
  import opened Core
  import opened Patterns
  import opened Distance

  // A search entry: the row so far, the node reached, and the edge it was reached by.
  datatype Entry = Entry(row: MatchRow, node: NodeId, last: Option<EdgeId>)

  function BindNode(row: MatchRow, name: Option<string>, id: NodeId): MatchRow {
    if name.Some? then row.(nodes := row.nodes[name.value := id]) else row
  }

  function BindEdge(row: MatchRow, name: Option<string>, last: Option<EdgeId>): MatchRow {
    if name.Some? && last.Some? then row.(edges := row.edges[name.value := last.value]) else row
  }

  function EmittedRow(step: TraversalStep, row: MatchRow, node: NodeId, last: Option<EdgeId>): MatchRow {
    BindNode(BindEdge(row, step.edge.bind, last), step.target.bind, node)
  }

  function HopRange(step: TraversalStep): (nat, nat) {
    if step.edge.repeat.Some? then step.edge.repeat.value else (1, 1)
  }

  ghost predicate IsTarget(g: Graph, step: TraversalStep, node: NodeId) {
    node in g.nodes && MatchNode(g.nodes[node], step.target)
  }

  // `last` ends a shortest walk from `start` to a node of layer `d`.
  ghost predicate LastOfShortest(g: Graph, step: TraversalStep, start: NodeId, node: NodeId, d: nat,
                                 last: Option<EdgeId>) {
    if d == 0 then last == None
    else last.Some? && last.value in g.edges
         && Hop(g, step, Near(g.edges[last.value], step.outbound), last.value, node)
         && Near(g.edges[last.value], step.outbound) in Layer(g, step, start, d - 1)
  }

  // A legitimate result of the step at depth `d`.
  ghost predicate EmittedAt(g: Graph, step: TraversalStep, row: MatchRow, start: NodeId, d: nat,
                            out: (MatchRow, NodeId)) {
    && HopRange(step).0 <= d <= HopRange(step).1
    && out.1 in Layer(g, step, start, d) && IsTarget(g, step, out.1)
    && exists last :: LastOfShortest(g, step, start, out.1, d, last) && out.0 == EmittedRow(step, row, out.1, last)
  }

  ghost predicate Emitted(g: Graph, step: TraversalStep, row: MatchRow, start: NodeId, out: (MatchRow, NodeId)) {
    exists d: nat :: EmittedAt(g, step, row, start, d, out)
  }

  // The nodes a step from `start` leads to.
  ghost predicate Leads(g: Graph, step: TraversalStep, start: NodeId, node: NodeId) {
    && IsTarget(g, step, node)
    && exists d: nat :: HopRange(step).0 <= d <= HopRange(step).1 && IsDistance(g, step, start, node, d)
  }

  // Exactly one result for each node the step leads to.
  ghost predicate StepExact(g: Graph, step: TraversalStep, row: MatchRow, start: NodeId, out: seq<(MatchRow, NodeId)>) {
    && (forall i, j | 0 <= i < j < |out| :: out[i].1 != out[j].1)
    && (forall i | 0 <= i < |out| :: Emitted(g, step, row, start, out[i]))
    && (forall node | Leads(g, step, start, node) :: HasNode(out, node))
  }

  ghost predicate HasNode(out: seq<(MatchRow, NodeId)>, node: NodeId) {
    exists i :: 0 <= i < |out| && out[i].1 == node
  }

  // The entries of one depth: each node of the layer once, over a shortest last edge.
  ghost predicate LayerEntries(g: Graph, step: TraversalStep, row: MatchRow, start: NodeId, d: nat, layer: seq<Entry>) {
    && (forall i, j | 0 <= i < j < |layer| :: layer[i].node != layer[j].node)
    && (forall i | 0 <= i < |layer| :: layer[i].row == row && layer[i].node in Layer(g, step, start, d)
                                        && LastOfShortest(g, step, start, layer[i].node, d, layer[i].last))
    && (forall node | node in Layer(g, step, start, d) :: HasEntry(layer, node))
  }

  ghost predicate HasEntry(layer: seq<Entry>, node: NodeId) {
    exists i :: 0 <= i < |layer| && layer[i].node == node
  }

  // Everything emitted at depths below `d`.
  ghost predicate EmittedBelow(g: Graph, step: TraversalStep, row: MatchRow, start: NodeId, d: nat,
                               out: seq<(MatchRow, NodeId)>) {
    && (forall i, j | 0 <= i < j < |out| :: out[i].1 != out[j].1)
    && (forall i | 0 <= i < |out| :: EmittedBefore(g, step, row, start, d, out[i]))
    && (forall node, c: nat | c < d && HopRange(step).0 <= c <= HopRange(step).1 && IsTarget(g, step, node)
                              && node in Layer(g, step, start, c) :: HasNode(out, node))
  }

  ghost predicate EmittedBefore(g: Graph, step: TraversalStep, row: MatchRow, start: NodeId, d: nat,
                                out: (MatchRow, NodeId)) {
    exists c: nat :: c < d && EmittedAt(g, step, row, start, c, out)
  }

  lemma LayersDisjoint(g: Graph, step: TraversalStep, start: NodeId, node: NodeId, c: nat, d: nat)
    requires c < d && node in Layer(g, step, start, c)
    ensures node !in Layer(g, step, start, d)
  {
    hide Ball, Image;
    assert node in Ball(g, step, start, c) by { Ball0(g, step, start); }
    BallGrows(g, step, start, c, d - 1);
  }

  // The two inner loops over a layer and its candidate edges.
  method ExpandLayer(g: Graph, step: TraversalStep, row: MatchRow, layer: seq<Entry>, visited: set<NodeId>,
                     ghost start: NodeId, ghost d: nat)
    returns (next: seq<Entry>, seen: set<NodeId>)
    requires Keyed(g) && LayerEntries(g, step, row, start, d, layer)
    requires visited == Ball(g, step, start, d)
    ensures LayerEntries(g, step, row, start, d + 1, next)
    ensures seen == Ball(g, step, start, d + 1)
  {
    hide Ball, Layer, Image, NextEntries, LastOfShortest;
    next, seen := [], visited;
    ghost var nodes: set<NodeId> := {};
    ImageEmpty(g, step);
    NoNextEntries(g, step, row, start, d, visited);
    for i := 0 to |layer|
      invariant nodes == set j | 0 <= j < i :: layer[j].node
      invariant seen == visited + Image(g, step, nodes)
      invariant NextEntries(g, step, row, start, d, visited, seen, next)
    {
      var cur := layer[i].node;
      var candidates := set id | id in g.edges && Near(g.edges[id], step.outbound) == cur;
      ghost var all := candidates;
      ghost var seen0 := seen;
      while candidates != {}
        invariant candidates <= all
        invariant seen == seen0 + Reached(g, step, all - candidates)
        invariant NextEntries(g, step, row, start, d, visited, seen, next)
      {
        var id :| id in candidates;
        candidates := candidates - {id};
        assert all - candidates == (all - (candidates + {id})) + {id};
        ReachedMore(g, step, all - (candidates + {id}), id);
        if !MatchEdge(g.edges[id], step.edge) {
          continue;
        }
        var target := Far(g.edges[id], step.outbound);
        if target in seen {
          continue;
        }
        PushEntry(g, step, row, start, d, visited, seen, next, id);
        seen := seen + {target};
        next := next + [Entry(layer[i].row, target, Some(g.edges[id].id))];
      }
      ImageOfOne(g, step, cur, all);
      ImageUnion(g, step, nodes, {cur});
      nodes := nodes + {cur};
    }
    assert nodes == Layer(g, step, start, d) by {
      assert forall node | node in Layer(g, step, start, d) :: HasEntry(layer, node);
    }
    NextBall(g, step, start, d);
    NextLayer(g, step, start, d);
    NextEntriesDone(g, step, row, start, d, visited, seen, next);
  }

  lemma NoNextEntries(g: Graph, step: TraversalStep, row: MatchRow, start: NodeId, d: nat, visited: set<NodeId>)
    ensures NextEntries(g, step, row, start, d, visited, visited, [])
  {
  }

  lemma PushEntry(g: Graph, step: TraversalStep, row: MatchRow, start: NodeId, d: nat, visited: set<NodeId>,
                  seen: set<NodeId>, next: seq<Entry>, id: EdgeId)
    requires NextEntries(g, step, row, start, d, visited, seen, next)
    requires Keyed(g) && id in g.edges && MatchEdge(g.edges[id], step.edge) && Far(g.edges[id], step.outbound) !in seen
    requires Near(g.edges[id], step.outbound) in Layer(g, step, start, d)
    ensures NextEntries(g, step, row, start, d, visited, seen + {Far(g.edges[id], step.outbound)},
                        next + [Entry(row, Far(g.edges[id], step.outbound), Some(g.edges[id].id))])
  {
    hide Layer;
    var target := Far(g.edges[id], step.outbound);
    var more := next + [Entry(row, target, Some(id))];
    assert more[|next|].node == target;
    forall node | node in seen + {target} - visited ensures HasEntry(more, node) {
      if node != target {
        assert HasEntry(next, node);
        var k :| 0 <= k < |next| && next[k].node == node;
        assert more[k].node == node;
      }
    }
  }

  lemma NextEntriesDone(g: Graph, step: TraversalStep, row: MatchRow, start: NodeId, d: nat, visited: set<NodeId>,
                        seen: set<NodeId>, next: seq<Entry>)
    requires NextEntries(g, step, row, start, d, visited, seen, next)
    requires Layer(g, step, start, d + 1) == seen - visited
    ensures LayerEntries(g, step, row, start, d + 1, next)
  {
    hide Layer, LastOfShortest;
  }

  lemma NextLayer(g: Graph, step: TraversalStep, start: NodeId, d: nat)
    ensures Layer(g, step, start, d + 1) == Ball(g, step, start, d + 1) - Ball(g, step, start, d)
  {
  }

  // Nodes at the far end of the given matching edges.
  ghost function Reached(g: Graph, step: TraversalStep, ids: set<EdgeId>): set<NodeId> {
    set id | id in ids && id in g.edges && MatchEdge(g.edges[id], step.edge) :: Far(g.edges[id], step.outbound)
  }

  lemma ReachedMore(g: Graph, step: TraversalStep, ids: set<EdgeId>, id: EdgeId)
    requires id in g.edges
    ensures Reached(g, step, ids + {id}) == Reached(g, step, ids)
              + (if MatchEdge(g.edges[id], step.edge) then {Far(g.edges[id], step.outbound)} else {})
  {
  }

  lemma ImageOfOne(g: Graph, step: TraversalStep, cur: NodeId, ids: set<EdgeId>)
    requires ids == set id | id in g.edges && Near(g.edges[id], step.outbound) == cur
    ensures Image(g, step, {cur}) == Reached(g, step, ids)
  {
  }

  lemma ImageUnion(g: Graph, step: TraversalStep, s: set<NodeId>, t: set<NodeId>)
    ensures Image(g, step, s + t) == Image(g, step, s) + Image(g, step, t)
  {
  }

  ghost predicate NextEntries(g: Graph, step: TraversalStep, row: MatchRow, start: NodeId, d: nat,
                              visited: set<NodeId>, seen: set<NodeId>, next: seq<Entry>) {
    && visited <= seen
    && (forall i, j | 0 <= i < j < |next| :: next[i].node != next[j].node)
    && (forall i | 0 <= i < |next| :: next[i].row == row && next[i].node in seen - visited
                                       && LastOfShortest(g, step, start, next[i].node, d + 1, next[i].last))
    && (forall node | node in seen - visited :: HasEntry(next, node))
  }

  method EmitLayer(g: Graph, step: TraversalStep, row: MatchRow, layer: seq<Entry>, before: seq<(MatchRow, NodeId)>,
                   ghost start: NodeId, ghost d: nat)
    returns (out: seq<(MatchRow, NodeId)>)
    requires LayerEntries(g, step, row, start, d, layer) && EmittedBelow(g, step, row, start, d, before)
    requires HopRange(step).0 <= d <= HopRange(step).1
    ensures EmittedBelow(g, step, row, start, d + 1, out)
  {
    hide Layer, LastOfShortest, HopRange, EmittedRow;
    out := before;
    for i := 0 to |layer|
      invariant forall k, j | 0 <= k < j < |out| :: out[k].1 != out[j].1
      invariant forall k | 0 <= k < |out| :: EmittedBefore(g, step, row, start, d + 1, out[k])
      invariant forall k | 0 <= k < |out| :: EmittedBefore(g, step, row, start, d, out[k])
                                             || exists j :: 0 <= j < i && layer[j].node == out[k].1
      invariant forall node | HasNode(before, node) :: HasNode(out, node)
      invariant forall j | 0 <= j < i && IsTarget(g, step, layer[j].node) :: HasNode(out, layer[j].node)
    {
      var entry := layer[i];
      if entry.node !in g.nodes {
        continue;
      }
      if !MatchNode(g.nodes[entry.node], step.target) {
        continue;
      }
      var emitted := (EmittedRow(step, entry.row, entry.node, entry.last), entry.node);
      assert EmittedAt(g, step, row, start, d, emitted);
      forall k | 0 <= k < |out| ensures out[k].1 != entry.node {
        if EmittedBefore(g, step, row, start, d, out[k]) {
          var c: nat :| c < d && EmittedAt(g, step, row, start, c, out[k]);
          LayersDisjoint(g, step, start, out[k].1, c, d);
        }
      }
      ghost var before := out;
      out := out + [emitted];
      assert out[|before|].1 == entry.node;
      assert forall node | HasNode(before, node) :: HasNode(out, node) by {
        assert forall k | 0 <= k < |before| :: out[k] == before[k];
      }
    }
    forall node, c: nat | c < d + 1 && HopRange(step).0 <= c <= HopRange(step).1 && IsTarget(g, step, node)
                          && node in Layer(g, step, start, c)
      ensures HasNode(out, node)
    {
      if c == d {
        assert HasEntry(layer, node);
      }
    }
  }

  // The search from one frontier row. `rounds` counts the iterations of the depth loop.
  method ExpandRow(g: Graph, step: TraversalStep, row: MatchRow, start: NodeId)
    returns (out: seq<(MatchRow, NodeId)>, ghost rounds: nat)
    requires Keyed(g)
    ensures StepExact(g, step, row, start, out)
    ensures rounds <= |Vertices(g, start)|
  {
    hide Ball, LastOfShortest, HopRange, EmittedRow, Vertices;
    var range := HopRange(step);
    var visited := {start};
    var layer := [Entry(row, start, None)];
    Ball0(g, step, start);
    StartEntries(g, step, row, start);
    out := [];
    var depth: nat := 0;
    rounds := 0;
    while true
      invariant depth <= range.1
      invariant LayerEntries(g, step, row, start, depth, layer) && visited == Ball(g, step, start, depth)
      invariant EmittedBelow(g, step, row, start, depth, out)
      invariant forall c: nat | c <= depth :: Layer(g, step, start, c) != {}
      invariant rounds == depth
      decreases range.1 - depth
    {
      rounds := rounds + 1;
      if depth >= range.0 {
        out := EmitLayer(g, step, row, layer, out, start, depth);
      } else {
        BelowSkips(g, step, row, start, depth, out);
      }
      if depth == range.1 {
        FinishBelow(g, step, row, start, depth, out);
        break;
      }
      layer, visited := ExpandLayer(g, step, row, layer, visited, start, depth);
      if layer == [] {
        assert Layer(g, step, start, depth + 1) == {} by { NoEntries(g, step, row, start, depth + 1); }
        FinishEmpty(g, step, row, start, depth, out);
        break;
      }
      depth := depth + 1;
      assert layer[0].node in Layer(g, step, start, depth);
    }
    DepthBound(g, step, start, depth);
  }

  lemma NoEntries(g: Graph, step: TraversalStep, row: MatchRow, start: NodeId, d: nat)
    requires LayerEntries(g, step, row, start, d, [])
    ensures Layer(g, step, start, d) == {}
  {
    hide Layer, LayerEntries;
    NoEntryNoNode(g, step, row, start, d);
  }

  lemma NoEntryNoNode(g: Graph, step: TraversalStep, row: MatchRow, start: NodeId, d: nat)
    requires LayerEntries(g, step, row, start, d, [])
    ensures forall node :: node !in Layer(g, step, start, d)
  {
    hide Layer;
    assert forall node :: !HasEntry([], node);
  }

  lemma StartEntries(g: Graph, step: TraversalStep, row: MatchRow, start: NodeId)
    ensures LayerEntries(g, step, row, start, 0, [Entry(row, start, None)])
    ensures EmittedBelow(g, step, row, start, 0, [])
  {
    var layer := [Entry(row, start, None)];
    assert layer[0].node == start;
  }

  lemma BelowSkips(g: Graph, step: TraversalStep, row: MatchRow, start: NodeId, d: nat, out: seq<(MatchRow, NodeId)>)
    requires EmittedBelow(g, step, row, start, d, out) && d < HopRange(step).0
    ensures EmittedBelow(g, step, row, start, d + 1, out)
  {
    hide Layer, HopRange, EmittedAt;
    forall i | 0 <= i < |out| ensures EmittedBefore(g, step, row, start, d + 1, out[i]) {
      var c: nat :| c < d && EmittedAt(g, step, row, start, c, out[i]);
    }
  }

  lemma FinishBelow(g: Graph, step: TraversalStep, row: MatchRow, start: NodeId, d: nat, out: seq<(MatchRow, NodeId)>)
    requires EmittedBelow(g, step, row, start, d + 1, out)
    requires forall c: nat | d < c <= HopRange(step).1 :: Layer(g, step, start, c) == {}
    ensures StepExact(g, step, row, start, out)
  {
    hide Layer, HopRange, EmittedAt;
    forall i | 0 <= i < |out| ensures Emitted(g, step, row, start, out[i]) {
      var c: nat :| c < d + 1 && EmittedAt(g, step, row, start, c, out[i]);
    }
    forall node | Leads(g, step, start, node) ensures HasNode(out, node) {
      var c: nat :| HopRange(step).0 <= c <= HopRange(step).1 && IsDistance(g, step, start, node, c);
      LayerIsDistance(g, step, start, node, c);
    }
  }

  lemma FinishEmpty(g: Graph, step: TraversalStep, row: MatchRow, start: NodeId, d: nat, out: seq<(MatchRow, NodeId)>)
    requires EmittedBelow(g, step, row, start, d + 1, out) && Layer(g, step, start, d + 1) == {}
    ensures StepExact(g, step, row, start, out)
  {
    hide Layer, EmittedBelow, HopRange;
    forall c: nat | d < c <= HopRange(step).1 ensures Layer(g, step, start, c) == {} {
      EmptyForever(g, step, start, d + 1, c);
    }
    FinishBelow(g, step, row, start, d, out);
  }

  // With a lower end of at most one, a step leads to another node exactly when some walk has a length
  // in the range.
  lemma LeadsIsWalk(g: Graph, step: TraversalStep, start: NodeId, node: NodeId)
    requires HopRange(step).0 <= 1 && node != start
    ensures Leads(g, step, start, node)
            <==> IsTarget(g, step, node)
                 && exists n: nat :: HopRange(step).0 <= n <= HopRange(step).1 && Reachable(g, step, start, node, n)
  {
    hide HopRange, IsTarget, Ball, Layer, Walk;
    var (lo, hi) := HopRange(step);
    if n: nat :| lo <= n <= hi && Reachable(g, step, start, node, n) {
      WithinIsBall(g, step, start, node, n);
      BallIsLayers(g, step, start, node, n);
      var d: nat :| d <= n && node in Layer(g, step, start, d);
      LayerIsDistance(g, step, start, node, d);
      if d == 0 {
        Ball0(g, step, start);
        OnlyStart(g, step, start, node);
      }
      assert lo <= d <= hi && IsDistance(g, step, start, node, d);
    }
  }

  lemma OnlyStart(g: Graph, step: TraversalStep, start: NodeId, node: NodeId)
    requires node in Layer(g, step, start, 0)
    ensures node == start
  {
  }

  // From one hop up, a step never leads back to where it starts, cycles or not.
  lemma NeverBackToStart(g: Graph, step: TraversalStep, start: NodeId)
    requires HopRange(step).0 >= 1
    ensures !Leads(g, step, start, start)
  {
    hide HopRange, IsTarget;
    assert Walk(g, step, start, start, []);
    assert Reachable(g, step, start, start, 0);
  }
}
