// One traversal step: walks, balls and layers around a start node.

module Distance {
  import opened Collections
  import opened Core
  import opened Patterns

  datatype Graph = Graph(nodes: map<NodeId, Node>, edges: map<EdgeId, Edge>)

  ghost predicate Keyed(g: Graph) {
    && (forall id | id in g.nodes :: g.nodes[id].id == id)
    && (forall id | id in g.edges :: g.edges[id].id == id)
  }

  function Near(e: Edge, outbound: bool): NodeId { if outbound then e.source else e.target }

  function Far(e: Edge, outbound: bool): NodeId { if outbound then e.target else e.source }

  // Edge `id` leads from `x` to `y` in the direction of the step and matches its pattern.
  predicate Hop(g: Graph, step: TraversalStep, x: NodeId, id: EdgeId, y: NodeId) {
    && id in g.edges && MatchEdge(g.edges[id], step.edge)
    && Near(g.edges[id], step.outbound) == x && Far(g.edges[id], step.outbound) == y
  }

  // A chain of matching edges.
  ghost predicate Walk(g: Graph, step: TraversalStep, start: NodeId, end: NodeId, es: seq<EdgeId>)
    decreases |es|
  {
    if es == [] then start == end
    else
      var id := es[|es| - 1];
      id in g.edges && Hop(g, step, Near(g.edges[id], step.outbound), id, end)
      && Walk(g, step, start, Near(g.edges[id], step.outbound), es[..|es| - 1])
  }

  ghost predicate Reachable(g: Graph, step: TraversalStep, start: NodeId, end: NodeId, n: nat) {
    exists es :: |es| == n && Walk(g, step, start, end, es)
  }

  // The length of a shortest walk.
  ghost predicate IsDistance(g: Graph, step: TraversalStep, start: NodeId, end: NodeId, d: nat) {
    Reachable(g, step, start, end, d) && forall k: nat | k < d :: !Reachable(g, step, start, end, k)
  }

  ghost function Image(g: Graph, step: TraversalStep, s: set<NodeId>): set<NodeId> {
    set id | id in g.edges && MatchEdge(g.edges[id], step.edge) && Near(g.edges[id], step.outbound) in s ::
      Far(g.edges[id], step.outbound)
  }

  lemma ImageSpec(g: Graph, step: TraversalStep, s: set<NodeId>, y: NodeId)
    ensures y in Image(g, step, s) <==> exists x, id :: x in s && Hop(g, step, x, id, y)
  {
    if y in Image(g, step, s) {
      var id :| id in g.edges && MatchEdge(g.edges[id], step.edge) && Near(g.edges[id], step.outbound) in s
                && Far(g.edges[id], step.outbound) == y;
      assert Hop(g, step, Near(g.edges[id], step.outbound), id, y);
    }
  }

  // Nodes within `d` hops of the start.
  ghost function Ball(g: Graph, step: TraversalStep, start: NodeId, d: nat): set<NodeId> {
    if d == 0 then {start} else Ball(g, step, start, d - 1) + Image(g, step, Ball(g, step, start, d - 1))
  }

  // Nodes first met after exactly `d` hops.
  ghost function Layer(g: Graph, step: TraversalStep, start: NodeId, d: nat): set<NodeId> {
    if d == 0 then {start} else Ball(g, step, start, d) - Ball(g, step, start, d - 1)
  }

  lemma {:induction false} BallGrows(g: Graph, step: TraversalStep, start: NodeId, c: nat, d: nat)
    requires c <= d
    ensures Ball(g, step, start, c) <= Ball(g, step, start, d)
    decreases d
  {
    hide Image;
    if c < d {
      BallGrows(g, step, start, c, d - 1);
    }
  }

  // Expanding the newest layer reaches as far as expanding the whole ball.
  lemma NextBall(g: Graph, step: TraversalStep, start: NodeId, d: nat)
    ensures Ball(g, step, start, d + 1) == Ball(g, step, start, d) + Image(g, step, Layer(g, step, start, d))
  {
    hide Hop, Image;
    var b, l := Ball(g, step, start, d), Layer(g, step, start, d);
    forall y | y in Image(g, step, b) ensures y in b + Image(g, step, l) {
      ImageSpec(g, step, b, y);
      ImageSpec(g, step, l, y);
      var x, id :| x in b && Hop(g, step, x, id, y);
      if x !in l {
        ImageSpec(g, step, Ball(g, step, start, d - 1), y);
      }
    }
    forall y | y in Image(g, step, l) ensures y in Image(g, step, b) {
      ImageSpec(g, step, b, y);
      ImageSpec(g, step, l, y);
    }
  }

  lemma {:induction false} WalkInBall(g: Graph, step: TraversalStep, start: NodeId, end: NodeId, es: seq<EdgeId>)
    requires Walk(g, step, start, end, es)
    ensures end in Ball(g, step, start, |es|)
    decreases |es|
  {
    hide Image;
    if es != [] {
      var id := es[|es| - 1];
      var mid := Near(g.edges[id], step.outbound);
      WalkInBall(g, step, start, mid, es[..|es| - 1]);
      assert Hop(g, step, mid, id, end);
      ImageSpec(g, step, Ball(g, step, start, |es| - 1), end);
    }
  }

  lemma {:induction false} BallHasWalk(g: Graph, step: TraversalStep, start: NodeId, end: NodeId, d: nat)
    returns (es: seq<EdgeId>)
    requires end in Ball(g, step, start, d)
    ensures Walk(g, step, start, end, es) && |es| <= d
    ensures Reachable(g, step, start, end, |es|)
    decreases d
  {
    hide Image;
    if d == 0 {
      es := [];
    } else if end in Ball(g, step, start, d - 1) {
      es := BallHasWalk(g, step, start, end, d - 1);
    } else {
      ImageSpec(g, step, Ball(g, step, start, d - 1), end);
      var x, id :| x in Ball(g, step, start, d - 1) && Hop(g, step, x, id, end);
      es := BallHasWalk(g, step, start, x, d - 1);
      assert (es + [id])[..|es|] == es;
      es := es + [id];
    }
  }

  // The layers are the spheres of the shortest-walk distance.
  lemma LayerIsDistance(g: Graph, step: TraversalStep, start: NodeId, end: NodeId, d: nat)
    ensures end in Layer(g, step, start, d) <==> IsDistance(g, step, start, end, d)
  {
    hide Walk, Ball;
    forall k: nat | Reachable(g, step, start, end, k) ensures end in Ball(g, step, start, k) {
      var es :| |es| == k && Walk(g, step, start, end, es);
      WalkInBall(g, step, start, end, es);
    }
    assert Ball(g, step, start, 0) == {start} by { Ball0(g, step, start); }
    if end in Layer(g, step, start, d) {
      var es := BallHasWalk(g, step, start, end, d);
      forall k: nat | k < d ensures !Reachable(g, step, start, end, k) {
        BallGrows(g, step, start, k, d - 1);
      }
    }
    if IsDistance(g, step, start, end, d) && d > 0 && end in Ball(g, step, start, d - 1) {
      var es := BallHasWalk(g, step, start, end, d - 1);
    }
  }

  lemma Ball0(g: Graph, step: TraversalStep, start: NodeId)
    ensures Ball(g, step, start, 0) == {start}
  {
  }

  // Some walk no longer than `hi` reaches `end`, exactly when its distance is at most `hi`.
  lemma WithinIsBall(g: Graph, step: TraversalStep, start: NodeId, end: NodeId, hi: nat)
    ensures end in Ball(g, step, start, hi) <==> exists n: nat :: n <= hi && Reachable(g, step, start, end, n)
  {
    hide Walk, Ball;
    if end in Ball(g, step, start, hi) {
      var es := BallHasWalk(g, step, start, end, hi);
    }
    if n: nat :| n <= hi && Reachable(g, step, start, end, n) {
      var es :| |es| == n && Walk(g, step, start, end, es);
      WalkInBall(g, step, start, end, es);
      BallGrows(g, step, start, n, hi);
    }
  }

  lemma {:induction false} BallIsLayers(g: Graph, step: TraversalStep, start: NodeId, end: NodeId, hi: nat)
    ensures end in Ball(g, step, start, hi) <==> exists d: nat :: d <= hi && end in Layer(g, step, start, d)
  {
    hide Image;
    if hi > 0 {
      BallIsLayers(g, step, start, end, hi - 1);
      assert end in Ball(g, step, start, hi) <==>
             end in Layer(g, step, start, hi) || end in Ball(g, step, start, hi - 1) by {
        BallGrows(g, step, start, hi - 1, hi);
      }
    } else {
      assert end in Layer(g, step, start, 0) <==> end == start;
    }
  }

  // ----- How deep a search can go -----

  ghost function Vertices(g: Graph, start: NodeId): set<NodeId> {
    {start} + (set id | id in g.edges :: g.edges[id].source) + (set id | id in g.edges :: g.edges[id].target)
  }

  lemma {:induction false} BallInVertices(g: Graph, step: TraversalStep, start: NodeId, d: nat)
    ensures Ball(g, step, start, d) <= Vertices(g, start)
  {
    if d > 0 {
      BallInVertices(g, step, start, d - 1);
    }
  }

  lemma {:induction false} BallCard(g: Graph, step: TraversalStep, start: NodeId, d: nat)
    requires forall c: nat | c <= d :: Layer(g, step, start, c) != {}
    ensures |Ball(g, step, start, d)| >= d + 1
  {
    hide Image;
    if d > 0 {
      BallCard(g, step, start, d - 1);
      BallGrows(g, step, start, d - 1, d);
      assert Layer(g, step, start, d) != {};
      SubsetCard(Ball(g, step, start, d - 1), Ball(g, step, start, d));
    }
  }

  // An empty layer is followed by empty layers only.
  lemma {:induction false} EmptyForever(g: Graph, step: TraversalStep, start: NodeId, c: nat, d: nat)
    requires c <= d && Layer(g, step, start, c) == {}
    ensures Layer(g, step, start, d) == {} && Ball(g, step, start, d) == Ball(g, step, start, c)
    decreases d
  {
    hide Image;
    if c < d {
      EmptyForever(g, step, start, c, d - 1);
      NextBall(g, step, start, d - 1);
      assert Image(g, step, {}) == {} by { ImageEmpty(g, step); }
    }
  }

  lemma ImageEmpty(g: Graph, step: TraversalStep)
    ensures Image(g, step, {}) == {}
  {
  }

  // There are never more non-empty layers than node ids.
  lemma DepthBound(g: Graph, step: TraversalStep, start: NodeId, d: nat)
    requires forall c: nat | c <= d :: Layer(g, step, start, c) != {}
    ensures d < |Vertices(g, start)|
  {
    hide Ball, Layer, Vertices;
    BallCard(g, step, start, d);
    BallInVertices(g, step, start, d);
    SubsetCard(Ball(g, step, start, d), Vertices(g, start));
  }
}
