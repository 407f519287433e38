// The ways through a plan: what a frontier holds, and when its rows differ.

module Trails {
  import opened Wrappers
  import opened Core
  import opened Patterns
  import opened Distance
  import opened Executor
  import opened Store

  // The node bindings and end node of one way through the plan. Edge bindings are left out: which of
  // several parallel shortest edges is bound depends on the iteration order of the edge map.
  ghost predicate Trail(g: Graph, seed: NodePattern, steps: seq<TraversalStep>, m: map<string, NodeId>, node: NodeId)
    decreases |steps|
  {
    if steps == [] then IsSeed(g, seed, node) && m == BindNode(EMPTY_ROW, seed.bind, node).nodes
    else exists before, from ::
        Trail(g, seed, Init(steps), before, from) && Continues(g, Last(steps), before, from, m, node)
  }

  ghost predicate Continues(g: Graph, step: TraversalStep, before: map<string, NodeId>, from: NodeId,
                            m: map<string, NodeId>, node: NodeId) {
    && Leads(g, step, from, node)
    && m == (if step.target.bind.Some? then before[step.target.bind.value := node] else before)
  }

  lemma EmittedContinues(g: Graph, step: TraversalStep, row: MatchRow, start: NodeId, out: (MatchRow, NodeId))
    requires Emitted(g, step, row, start, out)
    ensures Continues(g, step, row.nodes, start, out.0.nodes, out.1)
  {
    hide Layer, LastOfShortest, IsDistance;
    var d: nat :| EmittedAt(g, step, row, start, d, out);
    LayerIsDistance(g, step, start, out.1, d);
  }

  // Some entry of the frontier has these bindings and this end node.
  ghost predicate InFrontier(frontier: Frontier, m: map<string, NodeId>, node: NodeId) {
    exists i :: 0 <= i < |frontier| && frontier[i].0.nodes == m && frontier[i].1 == node
  }

  lemma {:induction false} FlattenMember(parts: seq<Frontier>, m: map<string, NodeId>, node: NodeId)
    ensures InFrontier(Flatten(parts), m, node) <==> exists i :: 0 <= i < |parts| && InFrontier(parts[i], m, node)
    decreases |parts|
  {
    if parts != [] {
      var init, last := parts[..|parts| - 1], parts[|parts| - 1];
      FlattenMember(init, m, node);
      var all := Flatten(parts);
      assert all == Flatten(init) + last;
      if InFrontier(Flatten(init), m, node) {
        var i :| 0 <= i < |Flatten(init)| && Flatten(init)[i].0.nodes == m && Flatten(init)[i].1 == node;
        assert all[i] == Flatten(init)[i];
      }
      if InFrontier(last, m, node) {
        var i :| 0 <= i < |last| && last[i].0.nodes == m && last[i].1 == node;
        assert all[|Flatten(init)| + i] == last[i];
      }
      if InFrontier(all, m, node) {
        var i :| 0 <= i < |all| && all[i].0.nodes == m && all[i].1 == node;
        if i < |Flatten(init)| {
          assert Flatten(init)[i] == all[i];
          var j :| 0 <= j < |init| && InFrontier(init[j], m, node);
          assert parts[j] == init[j];
        } else {
          assert last[i - |Flatten(init)|] == all[i];
        }
      }
      if j :| 0 <= j < |parts| && InFrontier(parts[j], m, node) {
        if j < |parts| - 1 {
          assert init[j] == parts[j];
        }
      }
    }
  }

  // The frontier holds exactly the trails.
  lemma {:induction false} FrontierIsTrails(g: Graph, seed: NodePattern, steps: seq<TraversalStep>, frontier: Frontier,
                                            m: map<string, NodeId>, node: NodeId)
    requires FrontierOf(g, seed, steps, frontier)
    ensures InFrontier(frontier, m, node) <==> Trail(g, seed, steps, m, node)
    decreases |steps|
  {
    hide Continues, StepExact, Emitted, Leads, IsSeed;
    if steps == [] {
      if Trail(g, seed, steps, m, node) {
        assert HasNode(frontier, node);
      }
    } else {
      var before: Frontier, parts: seq<Frontier> :| FrontierOf(g, seed, Init(steps), before)
          && StepAll(g, Last(steps), before, parts, frontier);
      var step := Last(steps);
      FlattenMember(parts, m, node);
      if InFrontier(frontier, m, node) {
        var i :| 0 <= i < |parts| && InFrontier(parts[i], m, node);
        PartContinues(g, step, before[i].0, before[i].1, parts[i], m, node);
        assert InFrontier(before, before[i].0.nodes, before[i].1);
        FrontierIsTrails(g, seed, Init(steps), before, before[i].0.nodes, before[i].1);
      }
      if Trail(g, seed, steps, m, node) {
        var m0, from :| Trail(g, seed, Init(steps), m0, from) && Continues(g, step, m0, from, m, node);
        FrontierIsTrails(g, seed, Init(steps), before, m0, from);
        var i :| 0 <= i < |before| && before[i].0.nodes == m0 && before[i].1 == from;
        PartContinues(g, step, before[i].0, before[i].1, parts[i], m, node);
      }
    }
  }

  lemma PartContinues(g: Graph, step: TraversalStep, row: MatchRow, start: NodeId, part: Frontier,
                      m: map<string, NodeId>, node: NodeId)
    requires StepExact(g, step, row, start, part)
    ensures InFrontier(part, m, node) <==> Continues(g, step, row.nodes, start, m, node)
  {
    hide Emitted, Leads;
    if InFrontier(part, m, node) {
      var i :| 0 <= i < |part| && part[i].0.nodes == m && part[i].1 == node;
      EmittedContinues(g, step, row, start, part[i]);
    }
    if Continues(g, step, row.nodes, start, m, node) {
      assert Leads(g, step, start, node);
      assert HasNode(part, node);
      var i :| 0 <= i < |part| && part[i].1 == node;
      EmittedContinues(g, step, row, start, part[i]);
    }
  }

  // ----- No row twice -----

  ghost predicate RowsDiffer(frontier: Frontier) {
    forall i, j | 0 <= i < j < |frontier| :: frontier[i].0.nodes != frontier[j].0.nodes
  }

  ghost predicate NoneShared(a: Frontier, b: Frontier) {
    forall i, j | 0 <= i < |a| && 0 <= j < |b| :: a[i].0.nodes != b[j].0.nodes
  }

  lemma {:induction false} FlattenDiffers(parts: seq<Frontier>)
    requires forall i | 0 <= i < |parts| :: RowsDiffer(parts[i])
    requires forall i, j | 0 <= i < j < |parts| :: NoneShared(parts[i], parts[j])
    ensures RowsDiffer(Flatten(parts))
    decreases |parts|
  {
    if parts != [] {
      var init, last := parts[..|parts| - 1], parts[|parts| - 1];
      FlattenDiffers(init);
      var a := Flatten(init);
      forall i, j | 0 <= i < |a| && 0 <= j < |last| ensures a[i].0.nodes != last[j].0.nodes {
        FlattenMember(init, a[i].0.nodes, a[i].1);
        assert InFrontier(a, a[i].0.nodes, a[i].1);
        var k :| 0 <= k < |init| && InFrontier(init[k], a[i].0.nodes, a[i].1);
        assert NoneShared(parts[k], parts[|parts| - 1]);
      }
    }
  }

  // A step that binds a fresh name keeps rows apart.
  lemma FreshStepDiffers(g: Graph, step: TraversalStep, before: Frontier, parts: seq<Frontier>, next: Frontier)
    requires StepAll(g, step, before, parts, next) && RowsDiffer(before) && step.target.bind.Some?
    requires forall i | 0 <= i < |before| :: step.target.bind.value !in before[i].0.nodes
    ensures RowsDiffer(next)
  {
    hide Emitted, Leads, Flatten;
    var name := step.target.bind.value;
    forall i, k | 0 <= i < |parts| && 0 <= k < |parts[i]|
      ensures parts[i][k].0.nodes == before[i].0.nodes[name := parts[i][k].1]
    {
      EmittedContinues(g, step, before[i].0, before[i].1, parts[i][k]);
    }
    forall i, j | 0 <= i < j < |parts| ensures NoneShared(parts[i], parts[j]) {
      forall k, l | 0 <= k < |parts[i]| && 0 <= l < |parts[j]| ensures parts[i][k].0.nodes != parts[j][l].0.nodes {
        assert before[i].0.nodes == parts[i][k].0.nodes - {name};
        assert before[j].0.nodes == parts[j][l].0.nodes - {name};
      }
    }
    forall i | 0 <= i < |parts| ensures RowsDiffer(parts[i]) {
      forall k, l | 0 <= k < l < |parts[i]| ensures parts[i][k].0.nodes != parts[i][l].0.nodes {
        assert parts[i][k].0.nodes[name] == parts[i][k].1;
        assert parts[i][l].0.nodes[name] == parts[i][l].1;
      }
    }
    FlattenDiffers(parts);
  }
}
