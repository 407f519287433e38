// Seeding and traversal over the in-memory store.

module Store {
  import opened Core
  import opened Patterns
  import opened Distance
  import opened Executor
  import opened RowOrder

  type Frontier = seq<(MatchRow, NodeId)>

  // One entry for each stored node that matches the seed.
  ghost predicate SeedExact(g: Graph, seed: NodePattern, frontier: Frontier) {
    && (forall i, j | 0 <= i < j < |frontier| :: frontier[i].1 != frontier[j].1)
    && (forall i | 0 <= i < |frontier| :: IsSeed(g, seed, frontier[i].1)
                                           && frontier[i].0 == BindNode(EMPTY_ROW, seed.bind, frontier[i].1))
    && (forall node | IsSeed(g, seed, node) :: HasNode(frontier, node))
  }

  ghost predicate IsSeed(g: Graph, seed: NodePattern, node: NodeId) {
    node in g.nodes && MatchNode(g.nodes[node], seed)
  }

  ghost function Flatten(parts: seq<Frontier>): Frontier {
    if parts == [] then [] else Flatten(parts[..|parts| - 1]) + parts[|parts| - 1]
  }

  // `next` lists, entry by entry of `frontier`, the exact results of the step from that entry.
  ghost predicate StepAll(g: Graph, step: TraversalStep, frontier: Frontier, parts: seq<Frontier>, next: Frontier) {
    && |parts| == |frontier|
    && (forall i | 0 <= i < |parts| :: StepExact(g, step, frontier[i].0, frontier[i].1, parts[i]))
    && next == Flatten(parts)
  }

  lemma NoSteps(g: Graph, step: TraversalStep)
    ensures StepAll(g, step, [], [], [])
  {
  }

  lemma OneMoreStep(g: Graph, step: TraversalStep, frontier: Frontier, i: nat, parts: seq<Frontier>, next: Frontier,
                    out: Frontier)
    requires i < |frontier| && StepAll(g, step, frontier[..i], parts, next)
    requires StepExact(g, step, frontier[i].0, frontier[i].1, out)
    ensures StepAll(g, step, frontier[..i + 1], parts + [out], next + out)
  {
    hide StepExact;
    assert (parts + [out])[..|parts|] == parts;
    assert forall j | 0 <= j < i :: frontier[..i + 1][j] == frontier[..i][j];
  }

  // What a traversal's frontier is after the given steps.
  ghost predicate FrontierOf(g: Graph, seed: NodePattern, steps: seq<TraversalStep>, frontier: Frontier)
    decreases |steps|
  {
    if steps == [] then SeedExact(g, seed, frontier)
    else exists before, parts ::
        FrontierOf(g, seed, Init(steps), before) && StepAll(g, Last(steps), before, parts, frontier)
  }

  function Init<T>(s: seq<T>): seq<T>
    requires s != []
  {
    s[..|s| - 1]
  }

  function Last<T>(s: seq<T>): T
    requires s != []
  {
    s[|s| - 1]
  }

  ghost function RowsOf(frontier: Frontier): seq<MatchRow> {
    seq(|frontier|, i requires 0 <= i < |frontier| => frontier[i].0)
  }

  ghost predicate TraversalOf(g: Graph, plan: TraversalPlan, rows: seq<MatchRow>) {
    exists frontier :: FrontierOf(g, plan.seed, plan.steps, frontier) && Paged(RowsOf(frontier), plan, rows)
  }

  class MemStore {
    var ontology: Ontology

    constructor FromOntology(ontology: Ontology)
      ensures this.ontology == ontology
    {
      this.ontology := ontology;
    }

    ghost function Snapshot(): Graph
      reads this, ontology
    {
      Graph(ontology.nodes, ontology.edges)
    }

    method MatchSeed(g: Graph, seed: NodePattern) returns (frontier: Frontier)
      requires Keyed(g)
      ensures SeedExact(g, seed, frontier)
    {
      frontier := [];
      var todo := g.nodes.Keys;
      while todo != {}
        invariant todo <= g.nodes.Keys
        invariant forall i, j | 0 <= i < j < |frontier| :: frontier[i].1 != frontier[j].1
        invariant forall i | 0 <= i < |frontier| :: frontier[i].1 !in todo && IsSeed(g, seed, frontier[i].1)
                                                     && frontier[i].0 == BindNode(EMPTY_ROW, seed.bind, frontier[i].1)
        invariant forall node | IsSeed(g, seed, node) && node !in todo :: HasNode(frontier, node)
      {
        var key :| key in todo;
        todo := todo - {key};
        var node := g.nodes[key];
        if MatchNode(node, seed) {
          ghost var had := frontier;
          frontier := frontier + [(BindNode(EMPTY_ROW, seed.bind, node.id), node.id)];
          assert frontier[|had|].1 == key;
          assert forall n | HasNode(had, n) :: HasNode(frontier, n) by {
            assert forall i | 0 <= i < |had| :: frontier[i] == had[i];
          }
        }
      }
    }

    // The body of the loop over steps: `frontier.drain(..)` into `next`.
    method RunStep(g: Graph, step: TraversalStep, frontier: Frontier) returns (next: Frontier)
      requires Keyed(g)
      ensures exists parts :: StepAll(g, step, frontier, parts, next)
    {
      hide StepExact, StepAll;
      next := [];
      ghost var parts: seq<Frontier> := [];
      NoSteps(g, step);
      for i := 0 to |frontier|
        invariant StepAll(g, step, frontier[..i], parts, next)
      {
        var out, rounds := ExpandRow(g, step, frontier[i].0, frontier[i].1);
        OneMoreStep(g, step, frontier, i, parts, next, out);
        next := next + out;
        parts := parts + [out];
      }
      assert frontier[..|frontier|] == frontier;
    }

    method Traverse(plan: TraversalPlan) returns (rows: seq<MatchRow>)
      requires Keyed(Snapshot())
      ensures TraversalOf(Snapshot(), plan, rows)
    {
      hide StepAll, Keyed, SeedExact;
      var g := Graph(ontology.nodes, ontology.edges);
      var frontier := MatchSeed(g, plan.seed);
      for k := 0 to |plan.steps|
        invariant FrontierOf(g, plan.seed, plan.steps[..k], frontier)
      {
        ghost var before := frontier;
        frontier := RunStep(g, plan.steps[k], frontier);
        ghost var parts :| StepAll(g, plan.steps[k], before, parts, frontier);
        assert Init(plan.steps[..k + 1]) == plan.steps[..k] && Last(plan.steps[..k + 1]) == plan.steps[k];
        assert FrontierOf(g, plan.seed, Init(plan.steps[..k + 1]), before);
        assert StepAll(g, Last(plan.steps[..k + 1]), before, parts, frontier);
      }
      assert plan.steps[..|plan.steps|] == plan.steps;
      var bare := [];
      for i := 0 to |frontier|
        invariant bare == RowsOf(frontier)[..i]
      {
        bare := bare + [frontier[i].0];
      }
      assert bare == RowsOf(frontier);
      rows := ApplyOrderingAndProjection(bare, plan);
    }
  }
}
