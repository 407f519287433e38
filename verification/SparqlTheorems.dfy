// The rows of a lowered query against the solutions of its pattern.

module SparqlTheorems {
  import opened Wrappers
  import opened Collections
  import opened Core
  import opened Patterns
  import opened Distance
  import opened Executor
  import opened RowOrder
  import opened Store
  import opened Trails
  import opened LocalNames
  import opened Sparql
  import opened SparqlMeaning

  // The plan's trails bind exactly the chain's names, as the plan asks.
  lemma PlanTrails(g: Graph, plan: TraversalPlan, p: Position, m: Solution)
    requires Lines(plan, p)
    ensures (exists node :: Trail(g, plan.seed, plan.steps, m, node))
            <==> m.Keys == Elements(p.names) && Asks(g, plan, p, m)
  {
    hide Leads, IsSeed, PlainStep, PlainTarget, SeedAsked, HopsAsked;
    var k := |p.names| - 1;
    assert p.names[..k + 1] == p.names && p.names[k] in p.names;
    if !p.unnamed {
      assert plan.steps[..k] == plan.steps;
      forall node {
        NamedTrails(g, plan, p, k, m, node);
      }
      if m.Keys == Elements(p.names) && Asks(g, plan, p, m) {
        assert Trail(g, plan.seed, plan.steps, m, m[p.names[k]]);
      }
    } else {
      UnnamedTrails(g, plan, p, m);
    }
  }

  lemma HopsIgnoreRest(g: Graph, steps: seq<TraversalStep>, names: seq<string>, m: Solution)
    requires |steps| == |names| && names != []
    ensures HopsAsked(g, steps, names, m) == HopsAsked(g, steps[..|names| - 1], names, m)
  {
    hide HopAsked;
    assert forall i | 0 <= i < |names| - 1 :: steps[..|names| - 1][i] == steps[i];
  }

  lemma UnnamedTrails(g: Graph, plan: TraversalPlan, p: Position, m: Solution)
    requires Lines(plan, p) && p.unnamed
    ensures (exists node :: Trail(g, plan.seed, plan.steps, m, node))
            <==> m.Keys == Elements(p.names) && Asks(g, plan, p, m)
  {
    hide Leads, IsSeed, PlainStep, PlainTarget, SeedAsked, HopsAsked;
    var k := |p.names| - 1;
    var last := p.names[k];
    assert p.names[..k + 1] == p.names && last in p.names;
    assert Init(plan.steps) == plan.steps[..k] && Last(plan.steps) == plan.steps[k];
    HopsIgnoreRest(g, plan.steps, p.names, m);
    if node :| Trail(g, plan.seed, plan.steps, m, node) {
      var m0: Solution, from: NodeId :| Trail(g, plan.seed, Init(plan.steps), m0, from)
                                        && Continues(g, Last(plan.steps), m0, from, m, node);
      NamedTrails(g, plan, p, k, m0, from);
    }
    if m.Keys == Elements(p.names) && Asks(g, plan, p, m) {
      var y :| Leads(g, plan.steps[k], m[last], y);
      NamedTrails(g, plan, p, k, m, m[last]);
      assert Continues(g, Last(plan.steps), m, m[last], m, y);
      assert Trail(g, plan.seed, plan.steps, m, y);
    }
  }

  lemma {:induction false} ChainNames(first: string, ts: seq<TriplePattern>)
    requires Chain(first, ts).Some?
    ensures Elements(Chain(first, ts).value.names) == {first} + Vars(ts)
    decreases |ts|
  {
    if ts != [] {
      var init := ts[..|ts| - 1];
      ChainNames(first, init);
      var names := Chain(first, init).value.names;
      var t := ts[|ts| - 1];
      assert t.subj.name in Elements(names);
      if t.obj.Var? {
        assert forall x :: x in names + [t.obj.name] <==> x in names || x == t.obj.name;
        assert Elements(names + [t.obj.name]) == Elements(names) + {t.obj.name};
      }
    }
  }

  lemma {:induction false} VarsHasFirst(ts: seq<TriplePattern>)
    requires ts != [] && ts[0].subj.Var?
    ensures ts[0].subj.name in Vars(ts)
    decreases |ts|
  {
    if |ts| > 1 {
      VarsHasFirst(ts[..|ts| - 1]);
    } else {
      assert Vars(ts) == Vars(ts[..0]) + VarsOf(ts[0]);
    }
  }

  // Every variable of a chain is bound to a stored node.
  lemma AskedStored(g: Graph, plan: TraversalPlan, p: Position, m: Solution)
    requires Lines(plan, p) && Asks(g, plan, p, m) && m.Keys == Elements(p.names)
    ensures forall v | v in m :: m[v] in g.nodes
  {
    hide IsDistance, PlainStep, PlainTarget, MatchNode;
    forall v | v in m ensures m[v] in g.nodes {
      var i :| 0 <= i < |p.names| && p.names[i] == v;
      if i > 0 {
        assert HopAsked(g, plan.steps[i - 1], m, p.names[i - 1], p.names[i - 1 + 1]);
      }
    }
  }

  // The trails of a lowered chain bind exactly its solutions with hop ends apart.
  lemma TrailsAreSolutions(g: Graph, ts: seq<TriplePattern>, m: Solution) returns (st: Lowering)
    requires ChainShaped(ts)
    ensures CompiledAll(Start(ts[0].subj.name), ts) == Ok(st) && Lowered(ts) == Ok(st.plan)
    ensures Lines(st.plan, Chain(ts[0].subj.name, ts).value)
    ensures (exists node :: Trail(g, st.plan.seed, st.plan.steps, m, node)) <==> IsApartSolution(g, ts, m)
  {
    hide Lines, Asks, Bound, HoldsApart, Trail, Advance, Sites;
    var first := ts[0].subj.name;
    var p := Chain(first, ts).value;
    st := ChainMeaning(g, first, ts, m);
    ChainNames(first, ts);
    VarsHasFirst(ts);
    PlanTrails(g, st.plan, p, m);
    if m.Keys == Elements(p.names) && Asks(g, st.plan, p, m) {
      AskedStored(g, st.plan, p, m);
    }
  }

  // Some row has these node bindings.
  ghost predicate HasRow(rows: seq<MatchRow>, m: Solution) {
    exists i :: 0 <= i < |rows| && rows[i].nodes == m
  }

  // The rows are the solutions with hop ends apart, each once unless the last hop went to an
  // unnamed node.
  ghost predicate SolutionRows(g: Graph, ts: seq<TriplePattern>, rows: seq<MatchRow>)
    requires ChainShaped(ts)
  {
    && (forall m :: HasRow(rows, m) <==> IsApartSolution(g, ts, m))
    && (!Chain(ts[0].subj.name, ts).value.unnamed ==>
          forall i, j | 0 <= i < j < |rows| :: rows[i].nodes != rows[j].nodes)
  }

  lemma FrontierRows(frontier: Frontier, m: Solution)
    ensures HasRow(RowsOf(frontier), m) <==> exists node :: InFrontier(frontier, m, node)
  {
    var rows := RowsOf(frontier);
    if HasRow(rows, m) {
      var i :| 0 <= i < |rows| && rows[i].nodes == m;
      assert InFrontier(frontier, m, frontier[i].1);
    }
    if node :| InFrontier(frontier, m, node) {
      var i :| 0 <= i < |frontier| && frontier[i].0.nodes == m && frontier[i].1 == node;
      assert rows[i].nodes == m;
    }
  }

  // While every step binds a fresh name, no two entries carry the same bindings.
  lemma {:induction false} NamedFrontierDiffers(g: Graph, plan: TraversalPlan, p: Position, k: nat, frontier: Frontier)
    requires Lines(plan, p) && k < |p.names| && FrontierOf(g, plan.seed, plan.steps[..k], frontier)
    ensures RowsDiffer(frontier)
    decreases k
  {
    hide Leads, IsSeed, PlainStep, PlainTarget, StepAll, Trail;
    var steps := plan.steps[..k];
    if k == 0 {
      SeedsDiffer(g, plan, p, frontier);
    } else {
      assert Init(steps) == plan.steps[..k - 1] && Last(steps) == plan.steps[k - 1];
      var before: Frontier, parts: seq<Frontier> :| FrontierOf(g, plan.seed, Init(steps), before)
                                                    && StepAll(g, Last(steps), before, parts, frontier);
      NamedFrontierDiffers(g, plan, p, k - 1, before);
      forall i | 0 <= i < |before| ensures p.names[k] !in before[i].0.nodes {
        assert InFrontier(before, before[i].0.nodes, before[i].1);
        FrontierIsTrails(g, plan.seed, Init(steps), before, before[i].0.nodes, before[i].1);
        NamedTrails(g, plan, p, k - 1, before[i].0.nodes, before[i].1);
      }
      FreshStepDiffers(g, plan.steps[k - 1], before, parts, frontier);
    }
  }

  lemma SeedsDiffer(g: Graph, plan: TraversalPlan, p: Position, frontier: Frontier)
    requires Lines(plan, p) && SeedExact(g, plan.seed, frontier)
    ensures RowsDiffer(frontier)
  {
    hide IsSeed, PlainStep, PlainTarget;
    forall i, j | 0 <= i < j < |frontier| ensures frontier[i].0.nodes != frontier[j].0.nodes {
      assert frontier[i].0.nodes[p.names[0]] == frontier[i].1;
      assert frontier[j].0.nodes[p.names[0]] == frontier[j].1;
    }
  }

  lemma RowIsSolution(g: Graph, ts: seq<TriplePattern>, frontier: Frontier, m: Solution)
    requires ChainShaped(ts) && Lowered(ts).Ok?
             && FrontierOf(g, Lowered(ts).value.seed, Lowered(ts).value.steps, frontier)
    ensures HasRow(RowsOf(frontier), m) <==> IsApartSolution(g, ts, m)
  {
    hide Lines, Chain, IsApartSolution, FrontierOf, Trail, CompiledAll, InFrontier, HasRow, RowsOf, Lowered;
    var st := TrailsAreSolutions(g, ts, m);
    FrontierRows(frontier, m);
    if HasRow(RowsOf(frontier), m) {
      var node :| InFrontier(frontier, m, node);
      FrontierIsTrails(g, st.plan.seed, st.plan.steps, frontier, m, node);
    }
    if IsApartSolution(g, ts, m) {
      var node :| Trail(g, st.plan.seed, st.plan.steps, m, node);
      FrontierIsTrails(g, st.plan.seed, st.plan.steps, frontier, m, node);
    }
  }

  // The main theorem: on a chain-shaped pattern, whatever graph is stored and whatever columns, offset
  // and limit the query names, `traverse` returns that page of the solutions whose hop ends are apart.
  lemma ChainRows(g: Graph, ts: seq<TriplePattern>, columns: seq<string>, offset: nat, limit: Option<nat>,
                  rows: seq<MatchRow>)
    returns (all: seq<MatchRow>)
    requires ChainShaped(ts)
    requires Lowered(ts).Ok? ==>
               TraversalOf(g, Lowered(ts).value.(returnColumns := columns, skip := offset, limit := limit), rows)
    ensures Lowered(ts).Ok?
    ensures SolutionRows(g, ts, all)
    ensures Paged(all, Lowered(ts).value.(returnColumns := columns, skip := offset, limit := limit), rows)
  {
    hide Lines, Chain, IsApartSolution, FrontierOf, Trail, Paged, CompiledAll;
    var p := Chain(ts[0].subj.name, ts).value;
    var st := TrailsAreSolutions(g, ts, map[]);
    var plan := st.plan.(returnColumns := columns, skip := offset, limit := limit);
    var frontier :| FrontierOf(g, plan.seed, plan.steps, frontier) && Paged(RowsOf(frontier), plan, rows);
    all := RowsOf(frontier);
    forall m ensures HasRow(all, m) <==> IsApartSolution(g, ts, m) {
      RowIsSolution(g, ts, frontier, m);
    }
    if !p.unnamed {
      StepCount(st.plan, p);
      assert st.plan.steps[..|p.names| - 1] == st.plan.steps;
      NamedFrontierDiffers(g, st.plan, p, |p.names| - 1, frontier);
    }
  }

  lemma StepCount(plan: TraversalPlan, p: Position)
    requires Lines(plan, p) && !p.unnamed
    ensures |plan.steps| == |p.names| - 1 && |p.names| > 0
  {
  }

  // ----- When the rows are all of the solutions -----

  // Apart solutions are solutions; the ones missing put both ends of some hop on one node.
  lemma ApartIsSolution(g: Graph, ts: seq<TriplePattern>, m: Solution)
    requires IsApartSolution(g, ts, m)
    ensures IsSolution(g, ts, m)
  {
    hide Serves, HasType, LocalName;
    forall i | 0 <= i < |ts| ensures Holds(g, m, ts[i]) {
      assert HoldsApart(g, m, ts[i]);
    }
  }

  // No stored edge with a queried label runs from a node to itself.
  ghost predicate NoSelfLoops(g: Graph, ts: seq<TriplePattern>) {
    forall i, x | 0 <= i < |ts| && WellFormed(ts[i]) && !IsType(ts[i]) && x in g.nodes ::
      !LabelledEdge(g, x, LocalName(ts[i].pred.text), x)
  }

  lemma NoSelfLoopsPreserves(g: Graph, ts: seq<TriplePattern>, m: Solution)
    requires NoSelfLoops(g, ts)
    ensures IsSolution(g, ts, m) <==> IsApartSolution(g, ts, m)
  {
    hide LabelledEdge, HasType, LocalName;
    if IsSolution(g, ts, m) {
      forall i | 0 <= i < |ts| ensures Bound(ts[i], m) && HoldsApart(g, m, ts[i]) {
        assert Holds(g, m, ts[i]);
        if !IsType(ts[i]) && !ts[i].obj.Var? {
          var y :| Serves(g, ts[i], m[ts[i].subj.name], y);
        }
      }
    }
    if IsApartSolution(g, ts, m) {
      ApartIsSolution(g, ts, m);
    }
  }

  // For a single hop between two variables, the rows are all of the solutions exactly when no stored
  // node has a self-loop with the label.
  lemma SingleHopExact(g: Graph, a: string, relation: string, b: string)
    requires a != b && relation != "a"
    ensures var ts := [TriplePattern(Var(a), Local(relation), Var(b))];
            && ChainShaped(ts)
            && ((forall m :: IsSolution(g, ts, m) <==> IsApartSolution(g, ts, m)) <==> NoSelfLoops(g, ts))
  {
    hide LocalName;
    var t := TriplePattern(Var(a), Local(relation), Var(b));
    var ts := [t];
    assert ts[..0] == [];
    assert Chain(a, []) == Some(Position([a], false));
    assert Chain(a, ts) == Advance(Position([a], false), t);
    assert Vars([]) == {};
    assert Vars(ts) == {a, b};
    if NoSelfLoops(g, ts) {
      forall m ensures IsSolution(g, ts, m) <==> IsApartSolution(g, ts, m) {
        NoSelfLoopsPreserves(g, ts, m);
      }
    }
    if forall m :: IsSolution(g, ts, m) <==> IsApartSolution(g, ts, m) {
      forall x | x in g.nodes ensures !LabelledEdge(g, x, LocalName(relation), x) {
        var m := map[a := x, b := x];
        assert m.Keys == {a, b};
        assert IsApartSolution(g, ts, m) ==> HoldsApart(g, m, ts[0]);
        assert LabelledEdge(g, x, LocalName(relation), x) ==> Holds(g, m, t) && IsSolution(g, ts, m);
      }
    }
  }

  // ----- Patterns that are accepted but not chains -----

  function Plain(n: nat): Node { Node(NodeId(n), None, [], map[]) }

  function Arrow(s: nat, relation: string, t: nat): Edge { Between(NodeId(s), relation, NodeId(t)) }

  function SmallGraph(e: Edge, f: Edge): Graph {
    Graph(map[NodeId(1) := Plain(1), NodeId(2) := Plain(2), NodeId(3) := Plain(3)], map[e.id := e, f.id := f])
  }

  function Hop2(a: string, p: string, b: string): TriplePattern { TriplePattern(Var(a), Local(p), Var(b)) }

  const BRANCH_GRAPH := SmallGraph(Arrow(1, "p", 2), Arrow(1, "q", 3))
  const BRANCH_QUERY := [Hop2("x", "p", "y"), Hop2("x", "q", "z")]
  const PATH_GRAPH := SmallGraph(Arrow(1, "p", 2), Arrow(2, "p", 3))
  const REJOIN_QUERY := [Hop2("x", "p", "y"), Hop2("y", "p", "x")]

  lemma PlainLocalName(s: string)
    requires forall c | c in s :: !IsDelimiter(c)
    ensures LocalName(s) == s
  {
    if CutPoint(s) > 0 {
      assert s[CutPoint(s) - 1] in s;
    }
  }

  lemma SmallEdges(e: Edge, f: Edge, x: NodeId, relation: string, y: NodeId)
    requires e.id != f.id
    ensures LabelledEdge(SmallGraph(e, f), x, relation, y) <==>
            || (e.relation == relation && e.source == x && e.target == y)
            || (f.relation == relation && f.source == x && f.target == y)
  {
    var g := SmallGraph(e, f);
    assert g.edges.Keys == {e.id, f.id} && g.edges[e.id] == e && g.edges[f.id] == f;
    assert IsEdge(g, e.id, e.source, e.relation, e.target) && IsEdge(g, f.id, f.source, f.relation, f.target);
  }

  // A variable hop between stored untyped nodes.
  lemma VariableHop(g: Graph, a: string, relation: string, b: string, x: NodeId, y: NodeId)
    requires relation != "a" && forall c | c in relation :: !IsDelimiter(c)
    ensures var t := Hop2(a, relation, b);
            && WellFormed(t) && !IsType(t)
            && (Serves(g, t, x, y) <==> LabelledEdge(g, x, relation, y) && y in g.nodes)
            && (Leads(g, HopFor(t.pred.text, t.obj), x, y)
                <==> LabelledEdge(g, x, relation, y) && y in g.nodes && x != y)
  {
    hide LabelledEdge, LocalName, Leads, HopFor;
    PlainLocalName(relation);
    HopLeads(g, Hop2(a, relation, b), x, y);
  }

  // The hop from ?x to ?z is compiled from where the previous hop ended, at ?y: the solution is lost.
  lemma BranchingIsLost()
    ensures !ChainShaped(BRANCH_QUERY) && Lowered(BRANCH_QUERY).Ok?
    ensures IsSolution(BRANCH_GRAPH, BRANCH_QUERY, map["x" := NodeId(1), "y" := NodeId(2), "z" := NodeId(3)])
    ensures forall m, node ::
              !Trail(BRANCH_GRAPH, Lowered(BRANCH_QUERY).value.seed, Lowered(BRANCH_QUERY).value.steps, m, node)
  {
    hide Leads, Serves, HopFor, LabelledEdge, Lowered, ChainShaped, SmallGraph;
    var t, u := Hop2("x", "p", "y"), Hop2("x", "q", "z");
    var g := BRANCH_GRAPH;
    TwoHops(t, u);
    var plan := Lowered(BRANCH_QUERY).value;
    forall x, y ensures LabelledEdge(g, x, "p", y) <==> x == NodeId(1) && y == NodeId(2) {
      SmallEdges(Arrow(1, "p", 2), Arrow(1, "q", 3), x, "p", y);
    }
    forall x, y ensures LabelledEdge(g, x, "q", y) <==> x == NodeId(1) && y == NodeId(3) {
      SmallEdges(Arrow(1, "p", 2), Arrow(1, "q", 3), x, "q", y);
    }
    SmallNodes(Arrow(1, "p", 2), Arrow(1, "q", 3));
    VariableHop(g, "x", "p", "y", NodeId(1), NodeId(2));
    VariableHop(g, "x", "q", "z", NodeId(1), NodeId(3));
    VarsOfTwo(t, u);
    forall m, node ensures !Trail(g, plan.seed, plan.steps, m, node) {
      if Trail(g, plan.seed, plan.steps, m, node) {
        var m1: Solution, from: NodeId :| Trail(g, plan.seed, Init(plan.steps), m1, from)
                                          && Continues(g, Last(plan.steps), m1, from, m, node);
        var m0: Solution, start: NodeId :| Trail(g, plan.seed, Init(Init(plan.steps)), m0, start)
                                           && Continues(g, Last(Init(plan.steps)), m0, start, m1, from);
        VariableHop(g, "x", "p", "y", start, from);
        VariableHop(g, "x", "q", "z", from, node);
      }
    }
  }

  // A variable met again is overwritten, not joined: a row that is no solution.
  lemma RejoiningIsWrong()
    ensures !ChainShaped(REJOIN_QUERY) && Lowered(REJOIN_QUERY).Ok?
    ensures forall m :: !IsSolution(PATH_GRAPH, REJOIN_QUERY, m)
    ensures Trail(PATH_GRAPH, Lowered(REJOIN_QUERY).value.seed, Lowered(REJOIN_QUERY).value.steps,
                  map["x" := NodeId(3), "y" := NodeId(2)], NodeId(3))
  {
    hide Leads, Serves, HopFor, LabelledEdge, Lowered, ChainShaped, SmallGraph;
    var t, u := Hop2("x", "p", "y"), Hop2("y", "p", "x");
    var g := PATH_GRAPH;
    TwoHops(t, u);
    var plan := Lowered(REJOIN_QUERY).value;
    forall x, y ensures LabelledEdge(g, x, "p", y) <==>
                        (x == NodeId(1) && y == NodeId(2)) || (x == NodeId(2) && y == NodeId(3)) {
      SmallEdges(Arrow(1, "p", 2), Arrow(2, "p", 3), x, "p", y);
    }
    SmallNodes(Arrow(1, "p", 2), Arrow(2, "p", 3));
    forall m ensures !IsSolution(g, REJOIN_QUERY, m) {
      if IsSolution(g, REJOIN_QUERY, m) {
        VariableHop(g, "x", "p", "y", m["x"], m["y"]);
        VariableHop(g, "y", "p", "x", m["y"], m["x"]);
      }
    }
    VariableHop(g, "x", "p", "y", NodeId(1), NodeId(2));
    VariableHop(g, "y", "p", "x", NodeId(2), NodeId(3));
    HopTargets(t);
    HopTargets(u);
    var m0, m1, m2 := map["x" := NodeId(1)], map["x" := NodeId(1), "y" := NodeId(2)],
        map["x" := NodeId(3), "y" := NodeId(2)];
    var s0, s1 := plan.steps[0], plan.steps[1];
    assert plan.steps == [s0, s1];
    assert Init([s0, s1]) == [s0] && Last([s0, s1]) == s1 && Init([s0]) == [] && Last([s0]) == s0;
    assert Trail(g, plan.seed, [], m0, NodeId(1));
    assert Continues(g, s0, m0, NodeId(1), m1, NodeId(2));
    assert Trail(g, plan.seed, [s0], m1, NodeId(2));
    assert Continues(g, s1, m1, NodeId(2), m2, NodeId(3));
    assert Trail(g, plan.seed, [s0, s1], m2, NodeId(3));
  }

  lemma HopTargets(t: TriplePattern)
    requires WellFormed(t)
    ensures HopFor(t.pred.text, t.obj).target.bind == (if t.obj.Var? then Some(t.obj.name) else None)
  {
  }

  lemma SmallNodes(e: Edge, f: Edge)
    ensures forall n | n in {NodeId(1), NodeId(2), NodeId(3)} :: n in SmallGraph(e, f).nodes
  {
  }

  // How two variable hops are lowered.
  lemma TwoHops(t: TriplePattern, u: TriplePattern)
    requires WellFormed(t) && WellFormed(u) && !IsType(t) && !IsType(u) && t.obj.Var? && u.obj.Var?
    requires u.subj.name == t.subj.name || u.subj.name == t.obj.name
    ensures Lowered([t, u]) == Ok(PlanFrom(ANY_NODE.(bind := Some(t.subj.name)))
                                  .(steps := [HopFor(t.pred.text, t.obj), HopFor(u.pred.text, u.obj)]))
    ensures t.subj.name != t.obj.name && (u.subj.name != t.obj.name || u.obj.name in {t.subj.name, t.obj.name})
            ==> !ChainShaped([t, u])
  {
    hide HopFor;
    var ts := [t, u];
    assert ts[..1] == [t] && [t][..0] == [];
    var start := Start(t.subj.name);
    var s1 := Hopped(start, t.pred.text, t.obj);
    assert CompiledAll(start, []) == Ok(start);
    assert CompiledAll(start, [t]) == Compiled(start, t) == Ok(s1);
    assert CompiledAll(start, ts) == Compiled(s1, u) == Ok(Hopped(s1, u.pred.text, u.obj));
    assert Hopped(s1, u.pred.text, u.obj).plan.steps == [HopFor(t.pred.text, t.obj), HopFor(u.pred.text, u.obj)];
    assert Lowered(ts) == Ok(Hopped(s1, u.pred.text, u.obj).plan);
    assert Chain(t.subj.name, []) == Some(Position([t.subj.name], false));
    assert Chain(t.subj.name, [t]) == Advance(Position([t.subj.name], false), t);
    assert Chain(t.subj.name, ts)
        == (if Chain(t.subj.name, [t]).None? then None else Advance(Chain(t.subj.name, [t]).value, u));
  }

  lemma VarsOfTwo(t: TriplePattern, u: TriplePattern)
    ensures Vars([t, u]) == VarsOf(t) + VarsOf(u)
  {
    assert [t, u][..1] == [t] && [t][..0] == [];
    assert Vars([t]) == Vars([]) + VarsOf(t);
  }
}
