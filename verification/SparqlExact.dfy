// Exactly which accepted patterns keep their meaning: those that are chains.

module SparqlExact {
  import opened Wrappers
  import opened Core
  import opened Patterns
  import opened Distance
  import opened Executor
  import opened Store
  import opened Trails
  import opened LocalNames
  import opened Sparql
  import opened SparqlMeaning
  import opened SparqlTheorems
  import opened SparqlShapes

  // On this graph, the plan binds exactly the solutions whose hop ends are apart.
  ghost predicate PreservedOn(g: Graph, ts: seq<TriplePattern>)
    requires Lowered(ts).Ok?
  {
    var plan := Lowered(ts).value;
    forall m :: (exists node :: Trail(g, plan.seed, plan.steps, m, node)) <==> IsApartSolution(g, ts, m)
  }

  // ----- The plan of an accepted pattern -----

  // The types a pattern mentions.
  function TypeList(ts: seq<TriplePattern>): seq<string> {
    if ts == [] then []
    else TypeList(ts[..|ts| - 1]) + if ts[|ts| - 1].obj.Var? then [] else [LocalName(ts[|ts| - 1].obj.text)]
  }

  lemma {:induction false} TypeListHas(ts: seq<TriplePattern>, i: nat)
    requires i < |ts| && !ts[i].obj.Var?
    ensures LocalName(ts[i].obj.text) in TypeList(ts)
    decreases |ts|
  {
    hide LocalName;
    if i < |ts| - 1 {
      TypeListHas(ts[..|ts| - 1], i);
    }
  }

  // The step of a hop, whatever known types were attached to its target.
  ghost predicate StepOf(step: TraversalStep, t: TriplePattern, tys: seq<string>) {
    && IsHop(t) && PlainStep(step) && step.edge.relation == Some(LocalName(t.pred.text))
    && step.target.bind == (if t.obj.Var? then Some(t.obj.name) else None)
    && forall ty | ty in step.target.types :: ty in tys
  }

  ghost predicate SeedOf(seed: NodePattern, first: string, tys: seq<string>) {
    PlainTarget(seed) && seed.bind == Some(first) && forall ty | ty in seed.types :: ty in tys
  }

  ghost predicate StepsOf(steps: seq<TraversalStep>, hs: seq<TriplePattern>, tys: seq<string>) {
    |steps| == |hs| && forall j | 0 <= j < |steps| :: StepOf(steps[j], hs[j], tys)
  }

  ghost predicate PlanOf(st: Lowering, first: string, ts: seq<TriplePattern>, tys: seq<string>) {
    && SeedOf(st.plan.seed, first, tys)
    && StepsOf(st.plan.steps, Hops(ts), tys)
    && st.bindings.Keys == Introduced(first, ts)
  }

  lemma StepsAppend(steps: seq<TraversalStep>, hs: seq<TriplePattern>, tys: seq<string>, step: TraversalStep,
                    t: TriplePattern)
    requires StepsOf(steps, hs, tys) && StepOf(step, t, tys)
    ensures StepsOf(steps + [step], hs + [t], tys)
  {
    hide StepOf;
  }

  lemma StepsAttach(steps: seq<TraversalStep>, hs: seq<TriplePattern>, tys: seq<string>, k: nat, ty: string)
    requires StepsOf(steps, hs, tys) && k < |steps| && ty in tys
    ensures StepsOf(steps[k := steps[k].(target := AddType(steps[k].target, ty))], hs, tys)
  {
    hide StepOf;
    StepKept(steps[k], hs[k], tys, ty);
  }

  lemma {:induction false} AcceptedPlan(first: string, ts: seq<TriplePattern>, tys: seq<string>) returns (st: Lowering)
    requires CompiledAll(Start(first), ts).Ok? && forall ty | ty in TypeList(ts) :: ty in tys
    ensures CompiledAll(Start(first), ts) == Ok(st)
    ensures Accepted(first, ts) && PlanOf(st, first, ts, tys)
    decreases |ts|
  {
    hide PlanOf, LocalName, Attached, Hopped;
    if ts == [] {
      st := Start(first);
      StartPlan(first, tys);
    } else {
      var init, t := ts[..|ts| - 1], ts[|ts| - 1];
      var before := AcceptedPlan(first, init, tys);
      PlanKeys(before, first, init, tys);
      AcceptedMore(first, ts);
      assert Compiled(before, t).Ok?;
      if IsHop(t) {
        st := Hopped(before, t.pred.text, t.obj);
        HopPlan(before, first, ts, tys, st);
      } else {
        st := Attached(before, t.subj.name, LocalName(t.obj.text));
        TypePlan(before, first, ts, tys, st);
      }
    }
  }

  lemma PlanKeys(st: Lowering, first: string, ts: seq<TriplePattern>, tys: seq<string>)
    requires PlanOf(st, first, ts, tys)
    ensures st.bindings.Keys == Introduced(first, ts)
  {
  }

  lemma AcceptedMore(first: string, ts: seq<TriplePattern>)
    requires ts != [] && Accepted(first, ts[..|ts| - 1]) && WellFormed(ts[|ts| - 1])
    requires ts[|ts| - 1].subj.name in Introduced(first, ts[..|ts| - 1])
    ensures Accepted(first, ts)
  {
    hide Introduced;
    var init := ts[..|ts| - 1];
    forall i | 0 <= i < |ts| ensures WellFormed(ts[i]) && ts[i].subj.name in Introduced(first, ts[..i]) {
      if i < |init| {
        assert init[i] == ts[i] && init[..i] == ts[..i];
      }
    }
  }

  lemma StartPlan(first: string, tys: seq<string>)
    ensures PlanOf(Start(first), first, [], tys)
  {
  }

  lemma {:induction false} HopPlan(st: Lowering, first: string, ts: seq<TriplePattern>, tys: seq<string>,
                                   next: Lowering)
    requires ts != [] && IsHop(ts[|ts| - 1]) && WellFormed(ts[|ts| - 1])
    requires PlanOf(st, first, ts[..|ts| - 1], tys) && forall ty | ty in TypeList(ts) :: ty in tys
    requires next == Hopped(st, ts[|ts| - 1].pred.text, ts[|ts| - 1].obj)
    ensures PlanOf(next, first, ts, tys)
  {
    hide HopFor, StepOf, StepsOf, SeedOf, TypeList, Hops, Introduced, LocalName;
    var t := ts[|ts| - 1];
    HopsStep(first, ts);
    HopStep(t, tys, ts);
    StepsAppend(st.plan.steps, Hops(ts[..|ts| - 1]), tys, HopFor(t.pred.text, t.obj), t);
    assert next.bindings.Keys == st.bindings.Keys + if t.obj.Var? then {t.obj.name} else {};
  }

  lemma HopStep(t: TriplePattern, tys: seq<string>, ts: seq<TriplePattern>)
    requires ts != [] && t == ts[|ts| - 1] && IsHop(t) && WellFormed(t) && forall ty | ty in TypeList(ts) :: ty in tys
    ensures StepOf(HopFor(t.pred.text, t.obj), t, tys)
  {
    hide LocalName, TypeList;
    if !t.obj.Var? {
      TypeListHas(ts, |ts| - 1);
    }
  }

  lemma {:induction false} TypePlan(st: Lowering, first: string, ts: seq<TriplePattern>, tys: seq<string>,
                                    next: Lowering)
    requires ts != [] && !IsHop(ts[|ts| - 1]) && WellFormed(ts[|ts| - 1])
    requires PlanOf(st, first, ts[..|ts| - 1], tys) && forall ty | ty in TypeList(ts) :: ty in tys
    requires next == Attached(st, ts[|ts| - 1].subj.name, LocalName(ts[|ts| - 1].obj.text))
    ensures PlanOf(next, first, ts, tys)
  {
    hide StepOf, StepsOf, SeedOf, TypeList, Hops, Introduced, LocalName, AddType;
    var t := ts[|ts| - 1];
    TypeListHas(ts, |ts| - 1);
    NoHopStep(first, ts);
    var ty := LocalName(t.obj.text);
    SeedAttach(st.plan.seed, first, tys, ty);
    if t.subj.name in st.bindings && st.bindings[t.subj.name].Step?
        && st.bindings[t.subj.name].index < |st.plan.steps| {
      StepsAttach(st.plan.steps, Hops(ts), tys, st.bindings[t.subj.name].index, ty);
    }
  }

  lemma NoHopStep(first: string, ts: seq<TriplePattern>)
    requires ts != [] && !IsHop(ts[|ts| - 1])
    ensures Hops(ts) == Hops(ts[..|ts| - 1]) && Introduced(first, ts) == Introduced(first, ts[..|ts| - 1])
  {
  }

  lemma SeedAttach(seed: NodePattern, first: string, tys: seq<string>, ty: string)
    requires SeedOf(seed, first, tys) && ty in tys
    ensures SeedOf(AddType(seed, ty), first, tys)
  {
    TypeKept(seed, ty);
  }

  lemma TypeKept(p: NodePattern, ty: string)
    ensures PlainTarget(p) ==> PlainTarget(AddType(p, ty))
    ensures AddType(p, ty).bind == p.bind && forall x | x in AddType(p, ty).types :: x in p.types || x == ty
  {
  }

  lemma StepKept(step: TraversalStep, t: TriplePattern, tys: seq<string>, ty: string)
    requires StepOf(step, t, tys) && ty in tys
    ensures StepOf(step.(target := AddType(step.target, ty)), t, tys)
  {
    hide LocalName, AddType;
    TypeKept(step.target, ty);
  }

  // ----- Walks through a plan -----

  ghost predicate WalksPlan(g: Graph, seed: NodePattern, steps: seq<TraversalStep>, ns: seq<NodeId>) {
    && |ns| == |steps| + 1 && IsSeed(g, seed, ns[0])
    && forall i | 0 <= i < |steps| :: Leads(g, steps[i], ns[i], ns[i + 1])
  }

  // What a walk binds.
  ghost function RowOf(seed: NodePattern, steps: seq<TraversalStep>, ns: seq<NodeId>): map<string, NodeId>
    requires |ns| == |steps| + 1
    decreases |steps|
  {
    if steps == [] then BindNode(EMPTY_ROW, seed.bind, ns[0]).nodes
    else
      var before, last := RowOf(seed, steps[..|steps| - 1], ns[..|steps|]), steps[|steps| - 1];
      if last.target.bind.Some? then before[last.target.bind.value := ns[|steps|]] else before
  }

  lemma {:induction false} WalkIsTrail(g: Graph, seed: NodePattern, steps: seq<TraversalStep>, ns: seq<NodeId>)
    requires WalksPlan(g, seed, steps, ns)
    ensures Trail(g, seed, steps, RowOf(seed, steps, ns), ns[|steps|])
    decreases |steps|
  {
    hide Leads, IsSeed;
    if steps != [] {
      var n := |steps| - 1;
      assert forall i | 0 <= i < n :: steps[..n][i] == steps[i];
      WalkIsTrail(g, seed, steps[..n], ns[..n + 1]);
      assert Leads(g, steps[n], ns[n], ns[n + 1]);
      assert Init(steps) == steps[..n] && Last(steps) == steps[n] && ns[..n + 1][n] == ns[n];
      assert Continues(g, Last(steps), RowOf(seed, steps[..n], ns[..n + 1]), ns[n], RowOf(seed, steps, ns), ns[n + 1]);
    }
  }

  lemma {:induction false} TrailIsWalk(g: Graph, seed: NodePattern, steps: seq<TraversalStep>, m: map<string, NodeId>,
                                       node: NodeId)
    returns (ns: seq<NodeId>)
    requires Trail(g, seed, steps, m, node)
    ensures WalksPlan(g, seed, steps, ns) && ns[|steps|] == node && RowOf(seed, steps, ns) == m
    decreases |steps|
  {
    hide Leads, IsSeed;
    if steps == [] {
      ns := [node];
    } else {
      var n := |steps| - 1;
      var before: map<string, NodeId>, from: NodeId :|
        Trail(g, seed, Init(steps), before, from) && Continues(g, Last(steps), before, from, m, node);
      assert Init(steps) == steps[..n] && Last(steps) == steps[n];
      var short := TrailIsWalk(g, seed, steps[..n], before, from);
      ns := short + [node];
      assert ns[..n + 1] == short;
      forall i | 0 <= i < |steps| ensures Leads(g, steps[i], ns[i], ns[i + 1]) {
        if i < n {
          assert steps[..n][i] == steps[i];
          assert Leads(g, steps[..n][i], short[i], short[i + 1]);
        }
      }
    }
  }

  // ----- Drawn graphs -----

  type Arrows = set<(nat, string, nat)>

  function ArrowId(e: (nat, string, nat)): EdgeId { ContentId(NodeId(e.0), e.1, NodeId(e.2)) }

  // Nodes 0 to n, all with the same types, and the given arrows.
  ghost function Drawn(n: nat, es: Arrows, tys: seq<string>): Graph {
    Graph(map id | id in (set i: nat | i <= n :: NodeId(i)) :: Node(id, None, tys, map[]),
          map id | id in (set e | e in es :: ArrowId(e)) :: Edge(id, id.relation, id.source, id.target, map[]))
  }

  lemma DrawnKeyed(n: nat, es: Arrows, tys: seq<string>)
    ensures Keyed(Drawn(n, es, tys))
  {
  }

  lemma DrawnNode(n: nat, es: Arrows, tys: seq<string>, i: nat)
    ensures NodeId(i) in Drawn(n, es, tys).nodes <==> i <= n
    ensures i <= n ==> Drawn(n, es, tys).nodes[NodeId(i)].types == tys
  {
  }

  lemma DrawnEdge(n: nat, es: Arrows, tys: seq<string>, x: nat, relation: string, y: nat)
    ensures LabelledEdge(Drawn(n, es, tys), NodeId(x), relation, NodeId(y)) <==> (x, relation, y) in es
  {
    var g := Drawn(n, es, tys);
    if (x, relation, y) in es {
      assert ArrowId((x, relation, y)) in g.edges;
      assert IsEdge(g, ArrowId((x, relation, y)), NodeId(x), relation, NodeId(y));
    }
    if id :| IsEdge(g, id, NodeId(x), relation, NodeId(y)) {
      var e :| e in es && ArrowId(e) == id;
      assert e == (x, relation, y);
    }
  }

  // A step of the plan follows the arrows with its label between different nodes.
  lemma DrawnLeads(n: nat, es: Arrows, tys: seq<string>, step: TraversalStep, t: TriplePattern, x: nat, y: nat)
    requires StepOf(step, t, tys)
    ensures Leads(Drawn(n, es, tys), step, NodeId(x), NodeId(y))
            <==> y <= n && x != y && (x, LocalName(t.pred.text), y) in es
  {
    hide LocalName, PlainStep, Drawn, LabelledEdge, Leads;
    var g := Drawn(n, es, tys);
    LeadsPlainly(g, step, NodeId(x), NodeId(y));
    DrawnEdge(n, es, tys, x, LocalName(t.pred.text), y);
    DrawnTarget(n, es, tys, step, y);
  }

  lemma DrawnTarget(n: nat, es: Arrows, tys: seq<string>, step: TraversalStep, y: nat)
    requires PlainStep(step) && forall ty | ty in step.target.types :: ty in tys
    ensures IsTarget(Drawn(n, es, tys), step, NodeId(y)) <==> y <= n
  {
    hide Drawn;
    var g := Drawn(n, es, tys);
    DrawnNode(n, es, tys, y);
    TargetPlainly(g, step.target, NodeId(y));
  }

  lemma DrawnSeed(n: nat, es: Arrows, tys: seq<string>, seed: NodePattern, y: nat)
    requires PlainTarget(seed) && forall ty | ty in seed.types :: ty in tys
    ensures IsSeed(Drawn(n, es, tys), seed, NodeId(y)) <==> y <= n
  {
    hide Drawn;
    DrawnNode(n, es, tys, y);
    TargetPlainly(Drawn(n, es, tys), seed, NodeId(y));
  }

  // ----- The first graph: one arrow per hop, end to end -----

  ghost function LineArrows(hs: seq<TriplePattern>): Arrows
    requires forall j | 0 <= j < |hs| :: !hs[j].pred.Var?
  {
    set j | 0 <= j < |hs| :: (j, LocalName(hs[j].pred.text), j + 1)
  }

  function Numbers(n: nat): seq<NodeId> { seq(n, i requires 0 <= i < n => NodeId(i)) }

  // The walk along the line binds each variable at its last position.
  lemma {:induction false} LineRow(seed: NodePattern, steps: seq<TraversalStep>, first: string, hs: seq<TriplePattern>,
                                   tys: seq<string>)
    requires seed.bind == Some(first) && |steps| == |hs| && forall j | 0 <= j < |hs| :: StepOf(steps[j], hs[j], tys)
    ensures RowOf(seed, steps, Numbers(|hs| + 1))
            == map v | v in Positions(first, hs) :: NodeId(Positions(first, hs)[v])
    decreases |hs|
  {
    hide PlainStep, LocalName;
    if hs != [] {
      var n := |hs| - 1;
      assert forall j | 0 <= j < n :: steps[..n][j] == steps[j] && hs[..n][j] == hs[j];
      LineRow(seed, steps[..n], first, hs[..n], tys);
      assert Numbers(|hs| + 1)[..|hs|] == Numbers(|hs|);
      assert StepOf(steps[n], hs[n], tys);
    }
  }

  ghost function LineGraph(ts: seq<TriplePattern>): Graph
    requires forall j | 0 <= j < |Hops(ts)| :: !Hops(ts)[j].pred.Var?
  {
    Drawn(|Hops(ts)|, LineArrows(Hops(ts)), TypeList(ts))
  }

  // Each variable at its last position on the line.
  function OnLine(first: string, ts: seq<TriplePattern>): Solution {
    map v | v in Positions(first, Hops(ts)) :: NodeId(Positions(first, Hops(ts))[v])
  }

  // The plan walks the line from end to end.
  lemma LineWalked(ts: seq<TriplePattern>, first: string, st: Lowering)
    requires PlanOf(st, first, ts, TypeList(ts)) && forall j | 0 <= j < |Hops(ts)| :: IsHop(Hops(ts)[j])
    ensures exists node :: Trail(LineGraph(ts), st.plan.seed, st.plan.steps, OnLine(first, ts), node)
  {
    hide Drawn, LocalName, Trail, StepOf, PlainTarget;
    var hs, tys := Hops(ts), TypeList(ts);
    var k := |hs|;
    var g := LineGraph(ts);
    var ns := Numbers(k + 1);
    DrawnSeed(k, LineArrows(hs), tys, st.plan.seed, 0);
    forall j | 0 <= j < k ensures Leads(g, st.plan.steps[j], ns[j], ns[j + 1]) {
      DrawnLeads(k, LineArrows(hs), tys, st.plan.steps[j], hs[j], j, j + 1);
    }
    WalkIsTrail(g, st.plan.seed, st.plan.steps, ns);
    LineRow(st.plan.seed, st.plan.steps, first, hs, tys);
    assert RowOf(st.plan.seed, st.plan.steps, ns) == OnLine(first, ts);
    assert Trail(g, st.plan.seed, st.plan.steps, OnLine(first, ts), ns[k]);
  }

  // A solution on the line moves on by one position with every hop.
  lemma LineForces(ts: seq<TriplePattern>, first: string, st: Lowering)
    requires PlanOf(st, first, ts, TypeList(ts)) && Accepted(first, ts) && Lowered(ts) == Ok(st.plan)
    requires forall j | 0 <= j < |Hops(ts)| :: IsHop(Hops(ts)[j])
    requires PreservedOn(LineGraph(ts), ts)
    ensures Advancing(Hops(ts), Positions(first, Hops(ts)))
  {
    hide Drawn, LocalName, Trail, StepOf, PlainTarget, Lowered, HoldsApart, PlanOf;
    var hs, tys := Hops(ts), TypeList(ts);
    var pos, m := Positions(first, hs), OnLine(first, ts);
    LineWalked(ts, first, st);
    assert IsApartSolution(LineGraph(ts), ts, m);
    forall j | 0 <= j < |hs| && hs[j].obj.Var?
      ensures hs[j].subj.Var? && hs[j].subj.name in pos && hs[j].obj.name in pos
      ensures pos[hs[j].obj.name] == pos[hs[j].subj.name] + 1
    {
      HopsAreHops(ts, j);
      var i :| 0 <= i < |ts| && ts[i] == hs[j];
      assert Bound(ts[i], m) && HoldsApart(LineGraph(ts), m, ts[i]);
      LineHop(hs, tys, m, hs[j], pos);
    }
  }

  lemma LineHop(hs: seq<TriplePattern>, tys: seq<string>, m: Solution, t: TriplePattern, pos: map<string, nat>)
    requires (forall j | 0 <= j < |hs| :: IsHop(hs[j]) && !hs[j].pred.Var?) && IsHop(t) && t.obj.Var?
    requires m == map v | v in pos :: NodeId(pos[v])
    requires Bound(t, m) && HoldsApart(Drawn(|hs|, LineArrows(hs), tys), m, t)
    ensures t.subj.name in pos && t.obj.name in pos && pos[t.obj.name] == pos[t.subj.name] + 1
  {
    hide Drawn, LocalName, LabelledEdge;
    DrawnEdge(|hs|, LineArrows(hs), tys, pos[t.subj.name], LocalName(t.pred.text), pos[t.obj.name]);
  }

  // ----- The second graph: the chain, and one leaf for every hop to a constant -----

  function IndexOf(names: seq<string>, v: string): (i: nat)
    requires v in names
    ensures i < |names| && names[i] == v
  {
    if names[0] == v then 0 else 1 + IndexOf(names[1..], v)
  }

  lemma IndexUnique(names: seq<string>, i: nat)
    requires Distinct(names) && i < |names|
    ensures IndexOf(names, names[i]) == i
  {
  }

  ghost predicate Indexed(hs: seq<TriplePattern>, names: seq<string>) {
    forall j | 0 <= j < |hs| :: hs[j].subj.Var? && hs[j].subj.name in names && !hs[j].pred.Var?
  }

  ghost function LeafArrows(hs: seq<TriplePattern>, names: seq<string>): Arrows
    requires Indexed(hs, names)
  {
    set j | 0 <= j < |hs| ::
      (IndexOf(names, hs[j].subj.name), LocalName(hs[j].pred.text), if j < |names| - 1 then j + 1 else |names|)
  }

  lemma ShapedIndexed(hs: seq<TriplePattern>, names: seq<string>, c: nat)
    requires Shaped(hs, names, c) && forall j | 0 <= j < |hs| :: IsHop(hs[j])
    ensures Indexed(hs, names)
  {
    forall j | 0 <= j < |hs| ensures hs[j].subj.Var? && hs[j].subj.name in names {
      if j < |names| - 1 {
        assert hs[j].subj == Var(names[j]);
      }
    }
  }

  // The arrow of each hop.
  lemma LeafArrow(hs: seq<TriplePattern>, names: seq<string>, c: nat, j: nat)
    requires Shaped(hs, names, c) && Indexed(hs, names) && Distinct(names) && j < |hs|
    ensures j < |names| - 1 ==> (j, LocalName(hs[j].pred.text), j + 1) in LeafArrows(hs, names)
    ensures j >= |names| - 1
            ==> (IndexOf(names, hs[j].subj.name), LocalName(hs[j].pred.text), |names|) in LeafArrows(hs, names)
  {
    hide LocalName;
    if j < |names| - 1 {
      IndexUnique(names, j);
    }
  }

  // Arrows out of the last name or the leaf come from hops to constants at the last name.
  lemma ArrowsOut(hs: seq<TriplePattern>, names: seq<string>, c: nat, x: nat, relation: string, y: nat) returns (j: nat)
    requires Shaped(hs, names, c) && Indexed(hs, names) && Distinct(names)
    requires (x, relation, y) in LeafArrows(hs, names) && x >= |names| - 1
    ensures x == |names| - 1 && y == |names| && |names| - 1 <= j < |hs| && hs[j].subj.name == names[|names| - 1]
  {
    hide LocalName;
    j :| 0 <= j < |hs| && x == IndexOf(names, hs[j].subj.name) && y == if j < |names| - 1 then j + 1 else |names|;
    if j < |names| - 1 {
      IndexUnique(names, j);
    }
  }

  function Identity(names: seq<string>): map<string, NodeId> {
    map v | v in names :: NodeId(IndexOf(names, v))
  }

  lemma IdentityAt(names: seq<string>, i: nat)
    requires Distinct(names) && i < |names|
    ensures names[i] in Identity(names) && Identity(names)[names[i]] == NodeId(i)
  {
    IndexUnique(names, i);
  }

  // Naming each node by its variable is a solution there.
  lemma IdentitySolves(first: string, ts: seq<TriplePattern>, names: seq<string>, c: nat)
    requires Accepted(first, ts) && ts != [] && ts[0].subj == Var(first)
    requires Distinct(names) && (forall v :: v in names <==> v in Introduced(first, ts))
    requires Shaped(Hops(ts), names, c) && Indexed(Hops(ts), names)
    ensures IsApartSolution(Drawn(|names|, LeafArrows(Hops(ts), names), TypeList(ts)), ts, Identity(names))
  {
    hide Drawn, LocalName, HoldsApart, Hops, Introduced, Identity, LeafArrows, Shaped, Distinct;
    var g := Drawn(|names|, LeafArrows(Hops(ts), names), TypeList(ts));
    var m := Identity(names);
    IdentityKeys(names, |names|, LeafArrows(Hops(ts), names), TypeList(ts));
    VarsIntroduced(first, ts);
    VarsHasFirst(ts);
    forall i | 0 <= i < |ts| ensures Bound(ts[i], m) && HoldsApart(g, m, ts[i]) {
      SubjectIntroduced(first, ts, i);
      if IsHop(ts[i]) {
        var j := HopsOf(ts, i);
        if ts[i].obj.Var? {
          ObjectIntroduced(first, ts, i);
          VariableSolves(Hops(ts), names, c, TypeList(ts), j);
        } else {
          TypeListHas(ts, i);
          ConstantSolves(Hops(ts), names, c, TypeList(ts), j);
        }
      } else {
        TypeListHas(ts, i);
        TypeSolves(names, LeafArrows(Hops(ts), names), TypeList(ts), ts[i]);
      }
    }
  }

  lemma IdentityKeys(names: seq<string>, n: nat, es: Arrows, tys: seq<string>)
    requires n >= |names|
    ensures forall v :: v in Identity(names) <==> v in names
    ensures forall v | v in Identity(names) :: Identity(names)[v] in Drawn(n, es, tys).nodes
  {
    hide Drawn;
    forall v | v in names ensures Identity(names)[v] in Drawn(n, es, tys).nodes {
      DrawnNode(n, es, tys, IndexOf(names, v));
    }
  }

  lemma ObjectIntroduced(first: string, ts: seq<TriplePattern>, i: nat)
    requires i < |ts| && IsHop(ts[i]) && ts[i].obj.Var?
    ensures ts[i].obj.name in Introduced(first, ts)
  {
    assert ts[..i + 1][..i] == ts[..i] && ts[..i + 1][|ts[..i + 1]| - 1] == ts[i];
    IntroducedGrows(first, ts, i + 1);
  }

  lemma TypeSolves(names: seq<string>, es: Arrows, tys: seq<string>, t: TriplePattern)
    requires WellFormed(t) && IsType(t) && t.subj.name in names && LocalName(t.obj.text) in tys
    ensures Bound(t, Identity(names)) && HoldsApart(Drawn(|names|, es, tys), Identity(names), t)
  {
    hide Drawn, LocalName;
    DrawnNode(|names|, es, tys, IndexOf(names, t.subj.name));
  }

  lemma VariableSolves(hs: seq<TriplePattern>, names: seq<string>, c: nat, tys: seq<string>, j: nat)
    requires Shaped(hs, names, c) && Indexed(hs, names) && Distinct(names) && j < |hs|
    requires IsHop(hs[j]) && WellFormed(hs[j]) && hs[j].obj.Var?
    ensures Bound(hs[j], Identity(names))
    ensures HoldsApart(Drawn(|names|, LeafArrows(hs, names), tys), Identity(names), hs[j])
  {
    hide Drawn, LocalName, LabelledEdge, LeafArrows, Identity;
    var es := LeafArrows(hs, names);
    assert j < |names| - 1;
    LeafArrow(hs, names, c, j);
    IdentityAt(names, j);
    IdentityAt(names, j + 1);
    DrawnEdge(|names|, es, tys, j, LocalName(hs[j].pred.text), j + 1);
    DrawnNode(|names|, es, tys, j + 1);
  }

  lemma LateConstant(hs: seq<TriplePattern>, names: seq<string>, c: nat, j: nat)
    requires Shaped(hs, names, c) && j < |hs| && !hs[j].obj.Var?
    ensures j >= |names| - 1
  {
    if j < |names| - 1 {
      ShapedAt(hs, names, c, j);
    }
  }

  lemma ShapedAt(hs: seq<TriplePattern>, names: seq<string>, c: nat, j: nat)
    requires Shaped(hs, names, c) && j < |names| - 1
    ensures hs[j].subj == Var(names[j]) && hs[j].obj == Var(names[j + 1])
  {
    var s := names[j];
    assert hs[j].subj == Var(s);
  }

  lemma ConstantSolves(hs: seq<TriplePattern>, names: seq<string>, c: nat, tys: seq<string>, j: nat)
    requires Shaped(hs, names, c) && Indexed(hs, names) && Distinct(names) && j < |hs|
    requires IsHop(hs[j]) && WellFormed(hs[j]) && !hs[j].obj.Var? && LocalName(hs[j].obj.text) in tys
    ensures Bound(hs[j], Identity(names))
    ensures HoldsApart(Drawn(|names|, LeafArrows(hs, names), tys), Identity(names), hs[j])
  {
    hide Drawn, LocalName, LabelledEdge, LeafArrows;
    var g, es := Drawn(|names|, LeafArrows(hs, names), tys), LeafArrows(hs, names);
    var leaf, i := |names|, IndexOf(names, hs[j].subj.name);
    LateConstant(hs, names, c, j);
    LeafArrow(hs, names, c, j);
    DrawnEdge(|names|, es, tys, i, LocalName(hs[j].pred.text), leaf);
    DrawnNode(|names|, es, tys, leaf);
    assert Serves(g, hs[j], NodeId(i), NodeId(leaf));
  }

  // What a walk binds at the names of the chain.
  lemma {:induction false} ChainRow(seed: NodePattern, steps: seq<TraversalStep>, ns: seq<NodeId>, names: seq<string>,
                                    i: nat)
    requires |ns| == |steps| + 1 && Distinct(names) && seed.bind == Some(names[0]) && i < |names| && i <= |steps|
    requires forall j | 0 <= j < |steps| ::
               steps[j].target.bind == if j < |names| - 1 then Some(names[j + 1]) else None
    ensures names[i] in RowOf(seed, steps, ns) && RowOf(seed, steps, ns)[names[i]] == ns[i]
    decreases |steps|
  {
    if steps != [] {
      var n := |steps| - 1;
      assert steps[n].target.bind == if n < |names| - 1 then Some(names[n + 1]) else None;
      assert forall j | 0 <= j < n :: steps[..n][j] == steps[j];
      if i <= n {
        ChainRow(seed, steps[..n], ns[..n + 1], names, i);
        assert ns[..n + 1][i] == ns[i];
      }
    }
  }

  // No walk reaches that solution unless the one hop to a constant starts at the end of the chain.
  lemma LeafForces(first: string, ts: seq<TriplePattern>, st: Lowering, names: seq<string>, c: nat, node: NodeId)
    requires PlanOf(st, first, ts, TypeList(ts)) && Distinct(names) && names[0] == first && c > 0
    requires Shaped(Hops(ts), names, c) && Indexed(Hops(ts), names)
    requires Trail(Drawn(|names|, LeafArrows(Hops(ts), names), TypeList(ts)), st.plan.seed, st.plan.steps,
                   Identity(names), node)
    ensures Ends(Hops(ts), names, c)
  {
    hide Drawn, LocalName, Trail, StepOf, Leads, LeafArrows, Identity, Hops, PlanOf, Shaped, Indexed, Distinct;
    hide TypeList;
    var hs, tys, r := Hops(ts), TypeList(ts), |names| - 1;
    var g := Drawn(|names|, LeafArrows(hs, names), tys);
    var ns := TrailIsWalk(g, st.plan.seed, st.plan.steps, Identity(names), node);
    StepBinds(st, first, ts, tys, names, c);
    ChainRow(st.plan.seed, st.plan.steps, ns, names, r);
    IdentityAt(names, r);
    assert Leads(g, st.plan.steps[r], ns[r], ns[r + 1]);
    var j := LeafStep(hs, names, c, tys, st.plan.steps[r], hs[r], r, ns[r + 1].key);
    if c > 1 {
      assert Leads(g, st.plan.steps[r + 1], ns[r + 1], ns[r + 1 + 1]);
      var j2 := LeafStep(hs, names, c, tys, st.plan.steps[r + 1], hs[r + 1], |names|, ns[r + 2].key);
    }
  }

  // A step out of the last name of the chain, or further on.
  lemma LeafStep(hs: seq<TriplePattern>, names: seq<string>, c: nat, tys: seq<string>,
                 step: TraversalStep, t: TriplePattern, x: nat, y: nat) returns (j: nat)
    requires Shaped(hs, names, c) && Indexed(hs, names) && Distinct(names) && x >= |names| - 1
    requires StepOf(step, t, tys) && Leads(Drawn(|names|, LeafArrows(hs, names), tys), step, NodeId(x), NodeId(y))
    ensures x == |names| - 1 && y == |names| && |names| - 1 <= j < |hs| && hs[j].subj.name == names[|names| - 1]
  {
    hide Drawn, LocalName, Leads, LeafArrows, Shaped, Indexed, Distinct;
    DrawnLeads(|names|, LeafArrows(hs, names), tys, step, t, x, y);
    j := ArrowsOut(hs, names, c, x, LocalName(t.pred.text), y);
  }

  lemma StepBinds(st: Lowering, first: string, ts: seq<TriplePattern>, tys: seq<string>, names: seq<string>, c: nat)
    requires PlanOf(st, first, ts, tys) && Shaped(Hops(ts), names, c)
    ensures |st.plan.steps| == |Hops(ts)| == |names| - 1 + c && st.plan.seed.bind == Some(first) && names != []
    ensures forall j | 0 <= j < |st.plan.steps| ::
              StepOf(st.plan.steps[j], Hops(ts)[j], tys)
              && st.plan.steps[j].target.bind == if j < |names| - 1 then Some(names[j + 1]) else None
  {
    hide PlainStep, LocalName, Hops;
    forall j | 0 <= j < |st.plan.steps|
      ensures st.plan.steps[j].target.bind == if j < |names| - 1 then Some(names[j + 1]) else None
    {
      assert StepOf(st.plan.steps[j], Hops(ts)[j], tys);
    }
  }

  // ----- The theorem -----

  // A pattern the compiler accepts keeps the meaning it gives to triples on every graph exactly when
  // it is a chain.
  lemma ExactlyChains(ts: seq<TriplePattern>)
    requires Lowered(ts).Ok?
    ensures ChainShaped(ts) <==> forall g: Graph | Keyed(g) :: PreservedOn(g, ts)
  {
    hide PreservedOn, ChainShaped, Lowered, Keyed, NoSelfLoops;
    if ChainShaped(ts) {
      forall g: Graph ensures PreservedOn(g, ts) {
        ChainsPreserve(g, ts);
      }
    }
    if forall g: Graph | Keyed(g) :: PreservedOn(g, ts) {
      OnlyChains(ts);
    }
  }

  lemma ChainsPreserve(g: Graph, ts: seq<TriplePattern>)
    requires Lowered(ts).Ok? && ChainShaped(ts)
    ensures PreservedOn(g, ts)
  {
    hide Trail, IsApartSolution, Chain, CompiledAll;
    forall m: Solution
      ensures (exists node :: Trail(g, Lowered(ts).value.seed, Lowered(ts).value.steps, m, node))
              <==> IsApartSolution(g, ts, m)
    {
      var st := TrailsAreSolutions(g, ts, m);
    }
  }

  // No arrow of a drawn graph runs from a node to itself.
  ghost predicate Forward(es: Arrows) { forall e | e in es :: e.0 < e.2 }

  lemma DrawnLoopFree(n: nat, es: Arrows, tys: seq<string>, ts: seq<TriplePattern>)
    requires Forward(es)
    ensures NoSelfLoops(Drawn(n, es, tys), ts)
  {
    hide LocalName, Drawn, LabelledEdge;
    var g := Drawn(n, es, tys);
    forall x, relation ensures !LabelledEdge(g, x, relation, x) {
      DrawnEdge(n, es, tys, x.key, relation, x.key);
    }
  }

  lemma LineForward(hs: seq<TriplePattern>)
    requires forall j | 0 <= j < |hs| :: !hs[j].pred.Var?
    ensures Forward(LineArrows(hs))
  {
  }

  lemma LeafForward(hs: seq<TriplePattern>, names: seq<string>, c: nat)
    requires Shaped(hs, names, c) && Indexed(hs, names) && Distinct(names)
    ensures Forward(LeafArrows(hs, names))
  {
    hide LocalName;
    forall e | e in LeafArrows(hs, names) ensures e.0 < e.2 {
      var j :| 0 <= j < |hs| && e == (IndexOf(names, hs[j].subj.name), LocalName(hs[j].pred.text),
                                      if j < |names| - 1 then j + 1 else |names|);
      if j < |names| - 1 {
        ShapedAt(hs, names, c, j);
        IndexUnique(names, j);
      }
    }
  }

  lemma OnlyChains(ts: seq<TriplePattern>)
    requires Lowered(ts).Ok? && forall g: Graph | Keyed(g) && NoSelfLoops(g, ts) :: PreservedOn(g, ts)
    ensures ChainShaped(ts)
  {
    hide PreservedOn, Chain, PlanOf, Keyed, Drawn, Advancing, LineArrows, LeafArrows, Laid, Accepted, Hops, TypeList;
    hide CompiledAll, NoSelfLoops, Forward;
    var first, tys := ts[0].subj.name, TypeList(ts);
    var st := AcceptedPlan(first, ts, tys);
    var hs := Hops(ts);
    forall j | 0 <= j < |hs| ensures IsHop(hs[j]) {
      HopsAreHops(ts, j);
    }
    DrawnKeyed(|hs|, LineArrows(hs), tys);
    LineForward(hs);
    DrawnLoopFree(|hs|, LineArrows(hs), tys, ts);
    LineForces(ts, first, st);
    var pos := Positions(first, hs);
    SeedStays(first, ts);
    forall j | 0 <= j < |hs| && hs[j].obj.Var? ensures hs[j].obj.name in pos && pos[hs[j].obj.name] >= j + 1 {
      ObjectPosition(first, hs, j);
    }
    var names, c := Layout(first, ts, hs, pos);
    LaidMeans(first, ts, pos, names, c);
    if c > 0 {
      ShapedIndexed(hs, names, c);
      DrawnKeyed(|names|, LeafArrows(hs, names), tys);
      LeafForward(hs, names, c);
      DrawnLoopFree(|names|, LeafArrows(hs, names), tys, ts);
      SolutionReached(first, ts, st, names, c);
    }
  }

  lemma LaidMeans(first: string, ts: seq<TriplePattern>, pos: map<string, nat>, names: seq<string>, c: nat)
    requires Laid(first, ts, pos, names, c)
    ensures Distinct(names) && names[0] == first && (forall v :: v in names <==> v in Introduced(first, ts))
    ensures Shaped(Hops(ts), names, c)
    ensures Ends(Hops(ts), names, c) <==> Chain(first, ts).Some?
  {
    hide Shaped, Ends, Chain, Hops, Introduced;
  }

  lemma SolutionReached(first: string, ts: seq<TriplePattern>, st: Lowering, names: seq<string>, c: nat)
    requires Accepted(first, ts) && ts != [] && ts[0].subj == Var(first) && Lowered(ts) == Ok(st.plan)
    requires PlanOf(st, first, ts, TypeList(ts)) && Distinct(names) && names[0] == first && c > 0
    requires forall v :: v in names <==> v in Introduced(first, ts)
    requires Shaped(Hops(ts), names, c) && Indexed(Hops(ts), names)
    requires PreservedOn(Drawn(|names|, LeafArrows(Hops(ts), names), TypeList(ts)), ts)
    ensures Ends(Hops(ts), names, c)
  {
    hide Trail, IsApartSolution, PlanOf, Drawn, LeafArrows, Accepted, Hops, TypeList, Introduced, Identity, Shaped;
    hide Indexed, Distinct, Ends, Lowered;
    IdentitySolves(first, ts, names, c);
    var g := Drawn(|names|, LeafArrows(Hops(ts), names), TypeList(ts));
    var node :| Trail(g, st.plan.seed, st.plan.steps, Identity(names), node);
    LeafForces(first, ts, st, names, c, node);
  }
}
