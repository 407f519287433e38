// What a basic graph pattern asks for, read as the compiler reads it, and what each lowered triple adds
// to its plan.

module SparqlMeaning {
  import opened Wrappers
  import opened Collections
  import opened Core
  import opened Patterns
  import opened Distance
  import opened Executor
  import opened Store
  import opened Trails
  import opened LocalNames
  import opened Sparql

  type Solution = map<string, NodeId>

  // ----- What a basic graph pattern asks for -----

  predicate WellFormed(t: TriplePattern) {
    t.subj.Var? && !t.pred.Var? && (t.pred.text == "a" ==> !t.obj.Var?)
  }

  predicate IsType(t: TriplePattern)
    requires WellFormed(t)
  {
    t.pred.text == "a"
  }

  ghost predicate HasType(g: Graph, x: NodeId, ty: string) {
    x in g.nodes && ty in g.nodes[x].types
  }

  ghost predicate LabelledEdge(g: Graph, x: NodeId, relation: string, y: NodeId) {
    exists id :: IsEdge(g, id, x, relation, y)
  }

  ghost predicate IsEdge(g: Graph, id: EdgeId, x: NodeId, relation: string, y: NodeId) {
    id in g.edges && g.edges[id].relation == relation && g.edges[id].source == x && g.edges[id].target == y
  }

  ghost predicate Bound(t: TriplePattern, m: Solution) {
    WellFormed(t) && t.subj.name in m && (t.obj.Var? ==> t.obj.name in m)
  }

  // The neighbour `y` of `x` serves as the object of the hop `t`.
  ghost predicate Serves(g: Graph, t: TriplePattern, x: NodeId, y: NodeId)
    requires WellFormed(t)
  {
    LabelledEdge(g, x, LocalName(t.pred.text), y) && y in g.nodes
        && (!t.obj.Var? ==> HasType(g, y, LocalName(t.obj.text)))
  }

  // The triple holds under the bindings, read as the compiler reads it: a constant object stands for
  // any node of that type.
  ghost predicate Holds(g: Graph, m: Solution, t: TriplePattern)
    requires Bound(t, m)
  {
    if IsType(t) then HasType(g, m[t.subj.name], LocalName(t.obj.text))
    else if t.obj.Var? then Serves(g, t, m[t.subj.name], m[t.obj.name])
    else exists y :: Serves(g, t, m[t.subj.name], y)
  }

  // The same, with the two ends of every hop apart.
  ghost predicate HoldsApart(g: Graph, m: Solution, t: TriplePattern)
    requires Bound(t, m)
  {
    if IsType(t) then HasType(g, m[t.subj.name], LocalName(t.obj.text))
    else if t.obj.Var? then Serves(g, t, m[t.subj.name], m[t.obj.name]) && m[t.subj.name] != m[t.obj.name]
    else exists y :: Serves(g, t, m[t.subj.name], y) && y != m[t.subj.name]
  }

  function VarsOf(t: TriplePattern): set<string> {
    (if t.subj.Var? then {t.subj.name} else {}) + (if t.obj.Var? then {t.obj.name} else {})
  }

  function Vars(ts: seq<TriplePattern>): set<string> {
    if ts == [] then {} else Vars(ts[..|ts| - 1]) + VarsOf(ts[|ts| - 1])
  }

  // A solution over stored nodes.
  ghost predicate IsSolution(g: Graph, ts: seq<TriplePattern>, m: Solution) {
    && m.Keys == Vars(ts) && (forall v | v in m :: m[v] in g.nodes)
    && forall i | 0 <= i < |ts| :: Bound(ts[i], m) && Holds(g, m, ts[i])
  }

  ghost predicate IsApartSolution(g: Graph, ts: seq<TriplePattern>, m: Solution) {
    && m.Keys == Vars(ts) && (forall v | v in m :: m[v] in g.nodes)
    && forall i | 0 <= i < |ts| :: Bound(ts[i], m) && HoldsApart(g, m, ts[i])
  }

  // ----- Chain-shaped patterns -----

  // The variables introduced so far, in order, and whether the last hop went to an unnamed node.
  datatype Position = Position(names: seq<string>, unnamed: bool)

  // Each hop starts at the last introduced variable and introduces a fresh one; a hop to a constant
  // can only come last. Type triples may constrain any variable introduced so far.
  function Chain(first: string, ts: seq<TriplePattern>): Option<Position>
    decreases |ts|
  {
    if ts == [] then Some(Position([first], false))
    else
      var before := Chain(first, ts[..|ts| - 1]);
      if before.None? then None else Advance(before.value, ts[|ts| - 1])
  }

  function Advance(p: Position, t: TriplePattern): Option<Position> {
    if !WellFormed(t) || t.subj.name !in p.names then None
    else if IsType(t) then Some(p)
    else if p.unnamed || t.subj.name != p.names[|p.names| - 1] then None
    else if !t.obj.Var? then Some(p.(unnamed := true))
    else if t.obj.name in p.names then None
    else Some(p.(names := p.names + [t.obj.name]))
  }

  predicate ChainShaped(ts: seq<TriplePattern>) {
    ts != [] && ts[0].subj.Var? && Chain(ts[0].subj.name, ts).Some?
  }

  // ----- The shape of the lowered plan -----

  ghost predicate PlainTarget(p: NodePattern) {
    p.properties == map[] && p.id == None && p.anyOf == [] && p.noneOf == []
  }

  ghost predicate PlainStep(step: TraversalStep) {
    && step.outbound && PlainTarget(step.target)
    && step.edge.relation.Some? && step.edge == ANY_EDGE.(relation := step.edge.relation)
  }

  ghost predicate Distinct(names: seq<string>) {
    names != [] && NoRepeats(names)
  }

  ghost predicate Lines(plan: TraversalPlan, p: Position) {
    && Distinct(p.names)
    && plan.seed.bind == Some(p.names[0]) && PlainTarget(plan.seed)
    && |plan.steps| == |p.names| - 1 + (if p.unnamed then 1 else 0)
    && (forall i | 0 <= i < |plan.steps| :: PlainStep(plan.steps[i]))
    && (forall i | 0 <= i < |p.names| - 1 :: plan.steps[i].target.bind == Some(p.names[i + 1]))
    && (p.unnamed ==> plan.steps[|plan.steps| - 1].target.bind == None)
  }

  ghost predicate Sites(st: Lowering, p: Position) {
    && (forall name :: name in st.bindings <==> name in p.names)
    && (p.names != [] && p.names[0] in st.bindings ==> st.bindings[p.names[0]] == Seed)
    && (forall i | 0 < i < |p.names| && p.names[i] in st.bindings :: st.bindings[p.names[i]] == Step(i - 1))
  }

  // ----- What the plan asks of a set of bindings -----

  ghost predicate HopAsked(g: Graph, step: TraversalStep, m: Solution, from: string, to: string) {
    from in m && to in m && Leads(g, step, m[from], m[to])
  }

  ghost predicate LastAsked(g: Graph, step: TraversalStep, m: Solution, from: string) {
    from in m && exists y :: Leads(g, step, m[from], y)
  }

  ghost predicate SeedAsked(g: Graph, seed: NodePattern, m: Solution, name: string) {
    name in m && IsSeed(g, seed, m[name])
  }

  ghost predicate HopsAsked(g: Graph, steps: seq<TraversalStep>, names: seq<string>, m: Solution) {
    forall i | 0 <= i < |names| - 1 && i < |steps| :: HopAsked(g, steps[i], m, names[i], names[i + 1])
  }

  lemma HopAppended(g: Graph, steps: seq<TraversalStep>, names: seq<string>, m: Solution, step: TraversalStep,
                    name: string)
    requires |steps| == |names| - 1
    ensures HopsAsked(g, steps + [step], names + [name], m)
            == (HopsAsked(g, steps, names, m) && HopAsked(g, step, m, names[|steps|], name))
    ensures HopsAsked(g, steps + [step], names, m) == HopsAsked(g, steps, names, m)
  {
    hide HopAsked;
    var s2, n2 := steps + [step], names + [name];
    assert forall i | 0 <= i < |steps| :: s2[i] == steps[i];
    assert forall i | 0 <= i < |names| :: n2[i] == names[i];
    if HopsAsked(g, s2, n2, m) {
      assert HopAsked(g, s2[|steps|], m, n2[|steps|], n2[|steps| + 1]);
    }
  }

  ghost predicate Asks(g: Graph, plan: TraversalPlan, p: Position, m: Solution)
    requires Lines(plan, p)
  {
    && SeedAsked(g, plan.seed, m, p.names[0])
    && HopsAsked(g, plan.steps, p.names, m)
    && (p.unnamed ==> LastAsked(g, plan.steps[|plan.steps| - 1], m, p.names[|p.names| - 1]))
  }

  // A one-hop step leads along a matching edge to a different node.
  lemma LeadsPlainly(g: Graph, step: TraversalStep, x: NodeId, y: NodeId)
    requires PlainStep(step)
    ensures Leads(g, step, x, y) <==>
            IsTarget(g, step, y) && x != y && LabelledEdge(g, x, step.edge.relation.value, y)
  {
    hide IsTarget;
    assert HopRange(step) == (1, 1);
    OneHop(g, step, x, y);
    NoHop(g, step, x, y);
    assert IsDistance(g, step, x, y, 1) <==> Reachable(g, step, x, y, 1) && !Reachable(g, step, x, y, 0);
    assert Leads(g, step, x, y) <==> IsTarget(g, step, y) && IsDistance(g, step, x, y, 1);
  }

  lemma OneHop(g: Graph, step: TraversalStep, x: NodeId, y: NodeId)
    requires PlainStep(step)
    ensures Reachable(g, step, x, y, 1) <==> LabelledEdge(g, x, step.edge.relation.value, y)
  {
    if Reachable(g, step, x, y, 1) {
      var es :| |es| == 1 && Walk(g, step, x, y, es);
      var id := es[0];
      assert es[..0] == [];
      assert Walk(g, step, x, g.edges[id].source, []);
      assert IsEdge(g, id, x, step.edge.relation.value, y);
    }
    if LabelledEdge(g, x, step.edge.relation.value, y) {
      var id :| IsEdge(g, id, x, step.edge.relation.value, y);
      assert [id][..0] == [];
      assert Walk(g, step, x, x, []);
      assert Walk(g, step, x, y, [id]);
    }
  }

  lemma NoHop(g: Graph, step: TraversalStep, x: NodeId, y: NodeId)
    ensures Reachable(g, step, x, y, 0) <==> x == y
  {
    if x == y {
      assert Walk(g, step, x, y, []);
    }
  }

  lemma TargetPlainly(g: Graph, p: NodePattern, y: NodeId)
    requires PlainTarget(p)
    ensures IsSeed(g, p, y) <==> y in g.nodes && forall ty | ty in p.types :: HasType(g, y, ty)
  {
  }

  // ----- Each compiled triple adds its own condition -----

  lemma AddTypeMeaning(g: Graph, p: NodePattern, ty: string, y: NodeId)
    requires PlainTarget(p)
    ensures PlainTarget(AddType(p, ty))
    ensures IsSeed(g, AddType(p, ty), y) <==> IsSeed(g, p, y) && HasType(g, y, ty)
  {
    TargetPlainly(g, p, y);
    TargetPlainly(g, AddType(p, ty), y);
    var more := AddType(p, ty).types;
    assert forall x :: x in more <==> x in p.types || x == ty;
  }

  lemma AddTypeLeads(g: Graph, step: TraversalStep, ty: string, x: NodeId, y: NodeId)
    requires PlainStep(step)
    ensures PlainStep(step.(target := AddType(step.target, ty)))
    ensures Leads(g, step.(target := AddType(step.target, ty)), x, y) <==> Leads(g, step, x, y) && HasType(g, y, ty)
  {
    AddTypeMeaning(g, step.target, ty, y);
    LeadsPlainly(g, step, x, y);
    LeadsPlainly(g, step.(target := AddType(step.target, ty)), x, y);
  }

  // A type triple about the variable at position `k` of the chain.
  lemma TypeTripleMeaning(g: Graph, st: Lowering, p: Position, k: nat, ty: string, m: Solution)
    requires Lines(st.plan, p) && Sites(st, p) && k < |p.names| && p.names[k] in st.bindings
    ensures var next := Attached(st, p.names[k], ty);
            && Lines(next.plan, p) && next.bindings == st.bindings
            && (Asks(g, next.plan, p, m)
               <==> Asks(g, st.plan, p, m) && p.names[k] in m && HasType(g, m[p.names[k]], ty))
  {
    if k == 0 {
      TypedSeedMeaning(g, st, p, ty, m);
    } else {
      TypedStepMeaning(g, st, p, k, ty, m);
    }
  }

  lemma TypedSeedMeaning(g: Graph, st: Lowering, p: Position, ty: string, m: Solution)
    requires Lines(st.plan, p) && Sites(st, p) && p.names[0] in st.bindings
    ensures var next := Attached(st, p.names[0], ty);
            && Lines(next.plan, p) && next.bindings == st.bindings
            && (Asks(g, next.plan, p, m)
               <==> Asks(g, st.plan, p, m) && p.names[0] in m && HasType(g, m[p.names[0]], ty))
  {
    hide HasType, PlainTarget, LastAsked, PlainStep, HopsAsked, SeedAsked;
    SeedTypeMeaning(g, st.plan.seed, ty, m, p.names[0]);
  }

  lemma TypedStepMeaning(g: Graph, st: Lowering, p: Position, k: nat, ty: string, m: Solution)
    requires Lines(st.plan, p) && Sites(st, p) && 0 < k < |p.names| && p.names[k] in st.bindings
    ensures var next := Attached(st, p.names[k], ty);
            && Lines(next.plan, p) && next.bindings == st.bindings
            && (Asks(g, next.plan, p, m)
               <==> Asks(g, st.plan, p, m) && p.names[k] in m && HasType(g, m[p.names[k]], ty))
  {
    hide HasType, PlainTarget, LastAsked, PlainStep, HopAsked, HopsAsked, SeedAsked;
    var step := st.plan.steps[k - 1];
    HopTypeMeaning(g, step, ty, m, p.names[k - 1], p.names[k]);
    HopUpdated(g, st.plan.steps, p.names, m, k - 1, step.(target := AddType(step.target, ty)));
  }

  // Replacing one step changes its own condition only.
  lemma HopUpdated(g: Graph, steps: seq<TraversalStep>, names: seq<string>, m: Solution, j: nat, step: TraversalStep)
    requires j < |steps| && j < |names| - 1
    requires HopAsked(g, step, m, names[j], names[j + 1]) ==> HopAsked(g, steps[j], m, names[j], names[j + 1])
    ensures HopsAsked(g, steps[j := step], names, m)
            <==> HopsAsked(g, steps, names, m) && HopAsked(g, step, m, names[j], names[j + 1])
    ensures HopsAsked(g, steps, names, m) ==> HopAsked(g, steps[j], m, names[j], names[j + 1])
  {
    hide HopAsked;
    var next := steps[j := step];
    if HopsAsked(g, next, names, m) {
      assert HopAsked(g, next[j], m, names[j], names[j + 1]);
      forall i | 0 <= i < |names| - 1 && i < |steps| ensures HopAsked(g, steps[i], m, names[i], names[i + 1]) {
        assert HopAsked(g, next[i], m, names[i], names[i + 1]);
      }
    }
  }

  lemma SeedTypeMeaning(g: Graph, seed: NodePattern, ty: string, m: Solution, name: string)
    requires PlainTarget(seed)
    ensures PlainTarget(AddType(seed, ty))
    ensures SeedAsked(g, AddType(seed, ty), m, name)
            == (SeedAsked(g, seed, m, name) && name in m && HasType(g, m[name], ty))
  {
    hide IsSeed, HasType, PlainTarget, AddType;
    AddTypeMeaning(g, seed, ty, if name in m then m[name] else NodeId(0));
  }

  lemma HopTypeMeaning(g: Graph, step: TraversalStep, ty: string, m: Solution, from: string, to: string)
    requires PlainStep(step)
    ensures PlainStep(step.(target := AddType(step.target, ty)))
    ensures HopAsked(g, step.(target := AddType(step.target, ty)), m, from, to)
            == (HopAsked(g, step, m, from, to) && to in m && HasType(g, m[to], ty))
  {
    hide Leads, HasType, PlainStep, AddType;
    AddTypeLeads(g, step, ty, if from in m then m[from] else NodeId(0), if to in m then m[to] else NodeId(0));
  }

  lemma HopLeads(g: Graph, t: TriplePattern, x: NodeId, y: NodeId)
    requires WellFormed(t) && !IsType(t)
    ensures PlainStep(HopFor(t.pred.text, t.obj))
    ensures Leads(g, HopFor(t.pred.text, t.obj), x, y) <==> Serves(g, t, x, y) && x != y
    ensures HopFor(t.pred.text, t.obj).target.bind == (if t.obj.Var? then Some(t.obj.name) else None)
  {
    hide LocalName;
    var step := HopFor(t.pred.text, t.obj);
    LeadsPlainly(g, step, x, y);
    TargetPlainly(g, step.target, y);
  }

  // A hop from the last variable of the chain.
  lemma HopTripleMeaning(g: Graph, st: Lowering, p: Position, t: TriplePattern, m: Solution)
    requires Lines(st.plan, p) && Sites(st, p) && WellFormed(t) && !IsType(t) && Advance(p, t).Some?
    ensures var next, q := Hopped(st, t.pred.text, t.obj), Advance(p, t).value;
            && Lines(next.plan, q) && Sites(next, q)
            && (Asks(g, next.plan, q, m) <==> Asks(g, st.plan, p, m) && Bound(t, m) && HoldsApart(g, m, t))
  {
    hide Leads, Serves, HopFor, PlainStep, PlainTarget, IsSeed;
    var step := HopFor(t.pred.text, t.obj);
    var from := t.subj.name;
    HopLeads(g, t, NodeId(0), NodeId(0));
    HoppedLines(st, p, t);
    if from in m {
      forall y ensures Leads(g, step, m[from], y) <==> Serves(g, t, m[from], y) && m[from] != y {
        HopLeads(g, t, m[from], y);
      }
    }
    HoppedAsks(g, st, p, t, m);
  }

  lemma HoppedLines(st: Lowering, p: Position, t: TriplePattern)
    requires Lines(st.plan, p) && Sites(st, p) && WellFormed(t) && !IsType(t) && Advance(p, t).Some?
    requires PlainStep(HopFor(t.pred.text, t.obj))
    requires HopFor(t.pred.text, t.obj).target.bind == (if t.obj.Var? then Some(t.obj.name) else None)
    ensures Lines(Hopped(st, t.pred.text, t.obj).plan, Advance(p, t).value)
    ensures Sites(Hopped(st, t.pred.text, t.obj), Advance(p, t).value)
  {
    hide HopFor, PlainStep, PlainTarget;
  }

  // The appended step's condition joins those of the plan before it.
  lemma HoppedAsks(g: Graph, st: Lowering, p: Position, t: TriplePattern, m: Solution)
    requires Lines(st.plan, p) && Sites(st, p) && WellFormed(t) && !IsType(t) && Advance(p, t).Some?
    requires Lines(Hopped(st, t.pred.text, t.obj).plan, Advance(p, t).value)
    ensures Asks(g, Hopped(st, t.pred.text, t.obj).plan, Advance(p, t).value, m) <==>
            Asks(g, st.plan, p, m)
            && (if t.obj.Var? then HopAsked(g, HopFor(t.pred.text, t.obj), m, t.subj.name, t.obj.name)
                else LastAsked(g, HopFor(t.pred.text, t.obj), m, t.subj.name))
  {
    hide HopFor, PlainStep, PlainTarget, HopAsked, HopsAsked, LastAsked, SeedAsked, Distinct;
    HopAppended(g, st.plan.steps, p.names, m, HopFor(t.pred.text, t.obj), if t.obj.Var? then t.obj.name else "");
  }

  ghost predicate AllHoldApart(g: Graph, ts: seq<TriplePattern>, m: Solution) {
    forall i | 0 <= i < |ts| :: Bound(ts[i], m) && HoldsApart(g, m, ts[i])
  }

  lemma AllHoldAppended(g: Graph, ts: seq<TriplePattern>, m: Solution)
    requires ts != []
    ensures AllHoldApart(g, ts, m) <==>
            AllHoldApart(g, ts[..|ts| - 1], m) && Bound(ts[|ts| - 1], m) && HoldsApart(g, m, ts[|ts| - 1])
  {
    hide Bound, HoldsApart;
    var init := ts[..|ts| - 1];
    assert forall i | 0 <= i < |init| :: init[i] == ts[i];
  }

  // A chain-shaped pattern lowers, and its plan asks for exactly what the triples say.
  lemma {:induction false} ChainMeaning(g: Graph, first: string, ts: seq<TriplePattern>, m: Solution)
    returns (st: Lowering)
    requires Chain(first, ts).Some?
    ensures CompiledAll(Start(first), ts) == Ok(st)
    ensures Lines(st.plan, Chain(first, ts).value) && Sites(st, Chain(first, ts).value)
    ensures Asks(g, st.plan, Chain(first, ts).value, m) <==>
            first in m && m[first] in g.nodes && AllHoldApart(g, ts, m)
    ensures st.plan == PlanFrom(st.plan.seed).(steps := st.plan.steps)
    decreases |ts|
  {
    hide LocalName, Asks, Bound, HoldsApart, HopFor, PlainStep, PlainTarget, Distinct;
    if ts == [] {
      st := StartMeaning(g, first, m);
    } else {
      var init, t := ts[..|ts| - 1], ts[|ts| - 1];
      var before := ChainMeaning(g, first, init, m);
      var p := Chain(first, init).value;
      AllHoldAppended(g, ts, m);
      if IsType(t) {
        var k :| 0 <= k < |p.names| && p.names[k] == t.subj.name;
        TypeTripleMeaning(g, before, p, k, LocalName(t.obj.text), m);
        TypeHolds(g, m, t);
        st := Attached(before, t.subj.name, LocalName(t.obj.text));
      } else {
        HopTripleMeaning(g, before, p, t, m);
        st := Hopped(before, t.pred.text, t.obj);
      }
    }
  }

  lemma TypeHolds(g: Graph, m: Solution, t: TriplePattern)
    requires WellFormed(t) && IsType(t)
    ensures Bound(t, m) <==> t.subj.name in m
    ensures Bound(t, m) ==> (HoldsApart(g, m, t) <==> HasType(g, m[t.subj.name], LocalName(t.obj.text)))
  {
  }

  lemma StartMeaning(g: Graph, first: string, m: Solution) returns (st: Lowering)
    ensures st == Start(first)
    ensures Lines(st.plan, Position([first], false)) && Sites(st, Position([first], false))
    ensures Asks(g, st.plan, Position([first], false), m) <==> first in m && m[first] in g.nodes
  {
    st := Start(first);
    if first in m {
      TargetPlainly(g, st.plan.seed, m[first]);
    }
  }

  // ----- From plans to rows -----

  // The bindings of the first `k` hops are in place, and `node` is where they end.
  ghost predicate UpTo(g: Graph, plan: TraversalPlan, p: Position, k: nat, m: Solution, node: NodeId)
    requires Lines(plan, p) && k < |p.names|
  {
    && m.Keys == Elements(p.names[..k + 1]) && p.names[k] in m && m[p.names[k]] == node
    && SeedAsked(g, plan.seed, m, p.names[0]) && HopsAsked(g, plan.steps[..k], p.names[..k + 1], m)
  }

  lemma UpToNext(g: Graph, plan: TraversalPlan, p: Position, k: nat, m: Solution, m0: Solution)
    requires Lines(plan, p) && 0 < k < |p.names|
    requires p.names[k] in m && m0.Keys == Elements(p.names[..k]) && m == m0[p.names[k] := m[p.names[k]]]
    ensures UpTo(g, plan, p, k, m, m[p.names[k]]) <==>
            UpTo(g, plan, p, k - 1, m0, m0[p.names[k - 1]])
            && Continues(g, plan.steps[k - 1], m0, m0[p.names[k - 1]], m, m[p.names[k]])
  {
    hide Leads, IsSeed, PlainStep, PlainTarget, SeedAsked, HopsAsked;
    var step, name, prev := plan.steps[k - 1], p.names[k], p.names[k - 1];
    assert p.names[..k + 1] == p.names[..k] + [name] && name !in p.names[..k] && prev in p.names[..k];
    assert plan.steps[..k] == plan.steps[..k - 1] + [step] && step.target.bind == Some(name);
    HopAppended(g, plan.steps[..k - 1], p.names[..k], m, step, name);
    SameAsked(g, plan, p, k, m0, m);
  }

  lemma UpToSplits(g: Graph, plan: TraversalPlan, p: Position, k: nat, m: Solution, node: NodeId) returns (m0: Solution)
    requires Lines(plan, p) && 0 < k < |p.names| && UpTo(g, plan, p, k, m, node)
    ensures p.names[k - 1] in m0 && UpTo(g, plan, p, k - 1, m0, m0[p.names[k - 1]])
    ensures Continues(g, plan.steps[k - 1], m0, m0[p.names[k - 1]], m, node)
  {
    hide Continues, UpTo, PlainStep, PlainTarget;
    UpToKeys(g, plan, p, k, m, node);
    var name, prev := p.names[k], p.names[k - 1];
    m0 := m - {name};
    assert p.names[..k + 1] == p.names[..k] + [name] && name !in p.names[..k] && prev in p.names[..k];
    assert m0.Keys == Elements(p.names[..k]);
    UpToNext(g, plan, p, k, m, m0);
  }

  lemma UpToGrows(g: Graph, plan: TraversalPlan, p: Position, k: nat, m0: Solution, from: NodeId, m: Solution,
                  node: NodeId)
    requires Lines(plan, p) && 0 < k < |p.names| && UpTo(g, plan, p, k - 1, m0, from)
    requires Continues(g, plan.steps[k - 1], m0, from, m, node)
    ensures UpTo(g, plan, p, k, m, node)
  {
    hide Continues, UpTo, PlainStep, PlainTarget;
    UpToKeys(g, plan, p, k - 1, m0, from);
    ContinuesBinds(g, plan.steps[k - 1], m0, from, m, node, p.names[k]);
    UpToNext(g, plan, p, k, m, m0);
  }

  // What the trails of the first `k` named steps are.
  lemma {:induction false} NamedTrails(g: Graph, plan: TraversalPlan, p: Position, k: nat, m: Solution, node: NodeId)
    requires Lines(plan, p) && k < |p.names|
    ensures Trail(g, plan.seed, plan.steps[..k], m, node) <==> UpTo(g, plan, p, k, m, node)
    decreases k
  {
    hide Lines, UpTo, Continues;
    if k == 0 {
      FirstTrail(g, plan, p, m, node);
    } else {
      EnoughSteps(plan, p);
      var steps := plan.steps[..k];
      assert Init(steps) == plan.steps[..k - 1] && Last(steps) == plan.steps[k - 1];
      if Trail(g, plan.seed, steps, m, node) {
        var m0: Solution, from: NodeId :| Trail(g, plan.seed, Init(steps), m0, from)
            && Continues(g, Last(steps), m0, from, m, node);
        NamedTrails(g, plan, p, k - 1, m0, from);
        UpToGrows(g, plan, p, k, m0, from, m, node);
      }
      if UpTo(g, plan, p, k, m, node) {
        var m0 := UpToSplits(g, plan, p, k, m, node);
        NamedTrails(g, plan, p, k - 1, m0, m0[p.names[k - 1]]);
      }
    }
  }

  lemma EnoughSteps(plan: TraversalPlan, p: Position)
    requires Lines(plan, p)
    ensures |plan.steps| >= |p.names| - 1
  {
  }

  lemma UpToKeys(g: Graph, plan: TraversalPlan, p: Position, k: nat, m: Solution, node: NodeId)
    requires Lines(plan, p) && k < |p.names| && UpTo(g, plan, p, k, m, node)
    ensures m.Keys == Elements(p.names[..k + 1]) && p.names[k] in m && m[p.names[k]] == node
  {
  }

  lemma ContinuesBinds(g: Graph, step: TraversalStep, m0: Solution, from: NodeId, m: Solution, node: NodeId,
                       name: string)
    requires Continues(g, step, m0, from, m, node) && step.target.bind == Some(name)
    ensures m == m0[name := node]
  {
  }

  lemma FirstTrail(g: Graph, plan: TraversalPlan, p: Position, m: Solution, node: NodeId)
    requires Lines(plan, p)
    ensures Trail(g, plan.seed, plan.steps[..0], m, node) <==> UpTo(g, plan, p, 0, m, node)
  {
    hide IsSeed;
    assert plan.steps[..0] == [] && p.names[..1] == [p.names[0]];
    if m.Keys == Elements(p.names[..1]) && m[p.names[0]] == node {
      assert m == map[p.names[0] := node];
    }
  }

  // Conditions on the first `k` names do not see the next binding.
  lemma SameAsked(g: Graph, plan: TraversalPlan, p: Position, k: nat, m0: Solution, m: Solution)
    requires Lines(plan, p) && 0 < k < |p.names|
    requires forall n | n in p.names[..k] :: (n in m0 <==> n in m) && (n in m ==> m0[n] == m[n])
    ensures SeedAsked(g, plan.seed, m, p.names[0]) == SeedAsked(g, plan.seed, m0, p.names[0])
    ensures HopsAsked(g, plan.steps[..k - 1], p.names[..k], m) == HopsAsked(g, plan.steps[..k - 1], p.names[..k], m0)
  {
    hide Leads, IsSeed, PlainStep, PlainTarget;
    var names := p.names[..k];
    assert p.names[0] in names;
    assert forall i | 0 <= i < |names| :: names[i] in names;
  }
}
