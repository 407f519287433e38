// Constants in object position: SPARQL reads one as the node it names, the compiler as a type of node.

module SparqlConstants {
  import opened Wrappers
  import opened Core
  import opened Patterns
  import opened Distance
  import opened Executor
  import opened RowOrder
  import opened Store
  import opened Trails
  import opened LocalNames
  import opened Sparql
  import opened SparqlMeaning
  import opened SparqlTheorems
  import opened SparqlShapes
  import opened SparqlExact

  // The node with this IRI.
  ghost predicate Names(g: Graph, y: NodeId, iri: string) {
    y in g.nodes && g.nodes[y].iri == Some(iri)
  }

  // The triple holds as SPARQL reads it: a constant object stands for the node it names.
  ghost predicate HoldsByName(g: Graph, m: Solution, t: TriplePattern)
    requires Bound(t, m)
  {
    if IsType(t) || t.obj.Var? then Holds(g, m, t)
    else exists y :: LabelledEdge(g, m[t.subj.name], LocalName(t.pred.text), y) && Names(g, y, t.obj.text)
  }

  ghost predicate IsNamedSolution(g: Graph, ts: seq<TriplePattern>, m: Solution) {
    && m.Keys == Vars(ts) && (forall v | v in m :: m[v] in g.nodes)
    && forall i | 0 <= i < |ts| :: Bound(ts[i], m) && HoldsByName(g, m, ts[i])
  }

  // On this graph the plan binds exactly the solutions in the sense of SPARQL.
  ghost predicate MeansSparql(g: Graph, ts: seq<TriplePattern>)
    requires Lowered(ts).Ok?
  {
    var plan := Lowered(ts).value;
    forall m :: (exists node :: Trail(g, plan.seed, plan.steps, m, node)) <==> IsNamedSolution(g, ts, m)
  }

  // ----- Patterns without constants -----

  predicate VariableHops(ts: seq<TriplePattern>) {
    forall i | 0 <= i < |ts| && IsHop(ts[i]) :: ts[i].obj.Var?
  }

  // Both readings agree on them.
  lemma VariablesAgree(g: Graph, ts: seq<TriplePattern>, m: Solution)
    requires VariableHops(ts)
    ensures IsNamedSolution(g, ts, m) <==> IsSolution(g, ts, m)
  {
    hide Holds;
    forall i | 0 <= i < |ts| && Bound(ts[i], m) ensures HoldsByName(g, m, ts[i]) == Holds(g, m, ts[i]) {
      assert IsType(ts[i]) || IsHop(ts[i]);
    }
  }

  lemma ReadingsMatch(g: Graph, ts: seq<TriplePattern>)
    requires Lowered(ts).Ok? && VariableHops(ts) && NoSelfLoops(g, ts)
    ensures MeansSparql(g, ts) <==> PreservedOn(g, ts)
  {
    hide Trail, IsSolution, IsApartSolution, IsNamedSolution, VariableHops, NoSelfLoops, Lowered;
    forall m ensures IsNamedSolution(g, ts, m) <==> IsApartSolution(g, ts, m) {
      VariablesAgree(g, ts, m);
      NoSelfLoopsPreserves(g, ts, m);
    }
  }

  // With hops to variables only, no hop ends at an unnamed node.
  lemma {:induction false} AllNamed(first: string, ts: seq<TriplePattern>)
    requires Chain(first, ts).Some? && VariableHops(ts)
    ensures !Chain(first, ts).value.unnamed
    decreases |ts|
  {
    if ts != [] {
      var init, t := ts[..|ts| - 1], ts[|ts| - 1];
      assert forall i | 0 <= i < |init| :: init[i] == ts[i];
      AllNamed(first, init);
      assert t == ts[|ts| - 1] && (IsHop(t) ==> t.obj.Var?);
    }
  }

  // For such a chain, `traverse` returns the requested page of its SPARQL solutions, each once.
  lemma SparqlRows(g: Graph, ts: seq<TriplePattern>, columns: seq<string>, offset: nat, limit: Option<nat>,
                   rows: seq<MatchRow>)
    returns (all: seq<MatchRow>)
    requires ChainShaped(ts) && VariableHops(ts) && NoSelfLoops(g, ts)
    requires Lowered(ts).Ok? ==>
               TraversalOf(g, Lowered(ts).value.(returnColumns := columns, skip := offset, limit := limit), rows)
    ensures Lowered(ts).Ok?
    ensures forall m :: HasRow(all, m) <==> IsNamedSolution(g, ts, m)
    ensures forall i, j | 0 <= i < j < |all| :: all[i].nodes != all[j].nodes
    ensures Paged(all, Lowered(ts).value.(returnColumns := columns, skip := offset, limit := limit), rows)
  {
    hide IsSolution, IsApartSolution, IsNamedSolution, Lowered, VariableHops, NoSelfLoops, Paged, TraversalOf;
    hide HasRow, Chain;
    all := ChainRows(g, ts, columns, offset, limit, rows);
    AllNamed(ts[0].subj.name, ts);
    forall m ensures IsNamedSolution(g, ts, m) <==> IsApartSolution(g, ts, m) {
      VariablesAgree(g, ts, m);
      NoSelfLoopsPreserves(g, ts, m);
    }
  }

  // ----- Patterns with constants -----

  // No node of a drawn graph has an IRI, so a hop to a constant has no solution there.
  lemma DrawnUnnamed(n: nat, es: Arrows, tys: seq<string>, ts: seq<TriplePattern>, i: nat, m: Solution)
    requires i < |ts| && IsHop(ts[i]) && !ts[i].obj.Var?
    ensures !IsNamedSolution(Drawn(n, es, tys), ts, m)
  {
    hide LocalName, LabelledEdge;
    var g := Drawn(n, es, tys);
    assert forall y | y in g.nodes :: g.nodes[y].iri == None;
    assert Bound(ts[i], m) ==> !HoldsByName(g, m, ts[i]);
  }

  // A pattern that keeps the meaning of SPARQL has no hop to a constant.
  lemma OnlyVariables(ts: seq<TriplePattern>)
    requires Lowered(ts).Ok? && forall g: Graph | Keyed(g) && NoSelfLoops(g, ts) :: MeansSparql(g, ts)
    ensures VariableHops(ts)
  {
    hide PlanOf, Keyed, Drawn, LineArrows, Accepted, Hops, TypeList, CompiledAll, NoSelfLoops, Forward;
    hide IsNamedSolution, Trail;
    hide OnLine;
    var first, tys := ts[0].subj.name, TypeList(ts);
    var st := AcceptedPlan(first, ts, tys);
    var hs := Hops(ts);
    forall j | 0 <= j < |hs| ensures IsHop(hs[j]) {
      HopsAreHops(ts, j);
    }
    DrawnKeyed(|hs|, LineArrows(hs), tys);
    LineForward(hs);
    DrawnLoopFree(|hs|, LineArrows(hs), tys, ts);
    LineWalked(ts, first, st);
    var g := LineGraph(ts);
    assert MeansSparql(g, ts);
    forall i | 0 <= i < |ts| && IsHop(ts[i]) ensures ts[i].obj.Var? {
      if !ts[i].obj.Var? {
        DrawnUnnamed(|hs|, LineArrows(hs), tys, ts, i, OnLine(first, ts));
      }
    }
  }

  // An accepted pattern has its SPARQL meaning on every graph without self-loops on its labels, exactly
  // when it is a chain whose hops all end at variables.
  lemma ExactlySparql(ts: seq<TriplePattern>)
    requires Lowered(ts).Ok?
    ensures ChainShaped(ts) && VariableHops(ts)
            <==> forall g: Graph | Keyed(g) && NoSelfLoops(g, ts) :: MeansSparql(g, ts)
  {
    hide MeansSparql, PreservedOn, ChainShaped, Lowered, Keyed, NoSelfLoops, VariableHops;
    if ChainShaped(ts) && VariableHops(ts) {
      forall g: Graph | Keyed(g) && NoSelfLoops(g, ts) ensures MeansSparql(g, ts) {
        ChainsPreserve(g, ts);
        ReadingsMatch(g, ts);
      }
    }
    if forall g: Graph | Keyed(g) && NoSelfLoops(g, ts) :: MeansSparql(g, ts) {
      OnlyVariables(ts);
      forall g: Graph | Keyed(g) && NoSelfLoops(g, ts) ensures PreservedOn(g, ts) {
        ReadingsMatch(g, ts);
      }
      OnlyChains(ts);
    }
  }

  // ----- What a hop to a constant does on one graph -----

  // An arrow with this label from `x` ends at another node of the type, or at the node named.
  ghost predicate ToType(g: Graph, relation: string, constant: string, x: NodeId) {
    exists y :: LabelledEdge(g, x, relation, y) && HasType(g, y, LocalName(constant)) && y != x
  }

  ghost predicate ToName(g: Graph, relation: string, constant: string, x: NodeId) {
    exists y :: LabelledEdge(g, x, relation, y) && Names(g, y, constant)
  }

  // One hop to a constant has its SPARQL meaning on a graph exactly when the stored nodes with such an
  // arrow to the node of that name are those with one to another node of that type.
  lemma ConstantHopExact(g: Graph, a: string, relation: string, constant: string)
    requires relation != "a" && forall c | c in relation :: !IsDelimiter(c)
    ensures var ts := [TriplePattern(Var(a), Local(relation), Iri(constant))];
            && Lowered(ts).Ok?
            && (MeansSparql(g, ts)
                <==> forall x | x in g.nodes :: ToType(g, relation, constant, x) <==> ToName(g, relation, constant, x))
  {
    hide LocalName, Trail, IsApartSolution, IsNamedSolution, ToType, ToName, Lowered;
    var t := TriplePattern(Var(a), Local(relation), Iri(constant));
    var ts := [t];
    ConstantChain(t);
    PlainLocalName(relation);
    forall m: Solution
      ensures (exists node :: Trail(g, Lowered(ts).value.seed, Lowered(ts).value.steps, m, node))
              <==> IsApartSolution(g, ts, m)
    {
      var st := TrailsAreSolutions(g, ts, m);
    }
    forall m: Solution
      ensures IsApartSolution(g, ts, m) <==> m.Keys == {a} && m[a] in g.nodes && ToType(g, relation, constant, m[a])
      ensures IsNamedSolution(g, ts, m) <==> m.Keys == {a} && m[a] in g.nodes && ToName(g, relation, constant, m[a])
    {
      ConstantSolution(g, t, m);
    }
    if MeansSparql(g, ts) {
      forall x | x in g.nodes ensures ToType(g, relation, constant, x) <==> ToName(g, relation, constant, x) {
        var m: Solution := map[a := x];
        assert m.Keys == {a} && m[a] == x;
        assert IsApartSolution(g, ts, m) <==> IsNamedSolution(g, ts, m);
      }
    }
  }

  lemma ConstantChain(t: TriplePattern)
    requires WellFormed(t) && !IsType(t) && !t.obj.Var?
    ensures ChainShaped([t]) && Lowered([t]).Ok? && Vars([t]) == {t.subj.name}
  {
    assert [t][..0] == [];
    assert Chain(t.subj.name, []) == Some(Position([t.subj.name], false));
    assert Chain(t.subj.name, [t]) == Advance(Position([t.subj.name], false), t);
    var st := TrailsAreSolutions(Graph(map[], map[]), [t], map[]);
  }

  lemma ConstantSolution(g: Graph, t: TriplePattern, m: Solution)
    requires WellFormed(t) && !IsType(t) && !t.obj.Var? && Vars([t]) == {t.subj.name}
    ensures var a, relation := t.subj.name, LocalName(t.pred.text);
            && (IsApartSolution(g, [t], m)
                <==> m.Keys == {a} && m[a] in g.nodes && ToType(g, relation, t.obj.text, m[a]))
            && (IsNamedSolution(g, [t], m)
                <==> m.Keys == {a} && m[a] in g.nodes && ToName(g, relation, t.obj.text, m[a]))
  {
    hide LocalName, LabelledEdge, Vars;
    if m.Keys == {t.subj.name} {
      assert t.subj.name in m;
      assert HoldsApart(g, m, t) <==> ToType(g, LocalName(t.pred.text), t.obj.text, m[t.subj.name]) by {
        forall y ensures Serves(g, t, m[t.subj.name], y)
                         <==> LabelledEdge(g, m[t.subj.name], LocalName(t.pred.text), y)
                              && HasType(g, y, LocalName(t.obj.text)) {
        }
      }
      assert [t][0] == t;
    }
  }

  // So a node of the type without that name is returned and is no solution, and the node of that name
  // without the type is a solution and is not returned.
  lemma ConstantIsAType(a: string, constant: string)
    ensures var ts := [TriplePattern(Var(a), Local("p"), Iri(constant))];
            var typed := Node(NodeId(2), None, [LocalName(constant)], map[]);
            var named := Node(NodeId(2), Some(constant), [], map[]);
            && Lowered(ts).Ok?
            && ToType(TwoNodes(typed), "p", constant, NodeId(1)) && !ToName(TwoNodes(typed), "p", constant, NodeId(1))
            && !ToType(TwoNodes(named), "p", constant, NodeId(1)) && ToName(TwoNodes(named), "p", constant, NodeId(1))
            && !MeansSparql(TwoNodes(typed), ts) && !MeansSparql(TwoNodes(named), ts)
  {
    hide LocalName, MeansSparql, Lowered;
    var typed := Node(NodeId(2), None, [LocalName(constant)], map[]);
    var named := Node(NodeId(2), Some(constant), [], map[]);
    TwoNodesEdge(typed);
    TwoNodesEdge(named);
    assert HasType(TwoNodes(typed), NodeId(2), LocalName(constant)) && Names(TwoNodes(named), NodeId(2), constant);
    assert !HasType(TwoNodes(named), NodeId(2), LocalName(constant)) && !Names(TwoNodes(typed), NodeId(2), constant);
    assert NodeId(1) in TwoNodes(typed).nodes && NodeId(1) in TwoNodes(named).nodes;
    ConstantHopExact(TwoNodes(typed), a, "p", constant);
    ConstantHopExact(TwoNodes(named), a, "p", constant);
  }

  function TwoNodes(second: Node): Graph {
    var e := Arrow(1, "p", 2);
    Graph(map[NodeId(1) := Plain(1), NodeId(2) := second], map[e.id := e])
  }

  lemma TwoNodesEdge(second: Node)
    ensures forall x, y :: LabelledEdge(TwoNodes(second), x, "p", y) <==> x == NodeId(1) && y == NodeId(2)
    ensures forall n | n in TwoNodes(second).nodes :: n == NodeId(1) || n == NodeId(2)
  {
    var e := Arrow(1, "p", 2);
    assert IsEdge(TwoNodes(second), e.id, NodeId(1), "p", NodeId(2));
  }
}
