// Why the exact results ask for graphs without self-loops: every pattern with a hop loses its solution
// on some graph that has them.

module SparqlLoops {
  import opened Wrappers
  import opened Core
  import opened Distance
  import opened Trails
  import opened LocalNames
  import opened Sparql
  import opened SparqlMeaning
  import opened SparqlTheorems
  import opened SparqlShapes
  import opened SparqlExact
  import opened SparqlConstants

  ghost function LoopArrows(hs: seq<TriplePattern>): Arrows
    requires forall j | 0 <= j < |hs| :: !hs[j].pred.Var?
  {
    set j | 0 <= j < |hs| :: (0, LocalName(hs[j].pred.text), 0)
  }

  // One node of all the types of the pattern, with a loop for each of its labels.
  ghost function LoopGraph(ts: seq<TriplePattern>): Graph
    requires forall j | 0 <= j < |Hops(ts)| :: !Hops(ts)[j].pred.Var?
  {
    Drawn(0, LoopArrows(Hops(ts)), TypeList(ts))
  }

  ghost function AllZero(ts: seq<TriplePattern>): Solution { map v | v in Vars(ts) :: NodeId(0) }

  lemma HopsLabelled(ts: seq<TriplePattern>)
    ensures forall j | 0 <= j < |Hops(ts)| :: !Hops(ts)[j].pred.Var?
  {
    forall j | 0 <= j < |Hops(ts)| ensures !Hops(ts)[j].pred.Var? {
      HopsAreHops(ts, j);
    }
  }

  lemma {:induction false} VarsHave(ts: seq<TriplePattern>, i: nat)
    requires i < |ts|
    ensures VarsOf(ts[i]) <= Vars(ts)
    decreases |ts|
  {
    if i < |ts| - 1 {
      VarsHave(ts[..|ts| - 1], i);
    }
  }

  // All variables at the one node: a solution.
  lemma LoopSolves(ts: seq<TriplePattern>)
    requires forall i | 0 <= i < |ts| :: WellFormed(ts[i])
    ensures (forall j | 0 <= j < |Hops(ts)| :: !Hops(ts)[j].pred.Var?) && IsSolution(LoopGraph(ts), ts, AllZero(ts))
  {
    hide LocalName, Drawn, Hops, Holds, Vars, TypeList, LoopArrows;
    HopsLabelled(ts);
    var g, m := LoopGraph(ts), AllZero(ts);
    DrawnNode(0, LoopArrows(Hops(ts)), TypeList(ts), 0);
    forall i | 0 <= i < |ts| ensures Bound(ts[i], m) && Holds(g, m, ts[i]) {
      VarsHave(ts, i);
      if !ts[i].obj.Var? {
        TypeListHas(ts, i);
      }
      if IsHop(ts[i]) {
        LoopHop(ts, i);
      }
      LoopHolds(ts, i);
    }
  }

  lemma LoopHop(ts: seq<TriplePattern>, i: nat)
    requires i < |ts| && IsHop(ts[i]) && forall j | 0 <= j < |Hops(ts)| :: !Hops(ts)[j].pred.Var?
    ensures LabelledEdge(LoopGraph(ts), NodeId(0), LocalName(ts[i].pred.text), NodeId(0))
  {
    hide LocalName, Drawn, Hops, LabelledEdge;
    var j := HopsOf(ts, i);
    DrawnEdge(0, LoopArrows(Hops(ts)), TypeList(ts), 0, LocalName(ts[i].pred.text), 0);
  }

  lemma LoopHolds(ts: seq<TriplePattern>, i: nat)
    requires i < |ts| && Bound(ts[i], AllZero(ts)) && forall j | 0 <= j < |Hops(ts)| :: !Hops(ts)[j].pred.Var?
    requires !ts[i].obj.Var? ==> LocalName(ts[i].obj.text) in TypeList(ts)
    requires IsHop(ts[i]) ==> LabelledEdge(LoopGraph(ts), NodeId(0), LocalName(ts[i].pred.text), NodeId(0))
    ensures Holds(LoopGraph(ts), AllZero(ts), ts[i])
  {
    hide LocalName, Drawn, Hops, LabelledEdge, TypeList, LoopArrows;
    var g, t := LoopGraph(ts), ts[i];
    DrawnNode(0, LoopArrows(Hops(ts)), TypeList(ts), 0);
    assert IsHop(t) ==> Serves(g, t, NodeId(0), NodeId(0));
  }

  // With a hop there are no two nodes for its ends.
  lemma LoopNotApart(ts: seq<TriplePattern>, i: nat, m: Solution)
    requires i < |ts| && IsHop(ts[i]) && forall j | 0 <= j < |Hops(ts)| :: !Hops(ts)[j].pred.Var?
    ensures !IsApartSolution(LoopGraph(ts), ts, m)
  {
    hide LocalName, Hops, LabelledEdge, TypeList, LoopArrows, Vars;
    var g := LoopGraph(ts);
    assert forall y | y in g.nodes :: y == NodeId(0);
    assert Bound(ts[i], m) && (forall v | v in m :: m[v] in g.nodes) ==> !HoldsApart(g, m, ts[i]);
  }

  // Every chain with a hop has a solution that is no row, on a graph of one node.
  lemma SelfLoopsLose(ts: seq<TriplePattern>) returns (g: Graph, m: Solution)
    requires ChainShaped(ts) && Hops(ts) != []
    ensures Keyed(g) && IsSolution(g, ts, m)
    ensures forall n :: !IsApartSolution(g, ts, n)
  {
    hide Keyed, IsSolution, IsApartSolution, Drawn, Hops;
    var first := ts[0].subj.name;
    ChainWellFormed(first, ts);
    LoopSolves(ts);
    g, m := LoopGraph(ts), AllZero(ts);
    DrawnKeyed(0, LoopArrows(Hops(ts)), TypeList(ts));
    HopsAreHops(ts, 0);
    var i :| 0 <= i < |ts| && ts[i] == Hops(ts)[0];
    forall n ensures !IsApartSolution(g, ts, n) {
      LoopNotApart(ts, i, n);
    }
  }

  lemma {:induction false} ChainWellFormed(first: string, ts: seq<TriplePattern>)
    requires Chain(first, ts).Some?
    ensures forall i | 0 <= i < |ts| :: WellFormed(ts[i])
    decreases |ts|
  {
    hide WellFormed;
    if ts != [] {
      var init := ts[..|ts| - 1];
      ChainWellFormed(first, init);
      assert forall i | 0 <= i < |init| :: ts[i] == init[i];
      AdvanceWellFormed(Chain(first, init).value, ts[|ts| - 1]);
    }
  }

  lemma AdvanceWellFormed(p: Position, t: TriplePattern)
    requires Advance(p, t).Some?
    ensures WellFormed(t)
  {
  }

  // A pattern of type triples alone is a chain.
  lemma {:induction false} TypesAreChain(first: string, ts: seq<TriplePattern>)
    requires Accepted(first, ts) && Hops(ts) == []
    ensures Chain(first, ts) == Some(Position([first], false)) && Introduced(first, ts) == {first}
    decreases |ts|
  {
    if ts != [] {
      AcceptedInit(first, ts);
      TypesAreChain(first, ts[..|ts| - 1]);
    }
  }

  // An accepted pattern has its SPARQL meaning on every graph exactly when it has no hop.
  lemma EverywhereExactly(ts: seq<TriplePattern>)
    requires Lowered(ts).Ok?
    ensures (forall g: Graph | Keyed(g) :: MeansSparql(g, ts)) <==> Hops(ts) == []
  {
    hide MeansSparql, Keyed, Lowered, Hops, NoSelfLoops;
    if Hops(ts) == [] {
      TypesMean(ts);
    } else if forall g: Graph | Keyed(g) :: MeansSparql(g, ts) {
      ExactlySparql(ts);
      var g, m := SelfLoopsLose(ts);
      assert MeansSparql(g, ts);
      LostMeaning(g, ts, m);
    }
  }

  lemma TypesMean(ts: seq<TriplePattern>)
    requires Lowered(ts).Ok? && Hops(ts) == []
    ensures forall g: Graph :: MeansSparql(g, ts)
  {
    hide MeansSparql, PreservedOn, PlanOf, Hops, Accepted, TypeList;
    var first := ts[0].subj.name;
    var st := AcceptedPlan(first, ts, TypeList(ts));
    TypesAreChain(first, ts);
    NoHopAt(ts);
    forall g: Graph ensures MeansSparql(g, ts) {
      ChainsPreserve(g, ts);
      ReadingsMatch(g, ts);
    }
  }

  lemma NoHopAt(ts: seq<TriplePattern>)
    requires Hops(ts) == []
    ensures forall i | 0 <= i < |ts| :: !IsHop(ts[i])
  {
    forall i | 0 <= i < |ts| ensures !IsHop(ts[i]) {
      if IsHop(ts[i]) {
        var j := HopsOf(ts, i);
      }
    }
  }

  lemma LostMeaning(g: Graph, ts: seq<TriplePattern>, m: Solution)
    requires Lowered(ts).Ok? && ChainShaped(ts) && VariableHops(ts)
    requires IsSolution(g, ts, m) && !IsApartSolution(g, ts, m)
    ensures !MeansSparql(g, ts)
  {
    hide IsSolution, IsApartSolution, IsNamedSolution, Trail, VariableHops;
    VariablesAgree(g, ts, m);
    var st := TrailsAreSolutions(g, ts, m);
    var plan := Lowered(ts).value;
    forall node ensures !Trail(g, plan.seed, plan.steps, m, node) {
    }
    assert IsNamedSolution(g, ts, m);
  }
}
