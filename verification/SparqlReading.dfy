// Which pattern lists are compiled, to which plan, and why the others are rejected.

module SparqlReading {
  import opened Wrappers
  import opened Core
  import opened LocalNames
  import opened Patterns
  import opened Sparql

  // ----- Rejections -----

  predicate Hops(t: TriplePattern) { !t.pred.Var? && t.pred.text != "a" }

  // The variable is the first subject or the object of an earlier hop.
  predicate Known(ts: seq<TriplePattern>, n: nat, name: string) {
    ts != [] && (ts[0].subj == Var(name) || exists j | 0 <= j < n && j < |ts| :: Hops(ts[j]) && ts[j].obj == Var(name))
  }

  // Why triple `i` cannot be compiled, if it cannot.
  function Obstacle(ts: seq<TriplePattern>, i: nat): Option<Reason>
    requires i < |ts|
  {
    match ts[i].subj
    case Var(name) =>
      if !Known(ts, i, name) then Some(SubjectNotIntroduced(name))
      else if ts[i].pred.Var? then Some(PredicateVariable)
      else if ts[i].pred.text == "a" && ts[i].obj.Var? then Some(TypeObjectVariable)
      else None
    case _ => Some(SubjectNotVariable)
  }

  ghost predicate FirstObstacle(ts: seq<TriplePattern>, i: nat, reason: Reason) {
    i < |ts| && Obstacle(ts, i) == Some(reason) && forall j | 0 <= j < i :: Obstacle(ts, j) == None
  }

  // ----- Plans -----

  // The places of the hops, in order.
  function HopPlaces(ts: seq<TriplePattern>): (at: seq<nat>)
    ensures forall r | 0 <= r < |at| :: at[r] < |ts| && Hops(ts[at[r]])
    ensures forall r, q | 0 <= r < q < |at| :: at[r] < at[q]
    ensures forall j | 0 <= j < |ts| && Hops(ts[j]) :: j in at
  {
    if ts == [] then []
    else HopPlaces(ts[..|ts| - 1]) + if Hops(ts[|ts| - 1]) then [|ts| - 1] else []
  }

  // Which hop introduces the variable: the first with it as object.
  function IntroducedBy(ts: seq<TriplePattern>, name: string): Option<nat> {
    if ts == [] then None
    else
      var init, t := ts[..|ts| - 1], ts[|ts| - 1];
      var before := IntroducedBy(init, name);
      if before.Some? then before
      else if Hops(t) && t.obj == Var(name) then Some(|HopPlaces(init)|)
      else None
  }

  // The types asked of the variables that one part of the plan introduces: the seed (`None`), or a hop. A type
  // triple counts where its subject is introduced before it.
  function TypesAsked(first: string, ts: seq<TriplePattern>, site: Option<nat>): seq<string> {
    if ts == [] then []
    else
      var init, t := ts[..|ts| - 1], ts[|ts| - 1];
      TypesAsked(first, init, site)
      + if t.subj.Var? && !t.pred.Var? && t.pred.text == "a" && !t.obj.Var?
           && site == (if t.subj.name == first then None else IntroducedBy(init, t.subj.name))
        then [LocalName(t.obj.text)] else []
  }

  function SeedMeant(first: string, ts: seq<TriplePattern>): NodePattern {
    NodePattern(Some(first), TypesAsked(first, ts, None), map[], None, [], [])
  }

  // Hop `r`: along the label of its predicate, to its object: a name for a variable, a type for a constant.
  function StepMeant(first: string, ts: seq<TriplePattern>, r: nat): TraversalStep
    requires r < |HopPlaces(ts)|
  {
    var t := ts[HopPlaces(ts)[r]];
    TraversalStep(
      EdgePattern(None, Some(LocalName(t.pred.text)), map[], None),
      NodePattern(if t.obj.Var? then Some(t.obj.name) else None,
                  (if t.obj.Var? then [] else [LocalName(t.obj.text)]) + TypesAsked(first, ts, Some(r)),
                  map[], None, [], []),
      true)
  }

  function PlanMeant(first: string, ts: seq<TriplePattern>): TraversalPlan {
    TraversalPlan(SeedMeant(first, ts),
                  seq(|HopPlaces(ts)|, r requires 0 <= r < |HopPlaces(ts)| => StepMeant(first, ts, r)),
                  [], [], 0, None)
  }

  // ----- Proof -----

  ghost predicate Placed(first: string, ts: seq<TriplePattern>, bindings: map<string, BindingSite>) {
    && first in bindings && bindings[first] == Seed
    && forall name | name != first ::
         match IntroducedBy(ts, name)
         case None => name !in bindings
         case Some(r) => name in bindings && bindings[name] == Step(r)
  }

  lemma {:induction false} Introduced(ts: seq<TriplePattern>, name: string)
    ensures IntroducedBy(ts, name).Some? <==> exists j | 0 <= j < |ts| :: Hops(ts[j]) && ts[j].obj == Var(name)
    ensures IntroducedBy(ts, name).Some? ==> IntroducedBy(ts, name).value < |HopPlaces(ts)|
  {
    hide Hops;
    if ts != [] {
      var init := ts[..|ts| - 1];
      Introduced(init, name);
      assert forall j | 0 <= j < |init| :: init[j] == ts[j];
    }
  }

  lemma KnownMore(first: string, ts: seq<TriplePattern>, n: nat, name: string, bindings: map<string, BindingSite>)
    requires n < |ts| && ts[0].subj == Var(first) && Placed(first, ts[..n], bindings)
    ensures Known(ts, n, name) <==> name in bindings
  {
    hide Hops;
    Introduced(ts[..n], name);
    assert forall j | 0 <= j < n :: ts[..n][j] == ts[j];
  }

  lemma {:induction false} NoTypesYet(first: string, ts: seq<TriplePattern>, r: nat)
    requires r >= |HopPlaces(ts)|
    ensures TypesAsked(first, ts, Some(r)) == []
  {
    hide Hops, LocalName;
    if ts != [] {
      var init, t := ts[..|ts| - 1], ts[|ts| - 1];
      NoTypesYet(first, init, r);
      if t.subj.Var? {
        Introduced(init, t.subj.name);
      }
    }
  }

  lemma PlacesMore(ts: seq<TriplePattern>, t: TriplePattern)
    ensures HopPlaces(ts + [t]) == HopPlaces(ts) + if Hops(t) then [|ts|] else []
  {
    assert (ts + [t])[..|ts|] == ts;
  }

  lemma IntroducedMore(ts: seq<TriplePattern>, t: TriplePattern, name: string)
    ensures IntroducedBy(ts + [t], name)
            == if IntroducedBy(ts, name).Some? then IntroducedBy(ts, name)
               else if Hops(t) && t.obj == Var(name) then Some(|HopPlaces(ts)|)
               else None
  {
    assert (ts + [t])[..|ts|] == ts;
  }

  lemma TypesMore(first: string, ts: seq<TriplePattern>, t: TriplePattern, site: Option<nat>)
    ensures TypesAsked(first, ts + [t], site)
            == TypesAsked(first, ts, site)
               + if t.subj.Var? && !t.pred.Var? && t.pred.text == "a" && !t.obj.Var?
                    && site == (if t.subj.name == first then None else IntroducedBy(ts, t.subj.name))
                 then [LocalName(t.obj.text)] else []
  {
    assert (ts + [t])[..|ts|] == ts;
  }

  ghost predicate Follows(first: string, ts: seq<TriplePattern>, st: Lowering) {
    st.plan == PlanMeant(first, ts) && Placed(first, ts, st.bindings)
  }

  lemma HopFollows(first: string, ts: seq<TriplePattern>, st: Lowering, t: TriplePattern)
    requires Follows(first, ts, st) && Hops(t)
    ensures Follows(first, ts + [t], Hopped(st, t.pred.text, t.obj))
  {
    hide LocalName, HopPlaces, IntroducedBy, TypesAsked;
    var next, more, n := Hopped(st, t.pred.text, t.obj), ts + [t], |HopPlaces(ts)|;
    PlacesMore(ts, t);
    forall site ensures TypesAsked(first, more, site) == TypesAsked(first, ts, site) {
      TypesMore(first, ts, t, site);
    }
    NoTypesYet(first, ts, n);
    assert more[|ts|] == t;
    forall r | 0 <= r < n ensures StepMeant(first, more, r) == StepMeant(first, ts, r) {
      assert more[HopPlaces(ts)[r]] == ts[HopPlaces(ts)[r]];
    }
    assert StepMeant(first, more, n) == HopFor(t.pred.text, t.obj);
    assert next.plan.steps == PlanMeant(first, more).steps;
    forall name | name != first
      ensures match IntroducedBy(more, name)
              case None => name !in next.bindings
              case Some(r) => name in next.bindings && next.bindings[name] == Step(r)
    {
      IntroducedMore(ts, t, name);
    }
  }

  lemma TypeFollows(first: string, ts: seq<TriplePattern>, st: Lowering, t: TriplePattern)
    requires Follows(first, ts, st) && t.subj.Var? && t.subj.name in st.bindings
    requires !t.pred.Var? && t.pred.text == "a" && !t.obj.Var?
    ensures Follows(first, ts + [t], Attached(st, t.subj.name, LocalName(t.obj.text)))
  {
    hide LocalName, HopPlaces, IntroducedBy, PlanMeant;
    var next, more := Attached(st, t.subj.name, LocalName(t.obj.text)), ts + [t];
    TypePlan(first, ts, st, t);
    forall name | name != first ensures IntroducedBy(more, name) == IntroducedBy(ts, name) {
      IntroducedMore(ts, t, name);
    }
    assert next.bindings == st.bindings;
  }

  // Where the subject of a type triple is introduced.
  function SiteOf(first: string, ts: seq<TriplePattern>, name: string): Option<nat> {
    if name == first then None else IntroducedBy(ts, name)
  }

  lemma StepMore(first: string, ts: seq<TriplePattern>, t: TriplePattern, r: nat)
    requires t.subj.Var? && !t.pred.Var? && t.pred.text == "a" && !t.obj.Var? && r < |HopPlaces(ts)|
    ensures HopPlaces(ts + [t]) == HopPlaces(ts)
    ensures StepMeant(first, ts + [t], r)
            == var step := StepMeant(first, ts, r);
               if SiteOf(first, ts, t.subj.name) == Some(r)
               then step.(target := AddType(step.target, LocalName(t.obj.text))) else step
  {
    hide LocalName, HopPlaces, IntroducedBy, TypesAsked;
    PlacesMore(ts, t);
    TypesMore(first, ts, t, Some(r));
    assert (ts + [t])[HopPlaces(ts)[r]] == ts[HopPlaces(ts)[r]];
  }

  lemma SeedMore(first: string, ts: seq<TriplePattern>, t: TriplePattern)
    requires t.subj.Var? && !t.pred.Var? && t.pred.text == "a" && !t.obj.Var?
    ensures SeedMeant(first, ts + [t])
            == var seed := SeedMeant(first, ts);
               if SiteOf(first, ts, t.subj.name) == None then AddType(seed, LocalName(t.obj.text)) else seed
  {
    hide LocalName, HopPlaces, IntroducedBy, TypesAsked;
    TypesMore(first, ts, t, None);
  }

  lemma TypePlan(first: string, ts: seq<TriplePattern>, st: Lowering, t: TriplePattern)
    requires Follows(first, ts, st) && t.subj.Var? && t.subj.name in st.bindings
    requires !t.pred.Var? && t.pred.text == "a" && !t.obj.Var?
    ensures Attached(st, t.subj.name, LocalName(t.obj.text)).plan == PlanMeant(first, ts + [t])
  {
    hide LocalName, HopPlaces, IntroducedBy, StepMeant, SeedMeant, Follows, AddType;
    var next, more := Attached(st, t.subj.name, LocalName(t.obj.text)), ts + [t];
    PlacesMore(ts, t);
    Introduced(ts, t.subj.name);
    SiteBound(first, ts, st, t.subj.name);
    SeedMore(first, ts, t);
    forall r | 0 <= r < |HopPlaces(ts)| ensures next.plan.steps[r] == StepMeant(first, more, r) {
      StepMore(first, ts, t, r);
    }
    assert next.plan.steps == PlanMeant(first, more).steps;
  }

  lemma SiteBound(first: string, ts: seq<TriplePattern>, st: Lowering, name: string)
    requires Follows(first, ts, st) && name in st.bindings
    ensures st.plan == PlanMeant(first, ts)
    ensures name == first || IntroducedBy(ts, name).Some?
    ensures st.bindings[name] == if name == first then Seed else Step(IntroducedBy(ts, name).value)
  {
    hide IntroducedBy, PlanMeant;
  }

  // The prefix before the first obstacle is compiled.
  lemma {:induction false} PrefixFollows(first: string, ts: seq<TriplePattern>, n: nat) returns (st: Lowering)
    requires n <= |ts| && ts != [] && ts[0].subj == Var(first) && forall j | 0 <= j < n :: Obstacle(ts, j) == None
    ensures CompiledAll(Start(first), ts[..n]) == Ok(st) && Follows(first, ts[..n], st)
    decreases n
  {
    hide LocalName, Follows, Obstacle, Attached, Hopped, PlanMeant;
    if n == 0 {
      st := Start(first);
      assert ts[..0] == [];
      StartFollows(first);
    } else {
      var before := PrefixFollows(first, ts, n - 1);
      var t := ts[n - 1];
      assert ts[..n] == ts[..n - 1] + [t] && ts[..n][..n - 1] == ts[..n - 1];
      assert Obstacle(ts, n - 1) == None;
      NoObstacle(first, ts, n - 1, before);
      if t.pred.text == "a" {
        st := Attached(before, t.subj.name, LocalName(t.obj.text));
        TypeFollows(first, ts[..n - 1], before, t);
      } else {
        st := Hopped(before, t.pred.text, t.obj);
        HopFollows(first, ts[..n - 1], before, t);
      }
    }
  }

  lemma StartFollows(first: string)
    ensures Follows(first, [], Start(first))
  {
  }

  // An obstacle is what the compiler objects to.
  lemma NoObstacle(first: string, ts: seq<TriplePattern>, i: nat, st: Lowering)
    requires i < |ts| && ts[0].subj == Var(first) && Follows(first, ts[..i], st)
    ensures match Obstacle(ts, i)
            case Some(reason) => Compiled(st, ts[i]) == Err(Unsupported(reason))
            case None => && ts[i].subj.Var? && ts[i].subj.name in st.bindings && !ts[i].pred.Var?
                         && (ts[i].pred.text == "a" ==> !ts[i].obj.Var?)
  {
    hide LocalName, Attached, Hopped, Placed, PlanMeant, Known;
    if ts[i].subj.Var? {
      KnownMore(first, ts, i, ts[i].subj.name, st.bindings);
    }
  }

  // Exactly the pattern lists without an obstacle are compiled, to the plan they mean; any other is rejected for
  // its first obstacle.
  lemma LoweredExactly(ts: seq<TriplePattern>)
    ensures Lowered(ts) == Err(Parse(EmptyWhere)) <==> ts == []
    ensures Lowered(ts) == Err(Unsupported(FirstSubjectNotVariable)) <==> ts != [] && !ts[0].subj.Var?
    ensures Lowered(ts).Ok? <==> ts != [] && forall i | 0 <= i < |ts| :: Obstacle(ts, i) == None
    ensures Lowered(ts).Ok? ==> ts[0].subj.Var? && Lowered(ts).value == PlanMeant(ts[0].subj.name, ts)
    ensures ts != [] && ts[0].subj.Var? ==>
              forall i, reason | FirstObstacle(ts, i, reason) :: Lowered(ts) == Err(Unsupported(reason))
  {
    hide Obstacle, PlanMeant, Compiled, Follows;
    if ts != [] {
      if ts[0].subj.Var? {
        VariableFirst(ts[0].subj.name, ts);
      } else {
        ConstantFirst(ts);
      }
    }
  }

  lemma ConstantFirst(ts: seq<TriplePattern>)
    requires ts != [] && !ts[0].subj.Var?
    ensures Obstacle(ts, 0) == Some(SubjectNotVariable)
  {
  }

  lemma VariableFirst(first: string, ts: seq<TriplePattern>)
    requires ts != [] && ts[0].subj == Var(first)
    ensures Lowered(ts).Ok? <==> forall i | 0 <= i < |ts| :: Obstacle(ts, i) == None
    ensures Lowered(ts).Ok? ==> Lowered(ts).value == PlanMeant(first, ts)
    ensures forall i, reason | FirstObstacle(ts, i, reason) :: Lowered(ts) == Err(Unsupported(reason))
    ensures Lowered(ts).Err? ==> Lowered(ts).error != Unsupported(FirstSubjectNotVariable)
    ensures Lowered(ts).Err? ==> Lowered(ts).error != Parse(EmptyWhere)
  {
    hide Obstacle, PlanMeant, Compiled, CompiledAll;
    if i: nat :| i < |ts| && Obstacle(ts, i) != None {
      var least := LeastObstacle(ts, i);
      ObstacleStops(first, ts, least);
      forall k: nat, reason | FirstObstacle(ts, k, reason) ensures k == least {
        assert !(k < least) && !(least < k);
      }
      ObstacleReasons(ts, least);
    } else {
      var st := PrefixFollows(first, ts, |ts|);
      assert ts[..|ts|] == ts;
    }
  }

  lemma ObstacleReasons(ts: seq<TriplePattern>, i: nat)
    requires i < |ts|
    ensures Obstacle(ts, i) != Some(FirstSubjectNotVariable) && Obstacle(ts, i) != Some(EmptyWhere)
  {
    hide Known;
  }

  lemma {:induction false} LeastObstacle(ts: seq<TriplePattern>, i: nat) returns (least: nat)
    requires i < |ts| && Obstacle(ts, i) != None
    ensures least < |ts| && Obstacle(ts, least) != None && forall j | 0 <= j < least :: Obstacle(ts, j) == None
    decreases i
  {
    hide Obstacle;
    if j: nat :| j < i && Obstacle(ts, j) != None {
      least := LeastObstacle(ts, j);
    } else {
      least := i;
    }
  }

  lemma ObstacleStops(first: string, ts: seq<TriplePattern>, i: nat)
    requires i < |ts| && ts[0].subj == Var(first) && Obstacle(ts, i) != None
    requires forall j | 0 <= j < i :: Obstacle(ts, j) == None
    ensures CompiledAll(Start(first), ts) == Err(Unsupported(Obstacle(ts, i).value))
  {
    hide Obstacle, Compiled, Follows;
    var st := PrefixFollows(first, ts, i);
    NoObstacle(first, ts, i, st);
    assert ts[..i + 1][..i] == ts[..i];
    CompileErrorSticks(Start(first), ts, i + 1);
  }
}
