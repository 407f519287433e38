// Lowering of SPARQL basic graph patterns to traversal plans.

module Sparql {
  import opened Wrappers
  import opened Core
  import opened LocalNames
  import opened Patterns

  datatype Term = Var(name: string) | Iri(text: string) | Local(text: string)

  datatype TriplePattern = TriplePattern(subj: Term, pred: Term, obj: Term)

  datatype Reason =
    | EmptyWhere
    | FirstSubjectNotVariable
    | SubjectNotVariable
    | SubjectNotIntroduced(name: string)
    | PredicateVariable
    | TypeObjectVariable

  datatype SparqlError = Parse(reason: Reason) | Unsupported(reason: Reason)

  // The part of the plan that first binds a variable.
  datatype BindingSite = Seed | Step(index: nat)

  // `label_localname`
  method LabelLocalName(s: string) returns (name: string)
    ensures name == LocalName(s)
    ensures forall c | c in name :: !IsDelimiter(c)
  {
    var cut := 0;
    for i := 0 to |s|
      invariant cut <= i && cut == CutPoint(s[..i])
    {
      assert s[..i + 1][..i] == s[..i];
      if IsDelimiter(s[i]) {
        cut := i + 1;
      }
    }
    assert s[..|s|] == s;
    name := s[cut..];
  }

  // ----- Lowering, as a function of the triple list -----

  datatype Lowering = Lowering(plan: TraversalPlan, bindings: map<string, BindingSite>)

  function PlanFrom(seed: NodePattern): TraversalPlan {
    TraversalPlan(seed, [], [], [], 0, None)
  }

  function AddType(p: NodePattern, ty: string): NodePattern { p.(types := p.types + [ty]) }

  function Attached(st: Lowering, name: string, ty: string): Lowering {
    if name in st.bindings && st.bindings[name].Step? then
      var k := st.bindings[name].index;
      if k < |st.plan.steps| then
        var step := st.plan.steps[k];
        st.(plan := st.plan.(steps := st.plan.steps[k := step.(target := AddType(step.target, ty))]))
      else st
    else st.(plan := st.plan.(seed := AddType(st.plan.seed, ty)))
  }

  function TargetFor(obj: Term): NodePattern {
    if obj.Var? then ANY_NODE.(bind := Some(obj.name)) else ANY_NODE.(types := [LocalName(obj.text)])
  }

  function HopFor(relation: string, obj: Term): TraversalStep {
    TraversalStep(ANY_EDGE.(relation := Some(LocalName(relation))), TargetFor(obj), true)
  }

  function Hopped(st: Lowering, relation: string, obj: Term): Lowering {
    Lowering(st.plan.(steps := st.plan.steps + [HopFor(relation, obj)]),
             if obj.Var? && obj.name !in st.bindings then st.bindings[obj.name := Step(|st.plan.steps|)]
             else st.bindings)
  }

  function Compiled(st: Lowering, t: TriplePattern): Result<Lowering, SparqlError> {
    if !t.subj.Var? then Err(Unsupported(SubjectNotVariable))
    else if t.subj.name !in st.bindings then Err(Unsupported(SubjectNotIntroduced(t.subj.name)))
    else if t.pred.Var? then Err(Unsupported(PredicateVariable))
    else if t.pred.text == "a" then
      if t.obj.Var? then Err(Unsupported(TypeObjectVariable))
      else Ok(Attached(st, t.subj.name, LocalName(t.obj.text)))
    else Ok(Hopped(st, t.pred.text, t.obj))
  }

  function CompiledAll(st: Lowering, ts: seq<TriplePattern>): Result<Lowering, SparqlError>
    decreases |ts|
  {
    if ts == [] then Ok(st)
    else
      var before := CompiledAll(st, ts[..|ts| - 1]);
      if before.Err? then before else Compiled(before.value, ts[|ts| - 1])
  }

  function Start(name: string): Lowering {
    Lowering(PlanFrom(ANY_NODE.(bind := Some(name))), map[name := Seed])
  }

  function Lowered(ts: seq<TriplePattern>): Result<TraversalPlan, SparqlError> {
    if ts == [] then Err(Parse(EmptyWhere))
    else if !ts[0].subj.Var? then Err(Unsupported(FirstSubjectNotVariable))
    else
      var all := CompiledAll(Start(ts[0].subj.name), ts);
      if all.Ok? then Ok(all.value.plan) else Err(all.error)
  }

  // The compiler's mutable plan and binding table.
  class Compiler {
    var plan: TraversalPlan
    var bindings: map<string, BindingSite>

    constructor ()
      ensures bindings == map[]
    {
      plan, bindings := PlanFrom(ANY_NODE), map[];
    }

    ghost function State(): Lowering
      reads this
    {
      Lowering(plan, bindings)
    }

    // `attach_type_to_binding`
    method AttachType(name: string, ty: string)
      modifies this`plan
      ensures State() == old(Attached(State(), name, ty))
    {
      if name in bindings && bindings[name].Step? {
        var k := bindings[name].index;
        if k < |plan.steps| {
          var step := plan.steps[k];
          plan := plan.(steps := plan.steps[k := step.(target := AddType(step.target, ty))]);
        }
      } else {
        plan := plan.(seed := AddType(plan.seed, ty));
      }
    }

    // `compile_triple`
    method CompileTriple(t: TriplePattern) returns (r: Result<(), SparqlError>)
      modifies this
      ensures r.Ok? ==> old(Compiled(State(), t)) == Ok(State())
      ensures r.Err? ==> old(Compiled(State(), t)) == Err(r.error)
    {
      if !t.subj.Var? {
        return Err(Unsupported(SubjectNotVariable));
      }
      var name := t.subj.name;
      if name !in bindings {
        return Err(Unsupported(SubjectNotIntroduced(name)));
      }
      if t.pred.Var? {
        return Err(Unsupported(PredicateVariable));
      }
      if t.pred.text == "a" {
        if t.obj.Var? {
          return Err(Unsupported(TypeObjectVariable));
        }
        var ty := LabelLocalName(t.obj.text);
        AttachType(name, ty);
        return Ok(());
      }
      var edgeLabel := LabelLocalName(t.pred.text);
      var edge := ANY_EDGE.(relation := Some(edgeLabel));
      var target;
      if t.obj.Var? {
        target := ANY_NODE.(bind := Some(t.obj.name));
        if t.obj.name !in bindings {
          bindings := bindings[t.obj.name := Step(|plan.steps|)];
        }
      } else {
        var ty := LabelLocalName(t.obj.text);
        target := ANY_NODE.(types := [ty]);
      }
      plan := plan.(steps := plan.steps + [TraversalStep(edge, target, true)]);
      r := Ok(());
    }

    // `lower_triples`
    method LowerTriples(ts: seq<TriplePattern>) returns (r: Result<TraversalPlan, SparqlError>)
      modifies this
      ensures r == Lowered(ts)
    {
      if |ts| == 0 {
        return Err(Parse(EmptyWhere));
      }
      if !ts[0].subj.Var? {
        return Err(Unsupported(FirstSubjectNotVariable));
      }
      var seedVar := ts[0].subj.name;
      plan, bindings := PlanFrom(ANY_NODE.(bind := Some(seedVar))), map[seedVar := Seed];
      for i := 0 to |ts|
        invariant CompiledAll(Start(seedVar), ts[..i]) == Ok(State())
      {
        assert ts[..i + 1][..i] == ts[..i];
        var done := CompileTriple(ts[i]);
        if done.Err? {
          CompileErrorSticks(Start(seedVar), ts, i + 1);
          return Err(done.error);
        }
      }
      assert ts[..|ts|] == ts;
      r := Ok(plan);
    }
  }

  lemma {:induction false} CompileErrorSticks(st: Lowering, ts: seq<TriplePattern>, n: nat)
    requires n <= |ts| && CompiledAll(st, ts[..n]).Err?
    ensures CompiledAll(st, ts) == CompiledAll(st, ts[..n])
    decreases |ts|
  {
    hide Compiled;
    if n < |ts| {
      assert ts[..|ts| - 1][..n] == ts[..n];
      CompileErrorSticks(st, ts[..|ts| - 1], n);
    } else {
      assert ts[..n] == ts;
    }
  }
}
