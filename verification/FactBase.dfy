// The facts the rules look at, and what each of the seven rules derives from them.

module FactBase {
  import opened Core

  // What a rule looks at: an axiom's kind, or an edge's endpoints and label.
  datatype Fact = Ax(kind: AxiomKind) | Ed(source: NodeId, relation: string, target: NodeId)

  function AxiomFact(ax: Axiom): Fact { Ax(ax.kind) }

  function EdgeFact(e: Edge): Fact { Ed(e.source, e.relation, e.target) }

  function Facts(axioms: map<AxiomId, Axiom>, edges: map<EdgeId, Edge>): set<Fact> {
    (set ax | ax in axioms.Values :: AxiomFact(ax)) + (set e | e in edges.Values :: EdgeFact(e))
  }

  // A fact is in the ontology when some entry says it, whatever its id.
  lemma FactsRead(axioms: map<AxiomId, Axiom>, edges: map<EdgeId, Edge>, kind: AxiomKind, a: NodeId, p: string,
                  b: NodeId)
    ensures Ax(kind) in Facts(axioms, edges) <==> exists id | id in axioms :: axioms[id].kind == kind
    ensures Ed(a, p, b) in Facts(axioms, edges)
            <==> exists id | id in edges :: edges[id].source == a && edges[id].relation == p && edges[id].target == b
  {
    if id :| id in axioms && axioms[id].kind == kind {
      assert axioms[id] in axioms.Values;
    }
    if id :| id in edges && edges[id].source == a && edges[id].relation == p && edges[id].target == b {
      assert edges[id] in edges.Values && EdgeFact(edges[id]) == Ed(a, p, b);
    }
  }

  datatype Rule =
    | SubClassTransitivity
    | EquivalentSymmetry
    | EquivalentToSubClass
    | InverseOfSymmetry
    | PropertySymmetry
    | PropertyTransitivity
    | InverseOfMaterializes

  const STANDARD_RULES: seq<Rule> :=
    [SubClassTransitivity, EquivalentSymmetry, EquivalentToSubClass, InverseOfSymmetry,
     PropertySymmetry, PropertyTransitivity, InverseOfMaterializes]

  ghost predicate SubHop(fs: set<Fact>, a: string, b: string, c: string) {
    Ax(SubClassOf(a, b)) in fs && Ax(SubClassOf(b, c)) in fs
  }

  ghost predicate EdgeHop(fs: set<Fact>, a: NodeId, p: string, b: NodeId, c: NodeId) {
    Ed(a, p, b) in fs && Ed(b, p, c) in fs
  }

  ghost predicate Inverses(fs: set<Fact>, p: string, q: string) {
    Ax(InverseOf(p, q)) in fs || Ax(InverseOf(q, p)) in fs
  }

  ghost predicate InverseHop(fs: set<Fact>, p: string, s: NodeId, q: string, t: NodeId) {
    Inverses(fs, p, q) && Ed(s, p, t) in fs
  }

  // One application of rule `r` to `fs` concludes `f`. Both transitivity rules refuse a conclusion
  // whose two ends coincide.
  ghost predicate Derives(r: Rule, fs: set<Fact>, f: Fact) {
    match r
    case SubClassTransitivity =>
      && f.Ax? && f.kind.SubClassOf? && f.kind.sub != f.kind.sup
      && exists b :: SubHop(fs, f.kind.sub, b, f.kind.sup)
    case EquivalentSymmetry =>
      f.Ax? && f.kind.EquivalentClass? && Ax(EquivalentClass(f.kind.right, f.kind.left)) in fs
    case EquivalentToSubClass =>
      && f.Ax? && f.kind.SubClassOf?
      && (Ax(EquivalentClass(f.kind.sub, f.kind.sup)) in fs || Ax(EquivalentClass(f.kind.sup, f.kind.sub)) in fs)
    case InverseOfSymmetry =>
      f.Ax? && f.kind.InverseOf? && Ax(InverseOf(f.kind.right, f.kind.left)) in fs
    case PropertySymmetry =>
      f.Ed? && Ax(Symmetric(f.relation)) in fs && Ed(f.target, f.relation, f.source) in fs
    case PropertyTransitivity =>
      && f.Ed? && Ax(Transitive(f.relation)) in fs && f.source != f.target
      && exists b :: EdgeHop(fs, f.source, f.relation, b, f.target)
    case InverseOfMaterializes =>
      f.Ed? && exists p :: InverseHop(fs, p, f.target, f.relation, f.source)
  }
}
