// Identifiers, nodes, edges, axioms and the in-memory ontology aggregate.

module Core {
  import opened Wrappers

  // Node and provenance ids are 32 opaque bytes in the source; only equality and order are used.
  datatype NodeId = NodeId(key: nat)
  type ProvenanceId = nat

  // An edge built by `Edge::between` has an id that is a content address of its endpoints and
  // label. Any other id (random, or read from a file) lies outside the image of that hash.
  datatype EdgeId = ContentId(source: NodeId, relation: string, target: NodeId) | OtherId(n: nat)

  datatype PropertyValue =
    | Text(text: string)
    | Integer(number: int)
    | Float(float: real)
    | Boolean(truth: bool)
    | DateTime(instant: int)
    | IriValue(iri: string)
    | Bytes(bytes: seq<bv8>)
    | Json(json: string)
    | Null

  datatype Node = Node(id: NodeId, iri: Option<string>, types: seq<string>, properties: map<string, PropertyValue>)

  datatype Edge = Edge(id: EdgeId, relation: string, source: NodeId, target: NodeId,
                       properties: map<string, PropertyValue>)

  datatype AxiomKind =
    | SubClassOf(sub: string, sup: string)
    | EquivalentClass(left: string, right: string)
    | DisjointWith(left: string, right: string)
    | Domain(property: string, cls: string)
    | Range(property: string, cls: string)
    | Functional(property: string)
    | InverseFunctional(property: string)
    | InverseOf(left: string, right: string)
    | Symmetric(property: string)
    | Transitive(property: string)

  // The id of an axiom is the digest of its canonical text; the digest is taken to be injective,
  // so the canonical text itself stands for the id.
  type AxiomId = string

  datatype Axiom = Axiom(id: AxiomId, kind: AxiomKind, provenance: Option<ProvenanceId>)

  function Tag(kind: AxiomKind): string {
    match kind
    case SubClassOf(_, _) => "SubClassOf"
    case EquivalentClass(_, _) => "EquivalentClass"
    case DisjointWith(_, _) => "DisjointWith"
    case Domain(_, _) => "Domain"
    case Range(_, _) => "Range"
    case Functional(_) => "Functional"
    case InverseFunctional(_) => "InverseFunctional"
    case InverseOf(_, _) => "InverseOf"
    case Symmetric(_) => "Symmetric"
    case Transitive(_) => "Transitive"
  }

  function Operands(kind: AxiomKind): string {
    match kind
    case SubClassOf(a, b) => a + "|" + b
    case EquivalentClass(a, b) => a + "|" + b
    case DisjointWith(a, b) => a + "|" + b
    case Domain(a, b) => a + "|" + b
    case Range(a, b) => a + "|" + b
    case InverseOf(a, b) => a + "|" + b
    case Functional(p) => p
    case InverseFunctional(p) => p
    case Symmetric(p) => p
    case Transitive(p) => p
  }

  function Canonical(kind: AxiomKind): AxiomId {
    Tag(kind) + "|" + Operands(kind)
  }

  function NewAxiom(kind: AxiomKind): Axiom {
    Axiom(Canonical(kind), kind, None)
  }

  function Between(source: NodeId, relation: string, target: NodeId): Edge {
    Edge(ContentId(source, relation, target), relation, source, target, map[])
  }

  // The text before the first separator of a two-operand axiom.
  function FirstOperand(kind: AxiomKind): string {
    match kind
    case SubClassOf(a, _) => a
    case EquivalentClass(a, _) => a
    case DisjointWith(a, _) => a
    case Domain(a, _) => a
    case Range(a, _) => a
    case InverseOf(a, _) => a
    case _ => ""
  }

  lemma SplitAtPipe(a: string, b: string, c: string, d: string)
    requires '|' !in a && '|' !in c
    requires a + "|" + b == c + "|" + d
    ensures a == c && b == d
  {
    var s, t := a + "|" + b, c + "|" + d;
    assert s[|a|] == '|' && t[|c|] == '|';
    assert forall i | 0 <= i < |a| :: s[i] == a[i] && a[i] in a;
    assert forall i | 0 <= i < |c| :: t[i] == c[i] && c[i] in c;
    assert a == s[..|a|] && c == t[..|c|];
    assert b == s[|a| + 1..] && d == t[|c| + 1..];
  }

  lemma TagHasNoPipe(kind: AxiomKind)
    ensures '|' !in Tag(kind)
  {
  }

  lemma TagFixesConstructor(k: AxiomKind, m: AxiomKind)
    requires Tag(k) == Tag(m)
    ensures k.SubClassOf? == m.SubClassOf? && k.EquivalentClass? == m.EquivalentClass?
    ensures k.DisjointWith? == m.DisjointWith? && k.Domain? == m.Domain? && k.Range? == m.Range?
    ensures k.Functional? == m.Functional? && k.InverseFunctional? == m.InverseFunctional?
    ensures k.InverseOf? == m.InverseOf? && k.Symmetric? == m.Symmetric? && k.Transitive? == m.Transitive?
  {
    assert |Tag(k)| == |Tag(m)| && Tag(k)[0] == Tag(m)[0];
  }

  // Axiom ids tell axioms apart whenever first operands carry no separator.
  lemma CanonicalInjective(k: AxiomKind, m: AxiomKind)
    requires '|' !in FirstOperand(k) && '|' !in FirstOperand(m)
    requires Canonical(k) == Canonical(m)
    ensures k == m
  {
    TagHasNoPipe(k);
    TagHasNoPipe(m);
    SplitAtPipe(Tag(k), Operands(k), Tag(m), Operands(m));
    TagFixesConstructor(k, m);
    match k {
      case SubClassOf(a, b) => SplitAtPipe(a, b, m.sub, m.sup);
      case EquivalentClass(a, b) => SplitAtPipe(a, b, m.left, m.right);
      case DisjointWith(a, b) => SplitAtPipe(a, b, m.left, m.right);
      case Domain(a, b) => SplitAtPipe(a, b, m.property, m.cls);
      case Range(a, b) => SplitAtPipe(a, b, m.property, m.cls);
      case InverseOf(a, b) => SplitAtPipe(a, b, m.left, m.right);
      case Functional(_) =>
      case InverseFunctional(_) =>
      case Symmetric(_) =>
      case Transitive(_) =>
    }
  }

  predicate TwoOperands(kind: AxiomKind) {
    !kind.Functional? && !kind.InverseFunctional? && !kind.Symmetric? && !kind.Transitive?
  }

  function SecondOperand(kind: AxiomKind): string {
    match kind
    case SubClassOf(_, b) => b
    case EquivalentClass(_, b) => b
    case DisjointWith(_, b) => b
    case Domain(_, b) => b
    case Range(_, b) => b
    case InverseOf(_, b) => b
    case _ => ""
  }

  // The axiom of the same kind about other operands.
  function About(kind: AxiomKind, a: string, b: string): (r: AxiomKind)
    requires TwoOperands(kind)
    ensures TwoOperands(r) && Tag(r) == Tag(kind) && FirstOperand(r) == a && SecondOperand(r) == b
  {
    match kind
    case SubClassOf(_, _) => SubClassOf(a, b)
    case EquivalentClass(_, _) => EquivalentClass(a, b)
    case DisjointWith(_, _) => DisjointWith(a, b)
    case Domain(_, _) => Domain(a, b)
    case Range(_, _) => Range(a, b)
    case InverseOf(_, _) => InverseOf(a, b)
  }

  lemma OperandsJoin(kind: AxiomKind)
    requires TwoOperands(kind)
    ensures Operands(kind) == FirstOperand(kind) + "|" + SecondOperand(kind)
    ensures About(kind, FirstOperand(kind), SecondOperand(kind)) == kind
  {
  }

  // Only one way of cutting a text with one separator.
  lemma OnePipe(a: string, b: string, c: string, d: string)
    requires '|' !in a && '|' !in b && a + "|" + b == c + "|" + d
    ensures a == c && b == d
  {
    var s, t := a + "|" + b, c + "|" + d;
    assert s[|c|] == '|';
    assert forall i | 0 <= i < |s| && i != |a| :: s[i] != '|' by {
      assert forall i | 0 <= i < |a| :: s[i] in a;
      assert forall i | |a| < i < |s| :: s[i] == b[i - |a| - 1] && s[i] in b;
    }
    assert a == s[..|a|] && c == t[..|c|] && b == s[|a| + 1..] && d == t[|c| + 1..];
  }

  lemma PipeMoves(x: string, y: string, z: string)
    ensures (x + "|" + y) + "|" + z == x + "|" + (y + "|" + z)
    ensures x != x + "|" + y
  {
  }

  lemma CutAtPipe(s: string) returns (x: string, y: string)
    requires '|' in s
    ensures s == x + "|" + y
  {
    var i :| 0 <= i < |s| && s[i] == '|';
    x, y := s[..i], s[i + 1..];
  }

  // An axiom shares its id with no other exactly when it has one operand or neither of its two holds a
  // separator.
  lemma CanonicalExact(k: AxiomKind)
    ensures (forall m | Canonical(m) == Canonical(k) :: m == k)
            <==> TwoOperands(k) ==> '|' !in FirstOperand(k) && '|' !in SecondOperand(k)
  {
    if TwoOperands(k) {
      var a, b := FirstOperand(k), SecondOperand(k);
      OperandsJoin(k);
      if '|' in a {
        var x, y := CutAtPipe(a);
        PipeMoves(x, y, b);
        SharesId(k, x, y + "|" + b);
      } else if '|' in b {
        var x, y := CutAtPipe(b);
        PipeMoves(a, x, y);
        SharesId(k, a + "|" + x, y);
      } else {
        forall m | Canonical(m) == Canonical(k) ensures m == k {
          SameTag(k, m);
          OperandsJoin(m);
          OnePipe(a, b, FirstOperand(m), SecondOperand(m));
          SameOperands(k, m);
        }
      }
    } else {
      forall m | Canonical(m) == Canonical(k) ensures m == k {
        SameTag(k, m);
      }
    }
  }

  lemma SharesId(k: AxiomKind, a: string, b: string)
    requires TwoOperands(k) && a + "|" + b == FirstOperand(k) + "|" + SecondOperand(k) && a != FirstOperand(k)
    ensures exists m :: Canonical(m) == Canonical(k) && m != k
  {
    var m := About(k, a, b);
    OperandsJoin(k);
    OperandsJoin(m);
    assert Canonical(m) == Canonical(k) && m != k;
  }

  lemma SameTag(k: AxiomKind, m: AxiomKind)
    requires Canonical(m) == Canonical(k)
    ensures Tag(m) == Tag(k) && Operands(m) == Operands(k) && TwoOperands(m) == TwoOperands(k)
    ensures !TwoOperands(k) ==> m == k
  {
    TagHasNoPipe(k);
    TagHasNoPipe(m);
    SplitAtPipe(Tag(k), Operands(k), Tag(m), Operands(m));
    TagFixesConstructor(k, m);
  }

  lemma SameOperands(k: AxiomKind, m: AxiomKind)
    requires TwoOperands(k) && TwoOperands(m) && Tag(k) == Tag(m)
    requires FirstOperand(k) == FirstOperand(m) && SecondOperand(k) == SecondOperand(m)
    ensures k == m
  {
    TagFixesConstructor(k, m);
  }

  // Without that condition two different axioms can share an id.
  lemma CanonicalCollision()
    ensures SubClassOf("a|b", "c") != SubClassOf("a", "b|c")
    ensures Canonical(SubClassOf("a|b", "c")) == Canonical(SubClassOf("a", "b|c"))
  {
    assert "SubClassOf" + "|" + ("a|b" + "|" + "c") == "SubClassOf|a|b|c";
    assert "SubClassOf" + "|" + ("a" + "|" + "b|c") == "SubClassOf|a|b|c";
  }

  class Ontology {
    var nodes: map<NodeId, Node>
    var edges: map<EdgeId, Edge>
    var axioms: map<AxiomId, Axiom>

    constructor ()
      ensures nodes == map[] && edges == map[] && axioms == map[]
    {
      nodes, edges, axioms := map[], map[], map[];
    }

    constructor Clone(from: Ontology)
      ensures nodes == from.nodes && edges == from.edges && axioms == from.axioms
    {
      nodes, edges, axioms := from.nodes, from.edges, from.axioms;
    }

    method UpsertNode(node: Node) returns (id: NodeId)
      modifies this`nodes
      ensures id == node.id && nodes == old(nodes)[node.id := node]
    {
      id := node.id;
      nodes := nodes[id := node];
    }

    method UpsertEdge(edge: Edge) returns (id: EdgeId)
      modifies this`edges
      ensures id == edge.id && edges == old(edges)[edge.id := edge]
    {
      id := edge.id;
      edges := edges[id := edge];
    }

    method UpsertAxiom(axiom: Axiom) returns (id: AxiomId)
      modifies this`axioms
      ensures id == axiom.id && axioms == old(axioms)[axiom.id := axiom]
    {
      id := axiom.id;
      axioms := axioms[id := axiom];
    }
  }
}
