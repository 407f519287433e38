// The graph a schema is compiled to, triple by triple.

module ShaclGraph {
  import opened Wrappers
  import opened Numerals
  import opened Rdf
  import opened SchemaTypes
  import opened ShaclCompile
  import opened ShaclParse
  import opened ShaclReading
  import opened ShaclRoundTrip
  import ShaclTheorem
  import Turtle
  import SC = ShaclCompile

  // ----- A description of its own -----

  function Sh(local: string): string { "http://www.w3.org/ns/shacl#" + local }

  function OwnIri(iri: Option<string>, name: string): string {
    match iri
    case Some(x) => x
    case None => "urn:atomr:shacl:" + name
  }

  function Bound(n: nat): Object { Literal(Decimal(n), "http://www.w3.org/2001/XMLSchema#integer", None) }

  function DatatypeIri(d: Datatype): string {
    "http://www.w3.org/2001/XMLSchema#"
    + match d
      case Str => "string"
      case Int => "integer"
      case Float => "double"
      case Bool => "boolean"
      case DateTime => "dateTime"
      case AnyUri => "anyURI"
      case Bytes => "base64Binary"
      case Json => "string"
  }

  predicate FirstNamed(types: seq<NodeType>, name: string, k: nat) {
    k < |types| && types[k].name == name && forall j | 0 <= j < k :: types[j].name != name
  }

  // The class that a range names: the IRI of the first type of that name, or one made of the name.
  ghost predicate NamesClass(types: seq<NodeType>, name: string, iri: string) {
    || (exists k: nat :: FirstNamed(types, name, k) && iri == OwnIri(types[k].iri, name))
    || (iri == OwnIri(None, name) && forall k | 0 <= k < |types| :: types[k].name != name)
  }

  // What the two kinds of block share: a path, and a count where the bound is one.
  predicate PathPair(path: string, c: Cardinality, pred: string, o: Object) {
    || (pred == Sh("path") && o == IriObject(path))
    || (pred == Sh("minCount") && c.min > 0 && o == Bound(c.min))
    || (pred == Sh("maxCount") && c.max.Some? && o == Bound(c.max.value))
  }

  predicate PropertyPair(prop: PropertyType, pred: string, o: Object) {
    || PathPair(OwnIri(prop.iri, prop.name), prop.cardinality, pred, o)
    || (pred == Sh("datatype") && o == IriObject(DatatypeIri(prop.datatyp)))
  }

  ghost predicate EdgePair(types: seq<NodeType>, edge: EdgeType, pred: string, o: Object) {
    || PathPair(OwnIri(edge.iri, edge.name), edge.cardinality, pred, o)
    || (pred == Sh("nodeKind") && o == IriObject(Sh("IRI")))
    || (pred == Sh("class") && o.IriObject?
        && exists i | 0 <= i < |edge.range| :: NamesClass(types, edge.range[i], o.iri))
  }

  predicate ShapePair(ty: NodeType, labels: seq<string>, pred: string, o: Object) {
    || (pred == "http://www.w3.org/1999/02/22-rdf-syntax-ns#type" && o == IriObject(Sh("NodeShape")))
    || (pred == Sh("targetClass") && o == IriObject(OwnIri(ty.iri, ty.name)))
    || (pred == Sh("property") && o.BlankObject? && o.name in labels)
  }

  // The places of the edges that leave the type: those whose domain names it, in order.
  ghost predicate Leaves(edges: seq<EdgeType>, name: string, at: seq<nat>) {
    && (forall r | 0 <= r < |at| :: at[r] < |edges|)
    && (forall r, s | 0 <= r < s < |at| :: at[r] < at[s])
    && forall j | 0 <= j < |edges| :: j in at <==> name in edges[j].domain
  }

  // A type's shape refers to one block for each property and then one for each edge that leaves it, and each
  // of these subjects has the triples its kind calls for and no others.
  ghost predicate Described(all: seq<Triple>, types: seq<NodeType>, edges: seq<EdgeType>, ty: NodeType,
                            labels: seq<string>, at: seq<nat>) {
    && Leaves(edges, ty.name, at) && |labels| == |ty.properties| + |at|
    && (forall i, j | 0 <= i < j < |labels| :: labels[i] != labels[j])
    && (forall pred, o :: Triple(IriSubject(OwnIri(ty.iri, ty.name) + "Shape"), pred, o) in all
                          <==> ShapePair(ty, labels, pred, o))
    && (forall i, pred, o | 0 <= i < |ty.properties| ::
          Triple(BlankSubject(labels[i]), pred, o) in all <==> PropertyPair(ty.properties[i], pred, o))
    && (forall r, pred, o | 0 <= r < |at| ::
          Triple(BlankSubject(labels[|ty.properties| + r]), pred, o) in all <==> EdgePair(types, edges[at[r]], pred, o))
  }

  // ----- Where the description meets the statements -----

  lemma {:induction false} LookupFirst(types: seq<NodeType>, name: string) returns (k: nat)
    ensures k <= |types| && forall j | 0 <= j < k :: types[j].name != name
    ensures Lookup(types, name) == if k < |types| then Some(types[k]) else None
    ensures k < |types| ==> types[k].name == name
  {
    if types == [] || types[0].name == name {
      k := 0;
    } else {
      var rest := LookupFirst(types[1..], name);
      k := rest + 1;
      assert forall j | 0 < j < |types| :: types[j] == types[1..][j - 1];
    }
  }

  lemma RangeNames(types: seq<NodeType>, name: string, iri: string)
    ensures RangeIri(types, name) == iri <==> NamesClass(types, name, iri)
  {
    var k := LookupFirst(types, name);
    if k < |types| {
      assert FirstNamed(types, name, k);
      forall j: nat | FirstNamed(types, name, j) ensures j == k {
        assert !(j < k) && !(k < j);
      }
    }
  }

  lemma SameTerms(local: string)
    ensures Sh(local) == ShaclIri(local)
  {
  }

  lemma PathPairsAre(path: string, c: Cardinality, pred: string, o: Object)
    ensures (pred, o) in PathPairs(path, c) <==> PathPair(path, c, pred, o)
  {
    hide Decimal;
    SameTerms("path");
    SameTerms("minCount");
    SameTerms("maxCount");
    assert XsdIri("integer") == "http://www.w3.org/2001/XMLSchema#integer";
    assert forall p :: p in PathPairs(path, c)
                       <==> p == (ShaclIri("path"), IriObject(path)) || p in MinPairs(c) || p in MaxPairs(c);
  }

  lemma DatatypeIs(d: Datatype)
    ensures XsdForDatatype(d) == DatatypeIri(d)
  {
  }

  lemma PropertyPairsAre(prop: PropertyType, pred: string, o: Object)
    ensures (pred, o) in PropertyPairs(prop) <==> PropertyPair(prop, pred, o)
  {
    hide XsdForDatatype, DatatypeIri, PathPairs, PathPair;
    SameTerms("datatype");
    DatatypeIs(prop.datatyp);
    PathPairsAre(PathIri(prop), prop.cardinality, pred, o);
    assert PathIri(prop) == OwnIri(prop.iri, prop.name);
  }

  lemma EdgePairsAre(types: seq<NodeType>, edge: EdgeType, pred: string, o: Object)
    ensures (pred, o) in EdgePairs(types, edge) <==> EdgePair(types, edge, pred, o)
  {
    hide PathPairs, PathPair, RangeIri, NamesClass;
    SameTerms("nodeKind");
    SameTerms("IRI");
    SameTerms("class");
    PathPairsAre(EdgeIri(edge), edge.cardinality, pred, o);
    assert EdgeIri(edge) == OwnIri(edge.iri, edge.name);
    var classes := ClassPairs(types, edge.range);
    assert (pred, o) in classes
           <==> pred == Sh("class") && o.IriObject?
                && exists i | 0 <= i < |edge.range| :: NamesClass(types, edge.range[i], o.iri) by {
      if o.IriObject? {
        forall i | 0 <= i < |edge.range|
          ensures RangeIri(types, edge.range[i]) == o.iri <==> NamesClass(types, edge.range[i], o.iri)
        {
          RangeNames(types, edge.range[i], o.iri);
        }
      }
      assert forall i | 0 <= i < |classes| :: classes[i] in classes;
      if pred == Sh("class") && o.IriObject?
         && exists i | 0 <= i < |edge.range| :: NamesClass(types, edge.range[i], o.iri) {
        var i :| 0 <= i < |edge.range| && NamesClass(types, edge.range[i], o.iri);
        assert classes[i] == (pred, o);
      }
    }
  }

  lemma ShapePairsAre(ty: NodeType, labels: seq<string>, pred: string, o: Object)
    ensures (pred, o) in ShapePairs(ty, labels) <==> ShapePair(ty, labels, pred, o)
  {
    SameTerms("NodeShape");
    SameTerms("targetClass");
    SameTerms("property");
    var refs := PropertyRefs(labels);
    assert (pred, o) in refs <==> pred == Sh("property") && o.BlankObject? && o.name in labels by {
      if o.BlankObject? && o.name in labels {
        var i :| 0 <= i < |labels| && labels[i] == o.name;
        assert refs[i] == (ShaclIri("property"), o);
      }
    }
  }

  lemma LeavesMore(edges: seq<EdgeType>, name: string, before: seq<nat>)
    requires edges != [] && Leaves(edges[..|edges| - 1], name, before)
    ensures Leaves(edges, name, if name in edges[|edges| - 1].domain then before + [|edges| - 1] else before)
  {
    var init, n := edges[..|edges| - 1], |edges| - 1;
    var at := if name in edges[n].domain then before + [n] else before;
    assert n !in before;
    forall j | 0 <= j < |edges| ensures j in at <==> name in edges[j].domain {
      assert j < n ==> init[j] == edges[j] && (j in before <==> name in init[j].domain);
    }
  }

  lemma OutgoingMore(edges: seq<EdgeType>, name: string)
    requires edges != []
    ensures var init, last := edges[..|edges| - 1], edges[|edges| - 1];
            Outgoing(edges, name) == if name in last.domain then Outgoing(init, name) + [last] else Outgoing(init, name)
  {
  }

  ghost predicate ListsEdges(edges: seq<EdgeType>, at: seq<nat>, out: seq<EdgeType>) {
    |out| == |at| && forall r | 0 <= r < |at| :: at[r] < |edges| && out[r] == edges[at[r]]
  }

  lemma ListsMore(edges: seq<EdgeType>, at: seq<nat>, out: seq<EdgeType>)
    requires edges != [] && ListsEdges(edges[..|edges| - 1], at, out)
    ensures ListsEdges(edges, at, out) && ListsEdges(edges, at + [|edges| - 1], out + [edges[|edges| - 1]])
  {
    var init := edges[..|edges| - 1];
    assert forall i | 0 <= i < |init| :: init[i] == edges[i];
  }

  lemma NothingLeaves(name: string)
    ensures Leaves([], name, []) && ListsEdges([], [], Outgoing([], name))
  {
  }

  // The places of the outgoing edges.
  lemma {:induction false} OutgoingAt(edges: seq<EdgeType>, name: string) returns (at: seq<nat>)
    ensures Leaves(edges, name, at) && ListsEdges(edges, at, Outgoing(edges, name))
    decreases |edges|
  {
    hide *;
    if edges == [] {
      at := [];
      NothingLeaves(name);
    } else {
      var init, n := edges[..|edges| - 1], |edges| - 1;
      var before := OutgoingAt(init, name);
      LeavesMore(edges, name, before);
      OutgoingMore(edges, name);
      ListsMore(edges, before, Outgoing(init, name));
      if name in edges[n].domain {
        at := before + [n];
      } else {
        at := before;
      }
    }
  }

  lemma {:induction false} GroupMembers(ts: seq<Triple>, s: Subject, t: Triple)
    ensures t in Group(ts, s) <==> t in ts && t.subj == s
    decreases |ts|
  {
    if ts != [] {
      GroupMembers(ts[..|ts| - 1], s, t);
      assert ts == ts[..|ts| - 1] + [ts[|ts| - 1]];
    }
  }

  // The triples of a statement's subject are its pairs.
  lemma StatementTriples(sts: seq<Statement>, i: nat, pred: string, o: Object)
    requires DistinctSubjects(sts) && i < |sts|
    ensures Triple(sts[i].subj, pred, o) in AllTriples(sts) <==> (pred, o) in sts[i].pairs
  {
    hide AllTriples, Group;
    GroupExact(sts, i);
    GroupMembers(AllTriples(sts), sts[i].subj, Triple(sts[i].subj, pred, o));
    if (pred, o) in sts[i].pairs {
      var j :| 0 <= j < |sts[i].pairs| && sts[i].pairs[j] == (pred, o);
      assert Triples(sts[i])[j] == Triple(sts[i].subj, pred, o);
    }
    if Triple(sts[i].subj, pred, o) in Triples(sts[i]) {
      var j :| 0 <= j < |Triples(sts[i])| && Triples(sts[i])[j] == Triple(sts[i].subj, pred, o);
      assert sts[i].pairs[j] == (pred, o);
    }
  }

  // Where the statements of a type stand.
  lemma {:induction false} OwnAt(types: seq<NodeType>, edges: seq<EdgeType>, rest: seq<NodeType>, k: nat, t: nat)
    returns (start: nat, first: nat)
    requires t < |rest|
    ensures var own := Own(types, edges, rest[t], first);
            && start + |own| <= |Statements(types, edges, rest, k)|
            && forall i | 0 <= i < |own| :: Statements(types, edges, rest, k)[start + i] == own[i]
    decreases |rest|
  {
    hide Own, Statements, BlockCount;
    ShaclTheorem.StatementsSplit(types, edges, rest, k);
    var own, next := Own(types, edges, rest[0], k), k + BlockCount(edges, rest[0]);
    var later := Statements(types, edges, rest[1..], next);
    if t == 0 {
      start, first := 0, k;
    } else {
      var at, from := OwnAt(types, edges, rest[1..], next, t - 1);
      start, first := |own| + at, from;
      var mine := Own(types, edges, rest[t], first);
      forall i | 0 <= i < |mine| ensures (own + later)[start + i] == mine[i] {
        assert later[at + i] == mine[i];
      }
    }
  }

  // The graph of a schema that can be printed describes every type.
  lemma GraphDescribes(types: seq<NodeType>, edges: seq<EdgeType>, t: nat)
    requires Writable(types, edges, types) && DistinctShapes(types) && t < |types|
    ensures Turtle.ParsedDocument(SC.DocumentText(types, edges)).Ok?
    ensures exists labels, at ::
              Described(Turtle.ParsedDocument(SC.DocumentText(types, edges)).value, types, edges, types[t], labels, at)
  {
    hide Turtle.ParsedDocument, SC.DocumentText, Statements, Writable, DistinctShapes, Described, Own, AllTriples;
    hide DistinctSubjects, BlockCount, Labels, AllPlain;
    StatementsPlain(types, edges, types, 0);
    DocumentReads(types, edges);
    StatementsDistinct(types, edges, types, 0);
    var start, k := OwnAt(types, edges, types, 0, t);
    var at := OutgoingAt(edges, types[t].name);
    OwnDescribes(Statements(types, edges, types, 0), types, edges, types[t], start, k, at);
  }

  lemma OwnDescribes(sts: seq<Statement>, types: seq<NodeType>, edges: seq<EdgeType>, ty: NodeType, start: nat,
                     k: nat, at: seq<nat>)
    requires DistinctSubjects(sts)
    requires var own := Own(types, edges, ty, k);
             start + |own| <= |sts| && forall i | 0 <= i < |own| :: sts[start + i] == own[i]
    requires Leaves(edges, ty.name, at) && ListsEdges(edges, at, Outgoing(edges, ty.name))
    ensures Described(AllTriples(sts), types, edges, ty, Labels(k, BlockCount(edges, ty)), at)
  {
    hide AllTriples, Outgoing, Leaves, ShapePairs, PropertyPairs, EdgePairs, ShapePair, PropertyPair, EdgePair, Label;
    hide DistinctSubjects;
    var labels, own, n := Labels(k, BlockCount(edges, ty)), Own(types, edges, ty, k), |ty.properties|;
    var all := AllTriples(sts);
    forall i, j | 0 <= i < j < |labels| ensures labels[i] != labels[j] {
      if Label(k + i) == Label(k + j) {
        LabelInjective(k + i, k + j);
      }
    }
    BlocksLength(types, edges, ty, k);
    forall pred, o
      ensures Triple(IriSubject(OwnIri(ty.iri, ty.name) + "Shape"), pred, o) in all <==> ShapePair(ty, labels, pred, o)
    {
      assert sts[start + 0] == own[0] == Shape(edges, ty, k);
      StatementTriples(sts, start, pred, o);
      ShapePairsAre(ty, labels, pred, o);
    }
    forall i, pred, o | 0 <= i < n
      ensures Triple(BlankSubject(labels[i]), pred, o) in all <==> PropertyPair(ty.properties[i], pred, o)
    {
      assert sts[start + (1 + i)] == own[1 + i] == PropertyBlock(ty.properties[i], Label(k + i));
      StatementTriples(sts, start + (1 + i), pred, o);
      PropertyPairsAre(ty.properties[i], pred, o);
    }
    forall r, pred, o | 0 <= r < |at|
      ensures Triple(BlankSubject(labels[n + r]), pred, o) in all <==> EdgePair(types, edges[at[r]], pred, o)
    {
      assert sts[start + (1 + n + r)] == own[1 + n + r] == EdgeBlock(types, edges[at[r]], Label(k + n + r));
      StatementTriples(sts, start + (1 + n + r), pred, o);
      EdgePairsAre(types, edges[at[r]], pred, o);
    }
  }
}
