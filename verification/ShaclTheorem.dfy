// The schema that comes back from its own SHACL document.

module ShaclTheorem {
  import opened Wrappers
  import opened LocalNames
  import opened Rdf
  import opened SchemaTypes
  import opened ShaclCompile
  import opened ShaclParse
  import opened ShaclReading
  import opened ShaclRoundTrip
  import Turtle
  import SC = ShaclCompile

  function ReturnedAll(props: seq<PropertyType>): (r: seq<PropertyType>)
    ensures |r| == |props| && forall i | 0 <= i < |r| :: r[i] == Returned(props[i])
  {
    seq(|props|, i requires 0 <= i < |props| => Returned(props[i]))
  }

  // What comes back for a node type.
  function ReturnedType(ty: NodeType): NodeType {
    NodeType(LocalName(TypeIri(ty)), Some(TypeIri(ty)), [], ReturnedAll(ty.properties), None)
  }

  // ----- One shape -----

  ghost predicate GroupsExact(all: seq<Triple>, sts: seq<Statement>) {
    forall i | 0 <= i < |sts| :: Group(all, sts[i].subj) == Triples(sts[i])
  }

  lemma ShapePredicates()
    ensures RDF_TYPE != ShaclIri("property") && RDF_TYPE != ShaclIri("targetClass")
    ensures ShaclIri("targetClass") != ShaclIri("property")
  {
    NotRdfType("property");
    NotRdfType("targetClass");
    assert "targetClass"[0] == 't' && "property"[0] == 'p';
    ShaclDiffer("targetClass", "property");
  }

  // The triples of a shape: its type, its target, then one per block.
  lemma ShapeTriples(edges: seq<EdgeType>, ty: NodeType, k: nat)
    ensures var ts, s := Triples(Shape(edges, ty, k)), IriSubject(ShapeIri(ty));
            && |ts| == 2 + BlockCount(edges, ty)
            && ts[0] == Triple(s, RDF_TYPE, IriObject(ShaclIri("NodeShape")))
            && ts[1] == Triple(s, ShaclIri("targetClass"), IriObject(TypeIri(ty)))
            && forall i | 2 <= i < |ts| :: ts[i] == Triple(s, ShaclIri("property"), BlankObject(Label(k + i - 2)))
  {
    hide ShaclIri, Label, TypeIri, ShapeIri, BlockCount;
  }

  lemma TargetReturns(edges: seq<EdgeType>, ty: NodeType, k: nat)
    ensures TargetOf(Triples(Shape(edges, ty, k))) == Some(TypeIri(ty))
  {
    hide ShaclIri, Shape, Triples, BlockCount;
    ShapePredicates();
    ShapeTriples(edges, ty, k);
    var ts := Triples(Shape(edges, ty, k));
    assert ts[1..][0] == ts[1];
  }

  // What the triple for the j-th block contributes.
  lemma BlockContributes(all: seq<Triple>, types: seq<NodeType>, edges: seq<EdgeType>, ty: NodeType, k: nat, j: nat)
    requires j < BlockCount(edges, ty) && GroupsExact(all, Blocks(types, edges, ty, k))
    requires forall i | 0 <= i < |ty.properties| :: Fits(ty.properties[i].cardinality)
    ensures var t := Triple(IriSubject(ShapeIri(ty)), ShaclIri("property"), BlankObject(Label(k + j)));
            PropertyOf(all, t) == if j < |ty.properties| then Some(Returned(ty.properties[j])) else None
  {
    hide ShaclIri, Label, Triples, ParsedBlock, Group, Returned, PropertyPairs, EdgePairs, ShapeIri;
    BlockSubject(types, edges, ty, k, j);
    var block := Blocks(types, edges, ty, k)[j];
    var n := |ty.properties|;
    assert Group(all, BlankSubject(Label(k + j))) == Triples(block);
    if j < n {
      assert block == PropertyBlock(ty.properties[j], Label(k + j));
      PropertyReturns(ty.properties[j], Label(k + j));
      HasTriples(block);
      SomePairs(ty.properties[j]);
    } else {
      var e := Outgoing(edges, ty.name)[j - n];
      assert block == EdgeBlock(types, e, Label(k + j));
      EdgeVanishes(types, e, Label(k + j));
    }
  }

  lemma SomePairs(prop: PropertyType)
    ensures PropertyPairs(prop) != []
  {
  }

  lemma HasTriples(st: Statement)
    ensures |Triples(st)| == |st.pairs|
  {
  }

  // The properties read from the first `n` triples of a shape.
  function Expected(props: seq<PropertyType>, n: nat): seq<PropertyType> {
    if n <= 2 then [] else if n - 2 <= |props| then props[..n - 2] else props
  }

  lemma ExpectedStep(props: seq<PropertyType>, n: nat)
    requires n > 2
    ensures Expected(props, n) == Expected(props, n - 1) + if n - 3 < |props| then [props[n - 3]] else []
  {
  }

  lemma PropertiesStep(all: seq<Triple>, ts: seq<Triple>, n: nat)
    requires n < |ts|
    ensures PropertiesOf(all, ts[..n + 1])
            == PropertiesOf(all, ts[..n]) + if PropertyOf(all, ts[n]).Some? then [PropertyOf(all, ts[n]).value] else []
  {
    hide PropertyOf;
    assert ts[..n + 1][..n] == ts[..n];
  }

  lemma {:induction false} PropertiesReturn(
      all: seq<Triple>, types: seq<NodeType>, edges: seq<EdgeType>, ty: NodeType, k: nat, ts: seq<Triple>, n: nat)
    requires ts == Triples(Shape(edges, ty, k)) && n <= |ts| && GroupsExact(all, Blocks(types, edges, ty, k))
    requires forall i | 0 <= i < |ty.properties| :: Fits(ty.properties[i].cardinality)
    ensures PropertiesOf(all, ts[..n]) == Expected(ReturnedAll(ty.properties), n)
    decreases n
  {
    hide ShaclIri, Triples, Shape, Group, Blocks, Returned, GroupsExact, BlockCount, Fits, ParsedBlock, Expected;
    hide PropertiesOf;
    ShapePredicates();
    ShapeTriples(edges, ty, k);
    if n == 0 {
      NothingExpected(all, ReturnedAll(ty.properties));
      assert ts[..0] == [];
    } else {
      PropertiesReturn(all, types, edges, ty, k, ts, n - 1);
      PropertiesStep(all, ts, n - 1);
      if n > 2 {
        BlockContributes(all, types, edges, ty, k, n - 3);
        ExpectedStep(ReturnedAll(ty.properties), n);
      } else {
        ExpectedStart(ReturnedAll(ty.properties), n);
        assert PropertyOf(all, ts[n - 1]) == None;
      }
    }
  }

  lemma NothingExpected(all: seq<Triple>, props: seq<PropertyType>)
    ensures Expected(props, 0) == [] == PropertiesOf(all, [])
  {
  }

  lemma ExpectedStart(props: seq<PropertyType>, n: nat)
    requires 0 < n <= 2
    ensures Expected(props, n) == Expected(props, n - 1) == []
  {
  }

  lemma BlocksAtLeast(edges: seq<EdgeType>, ty: NodeType)
    ensures BlockCount(edges, ty) >= |ty.properties|
  {
  }

  // A shape comes back as its node type.
  lemma ShapeReturns(all: seq<Triple>, types: seq<NodeType>, edges: seq<EdgeType>, ty: NodeType, k: nat)
    requires GroupsExact(all, Own(types, edges, ty, k))
    requires forall i | 0 <= i < |ty.properties| :: Fits(ty.properties[i].cardinality)
    ensures ShapeType(all, IriSubject(ShapeIri(ty))) == Some(ReturnedType(ty))
  {
    hide Group, Triples, Blocks, TargetOf, PropertiesOf, LocalName, Fits, BlockCount, ReturnedAll;
    var own, ts := Own(types, edges, ty, k), Triples(Shape(edges, ty, k));
    assert own[0] == Shape(edges, ty, k);
    assert Group(all, own[0].subj) == ts;
    TargetReturns(edges, ty, k);
    TailExact(all, [own[0]], Blocks(types, edges, ty, k));
    PropertiesReturn(all, types, edges, ty, k, ts, |ts|);
    assert ts[..|ts|] == ts;
    ShapeTriples(edges, ty, k);
    BlocksAtLeast(edges, ty);
    var props := ReturnedAll(ty.properties);
    assert props[..|props|] == props;
    NothingReturned(ty);
  }

  lemma NothingReturned(ty: NodeType)
    ensures |ReturnedAll(ty.properties)| == |ty.properties|
  {
  }

  lemma TailExact(all: seq<Triple>, a: seq<Statement>, b: seq<Statement>)
    requires GroupsExact(all, a + b)
    ensures GroupsExact(all, a) && GroupsExact(all, b)
  {
    hide Group, Triples;
    assert forall i | 0 <= i < |a| :: (a + b)[i] == a[i];
    assert forall i | 0 <= i < |b| :: (a + b)[|a| + i] == b[i];
  }

  ghost predicate AllFit(types: seq<NodeType>) {
    forall t | 0 <= t < |types| :: forall i | 0 <= i < |types[t].properties| :: Fits(types[t].properties[i].cardinality)
  }

  lemma {:induction false} ShapesReturn(all: seq<Triple>, types: seq<NodeType>, edges: seq<EdgeType>,
                                        rest: seq<NodeType>, k: nat)
    requires GroupsExact(all, Statements(types, edges, rest, k)) && AllFit(rest)
    ensures forall t | 0 <= t < |rest| :: ShapeType(all, IriSubject(ShapeIri(rest[t]))) == Some(ReturnedType(rest[t]))
    decreases |rest|
  {
    hide GroupsExact, Own, ShapeType, ReturnedType, Fits, ShapeIri, BlockCount;
    if rest != [] {
      var next := k + BlockCount(edges, rest[0]);
      StatementsSplit(types, edges, rest, k);
      TailExact(all, Own(types, edges, rest[0], k), Statements(types, edges, rest[1..], next));
      ShapeReturns(all, types, edges, rest[0], k);
      assert forall t | 0 <= t < |rest[1..]| :: rest[1..][t] == rest[t + 1];
      ShapesReturn(all, types, edges, rest[1..], next);
      assert forall t | 1 <= t < |rest| :: rest[t] == rest[1..][t - 1];
    }
  }

  lemma StatementsSplit(types: seq<NodeType>, edges: seq<EdgeType>, rest: seq<NodeType>, k: nat)
    requires rest != []
    ensures Statements(types, edges, rest, k)
            == Own(types, edges, rest[0], k) + Statements(types, edges, rest[1..], k + BlockCount(edges, rest[0]))
  {
    hide Shape, Blocks, BlockCount;
  }

  // ----- The shapes of the document -----

  lemma ShapesConcat(a: seq<Triple>, b: seq<Triple>)
    ensures ShapeSubjects(a + b) == ShapeSubjects(a) + ShapeSubjects(b)
  {
    hide MarksShape;
    var all := a + b;
    assert forall i | 0 <= i < |a| :: all[i] == a[i];
    assert forall i | 0 <= i < |b| :: all[|a| + i] == b[i];
    forall s | s in ShapeSubjects(all) ensures s in ShapeSubjects(a) + ShapeSubjects(b) {
      var i :| 0 <= i < |all| && MarksShape(all[i]) && all[i].subj == s;
      assert i >= |a| ==> all[i] == b[i - |a|];
    }
  }

  ghost predicate NoType(st: Statement) { forall i | 0 <= i < |st.pairs| :: st.pairs[i].0 != RDF_TYPE }

  lemma {:induction false} BlocksMarkNothing(sts: seq<Statement>)
    requires forall i | 0 <= i < |sts| :: NoType(sts[i])
    ensures ShapeSubjects(AllTriples(sts)) == {}
    decreases |sts|
  {
    if sts != [] {
      assert forall i | 0 <= i < |sts[1..]| :: sts[1..][i] == sts[i + 1];
      BlocksMarkNothing(sts[1..]);
      ShapesConcat(Triples(sts[0]), AllTriples(sts[1..]));
      StatementMarksNothing(sts[0]);
    }
  }

  lemma StatementMarksNothing(st: Statement)
    requires NoType(st)
    ensures ShapeSubjects(Triples(st)) == {}
  {
  }

  lemma BlocksHaveNoType(types: seq<NodeType>, edges: seq<EdgeType>, ty: NodeType, k: nat)
    ensures forall i | 0 <= i < |Blocks(types, edges, ty, k)| :: NoType(Blocks(types, edges, ty, k)[i])
  {
    hide ShaclIri, Label, Count, XsdForDatatype, RangeIri, PathIri, EdgeIri, Outgoing;
    NotRdfType("path");
    NotRdfType("minCount");
    NotRdfType("maxCount");
    NotRdfType("datatype");
    NotRdfType("nodeKind");
    NotRdfType("class");
    forall prop, name ensures NoType(PropertyBlock(prop, name)) {
    }
    forall e, name ensures NoType(EdgeBlock(types, e, name)) {
    }
  }

  lemma ShapeMarksItself(edges: seq<EdgeType>, ty: NodeType, k: nat)
    ensures ShapeSubjects(Triples(Shape(edges, ty, k))) == {IriSubject(ShapeIri(ty))}
  {
    hide ShaclIri, Label, TypeIri, ShapeIri, BlockCount, Shape, Triples;
    ShapeTriples(edges, ty, k);
    var ts := Triples(Shape(edges, ty, k));
    assert MarksShape(ts[0]);
  }

  function ShapeSet(rest: seq<NodeType>): set<Subject> {
    set t | 0 <= t < |rest| :: IriSubject(ShapeIri(rest[t]))
  }

  lemma ShapeSetStep(rest: seq<NodeType>)
    requires rest != []
    ensures ShapeSet(rest) == {IriSubject(ShapeIri(rest[0]))} + ShapeSet(rest[1..])
  {
    hide ShapeIri;
    assert forall t | 0 <= t < |rest[1..]| :: rest[1..][t] == rest[t + 1];
    assert forall t | 1 <= t < |rest| :: rest[t] == rest[1..][t - 1];
    assert IriSubject(ShapeIri(rest[0])) in ShapeSet(rest);
  }

  lemma {:induction false} ShapesFound(types: seq<NodeType>, edges: seq<EdgeType>, rest: seq<NodeType>, k: nat)
    ensures ShapeSubjects(AllTriples(Statements(types, edges, rest, k))) == ShapeSet(rest)
    decreases |rest|
  {
    hide Shape, Blocks, ShapeIri, BlockCount, ShapeSubjects, ShapeSet, Triples;
    if rest == [] {
      NoShapes();
    } else {
      var next := k + BlockCount(edges, rest[0]);
      var shape, blocks := Shape(edges, rest[0], k), Blocks(types, edges, rest[0], k);
      var later := Statements(types, edges, rest[1..], next);
      StatementsSplit(types, edges, rest, k);
      AllTriplesAppend([shape] + blocks, later);
      AllTriplesAppend([shape], blocks);
      assert AllTriples([shape]) == Triples(shape) by {
        assert [shape][1..] == [];
        assert Triples(shape) + [] == Triples(shape);
      }
      ShapesConcat(AllTriples([shape] + blocks), AllTriples(later));
      ShapesConcat(Triples(shape), AllTriples(blocks));
      ShapeMarksItself(edges, rest[0], k);
      BlocksHaveNoType(types, edges, rest[0], k);
      BlocksMarkNothing(blocks);
      ShapesFound(types, edges, rest[1..], next);
      ShapeSetStep(rest);
    }
  }

  lemma NoShapes()
    ensures ShapeSubjects([]) == {} && ShapeSet([]) == {}
  {
  }

  // ----- The theorem -----

  // No two classes have the same local name.
  ghost predicate DistinctNames(types: seq<NodeType>) {
    forall i, j | 0 <= i < j < |types| :: LocalName(TypeIri(types[i])) != LocalName(TypeIri(types[j]))
  }

  lemma DistinctNamesDistinctShapes(types: seq<NodeType>)
    requires DistinctNames(types)
    ensures DistinctShapes(types)
  {
    hide LocalName, TypeIri;
    forall i, j | 0 <= i < j < |types| ensures ShapeIri(types[i]) != ShapeIri(types[j]) {
      var a, b := TypeIri(types[i]), TypeIri(types[j]);
      SuffixInjective(a, b, "Shape");
    }
  }

  lemma SuffixInjective(a: string, b: string, suffix: string)
    ensures a + suffix == b + suffix ==> a == b
  {
    var x, y := a + suffix, b + suffix;
    assert x[..|a|] == a && y[..|b|] == b;
  }

  lemma WritableFits(types: seq<NodeType>, edges: seq<EdgeType>)
    requires Writable(types, edges, types)
    ensures AllFit(types)
  {
    hide TermKept, Outgoing;
    forall t, i | 0 <= t < |types| && 0 <= i < |types[t].properties| ensures Fits(types[t].properties[i].cardinality) {
      assert TypeKept(types[t]);
      assert PropertyKept(types[t].properties[i]);
    }
  }

  // The type table that comes back.
  ghost predicate ReturnedTable(types: seq<NodeType>, table: map<string, NodeType>) {
    && (forall t | 0 <= t < |types| ::
          ReturnedType(types[t]).name in table && table[ReturnedType(types[t]).name] == ReturnedType(types[t]))
    && (forall n | n in table :: exists t | 0 <= t < |types| :: ReturnedType(types[t]).name == n)
  }

  // Compiling a schema and reading the document back returns one node type per class, with its
  // properties in order and their datatypes and counts; edges leave no trace.
  lemma SchemaReturns(types: seq<NodeType>, edges: seq<EdgeType>, r: Result<map<string, NodeType>, ShaclError>)
    requires Writable(types, edges, types) && DistinctNames(types)
    requires Turtle.ParsedDocument(SC.DocumentText(types, edges)).Ok? ==>
               Built(Turtle.ParsedDocument(SC.DocumentText(types, edges)).value, r)
    ensures Turtle.ParsedDocument(SC.DocumentText(types, edges)).Ok?
    ensures r.Ok? && ReturnedTable(types, r.value)
  {
    hide Turtle.ParsedDocument, SC.DocumentText, AllPlain, Writable, Statements, ShapeType, ReturnedType;
    hide ShapeSubjects, DistinctNames, Fits;
    var sts := Statements(types, edges, types, 0);
    var all := AllTriples(sts);
    StatementsPlain(types, edges, types, 0);
    DocumentReads(types, edges);
    DistinctNamesDistinctShapes(types);
    StatementsDistinct(types, edges, types, 0);
    forall i | 0 <= i < |sts| ensures Group(all, sts[i].subj) == Triples(sts[i]) {
      GroupExact(sts, i);
    }
    WritableFits(types, edges);
    ShapesReturn(all, types, edges, types, 0);
    ShapesFound(types, edges, types, 0);
    TableReturned(types, all, r);
  }

  lemma TableReturned(types: seq<NodeType>, all: seq<Triple>, r: Result<map<string, NodeType>, ShaclError>)
    requires DistinctNames(types) && Built(all, r) && ShapeSubjects(all) == ShapeSet(types)
    requires forall t | 0 <= t < |types| ::
             ShapeType(all, IriSubject(ShapeIri(types[t]))) == Some(ReturnedType(types[t]))
    ensures r.Ok? && ReturnedTable(types, r.value)
  {
    hide ShapeType, ShapeSubjects, LocalName, TypeIri, ReturnedAll, ShapeIri;
    forall t | 0 <= t < |types| ensures IriSubject(ShapeIri(types[t])) in ShapeSet(types) {
    }
    if r.Ok? {
      var table := r.value;
      forall t | 0 <= t < |types|
        ensures ReturnedType(types[t]).name in table && table[ReturnedType(types[t]).name] == ReturnedType(types[t])
      {
        var n := ReturnedType(types[t]).name;
        var s :| s in ShapeSubjects(all) && ShapeType(all, s) == Some(table[n]) && table[n].name == n;
        var u :| 0 <= u < |types| && s == IriSubject(ShapeIri(types[u]));
        assert ReturnedType(types[u]).name == n;
        assert u == t;
      }
      forall n | n in table ensures exists t | 0 <= t < |types| :: ReturnedType(types[t]).name == n {
        var s :| s in ShapeSubjects(all) && ShapeType(all, s) == Some(table[n]) && table[n].name == n;
        var u :| 0 <= u < |types| && s == IriSubject(ShapeIri(types[u]));
        assert ReturnedType(types[u]) == table[n];
      }
    }
  }

  // What a type must be like to come back as it was.
  predicate PropertyCanonical(prop: PropertyType) {
    prop.iri.Some? && prop.name == LocalName(prop.iri.value) && !prop.datatyp.Json? && prop.description.None?
  }

  predicate TypeCanonical(ty: NodeType) {
    && ty.iri.Some? && ty.name == LocalName(ty.iri.value) && ty.supertypes == [] && ty.description.None?
    && forall i | 0 <= i < |ty.properties| :: PropertyCanonical(ty.properties[i])
  }

  // A type comes back unchanged exactly when it has an IRI that ends in its name, no supertypes and no
  // description, and its properties have IRIs that end in their names, no JSON and no descriptions.
  lemma UnchangedExactly(ty: NodeType)
    ensures ReturnedType(ty) == ty <==> TypeCanonical(ty)
  {
    hide LocalName;
    var back := ReturnedAll(ty.properties);
    forall i | 0 <= i < |ty.properties| ensures back[i] == ty.properties[i] <==> PropertyCanonical(ty.properties[i]) {
      PropertyUnchanged(ty.properties[i]);
    }
    if TypeCanonical(ty) {
      assert back == ty.properties;
    }
  }

  lemma PropertyUnchanged(prop: PropertyType)
    ensures Returned(prop) == prop <==> PropertyCanonical(prop)
  {
    hide LocalName;
  }

  // The table holds exactly the types, under their names.
  ghost predicate SchemaTable(types: seq<NodeType>, table: map<string, NodeType>) {
    && (forall t | 0 <= t < |types| :: types[t].name in table && table[types[t].name] == types[t])
    && (forall n | n in table :: exists t | 0 <= t < |types| :: types[t].name == n)
  }

  // The table that comes back is the schema exactly when every type is canonical.
  lemma SchemaUnchanged(types: seq<NodeType>, table: map<string, NodeType>)
    requires DistinctNames(types) && ReturnedTable(types, table)
    ensures SchemaTable(types, table) <==> forall t | 0 <= t < |types| :: TypeCanonical(types[t])
  {
    hide LocalName, TypeCanonical, ReturnedAll;
    forall t | 0 <= t < |types| ensures ReturnedType(types[t]) == types[t] <==> TypeCanonical(types[t]) {
      UnchangedExactly(types[t]);
    }
    if SchemaTable(types, table) {
      forall t | 0 <= t < |types| ensures ReturnedType(types[t]) == types[t] {
        var u :| 0 <= u < |types| && ReturnedType(types[u]).name == types[t].name;
        assert types[t] == ReturnedType(types[u]);
        assert TypeIri(types[t]) == TypeIri(types[u]);
        assert t == u;
      }
    }
  }
}
