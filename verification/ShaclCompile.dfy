// Compiling a schema to SHACL shapes in Turtle.

module ShaclCompile {
  import opened Wrappers
  import opened Numerals
  import opened Rdf
  import opened SchemaTypes
  import Turtle

  const SH_URI := "http://www.w3.org/ns/shacl#"
  const XSD_URI := "http://www.w3.org/2001/XMLSchema#"

  const SH := Turtle.Namespace("sh", SH_URI)
  const XSD := Turtle.Namespace("xsd", XSD_URI)

  function ShaclIri(local: string): string { SH_URI + local }

  function XsdIri(local: string): string { XSD_URI + local }

  // A Turtle statement: a subject with its predicate-object list.
  datatype Statement = Statement(subj: Subject, pairs: seq<(string, Object)>)

  // ----- The shapes of a schema -----

  function FallbackIri(name: string): string { "urn:atomr:shacl:" + name }

  function IriOr(iri: Option<string>, name: string): string {
    if iri.Some? then iri.value else FallbackIri(name)
  }

  function TypeIri(ty: NodeType): string { IriOr(ty.iri, ty.name) }

  function ShapeIri(ty: NodeType): string { TypeIri(ty) + "Shape" }

  function PathIri(prop: PropertyType): string { IriOr(prop.iri, prop.name) }

  function EdgeIri(edge: EdgeType): string { IriOr(edge.iri, edge.name) }

  function XsdForDatatype(d: Datatype): string {
    match d
    case Str => XsdIri("string")
    case Int => XsdIri("integer")
    case Float => XsdIri("double")
    case Bool => XsdIri("boolean")
    case DateTime => XsdIri("dateTime")
    case AnyUri => XsdIri("anyURI")
    case Bytes => XsdIri("base64Binary")
    case Json => XsdIri("string")
  }

  function Count(n: nat): Object { Literal(Decimal(n), XsdIri("integer"), None) }

  function MinPairs(c: Cardinality): seq<(string, Object)> {
    if c.min > 0 then [(ShaclIri("minCount"), Count(c.min))] else []
  }

  function MaxPairs(c: Cardinality): seq<(string, Object)> {
    if c.max.Some? then [(ShaclIri("maxCount"), Count(c.max.value))] else []
  }

  function PathPairs(path: string, c: Cardinality): seq<(string, Object)> {
    [(ShaclIri("path"), IriObject(path))] + MinPairs(c) + MaxPairs(c)
  }

  function PropertyPairs(prop: PropertyType): seq<(string, Object)> {
    PathPairs(PathIri(prop), prop.cardinality) + [(ShaclIri("datatype"), IriObject(XsdForDatatype(prop.datatyp)))]
  }

  function Lookup(types: seq<NodeType>, name: string): Option<NodeType> {
    if types == [] then None else if types[0].name == name then Some(types[0]) else Lookup(types[1..], name)
  }

  // The class a range name stands for.
  function RangeIri(types: seq<NodeType>, name: string): string {
    var ty := Lookup(types, name);
    IriOr(if ty.Some? then ty.value.iri else None, name)
  }

  function ClassPairs(types: seq<NodeType>, range: seq<string>): seq<(string, Object)> {
    seq(|range|, i requires 0 <= i < |range| => (ShaclIri("class"), IriObject(RangeIri(types, range[i]))))
  }

  function EdgePairs(types: seq<NodeType>, edge: EdgeType): seq<(string, Object)> {
    PathPairs(EdgeIri(edge), edge.cardinality) + [(ShaclIri("nodeKind"), IriObject(ShaclIri("IRI")))]
    + ClassPairs(types, edge.range)
  }

  function Label(n: nat): string { "b" + Decimal(n) }

  function Labels(k: nat, n: nat): seq<string> { seq(n, i requires 0 <= i < n => Label(k + i)) }

  function PropertyRefs(labels: seq<string>): seq<(string, Object)> {
    seq(|labels|, i requires 0 <= i < |labels| => (ShaclIri("property"), BlankObject(labels[i])))
  }

  function ShapePairs(ty: NodeType, labels: seq<string>): seq<(string, Object)> {
    [(RDF_TYPE, IriObject(ShaclIri("NodeShape"))), (ShaclIri("targetClass"), IriObject(TypeIri(ty)))]
        + PropertyRefs(labels)
  }

  function PropertyBlock(prop: PropertyType, blank: string): Statement {
    Statement(BlankSubject(blank), PropertyPairs(prop))
  }

  function EdgeBlock(types: seq<NodeType>, edge: EdgeType, blank: string): Statement {
    Statement(BlankSubject(blank), EdgePairs(types, edge))
  }

  function PropertyBlocks(props: seq<PropertyType>, k: nat): seq<Statement> {
    seq(|props|, i requires 0 <= i < |props| => PropertyBlock(props[i], Label(k + i)))
  }

  function EdgeBlocks(types: seq<NodeType>, edges: seq<EdgeType>, k: nat): seq<Statement> {
    seq(|edges|, i requires 0 <= i < |edges| => EdgeBlock(types, edges[i], Label(k + i)))
  }

  // The edges whose domain names the type, in order.
  function Outgoing(edges: seq<EdgeType>, name: string): seq<EdgeType> {
    if edges == [] then []
    else Outgoing(edges[..|edges| - 1], name) + if name in edges[|edges| - 1].domain then [edges[|edges| - 1]] else []
  }

  function BlockCount(edges: seq<EdgeType>, ty: NodeType): nat {
    |ty.properties| + |Outgoing(edges, ty.name)|
  }

  function Blocks(types: seq<NodeType>, edges: seq<EdgeType>, ty: NodeType, k: nat): seq<Statement> {
    PropertyBlocks(ty.properties, k) + EdgeBlocks(types, Outgoing(edges, ty.name), k + |ty.properties|)
  }

  function Shape(edges: seq<EdgeType>, ty: NodeType, k: nat): Statement {
    Statement(IriSubject(ShapeIri(ty)), ShapePairs(ty, Labels(k, BlockCount(edges, ty))))
  }

  // ----- Text -----

  predicate SimpleLocal(s: string) {
    s != "" && ' ' !in s && '/' !in s && '#' !in s && '<' !in s && '>' !in s
  }

  function TermText(iri: string): string {
    if SH_URI <= iri && SimpleLocal(iri[|SH_URI|..]) then "sh" + (":" + iri[|SH_URI|..])
    else if XSD_URI <= iri && SimpleLocal(iri[|XSD_URI|..]) then "xsd" + (":" + iri[|XSD_URI|..])
    else "<" + (iri + ">")
  }

  function SubjectText(s: Subject): string {
    match s
    case IriSubject(iri) => TermText(iri)
    case BlankSubject(name) => "_:" + name
  }

  function PredicateText(p: string): string { if p == RDF_TYPE then "a" else TermText(p) }

  function ObjectText(o: Object): string {
    match o
    case IriObject(iri) => TermText(iri)
    case BlankObject(name) => "_:" + name
    case Literal(lexical, kind, _) => "\"" + (lexical + ("\"" + ("^^" + TermText(kind))))
  }

  function PairText(p: (string, Object)): string { PredicateText(p.0) + (" " + ObjectText(p.1)) }

  function PairsText(pairs: seq<(string, Object)>): string {
    if pairs == [] then ""
    else if |pairs| == 1 then PairText(pairs[0])
    else PairText(pairs[0]) + (" ;\n  " + PairsText(pairs[1..]))
  }

  // A statement without its full stop.
  function OpenText(subj: Subject, pairs: seq<(string, Object)>): string {
    SubjectText(subj) + (" " + PairsText(pairs))
  }

  function StatementText(st: Statement): string { OpenText(st.subj, st.pairs) + " .\n" }

  function StatementsText(sts: seq<Statement>): string {
    if sts == [] then "" else StatementText(sts[0]) + StatementsText(sts[1..])
  }

  function TypeText(types: seq<NodeType>, edges: seq<EdgeType>, ty: NodeType, k: nat): string {
    StatementText(Shape(edges, ty, k)) + StatementsText(Blocks(types, edges, ty, k))
  }

  // The text of the types still to come, with the blank counter at `k`.
  function ShapesText(types: seq<NodeType>, edges: seq<EdgeType>, rest: seq<NodeType>, k: nat): string
    decreases |rest|
  {
    if rest == [] then ""
    else
      TypeText(types, edges, rest[0], k)
      + ("\n" + ShapesText(types, edges, rest[1..], k + BlockCount(edges, rest[0])))
  }

  function DocumentText(types: seq<NodeType>, edges: seq<EdgeType>): string {
    Turtle.PrefixLine(SH) + (Turtle.PrefixLine(XSD) + ("\n" + ShapesText(types, edges, types, 0)))
  }

  lemma {:induction false} PairsAppend(pairs: seq<(string, Object)>, p: (string, Object))
    requires pairs != []
    ensures PairsText(pairs + [p]) == PairsText(pairs) + (" ;\n  " + PairText(p))
    decreases |pairs|
  {
    hide PairText;
    var all := pairs + [p];
    assert all[0] == pairs[0];
    if |pairs| == 1 {
      assert all[1..] == [p];
    } else {
      assert all[1..] == pairs[1..] + [p];
      PairsAppend(pairs[1..], p);
      Associate(PairText(pairs[0]), " ;\n  " + PairsText(pairs[1..]), " ;\n  " + PairText(p));
      Associate(" ;\n  ", PairsText(pairs[1..]), " ;\n  " + PairText(p));
    }
  }

  // One more pair on an open statement.
  lemma OpenAppend(subj: Subject, pairs: seq<(string, Object)>, p: (string, Object))
    requires pairs != []
    ensures OpenText(subj, pairs + [p]) == OpenText(subj, pairs) + " ;\n  " + PredicateText(p.0) + " " + ObjectText(p.1)
  {
    hide PredicateText, ObjectText, SubjectText, PairsText;
    PairsAppend(pairs, p);
    var open, pred, obj := OpenText(subj, pairs), PredicateText(p.0), ObjectText(p.1);
    Associate(SubjectText(subj), " " + PairsText(pairs), " ;\n  " + PairText(p));
    Associate(" ", PairsText(pairs), " ;\n  " + PairText(p));
    Associate(open, " ;\n  ", PairText(p));
    Associate(open + " ;\n  ", pred, " " + obj);
    Associate(open + " ;\n  " + pred, " ", obj);
  }

  lemma OpenFirst(subj: Subject, p: (string, Object))
    ensures OpenText(subj, [p]) == SubjectText(subj) + " " + PredicateText(p.0) + " " + ObjectText(p.1)
  {
    hide PredicateText, ObjectText, SubjectText;
    var s, pred, obj := SubjectText(subj), PredicateText(p.0), ObjectText(p.1);
    Associate(s, " ", PairText(p));
    Associate(s + " ", pred, " " + obj);
    Associate(s + " " + pred, " ", obj);
  }

  // ----- The emitters -----

  // `push_iri_term`
  method PushIriTerm(out: string, iri: string) returns (next: string)
    ensures next == out + TermText(iri)
  {
    hide SimpleLocal;
    if SH_URI <= iri {
      var local := iri[|SH_URI|..];
      if SimpleLocal(local) {
        JoinFour(out, "sh", ":", local);
        return out + "sh" + ":" + local;
      }
    }
    if XSD_URI <= iri {
      var local := iri[|XSD_URI|..];
      if SimpleLocal(local) {
        JoinFour(out, "xsd", ":", local);
        return out + "xsd" + ":" + local;
      }
    }
    JoinFour(out, "<", iri, ">");
    next := out + "<" + iri + ">";
  }

  // `push_xsd_integer`
  method PushXsdInteger(out: string, value: nat) returns (next: string)
    ensures next == out + ObjectText(Count(value))
  {
    hide TermText, Decimal, XsdIri;
    next := PushIriTerm(out + "\"" + Decimal(value) + "\"" + "^^", XsdIri("integer"));
    Associate(out, "\"", Decimal(value));
    Associate(out, "\"" + Decimal(value), "\"" + "^^");
  }

  // A predicate and an IRI after the separator.
  method PushIriPair(open: string, pred: string, iri: string, ghost subj: Subject, ghost pairs: seq<(string, Object)>)
    returns (next: string)
    requires open == OpenText(subj, pairs) && pairs != [] && pred != RDF_TYPE
    ensures next == OpenText(subj, pairs + [(pred, IriObject(iri))])
  {
    hide OpenText, TermText;
    next := PushIriTerm(open + " ;\n  ", pred);
    next := PushIriTerm(next + " ", iri);
    OpenAppend(subj, pairs, (pred, IriObject(iri)));
  }

  method PushCountPair(open: string, pred: string, n: nat, ghost subj: Subject, ghost pairs: seq<(string, Object)>)
    returns (next: string)
    requires open == OpenText(subj, pairs) && pairs != [] && pred != RDF_TYPE
    ensures next == OpenText(subj, pairs + [(pred, Count(n))])
  {
    hide OpenText, TermText, ObjectText;
    next := PushIriTerm(open + " ;\n  ", pred);
    next := PushXsdInteger(next + " ", n);
    OpenAppend(subj, pairs, (pred, Count(n)));
  }

  // No SHACL term is `rdf:type`.
  lemma NotRdfType(local: string)
    ensures ShaclIri(local) != RDF_TYPE
  {
    assert ShaclIri(local)[18] == 'n' && RDF_TYPE[18] == '1';
    assert ShaclIri(local)[18] == SH_URI[18];
  }

  // What both kinds of block begin with: the path and the counts.
  method RenderPath(blank: string, path: string, c: Cardinality) returns (out: string)
    ensures out == OpenText(BlankSubject(blank), PathPairs(path, c))
  {
    hide OpenText, TermText, ObjectText;
    ghost var subj := BlankSubject(blank);
    ghost var pairs := [(ShaclIri("path"), IriObject(path))];
    NotRdfType("path");
    NotRdfType("minCount");
    NotRdfType("maxCount");
    OpenFirst(subj, pairs[0]);
    PathTexts(blank, path);
    out := PushIriTerm("_:" + blank + " ", ShaclIri("path"));
    out := PushIriTerm(out + " ", path);
    if c.min > 0 {
      out := PushCountPair(out, ShaclIri("minCount"), c.min, subj, pairs);
      pairs := pairs + [(ShaclIri("minCount"), Count(c.min))];
    }
    assert pairs == [(ShaclIri("path"), IriObject(path))] + MinPairs(c);
    if c.max.Some? {
      out := PushCountPair(out, ShaclIri("maxCount"), c.max.value, subj, pairs);
      pairs := pairs + [(ShaclIri("maxCount"), Count(c.max.value))];
    }
    assert pairs == PathPairs(path, c);
  }

  lemma PathTexts(blank: string, path: string)
    requires ShaclIri("path") != RDF_TYPE
    ensures SubjectText(BlankSubject(blank)) == "_:" + blank
    ensures PredicateText(ShaclIri("path")) == TermText(ShaclIri("path"))
            && ObjectText(IriObject(path)) == TermText(path)
  {
  }

  // `render_property_block`
  method RenderPropertyBlock(blank: string, prop: PropertyType) returns (out: string)
    ensures out == StatementText(PropertyBlock(prop, blank))
  {
    hide OpenText, XsdForDatatype;
    out := RenderPath(blank, PathIri(prop), prop.cardinality);
    NotRdfType("datatype");
    out := PushIriPair(out, ShaclIri("datatype"), XsdForDatatype(prop.datatyp), BlankSubject(blank),
                       PathPairs(PathIri(prop), prop.cardinality));
    out := out + " .\n";
  }

  // `render_edge_block`
  method RenderEdgeBlock(blank: string, types: seq<NodeType>, edge: EdgeType) returns (out: string)
    ensures out == StatementText(EdgeBlock(types, edge, blank))
  {
    hide OpenText, RangeIri, PathPairs;
    out := RenderPath(blank, EdgeIri(edge), edge.cardinality);
    NotRdfType("nodeKind");
    NotRdfType("class");
    ghost var subj, pairs := BlankSubject(blank), PathPairs(EdgeIri(edge), edge.cardinality);
    PathNotEmpty(EdgeIri(edge), edge.cardinality);
    out := PushIriPair(out, ShaclIri("nodeKind"), ShaclIri("IRI"), subj, pairs);
    pairs := pairs + [(ShaclIri("nodeKind"), IriObject(ShaclIri("IRI")))];
    ghost var all := ClassPairs(types, edge.range);
    assert pairs + all[..0] == pairs;
    for i := 0 to |edge.range|
      invariant out == OpenText(subj, pairs + all[..i])
    {
      out := PushIriPair(out, ShaclIri("class"), RangeIri(types, edge.range[i]), subj, pairs + all[..i]);
      assert pairs + all[..i] + [all[i]] == pairs + all[..i + 1];
    }
    assert all[..|edge.range|] == all;
    out := out + " .\n";
  }

  lemma PathNotEmpty(path: string, c: Cardinality)
    ensures PathPairs(path, c) != []
  {
  }

  // `emit_node_shape`
  method EmitNodeShape(out: string, ty: NodeType, refs: seq<string>) returns (next: string)
    ensures next == out + StatementText(Statement(IriSubject(ShapeIri(ty)), ShapePairs(ty, refs)))
  {
    hide OpenText, TermText;
    ghost var subj := IriSubject(ShapeIri(ty));
    ghost var first := [(RDF_TYPE, IriObject(ShaclIri("NodeShape"))),
        (ShaclIri("targetClass"), IriObject(TypeIri(ty)))];
    next := PushIriTerm(out, ShapeIri(ty));
    next := PushIriTerm(next + " a ", ShaclIri("NodeShape"));
    next := PushIriTerm(next + " ;\n  ", ShaclIri("targetClass"));
    next := PushIriTerm(next + " ", TypeIri(ty));
    ShapeOpens(out, subj, ShapeIri(ty), TypeIri(ty));
    ghost var all := PropertyRefs(refs);
    assert first + all[..0] == first;
    for i := 0 to |refs|
      invariant next == out + OpenText(subj, first + all[..i])
    {
      ghost var open := OpenText(subj, first + all[..i]);
      next := PushIriTerm(next + " ;\n  ", ShaclIri("property"));
      next := next + " _:" + refs[i];
      NotRdfType("property");
      OpenAppend(subj, first + all[..i], all[i]);
      BlankPushed(out, open, TermText(ShaclIri("property")), refs[i]);
      assert first + all[..i] + [all[i]] == first + all[..i + 1];
    }
    assert all[..|refs|] == all;
    Associate(out, OpenText(subj, first + all), " .\n");
    next := next + " .\n";
  }

  lemma ShapeOpens(out: string, subj: Subject, shape: string, target: string)
    requires subj == IriSubject(shape)
    ensures out + TermText(shape) + " a " + TermText(ShaclIri("NodeShape")) + " ;\n  "
            + TermText(ShaclIri("targetClass"))
            + " " + TermText(target)
            == out + OpenText(subj,
                [(RDF_TYPE, IriObject(ShaclIri("NodeShape"))), (ShaclIri("targetClass"), IriObject(target))])
  {
    hide TermText, OpenText;
    var p := (RDF_TYPE, IriObject(ShaclIri("NodeShape")));
    var q := (ShaclIri("targetClass"), IriObject(target));
    NotRdfType("targetClass");
    OpenFirst(subj, p);
    OpenAppend(subj, [p], q);
    assert [p] + [q] == [p, q];
    var open := TermText(shape) + " " + "a" + " " + TermText(ShaclIri("NodeShape"));
    Associate(TermText(shape), " ", "a");
    Associate(TermText(shape), " a", " ");
    assert " " + "a" == " a" && " a" + " " == " a ";
    Associate(out, TermText(shape), " a ");
    Associate(out, TermText(shape) + " a ", TermText(ShaclIri("NodeShape")));
    RegroupSix(out, open, " ;\n  ", TermText(ShaclIri("targetClass")), " ", TermText(target));
  }

  lemma RegroupSix(a: string, b: string, c: string, d: string, e: string, f: string)
    ensures a + b + c + d + e + f == a + (b + c + d + e + f)
  {
    Associate(a, b, c);
    Associate(a, b + c, d);
    Associate(a, b + c + d, e);
    Associate(a, b + c + d + e, f);
  }

  lemma BlankPushed(out: string, open: string, pred: string, name: string)
    ensures out + open + " ;\n  " + pred + " _:" + name == out + (open + " ;\n  " + pred + " " + ("_:" + name))
  {
    Associate(open + " ;\n  " + pred, " _:", name);
    Associate(" ", "_:", name);
    assert " " + "_:" == " _:";
    Associate(open + " ;\n  " + pred, " ", "_:" + name);
    RegroupSix(out, open, " ;\n  ", pred, " _:", name);
  }

  function Texts(sts: seq<Statement>): seq<string> {
    seq(|sts|, i requires 0 <= i < |sts| => StatementText(sts[i]))
  }

  // `collect_property_refs`: the references and the blocks they name, with the counter moved on.
  method CollectPropertyRefs(types: seq<NodeType>, edges: seq<EdgeType>, ty: NodeType, k: nat)
    returns (refs: seq<string>, bodies: seq<string>, next: nat)
    ensures next == k + BlockCount(edges, ty)
    ensures refs == Labels(k, BlockCount(edges, ty))
    ensures bodies == Texts(Blocks(types, edges, ty, k))
  {
    hide StatementText, Label, PropertyPairs, EdgePairs;
    refs, bodies, next := [], [], k;
    for i := 0 to |ty.properties|
      invariant next == k + i && refs == Labels(k, i)
      invariant bodies == Texts(PropertyBlocks(ty.properties[..i], k))
    {
      var name := Label(next);
      var body := RenderPropertyBlock(name, ty.properties[i]);
      bodies, refs, next := bodies + [body], refs + [name], next + 1;
    }
    assert ty.properties[..|ty.properties|] == ty.properties;
    ghost var n := |ty.properties|;
    ghost var props := bodies;
    for j := 0 to |edges|
      invariant next == k + n + |Outgoing(edges[..j], ty.name)| && refs == Labels(k, next - k)
      invariant bodies == props + Texts(EdgeBlocks(types, Outgoing(edges[..j], ty.name), k + n))
    {
      assert edges[..j + 1][..j] == edges[..j];
      if ty.name in edges[j].domain {
        var name := Label(next);
        var body := RenderEdgeBlock(name, types, edges[j]);
        bodies, refs, next := bodies + [body], refs + [name], next + 1;
      }
    }
    assert edges[..|edges|] == edges;
  }

  method PushAll(start: string, bodies: seq<string>, ghost sts: seq<Statement>) returns (out: string)
    requires bodies == Texts(sts)
    ensures out == start + StatementsText(sts)
  {
    hide StatementText;
    out := start;
    for i := 0 to |bodies|
      invariant out + StatementsText(sts[i..]) == start + StatementsText(sts)
    {
      Associate(out, bodies[i], StatementsText(sts[i + 1..]));
      assert sts[i..][1..] == sts[i + 1..];
      out := out + bodies[i];
    }
    assert out + "" == out;
  }

  // `push_prefix`
  method PushPrefix(out: string, prefix: string, base: string) returns (next: string)
    ensures next == out + Turtle.PrefixLine(Turtle.Namespace(prefix, base))
  {
    next := out + "@prefix " + prefix + ": <" + base + "> .\n";
    Turtle.PrefixLineText(Turtle.Namespace(prefix, base));
    RegroupSix(out, "@prefix ", prefix, ": <", base, "> .\n");
  }

  // `to_shacl_turtle`
  method ToShaclTurtle(types: seq<NodeType>, edges: seq<EdgeType>) returns (out: string)
    ensures out == DocumentText(types, edges)
  {
    hide ShapesText, Turtle.PrefixLine, StatementText, Blocks, Shape, BlockCount;
    out := PushPrefix("", "sh", SH_URI);
    out := PushPrefix(out, "xsd", XSD_URI);
    out := out + "\n";
    DocumentOpens(out, types, edges);
    var counter := 0;
    assert types[0..] == types;
    for i := 0 to |types|
      invariant out + ShapesText(types, edges, types[i..], counter) == DocumentText(types, edges)
    {
      hide DocumentText;
      ghost var k := counter;
      ghost var later := ShapesText(types, edges, types[i + 1..], k + BlockCount(edges, types[i]));
      ShapesUnfold(types, edges, types[i..], k);
      assert types[i..][1..] == types[i + 1..];
      var refs, bodies;
      refs, bodies, counter := CollectPropertyRefs(types, edges, types[i], counter);
      ghost var start := out;
      out := EmitNodeShape(out, types[i], refs);
      ShapeMeans(edges, types[i], k);
      out := PushAll(out, bodies, Blocks(types, edges, types[i], k));
      Associate(start, StatementText(Shape(edges, types[i], k)), StatementsText(Blocks(types, edges, types[i], k)));
      out := out + "\n";
      Associate(start + TypeText(types, edges, types[i], k), "\n", later);
      Associate(start, TypeText(types, edges, types[i], k), "\n" + later);
    }
    ShapesUnfold(types, edges, [], counter);
    assert out + "" == out;
  }

  lemma DocumentOpens(out: string, types: seq<NodeType>, edges: seq<EdgeType>)
    requires out == "" + Turtle.PrefixLine(SH) + Turtle.PrefixLine(XSD) + "\n"
    ensures out + ShapesText(types, edges, types, 0) == DocumentText(types, edges)
  {
    hide ShapesText, Turtle.PrefixLine;
    var a, b, rest := Turtle.PrefixLine(SH), Turtle.PrefixLine(XSD), ShapesText(types, edges, types, 0);
    assert "" + a == a;
    Associate(a + b, "\n", rest);
    Associate(a, b, "\n" + rest);
  }

  lemma ShapesUnfold(types: seq<NodeType>, edges: seq<EdgeType>, rest: seq<NodeType>, k: nat)
    ensures ShapesText(types, edges, rest, k)
            == if rest == [] then ""
               else TypeText(types, edges, rest[0], k)
                    + ("\n" + ShapesText(types, edges, rest[1..], k + BlockCount(edges, rest[0])))
  {
  }

  lemma ShapeMeans(edges: seq<EdgeType>, ty: NodeType, k: nat)
    ensures Shape(edges, ty, k) == Statement(IriSubject(ShapeIri(ty)), ShapePairs(ty, Labels(k, BlockCount(edges, ty))))
  {
  }
}
