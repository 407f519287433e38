// Reading a schema back from SHACL triples.

module ShaclParse {
  import opened Wrappers
  import opened LocalNames
  import opened Numerals
  import opened Rdf
  import opened SchemaTypes
  import opened ShaclCompile
  import Turtle
  import TurtleParser

  datatype ShaclError = Adapter(error: Turtle.TurtleError) | MissingTargetClass

  // ----- One block -----

  // The last IRI object under a predicate.
  function LastIri(ts: seq<Triple>, pred: string): Option<string>
    decreases |ts|
  {
    if ts == [] then None
    else
      var t := ts[|ts| - 1];
      if t.pred == pred && t.obj.IriObject? then Some(t.obj.iri) else LastIri(ts[..|ts| - 1], pred)
  }

  function LiteralAsU32(o: Object): Option<nat> {
    if o.Literal? then ParseU32(o.lexical) else None
  }

  // The last readable count under a predicate.
  function LastCount(ts: seq<Triple>, pred: string): Option<nat>
    decreases |ts|
  {
    if ts == [] then None
    else
      var t := ts[|ts| - 1];
      if t.pred == pred && LiteralAsU32(t.obj).Some? then LiteralAsU32(t.obj) else LastCount(ts[..|ts| - 1], pred)
  }

  function XsdLocal(iri: string): string {
    if XSD_URI <= iri then iri[|XSD_URI|..] else iri
  }

  function DatatypeFromXsd(iri: string): Datatype {
    var local := XsdLocal(iri);
    if local == "string" then Str
    else if local in ["integer", "int", "long", "short", "byte", "nonNegativeInteger", "positiveInteger",
                      "negativeInteger", "nonPositiveInteger"] then Int
    else if local in ["double", "float", "decimal"] then Float
    else if local == "boolean" then Bool
    else if local in ["dateTime", "date"] then DateTime
    else if local == "anyURI" then AnyUri
    else if local in ["base64Binary", "hexBinary"] then Bytes
    else Str
  }

  function BlockType(path: Option<string>, min: Option<nat>, max: Option<nat>,
                     datatyp: Option<string>): Option<PropertyType> {
    if path.None? || datatyp.None? then None
    else
      Some(PropertyType(LocalName(path.value), DatatypeFromXsd(datatyp.value),
                        Cardinality(if min.Some? then min.value else 0, max), path, None))
  }

  function ParsedBlock(ts: seq<Triple>): Option<PropertyType> {
    BlockType(LastIri(ts, ShaclIri("path")), LastCount(ts, ShaclIri("minCount")), LastCount(ts, ShaclIri("maxCount")),
              LastIri(ts, ShaclIri("datatype")))
  }

  // ----- Shapes -----

  // The triples of a subject, in order.
  function Group(ts: seq<Triple>, s: Subject): seq<Triple>
    decreases |ts|
  {
    if ts == [] then []
    else
      var before, t := Group(ts[..|ts| - 1], s), ts[|ts| - 1];
      if t.subj == s then before + [t] else before
  }

  predicate MarksShape(t: Triple) {
    t.pred == RDF_TYPE && t.obj == IriObject(ShaclIri("NodeShape"))
  }

  function ShapeSubjects(ts: seq<Triple>): set<Subject> {
    set i | 0 <= i < |ts| && MarksShape(ts[i]) :: ts[i].subj
  }

  // The first target class.
  function TargetOf(ts: seq<Triple>): Option<string>
    decreases |ts|
  {
    if ts == [] then None
    else if ts[0].pred == ShaclIri("targetClass") && ts[0].obj.IriObject? then Some(ts[0].obj.iri)
    else TargetOf(ts[1..])
  }

  function BlockKey(o: Object): Option<Subject> {
    match o
    case IriObject(iri) => Some(IriSubject(iri))
    case BlankObject(name) => Some(BlankSubject(name))
    case Literal(_, _, _) => None
  }

  // The property a triple of a shape contributes.
  function PropertyOf(all: seq<Triple>, t: Triple): Option<PropertyType> {
    if t.pred == ShaclIri("property") && BlockKey(t.obj).Some? && Group(all, BlockKey(t.obj).value) != []
    then ParsedBlock(Group(all, BlockKey(t.obj).value))
    else None
  }

  function PropertiesOf(all: seq<Triple>, ts: seq<Triple>): seq<PropertyType>
    decreases |ts|
  {
    if ts == [] then []
    else
      var before, p := PropertiesOf(all, ts[..|ts| - 1]), PropertyOf(all, ts[|ts| - 1]);
      if p.Some? then before + [p.value] else before
  }

  function ShapeType(all: seq<Triple>, s: Subject): Option<NodeType> {
    var target := TargetOf(Group(all, s));
    if target.None? then None
    else Some(NodeType(LocalName(target.value), target, [], PropertiesOf(all, Group(all, s)), None))
  }

  // What `build_schema` may return: an error exactly when some shape has no target class, otherwise
  // the types of the shapes by name. Shapes of the same name replace one another.
  ghost predicate Built(all: seq<Triple>, r: Result<map<string, NodeType>, ShaclError>) {
    var shapes := ShapeSubjects(all);
    match r
    case Err(e) => e == MissingTargetClass && exists s | s in shapes :: ShapeType(all, s).None?
    case Ok(types) =>
      && (forall s | s in shapes :: ShapeType(all, s).Some? && ShapeType(all, s).value.name in types)
      && (forall n | n in types :: exists s | s in shapes :: ShapeType(all, s) == Some(types[n]) && types[n].name == n)
  }

  // ----- As it runs -----

  method ParsePropertyBlock(ts: seq<Triple>) returns (r: Option<PropertyType>)
    ensures r == ParsedBlock(ts)
  {
    hide ParseU32, DatatypeFromXsd;
    var path, datatyp: Option<string> := None, None;
    var min, max: Option<nat> := 0, None;
    BlockPredicates();
    for i := 0 to |ts|
      invariant path == LastIri(ts[..i], ShaclIri("path")) && datatyp == LastIri(ts[..i], ShaclIri("datatype"))
      invariant max == LastCount(ts[..i], ShaclIri("maxCount"))
      invariant min == var n := LastCount(ts[..i], ShaclIri("minCount")); if n.Some? then n.value else 0
    {
      hide ShaclIri;
      var t := ts[i];
      assert ts[..i + 1][..i] == ts[..i];
      if t.pred == ShaclIri("path") {
        if t.obj.IriObject? {
          path := Some(t.obj.iri);
        }
      } else if t.pred == ShaclIri("minCount") {
        var n := LiteralAsU32(t.obj);
        if n.Some? {
          min := n.value;
        }
      } else if t.pred == ShaclIri("maxCount") {
        var n := LiteralAsU32(t.obj);
        if n.Some? {
          max := n;
        }
      } else if t.pred == ShaclIri("datatype") {
        if t.obj.IriObject? {
          datatyp := Some(t.obj.iri);
        }
      }
    }
    assert ts[..|ts|] == ts;
    if path.None? || datatyp.None? {
      return None;
    }
    r := Some(PropertyType(LocalName(path.value), DatatypeFromXsd(datatyp.value), Cardinality(min, max), path, None));
  }

  // The terms of the SHACL vocabulary are told apart by their local names.
  lemma ShaclDiffer(a: string, b: string)
    requires a != b
    ensures ShaclIri(a) != ShaclIri(b)
  {
    assert ShaclIri(a)[|SH_URI|..] == a && ShaclIri(b)[|SH_URI|..] == b;
  }

  lemma BlockPredicates()
    ensures ShaclIri("path") != ShaclIri("minCount") && ShaclIri("path") != ShaclIri("maxCount")
    ensures ShaclIri("path") != ShaclIri("datatype") && ShaclIri("minCount") != ShaclIri("maxCount")
    ensures ShaclIri("minCount") != ShaclIri("datatype") && ShaclIri("maxCount") != ShaclIri("datatype")
  {
    assert "minCount"[1] == 'i' && "maxCount"[1] == 'a';
    ShaclDiffer("path", "minCount");
    ShaclDiffer("path", "maxCount");
    ShaclDiffer("path", "datatype");
    ShaclDiffer("minCount", "maxCount");
    assert "datatype"[0] == 'd' && "minCount"[0] == 'm';
    ShaclDiffer("minCount", "datatype");
    assert "maxCount"[0] == 'm';
    ShaclDiffer("maxCount", "datatype");
  }

  lemma GroupAppend(ts: seq<Triple>, t: Triple, s: Subject)
    ensures Group(ts + [t], s) == if t.subj == s then Group(ts, s) + [t] else Group(ts, s)
  {
    assert (ts + [t])[..|ts|] == ts;
  }

  // The index of the triples by subject.
  method IndexBySubject(all: seq<Triple>) returns (index: map<Subject, seq<Triple>>)
    ensures forall s :: s in index <==> Group(all, s) != []
    ensures forall s | s in index :: index[s] == Group(all, s)
  {
    hide Group;
    index := map[];
    NothingGrouped();
    for i := 0 to |all|
      invariant forall s :: s in index <==> Group(all[..i], s) != []
      invariant forall s | s in index :: index[s] == Group(all[..i], s)
    {
      var t := all[i];
      forall s ensures Group(all[..i + 1], s) == if t.subj == s then Group(all[..i], s) + [t] else Group(all[..i], s) {
        GroupAppend(all[..i], t, s);
        assert all[..i + 1] == all[..i] + [t];
      }
      index := index[t.subj := (if t.subj in index then index[t.subj] else []) + [t]];
    }
    assert all[..|all|] == all;
  }

  lemma NothingGrouped()
    ensures forall s :: Group([], s) == []
  {
  }

  method FindShapes(all: seq<Triple>) returns (shapes: set<Subject>)
    ensures shapes == ShapeSubjects(all)
  {
    hide MarksShape;
    shapes := {};
    for i := 0 to |all|
      invariant shapes == set k | 0 <= k < i && MarksShape(all[k]) :: all[k].subj
    {
      if MarksShape(all[i]) {
        shapes := shapes + {all[i].subj};
      }
    }
  }

  method FindTarget(ts: seq<Triple>) returns (target: Option<string>)
    ensures target == TargetOf(ts)
  {
    hide ShaclIri;
    for i := 0 to |ts|
      invariant TargetOf(ts) == TargetOf(ts[i..])
    {
      assert ts[i..][1..] == ts[i + 1..];
      if ts[i].pred == ShaclIri("targetClass") && ts[i].obj.IriObject? {
        return Some(ts[i].obj.iri);
      }
    }
    target := None;
  }

  method ShapeProperties(all: seq<Triple>, index: map<Subject, seq<Triple>>, ts: seq<Triple>)
    returns (props: seq<PropertyType>)
    requires forall s :: s in index <==> Group(all, s) != []
    requires forall s | s in index :: index[s] == Group(all, s)
    ensures props == PropertiesOf(all, ts)
  {
    hide Group, ShaclIri, ParsedBlock;
    props := [];
    for i := 0 to |ts|
      invariant props == PropertiesOf(all, ts[..i])
    {
      assert ts[..i + 1][..i] == ts[..i];
      if ts[i].pred != ShaclIri("property") {
        continue;
      }
      var key := BlockKey(ts[i].obj);
      if key.None? || key.value !in index {
        continue;
      }
      var prop := ParsePropertyBlock(index[key.value]);
      if prop.Some? {
        props := props + [prop.value];
      }
    }
    assert ts[..|ts|] == ts;
  }

  // `build_schema`; the shapes come in some order.
  method BuildSchema(all: seq<Triple>) returns (r: Result<map<string, NodeType>, ShaclError>)
    ensures Built(all, r)
  {
    hide Group, TargetOf, PropertiesOf, LocalName;
    var index := IndexBySubject(all);
    var shapes := FindShapes(all);
    ShapesHaveGroups(all);
    var types: map<string, NodeType> := map[];
    var left := shapes;
    while left != {}
      invariant left <= shapes
      invariant forall s | s in shapes && s !in left :: ShapeType(all, s).Some? && ShapeType(all, s).value.name in types
      invariant forall n | n in types ::
                  exists s | s in shapes :: ShapeType(all, s) == Some(types[n]) && types[n].name == n
      decreases left
    {
      var shape :| shape in left;
      left := left - {shape};
      var target := FindTarget(index[shape]);
      if target.None? {
        assert ShapeType(all, shape).None?;
        return Err(MissingTargetClass);
      }
      var props := ShapeProperties(all, index, index[shape]);
      var ty := NodeType(LocalName(target.value), target, [], props, None);
      assert ShapeType(all, shape) == Some(ty);
      types := types[ty.name := ty];
    }
    r := Ok(types);
  }

  lemma ShapesHaveGroups(all: seq<Triple>)
    ensures forall s | s in ShapeSubjects(all) :: Group(all, s) != []
  {
    forall i | 0 <= i < |all| ensures Group(all, all[i].subj) != [] {
      GroupHas(all, i);
    }
  }

  lemma {:induction false} GroupHas(all: seq<Triple>, i: nat)
    requires i < |all|
    ensures Group(all, all[i].subj) != []
    decreases |all|
  {
    if i < |all| - 1 {
      GroupHas(all[..|all| - 1], i);
    }
  }

  // `from_shacl_turtle`
  method FromShaclTurtle(input: string) returns (r: Result<map<string, NodeType>, ShaclError>)
    ensures match Turtle.ParsedDocument(input)
            case Ok(ts) => Built(ts, r)
            case Err(e) => r == Err(Adapter(e))
  {
    hide Built, Turtle.ParsedDocument;
    var parsed := TurtleParser.Parse(input);
    if parsed.Err? {
      return Err(Adapter(parsed.error));
    }
    r := BuildSchema(parsed.value);
  }
}
