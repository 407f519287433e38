// Schema to SHACL and back.

module ShaclRoundTrip {
  import opened Wrappers
  import opened LocalNames
  import opened Numerals
  import opened Rdf
  import opened SchemaTypes
  import opened ShaclCompile
  import opened ShaclParse
  import opened ShaclReading
  import Turtle
  import TRT = TurtleRoundTrip
  import SC = ShaclCompile

  // ----- Subjects are told apart -----

  ghost predicate DistinctSubjects(sts: seq<Statement>) {
    forall i, j | 0 <= i < j < |sts| :: sts[i].subj != sts[j].subj
  }

  lemma {:induction false} GroupConcat(a: seq<Triple>, b: seq<Triple>, s: Subject)
    ensures Group(a + b, s) == Group(a, s) + Group(b, s)
    decreases |b|
  {
    if b == [] {
      assert a + b == a;
    } else {
      assert (a + b)[..|a + b| - 1] == a + b[..|b| - 1];
      GroupConcat(a, b[..|b| - 1], s);
    }
  }

  lemma {:induction false} GroupAll(ts: seq<Triple>, s: Subject)
    requires forall i | 0 <= i < |ts| :: ts[i].subj == s
    ensures Group(ts, s) == ts
    decreases |ts|
  {
    if ts != [] {
      GroupAll(ts[..|ts| - 1], s);
      assert ts == ts[..|ts| - 1] + [ts[|ts| - 1]];
    }
  }

  lemma {:induction false} GroupNone(ts: seq<Triple>, s: Subject)
    requires forall i | 0 <= i < |ts| :: ts[i].subj != s
    ensures Group(ts, s) == []
    decreases |ts|
  {
    if ts != [] {
      GroupNone(ts[..|ts| - 1], s);
    }
  }

  // The triples of another subject's statements are not among those of a statement list.
  lemma {:induction false} GroupForeign(sts: seq<Statement>, s: Subject)
    requires forall i | 0 <= i < |sts| :: sts[i].subj != s
    ensures Group(AllTriples(sts), s) == []
    decreases |sts|
  {
    hide Group;
    if sts == [] {
      GroupNone([], s);
    } else {
      assert forall i | 0 <= i < |sts[1..]| :: sts[1..][i] == sts[i + 1];
      GroupForeign(sts[1..], s);
      GroupNone(Triples(sts[0]), s);
      GroupConcat(Triples(sts[0]), AllTriples(sts[1..]), s);
    }
  }

  // The triples of a subject are those of its statement.
  lemma {:induction false} GroupExact(sts: seq<Statement>, i: nat)
    requires DistinctSubjects(sts) && i < |sts|
    ensures Group(AllTriples(sts), sts[i].subj) == Triples(sts[i])
    decreases |sts|
  {
    hide Group;
    var s, later := sts[i].subj, sts[1..];
    assert forall k | 0 <= k < |later| :: later[k] == sts[k + 1];
    GroupConcat(Triples(sts[0]), AllTriples(later), s);
    if i == 0 {
      GroupAll(Triples(sts[0]), s);
      GroupForeign(later, s);
    } else {
      GroupNone(Triples(sts[0]), s);
      GroupExact(later, i - 1);
    }
  }

  // ----- Blocks -----

  lemma {:induction false} LastConcat(a: seq<Triple>, b: seq<Triple>, pred: string)
    ensures LastIri(a + b, pred) == if LastIri(b, pred).Some? then LastIri(b, pred) else LastIri(a, pred)
    ensures LastCount(a + b, pred) == if LastCount(b, pred).Some? then LastCount(b, pred) else LastCount(a, pred)
    decreases |b|
  {
    hide LiteralAsU32;
    if b == [] {
      assert a + b == a;
    } else {
      assert (a + b)[..|a + b| - 1] == a + b[..|b| - 1];
      LastConcat(a, b[..|b| - 1], pred);
    }
  }

  lemma {:induction false} LastNone(ts: seq<Triple>, pred: string)
    requires forall i | 0 <= i < |ts| :: ts[i].pred != pred
    ensures LastIri(ts, pred) == None && LastCount(ts, pred) == None
    decreases |ts|
  {
    hide LiteralAsU32;
    if ts != [] {
      LastNone(ts[..|ts| - 1], pred);
    }
  }

  lemma LastSingle(t: Triple, pred: string)
    ensures LastIri([t], pred) == if t.pred == pred && t.obj.IriObject? then Some(t.obj.iri) else None
    ensures LastCount([t], pred) == if t.pred == pred then LiteralAsU32(t.obj) else None
  {
    hide LiteralAsU32;
    assert [t][..0] == [];
  }

  lemma TriplesConcat(subj: Subject, a: seq<(string, Object)>, b: seq<(string, Object)>)
    ensures Triples(Statement(subj, a + b)) == Triples(Statement(subj, a)) + Triples(Statement(subj, b))
  {
  }

  predicate Fits(c: Cardinality) { c.min <= U32_MAX && (c.max.Some? ==> c.max.value <= U32_MAX) }

  // What comes back for a property: its path names it, its description is gone, and JSON has become
  // plain text.
  function Returned(prop: PropertyType): PropertyType {
    PropertyType(LocalName(PathIri(prop)), if prop.datatyp.Json? then Str else prop.datatyp, prop.cardinality,
                 Some(PathIri(prop)), None)
  }

  lemma XsdStrip(name: string)
    ensures XsdLocal(XsdIri(name)) == name
  {
  }

  lemma DatatypeReturns(d: Datatype)
    ensures DatatypeFromXsd(XsdForDatatype(d)) == if d.Json? then Str else d
  {
    hide XsdLocal, XsdIri;
    match d {
      case Str => XsdStrip("string");
      case Json => XsdStrip("string");
      case Int =>
        XsdStrip("integer");
        assert |"integer"| != |"string"|;
      case Float =>
        XsdStrip("double");
        assert "double"[0] != "string"[0];
        assert |"double"| == 6;
      case Bool =>
        XsdStrip("boolean");
        BooleanApart();
      case DateTime =>
        XsdStrip("dateTime");
        assert |"dateTime"| == 8;
      case AnyUri =>
        XsdStrip("anyURI");
        assert "anyURI"[0] != "string"[0] && "anyURI"[0] != "double"[0] && |"anyURI"| == 6;
      case Bytes =>
        XsdStrip("base64Binary");
        assert |"base64Binary"| == 12;
    }
  }

  lemma BooleanApart()
    ensures |"boolean"| == 7 && "boolean"[0] != "integer"[0] && "boolean"[0] != "decimal"[0]
  {
  }

  // A count pair holds its count and no IRI.
  lemma CountPart(subj: Subject, name: string, n: nat, pred: string)
    requires n <= U32_MAX
    ensures var ts := Triples(Statement(subj, [(name, Count(n))]));
            LastIri(ts, pred) == None && LastCount(ts, pred) == if name == pred then Some(n) else None
  {
    hide LastIri, LastCount, ParseU32, Decimal;
    var ts := Triples(Statement(subj, [(name, Count(n))]));
    assert ts == [Triple(subj, name, Count(n))];
    LastSingle(ts[0], pred);
    DecimalReads(n);
  }

  lemma CountsPart(subj: Subject, c: Cardinality, pred: string)
    requires Fits(c)
    ensures var ts := Triples(Statement(subj, MinPairs(c) + MaxPairs(c)));
            && LastIri(ts, pred) == None
            && (pred == ShaclIri("minCount") ==> LastCount(ts, pred) == if c.min > 0 then Some(c.min) else None)
            && (pred == ShaclIri("maxCount") ==> LastCount(ts, pred) == c.max)
  {
    hide LastIri, LastCount, ShaclIri, Count;
    BlockPredicates();
    var mins, maxs := Triples(Statement(subj, MinPairs(c))), Triples(Statement(subj, MaxPairs(c)));
    TriplesConcat(subj, MinPairs(c), MaxPairs(c));
    LastConcat(mins, maxs, pred);
    if c.min > 0 {
      CountPart(subj, ShaclIri("minCount"), c.min, pred);
    } else {
      LastNone(mins, pred);
    }
    if c.max.Some? {
      CountPart(subj, ShaclIri("maxCount"), c.max.value, pred);
    } else {
      LastNone(maxs, pred);
    }
  }

  // The path and the counts of a block whose other pairs have other predicates.
  lemma PathPart(subj: Subject, path: string, c: Cardinality, more: seq<(string, Object)>, pred: string)
    requires Fits(c) && forall i | 0 <= i < |more| :: more[i].0 != pred
    ensures var ts := Triples(Statement(subj, PathPairs(path, c) + more));
            && (pred == ShaclIri("path") ==> LastIri(ts, pred) == Some(path))
            && (pred == ShaclIri("minCount") ==> LastCount(ts, pred) == if c.min > 0 then Some(c.min) else None)
            && (pred == ShaclIri("maxCount") ==> LastCount(ts, pred) == c.max)
  {
    hide LastIri, LastCount, ShaclIri, MinPairs, MaxPairs;
    BlockPredicates();
    var first := [(ShaclIri("path"), IriObject(path))];
    var counts := MinPairs(c) + MaxPairs(c);
    var one, middle, last := Triples(Statement(subj, first)), Triples(Statement(subj, counts)),
        Triples(Statement(subj, more));
    assert PathPairs(path, c) == first + counts;
    TriplesConcat(subj, first + counts, more);
    TriplesConcat(subj, first, counts);
    LastConcat(one + middle, last, pred);
    LastConcat(one, middle, pred);
    LastNone(last, pred);
    CountsPart(subj, c, pred);
    assert one == [Triple(subj, ShaclIri("path"), IriObject(path))];
    LastSingle(one[0], pred);
  }

  // A property block comes back as the property it was written for.
  lemma PropertyReturns(prop: PropertyType, name: string)
    requires Fits(prop.cardinality)
    ensures ParsedBlock(Triples(PropertyBlock(prop, name))) == Some(Returned(prop))
  {
    hide LastIri, LastCount, ShaclIri, PathPairs, DatatypeFromXsd, XsdForDatatype, LocalName, Triples;
    BlockPredicates();
    var more := [(ShaclIri("datatype"), IriObject(XsdForDatatype(prop.datatyp)))];
    var subj, path := BlankSubject(name), PathIri(prop);
    PathPart(subj, path, prop.cardinality, more, ShaclIri("path"));
    PathPart(subj, path, prop.cardinality, more, ShaclIri("minCount"));
    PathPart(subj, path, prop.cardinality, more, ShaclIri("maxCount"));
    DatatypePart(subj, PathPairs(path, prop.cardinality), XsdForDatatype(prop.datatyp));
    DatatypeReturns(prop.datatyp);
  }

  lemma DatatypePart(subj: Subject, before: seq<(string, Object)>, iri: string)
    ensures LastIri(Triples(Statement(subj, before + [(ShaclIri("datatype"), IriObject(iri))])), ShaclIri("datatype"))
            == Some(iri)
  {
    hide LastIri, ShaclIri;
    var last := [(ShaclIri("datatype"), IriObject(iri))];
    TriplesConcat(subj, before, last);
    var ts := Triples(Statement(subj, last));
    assert ts == [Triple(subj, ShaclIri("datatype"), IriObject(iri))];
    LastConcat(Triples(Statement(subj, before)), ts, ShaclIri("datatype"));
    LastSingle(ts[0], ShaclIri("datatype"));
  }

  // An edge block names no datatype, so it adds no property.
  lemma EdgeVanishes(types: seq<NodeType>, edge: EdgeType, name: string)
    ensures ParsedBlock(Triples(EdgeBlock(types, edge, name))) == None
  {
    hide LastIri, LastCount, ShaclIri, DatatypeFromXsd, LocalName, RangeIri, Decimal;
    BlockPredicates();
    EdgePredicates();
    LastNone(Triples(EdgeBlock(types, edge, name)), ShaclIri("datatype"));
  }

  lemma EdgePredicates()
    ensures ShaclIri("nodeKind") != ShaclIri("datatype") && ShaclIri("class") != ShaclIri("datatype")
  {
    assert "nodeKind"[0] == 'n' && "datatype"[0] == 'd' && "class"[0] == 'c';
    ShaclDiffer("nodeKind", "datatype");
    ShaclDiffer("class", "datatype");
  }

  // ----- What the writer puts down can be read -----

  predicate WordChar(c: char) { 'a' <= c <= 'z' || 'A' <= c <= 'Z' || '0' <= c <= '9' }

  predicate Word(s: string) { s != "" && forall i | 0 <= i < |s| :: WordChar(s[i]) }

  lemma WordFree(s: string)
    requires Word(s)
    ensures TRT.NameFree(s) && SimpleLocal(s)
  {
    forall c | c in s ensures WordChar(c) && !Turtle.Terminator(c) {
      var i :| 0 <= i < |s| && s[i] == c;
    }
  }

  lemma ShaclKept(name: string)
    requires Word(name)
    ensures TermKept(ShaclIri(name))
  {
    hide TRT.NameFree, SimpleLocal, Word;
    WordFree(name);
    assert ShaclIri(name)[|SH_URI|..] == name;
  }

  lemma XsdKept(name: string)
    requires Word(name)
    ensures TermKept(XsdIri(name))
  {
    hide TRT.NameFree, SimpleLocal, Word;
    WordFree(name);
    assert XsdIri(name)[|XSD_URI|..] == name;
    assert XsdIri(name)[18] == XSD_URI[18] == '2' && SH_URI[18] == 'n';
  }

  lemma DatatypeKept(d: Datatype)
    ensures TermKept(XsdForDatatype(d))
  {
    hide TermKept, XsdIri;
    match d {
      case Str => XsdKept("string");
      case Json => XsdKept("string");
      case Int => XsdKept("integer");
      case Float => XsdKept("double");
      case Bool => XsdKept("boolean");
      case DateTime => XsdKept("dateTime");
      case AnyUri => XsdKept("anyURI");
      case Bytes => XsdKept("base64Binary");
    }
  }

  lemma LabelFree(n: nat)
    ensures TRT.NameFree(Label(n))
  {
    DecimalValue(n);
    forall i | 0 <= i < |Label(n)| ensures WordChar(Label(n)[i]) {
      assert i > 0 ==> Label(n)[i] == Decimal(n)[i - 1] && Decimal(n)[i - 1] in Decimal(n);
    }
    WordFree(Label(n));
  }

  lemma CountPlain(n: nat)
    ensures ObjectPlain(Count(n))
  {
    hide TermKept, XsdIri;
    DecimalValue(n);
    XsdKept("integer");
  }

  predicate PropertyKept(prop: PropertyType) { TermKept(PathIri(prop)) && Fits(prop.cardinality) }

  predicate TypeKept(ty: NodeType) {
    && TermKept(TypeIri(ty)) && TermKept(ShapeIri(ty))
    && forall i | 0 <= i < |ty.properties| :: PropertyKept(ty.properties[i])
  }

  predicate EdgeKept(types: seq<NodeType>, edge: EdgeType) {
    TermKept(EdgeIri(edge)) && forall i | 0 <= i < |edge.range| :: TermKept(RangeIri(types, edge.range[i]))
  }

  predicate EdgesKept(types: seq<NodeType>, edges: seq<EdgeType>) {
    forall j | 0 <= j < |edges| :: EdgeKept(types, edges[j])
  }

  predicate PairsPlain(pairs: seq<(string, Object)>) { forall i | 0 <= i < |pairs| :: PairPlain(pairs[i]) }

  lemma PathPlain(path: string, c: Cardinality)
    requires TermKept(path)
    ensures PairsPlain(PathPairs(path, c))
  {
    hide TermKept, ShaclIri, Count;
    ShaclKept("path");
    ShaclKept("minCount");
    ShaclKept("maxCount");
    CountPlain(c.min);
    if c.max.Some? {
      CountPlain(c.max.value);
    }
  }

  lemma PropertyPlain(prop: PropertyType, n: nat)
    requires PropertyKept(prop)
    ensures StatementPlain(PropertyBlock(prop, Label(n)))
  {
    hide TermKept, ShaclIri, Label, PathPairs, XsdForDatatype, TRT.NameFree, PairPlain;
    PathPlain(PathIri(prop), prop.cardinality);
    LabelFree(n);
    DatatypePlain(prop.datatyp);
  }

  lemma DatatypePlain(d: Datatype)
    ensures PairPlain((ShaclIri("datatype"), IriObject(XsdForDatatype(d))))
  {
    hide TermKept, ShaclIri, XsdForDatatype;
    ShaclKept("datatype");
    DatatypeKept(d);
  }

  lemma EdgePlain(types: seq<NodeType>, edge: EdgeType, n: nat)
    requires EdgeKept(types, edge)
    ensures StatementPlain(EdgeBlock(types, edge, Label(n)))
  {
    hide TermKept, ShaclIri, Label, PathPairs, RangeIri, TRT.NameFree;
    PathPlain(EdgeIri(edge), edge.cardinality);
    LabelFree(n);
    ShaclKept("nodeKind");
    ShaclKept("IRI");
    ShaclKept("class");
  }

  lemma ShapePlain(edges: seq<EdgeType>, ty: NodeType, k: nat)
    requires TypeKept(ty)
    ensures StatementPlain(Shape(edges, ty, k))
  {
    hide TermKept, ShaclIri, Label, TypeIri, ShapeIri, TRT.NameFree, BlockCount;
    ShaclKept("NodeShape");
    ShaclKept("targetClass");
    ShaclKept("property");
    forall n: nat ensures TRT.NameFree(Label(n)) {
      LabelFree(n);
    }
  }

  // Everything that is printed can be read back.
  predicate Writable(types: seq<NodeType>, edges: seq<EdgeType>, rest: seq<NodeType>) {
    forall i | 0 <= i < |rest| :: TypeKept(rest[i]) && EdgesKept(types, Outgoing(edges, rest[i].name))
  }

  lemma {:induction false} StatementsPlain(types: seq<NodeType>, edges: seq<EdgeType>, rest: seq<NodeType>, k: nat)
    requires Writable(types, edges, rest)
    ensures AllPlain(Statements(types, edges, rest, k))
    decreases |rest|
  {
    hide TypeKept, EdgesKept, StatementPlain, Shape, Label;
    if rest != [] {
      var ty := rest[0];
      assert forall i | 0 <= i < |rest[1..]| :: rest[1..][i] == rest[i + 1];
      StatementsPlain(types, edges, rest[1..], k + BlockCount(edges, ty));
      ShapePlain(edges, ty, k);
      BlocksPlain(types, edges, ty, k);
      AllPlainSplit([Shape(edges, ty, k)], Blocks(types, edges, ty, k));
      AllPlainSplit([Shape(edges, ty, k)] + Blocks(types, edges, ty, k),
                    Statements(types, edges, rest[1..], k + BlockCount(edges, ty)));
    }
  }

  lemma BlocksPlain(types: seq<NodeType>, edges: seq<EdgeType>, ty: NodeType, k: nat)
    requires TypeKept(ty) && EdgesKept(types, Outgoing(edges, ty.name))
    ensures AllPlain(Blocks(types, edges, ty, k))
  {
    hide PropertyKept, EdgeKept, StatementPlain, Label, PropertyBlock, EdgeBlock, TypeIri, ShapeIri;
    var out := Outgoing(edges, ty.name);
    forall i | 0 <= i < |ty.properties| ensures StatementPlain(PropertyBlock(ty.properties[i], Label(k + i))) {
      PropertyPlain(ty.properties[i], k + i);
    }
    forall j | 0 <= j < |out| ensures StatementPlain(EdgeBlock(types, out[j], Label(k + |ty.properties| + j))) {
      EdgePlain(types, out[j], k + |ty.properties| + j);
    }
    AllPlainSplit(PropertyBlocks(ty.properties, k), EdgeBlocks(types, out, k + |ty.properties|));
  }

  // ----- The statements of a document -----

  lemma BlockSubject(types: seq<NodeType>, edges: seq<EdgeType>, ty: NodeType, k: nat, j: nat)
    requires j < BlockCount(edges, ty)
    ensures |Blocks(types, edges, ty, k)| == BlockCount(edges, ty)
    ensures Blocks(types, edges, ty, k)[j].subj == BlankSubject(Label(k + j))
  {
    hide Label, PropertyPairs, EdgePairs;
  }

  lemma LabelInjective(m: nat, n: nat)
    requires Label(m) == Label(n)
    ensures m == n
  {
    assert Label(m)[1..] == Decimal(m) && Label(n)[1..] == Decimal(n);
    DecimalInjective(m, n);
  }

  // Blank labels are numbered from `k` on; every other subject is the shape of one of the types.
  ghost predicate Numbered(sts: seq<Statement>, rest: seq<NodeType>, k: nat) {
    forall i | 0 <= i < |sts| ::
      || (exists n: nat | n >= k :: sts[i].subj == BlankSubject(Label(n)))
      || (exists t | 0 <= t < |rest| :: sts[i].subj == IriSubject(ShapeIri(rest[t])))
  }

  ghost predicate DistinctShapes(types: seq<NodeType>) {
    forall i, j | 0 <= i < j < |types| :: ShapeIri(types[i]) != ShapeIri(types[j])
  }

  // The statements of one type.
  function Own(types: seq<NodeType>, edges: seq<EdgeType>, ty: NodeType, k: nat): seq<Statement> {
    [Shape(edges, ty, k)] + Blocks(types, edges, ty, k)
  }

  lemma OwnSubject(types: seq<NodeType>, edges: seq<EdgeType>, ty: NodeType, k: nat, i: nat)
    requires i < |Own(types, edges, ty, k)|
    ensures |Own(types, edges, ty, k)| == 1 + BlockCount(edges, ty)
    ensures Own(types, edges, ty, k)[i].subj
            == if i == 0 then IriSubject(ShapeIri(ty)) else BlankSubject(Label(k + i - 1))
  {
    hide Label, Blocks, ShapePairs, ShapeIri, BlockCount;
    BlocksLength(types, edges, ty, k);
    if i > 0 {
      BlockSubject(types, edges, ty, k, i - 1);
    }
  }

  lemma BlocksLength(types: seq<NodeType>, edges: seq<EdgeType>, ty: NodeType, k: nat)
    ensures |Blocks(types, edges, ty, k)| == BlockCount(edges, ty)
  {
  }

  lemma {:induction false} StatementsNumbered(types: seq<NodeType>, edges: seq<EdgeType>, rest: seq<NodeType>, k: nat)
    ensures Numbered(Statements(types, edges, rest, k), rest, k)
    decreases |rest|
  {
    hide Label, Shape, Blocks, ShapeIri, BlockCount;
    if rest != [] {
      var next := k + BlockCount(edges, rest[0]);
      var own, later := Own(types, edges, rest[0], k), Statements(types, edges, rest[1..], next);
      StatementsNumbered(types, edges, rest[1..], next);
      var all := Statements(types, edges, rest, k);
      assert all == own + later;
      forall i | 0 <= i < |all|
        ensures || (exists n: nat | n >= k :: all[i].subj == BlankSubject(Label(n)))
                || (exists t | 0 <= t < |rest| :: all[i].subj == IriSubject(ShapeIri(rest[t])))
      {
        if i < |own| {
          OwnSubject(types, edges, rest[0], k, i);
          assert all[i] == own[i];
          assert i > 0 ==> k + i - 1 >= k;
        } else {
          LaterSubject(later, rest, next, i - |own|);
          assert all[i] == later[i - |own|];
        }
      }
    }
  }

  lemma LaterSubject(later: seq<Statement>, rest: seq<NodeType>, k: nat, i: nat)
    requires rest != [] && Numbered(later, rest[1..], k) && i < |later|
    ensures || (exists n: nat | n >= k :: later[i].subj == BlankSubject(Label(n)))
            || (exists t | 1 <= t < |rest| :: later[i].subj == IriSubject(ShapeIri(rest[t])))
  {
    hide Label, ShapeIri;
    var tail := rest[1..];
    assert || (exists n: nat | n >= k :: later[i].subj == BlankSubject(Label(n)))
           || (exists t | 0 <= t < |tail| :: later[i].subj == IriSubject(ShapeIri(tail[t])));
    if t :| 0 <= t < |tail| && later[i].subj == IriSubject(ShapeIri(tail[t])) {
      assert tail[t] == rest[t + 1];
    }
  }

  lemma {:induction false} StatementsDistinct(types: seq<NodeType>, edges: seq<EdgeType>, rest: seq<NodeType>, k: nat)
    requires DistinctShapes(rest)
    ensures DistinctSubjects(Statements(types, edges, rest, k))
    decreases |rest|
  {
    hide Label, Shape, Blocks, ShapeIri, BlockCount;
    if rest != [] {
      var next := k + BlockCount(edges, rest[0]);
      var own, later := Own(types, edges, rest[0], k), Statements(types, edges, rest[1..], next);
      assert forall i | 0 <= i < |rest[1..]| :: rest[1..][i] == rest[i + 1];
      StatementsDistinct(types, edges, rest[1..], next);
      StatementsNumbered(types, edges, rest[1..], next);
      OwnDistinct(types, edges, rest[0], k);
      forall i, j | 0 <= i < |own| && 0 <= j < |later| ensures own[i].subj != later[j].subj {
        OwnApart(types, edges, rest, k, i, j);
      }
      JoinDistinct(own, later);
    }
  }

  lemma JoinDistinct(a: seq<Statement>, b: seq<Statement>)
    requires DistinctSubjects(a) && DistinctSubjects(b)
    requires forall i, j | 0 <= i < |a| && 0 <= j < |b| :: a[i].subj != b[j].subj
    ensures DistinctSubjects(a + b)
  {
    var all := a + b;
    forall i, j | 0 <= i < j < |all| ensures all[i].subj != all[j].subj {
      assert j >= |a| ==> all[j] == b[j - |a|];
      assert i >= |a| ==> all[i] == b[i - |a|];
    }
  }

  lemma OwnDistinct(types: seq<NodeType>, edges: seq<EdgeType>, ty: NodeType, k: nat)
    ensures DistinctSubjects(Own(types, edges, ty, k))
  {
    hide Label, Own, ShapeIri;
    var own := Own(types, edges, ty, k);
    forall i, j | 0 <= i < j < |own| ensures own[i].subj != own[j].subj {
      OwnSubject(types, edges, ty, k, i);
      OwnSubject(types, edges, ty, k, j);
      if i > 0 && Label(k + i - 1) == Label(k + j - 1) {
        LabelInjective(k + i - 1, k + j - 1);
      }
    }
  }

  lemma OwnApart(types: seq<NodeType>, edges: seq<EdgeType>, rest: seq<NodeType>, k: nat, i: nat, j: nat)
    requires rest != [] && DistinctShapes(rest) && i < |Own(types, edges, rest[0], k)|
    requires var next := k + BlockCount(edges, rest[0]);
             var later := Statements(types, edges, rest[1..], next);
             j < |later| && Numbered(later, rest[1..], next)
    ensures Own(types, edges, rest[0], k)[i].subj
            != Statements(types, edges, rest[1..], k + BlockCount(edges, rest[0]))[j].subj
  {
    hide Label, Own, ShapeIri, BlockCount, Statements;
    var next := k + BlockCount(edges, rest[0]);
    var later := Statements(types, edges, rest[1..], next);
    OwnSubject(types, edges, rest[0], k, i);
    LaterSubject(later, rest, next, j);
    if i > 0 {
      if n: nat :| n >= next && later[j].subj == BlankSubject(Label(n)) && Label(n) == Label(k + i - 1) {
        LabelInjective(n, k + i - 1);
      }
    }
  }
}
