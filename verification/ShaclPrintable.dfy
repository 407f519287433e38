// Exactly which IRIs survive the document: no reading of Turtle can yield an IRI with a closing angle
// bracket outside the namespaces of the header.

module ShaclPrintable {
  import opened Wrappers
  import opened Rdf
  import opened SchemaTypes
  import opened ShaclCompile
  import opened ShaclParse
  import opened ShaclReading
  import opened ShaclRoundTrip
  import opened ShaclTheorem
  import opened Turtle
  import TRT = TurtleRoundTrip
  import SC = ShaclCompile

  // ----- What a reading can yield -----

  // Some reading under these bindings can yield the IRI.
  ghost predicate Readable(m: Bindings, iri: string) {
    '>' !in iri || exists p | p in m :: m[p] <= iri
  }

  ghost predicate ReadableTerm(m: Bindings, t: Term) { t.IriTerm? ==> Readable(m, t.iri) }

  ghost predicate ReadableTriples(m: Bindings, ts: seq<Triple>) {
    forall i | 0 <= i < |ts| && ts[i].obj.IriObject? :: Readable(m, ts[i].obj.iri)
  }

  lemma TermReadable(m: Bindings, s: string)
    ensures ReadTerm(m, s).Ok? ==> ReadableTerm(m, ReadTerm(m, s).value.0)
  {
    hide Terminator;
    if Starts(s, '<') {
      var close := Find(s, IsClose);
      assert forall i | 0 <= i < close :: !IsClose(s[i]);
      assert '>' !in s[1..if close == 0 then 1 else close];
    } else if !StartsTwo(s, '_', ':') {
      var n := Find(s, Terminator);
      var colon := Find(s[..n], IsColon);
      if colon < n && s[..colon] in m {
        assert m[s[..colon]] <= m[s[..colon]] + s[..n][colon + 1..];
      }
    }
  }

  lemma ObjectReadable(m: Bindings, s: string)
    ensures ReadObject(m, s).Ok? ==> ReadableTerm(m, ReadObject(m, s).value.0)
  {
    hide ReadTerm, ReadLexical, Readable;
    TermReadable(m, s);
  }

  lemma JoinReadable(m: Bindings, a: seq<Triple>, b: seq<Triple>)
    requires ReadableTriples(m, a) && ReadableTriples(m, b)
    ensures ReadableTriples(m, a + b)
  {
    hide Readable;
  }

  lemma {:induction false} ObjectsReadable(m: Bindings, subj: Subject, pred: string, s: string)
    ensures ReadObjects(m, subj, pred, s).Ok? ==> ReadableTriples(m, ReadObjects(m, subj, pred, s).value.0)
    decreases |s|
  {
    hide ReadObject, SkipBlank, Readable, ReadObjects;
    ObjectsUnfold(m, subj, pred, s);
    var o := ReadObject(m, SkipBlank(s));
    ObjectReadable(m, SkipBlank(s));
    if o.Ok? {
      var t := Triple(subj, pred, TermObject(o.value.0));
      assert ReadableTriples(m, [t]);
      var rest := SkipBlank(o.value.1);
      if Starts(rest, ',') {
        ObjectsReadable(m, subj, pred, rest[1..]);
        if ReadObjects(m, subj, pred, rest[1..]).Ok? {
          JoinReadable(m, [t], ReadObjects(m, subj, pred, rest[1..]).value.0);
        }
      }
    }
  }

  lemma GroupReadable(m: Bindings, subj: Subject, s: string)
    ensures ReadGroup(m, subj, s).Ok? ==> ReadableTriples(m, ReadGroup(m, subj, s).value.0)
  {
    hide ReadPredicate, ReadObjects, SkipBlank, ReadableTriples;
    var p := ReadPredicate(m, SkipBlank(s));
    if p.Ok? {
      ObjectsReadable(m, subj, p.value.0, p.value.1);
    }
  }

  lemma {:induction false} PredicatesReadable(m: Bindings, subj: Subject, s: string)
    ensures ReadPredicates(m, subj, s).Ok? ==> ReadableTriples(m, ReadPredicates(m, subj, s).value.0)
    decreases |s|
  {
    hide ReadGroup, ReadEnding, ReadableTriples, ReadPredicates;
    PredicatesUnfold(m, subj, s);
    GroupReadable(m, subj, s);
    var os := ReadGroup(m, subj, s);
    if os.Ok? {
      var ending := ReadEnding(os.value.1);
      if ending.Semicolon? {
        PredicatesReadable(m, subj, ending.rest);
        if ReadPredicates(m, subj, ending.rest).Ok? {
          JoinReadable(m, os.value.0, ReadPredicates(m, subj, ending.rest).value.0);
        }
      }
    }
  }

  lemma StatementReadable(m: Bindings, s: string)
    ensures ReadStatement(m, s).Ok? ==> ReadableTriples(m, ReadStatement(m, s).value.0)
  {
    hide ReadSubject, ReadPredicates, ReadableTriples;
    var subj := ReadSubject(m, s);
    if subj.Ok? {
      PredicatesReadable(m, subj.value.0, subj.value.1);
    }
  }

  lemma {:induction false} AllReadable(m: Bindings, s: string)
    ensures ReadAll(m, s).Ok? ==> ReadableTriples(m, ReadAll(m, s).value)
    decreases |s|
  {
    hide ReadStatement, SkipBlank, Readable, ReadAll;
    AllUnfold(m, s);
    var start := SkipBlank(s);
    if start != [] {
      StatementReadable(m, start);
      var x := ReadStatement(m, start);
      if x.Ok? {
        AllReadable(m, x.value.1);
        if ReadAll(m, x.value.1).Ok? {
          JoinReadable(m, x.value.0, ReadAll(m, x.value.1).value);
        }
      }
    }
  }

  // Outside the two namespaces the document compacts, an IRI is readable only without a bracket.
  predicate Outside(iri: string) { !(SH_URI <= iri) && !(XSD_URI <= iri) }

  lemma DocumentReadable(types: seq<NodeType>, edges: seq<EdgeType>, i: nat)
    requires Turtle.ParsedDocument(SC.DocumentText(types, edges)).Ok?
    requires i < |Turtle.ParsedDocument(SC.DocumentText(types, edges)).value|
    ensures var o := Turtle.ParsedDocument(SC.DocumentText(types, edges)).value[i].obj;
            o.IriObject? && Outside(o.iri) ==> '>' !in o.iri
  {
    hide ReadAll, ReadDirectives, SC.DocumentText;
    HeaderBinds(types, edges);
    var m := TRT.Bound(map[], [SH, XSD]);
    var d := ReadDirectives(map[], SC.DocumentText(types, edges));
    AllReadable(d.value.0, d.value.1);
    BoundValues();
  }

  lemma BoundValues()
    ensures var m := TRT.Bound(map[], [SH, XSD]);
            forall p | p in m :: m[p] == SH_URI || m[p] == XSD_URI
  {
    assert [SH, XSD][1..] == [XSD] && [XSD][1..] == [];
    var one := map["sh" := SH_URI];
    assert TRT.Bound(one["xsd" := XSD_URI], []) == one["xsd" := XSD_URI];
    assert TRT.Bound(one, [XSD]) == one["xsd" := XSD_URI];
  }

  // ----- What a table can hold -----

  ghost predicate FreeObjects(all: seq<Triple>) {
    forall i | 0 <= i < |all| && all[i].obj.IriObject? && Outside(all[i].obj.iri) :: '>' !in all[i].obj.iri
  }

  lemma {:induction false} GroupFree(all: seq<Triple>, s: Subject)
    requires FreeObjects(all)
    ensures FreeObjects(Group(all, s))
    decreases |all|
  {
    hide Outside;
    if all != [] {
      var init := all[..|all| - 1];
      assert forall i | 0 <= i < |init| :: init[i] == all[i];
      GroupFree(init, s);
    }
  }

  lemma {:induction false} TargetFree(ts: seq<Triple>)
    requires FreeObjects(ts)
    ensures TargetOf(ts).Some? && Outside(TargetOf(ts).value) ==> '>' !in TargetOf(ts).value
    decreases |ts|
  {
    hide Outside, ShaclIri;
    if ts != [] {
      assert forall i | 0 <= i < |ts[1..]| :: ts[1..][i] == ts[i + 1];
      TargetFree(ts[1..]);
    }
  }

  lemma {:induction false} LastFree(ts: seq<Triple>, pred: string)
    requires FreeObjects(ts)
    ensures LastIri(ts, pred).Some? && Outside(LastIri(ts, pred).value) ==> '>' !in LastIri(ts, pred).value
    decreases |ts|
  {
    hide Outside;
    if ts != [] {
      var init := ts[..|ts| - 1];
      assert forall i | 0 <= i < |init| :: init[i] == ts[i];
      LastFree(init, pred);
    }
  }

  ghost predicate FreeProperty(p: PropertyType) { p.iri.Some? && Outside(p.iri.value) ==> '>' !in p.iri.value }

  lemma {:induction false} PropertiesFree(all: seq<Triple>, ts: seq<Triple>)
    requires FreeObjects(all)
    ensures forall i | 0 <= i < |PropertiesOf(all, ts)| :: FreeProperty(PropertiesOf(all, ts)[i])
    decreases |ts|
  {
    hide Outside, PropertyOf, FreeObjects, FreeProperty;
    if ts != [] {
      PropertiesFree(all, ts[..|ts| - 1]);
      PropertyFree(all, ts[|ts| - 1]);
    }
  }

  lemma PropertyFree(all: seq<Triple>, t: Triple)
    requires FreeObjects(all)
    ensures PropertyOf(all, t).Some? ==> FreeProperty(PropertyOf(all, t).value)
  {
    hide Outside, FreeObjects, Group, LastIri, LastCount, DatatypeFromXsd, ShaclIri;
    if PropertyOf(all, t).Some? {
      var s := BlockKey(t.obj).value;
      GroupFree(all, s);
      LastFree(Group(all, s), ShaclIri("path"));
    }
  }

  ghost predicate FreeType(ty: NodeType) {
    && (ty.iri.Some? && Outside(ty.iri.value) ==> '>' !in ty.iri.value)
    && forall i | 0 <= i < |ty.properties| :: FreeProperty(ty.properties[i])
  }

  lemma ShapeFree(all: seq<Triple>, s: Subject)
    requires FreeObjects(all)
    ensures ShapeType(all, s).Some? ==> FreeType(ShapeType(all, s).value)
  {
    hide Outside, FreeObjects, Group, TargetOf, PropertiesOf, FreeProperty;
    GroupFree(all, s);
    TargetFree(Group(all, s));
    PropertiesFree(all, Group(all, s));
  }

  // ----- The theorem -----

  // What reading the document returns.
  ghost predicate Returns(types: seq<NodeType>, edges: seq<EdgeType>, r: Result<map<string, NodeType>, ShaclError>) {
    match Turtle.ParsedDocument(SC.DocumentText(types, edges))
    case Ok(ts) => Built(ts, r)
    case Err(e) => r == Err(Adapter(e))
  }

  // Every class and property IRI can be read back.
  ghost predicate Printable(types: seq<NodeType>) {
    forall t | 0 <= t < |types| ::
      && TermKept(TypeIri(types[t]))
      && forall i | 0 <= i < |types[t].properties| :: TermKept(PathIri(types[t].properties[i]))
  }

  // The IRI lies outside the abbreviated namespaces, or can be read back.
  ghost predicate Settled(iri: string) { Outside(iri) || TermKept(iri) }

  ghost predicate AllSettled(types: seq<NodeType>) {
    forall t | 0 <= t < |types| ::
      && Settled(TypeIri(types[t]))
      && forall i | 0 <= i < |types[t].properties| :: Settled(PathIri(types[t].properties[i]))
  }

  // Counts fit, and edge IRIs can be read back.
  ghost predicate RestKept(types: seq<NodeType>, edges: seq<EdgeType>) {
    AllFit(types) && forall t | 0 <= t < |types| :: EdgesKept(types, Outgoing(edges, types[t].name))
  }

  lemma ShapeOutside(iri: string)
    requires Outside(iri)
    ensures Outside(iri + "Shape")
  {
    assert SH_URI[|SH_URI| - 1] == '#' && XSD_URI[|XSD_URI| - 1] == '#';
    StaysOutside(SH_URI, iri);
    StaysOutside(XSD_URI, iri);
  }

  lemma StaysOutside(base: string, iri: string)
    requires base != "" && base[|base| - 1] == '#' && !(base <= iri)
    ensures !(base <= iri + "Shape")
  {
    var s := iri + "Shape";
    if |base| <= |iri| {
      assert s[..|base|] == iri[..|base|];
    } else if |base| <= |s| {
      assert s[|base| - 1] == "Shape"[|base| - 1 - |iri|];
    }
  }

  lemma OutsideKept(iri: string)
    requires Outside(iri)
    ensures TermKept(iri) <==> '>' !in iri
  {
  }

  lemma NamespacesApart(iri: string)
    ensures !(SH_URI <= iri && XSD_URI <= iri)
  {
    if SH_URI <= iri {
      assert iri[11] == SH_URI[11] == 'w' && iri[18] == SH_URI[18] == 'n';
      assert XSD_URI[18] == '2';
    }
  }

  // The shape of a class whose IRI can be read back can be read back.
  lemma ShapeKept(iri: string)
    requires TermKept(iri)
    ensures TermKept(iri + "Shape")
  {
    var s := iri + "Shape";
    NamespacesApart(iri);
    NamespacesApart(s);
    if SH_URI <= iri {
      LocalShape(iri, SH_URI);
    } else if XSD_URI <= iri {
      LocalShape(iri, XSD_URI);
    } else {
      ShapeOutside(iri);
      OutsideKept(s);
    }
  }

  lemma LocalShape(iri: string, base: string)
    requires base <= iri
    requires if SimpleLocal(iri[|base|..]) then TRT.NameFree(iri[|base|..]) else '>' !in iri
    ensures var s := iri + "Shape";
            base <= s && if SimpleLocal(s[|base|..]) then TRT.NameFree(s[|base|..]) else '>' !in s
  {
    var local := iri[|base|..];
    var s := iri + "Shape";
    assert s[|base|..] == local + "Shape";
    assert forall c | c in "Shape" :: !Terminator(c) && c != '>';
    assert forall c | c in local :: c in local + "Shape";
    assert local != [] && SimpleLocal(local + "Shape") ==> SimpleLocal(local);
  }

  lemma PrintableWritable(types: seq<NodeType>, edges: seq<EdgeType>)
    requires Printable(types) && RestKept(types, edges)
    ensures Writable(types, edges, types)
  {
    hide TermKept, EdgesKept, TypeIri, PathIri, Fits;
    forall t | 0 <= t < |types| ensures TypeKept(types[t]) {
      ShapeKept(TypeIri(types[t]));
    }
  }

  lemma ReturnedPrintable(types: seq<NodeType>, edges: seq<EdgeType>, r: Result<map<string, NodeType>, ShaclError>)
    requires Returns(types, edges, r) && AllSettled(types) && r.Ok? && ReturnedTable(types, r.value)
    ensures Printable(types)
  {
    hide SC.DocumentText, Turtle.ParsedDocument, Outside, TypeIri, PathIri, ShapeType, ReturnedType, FreeType;
    hide ShapeSubjects, TermKept;
    var all := Turtle.ParsedDocument(SC.DocumentText(types, edges)).value;
    assert FreeObjects(all) by {
      forall i | 0 <= i < |all| && all[i].obj.IriObject? && Outside(all[i].obj.iri) ensures '>' !in all[i].obj.iri {
        DocumentReadable(types, edges, i);
      }
    }
    forall t | 0 <= t < |types|
      ensures TermKept(TypeIri(types[t]))
      ensures forall i | 0 <= i < |types[t].properties| :: TermKept(PathIri(types[t].properties[i]))
    {
      var back := ReturnedType(types[t]);
      var s :| s in ShapeSubjects(all) && ShapeType(all, s) == Some(r.value[back.name]);
      ShapeFree(all, s);
      FreeReturned(types[t]);
    }
  }

  lemma FreeReturned(ty: NodeType)
    requires FreeType(ReturnedType(ty)) && Settled(TypeIri(ty))
    requires forall i | 0 <= i < |ty.properties| :: Settled(PathIri(ty.properties[i]))
    ensures TermKept(TypeIri(ty)) && forall i | 0 <= i < |ty.properties| :: TermKept(PathIri(ty.properties[i]))
  {
    hide Outside, TypeIri, PathIri, TermKept;
    var back := ReturnedType(ty);
    SettledFree(TypeIri(ty));
    forall i | 0 <= i < |ty.properties| ensures TermKept(PathIri(ty.properties[i])) {
      assert FreeProperty(back.properties[i]) && back.properties[i] == Returned(ty.properties[i]);
      SettledFree(PathIri(ty.properties[i]));
    }
  }

  lemma SettledFree(iri: string)
    requires Settled(iri) && (Outside(iri) ==> '>' !in iri)
    ensures TermKept(iri)
  {
    hide TermKept, Outside;
    if Outside(iri) {
      OutsideKept(iri);
    }
  }

  // Compiling and reading back returns the type table of the schema, exactly when every class and
  // property IRI can be read back, which outside the abbreviated namespaces means that it holds no
  // closing angle bracket.
  lemma SchemaReturnsExactly(types: seq<NodeType>, edges: seq<EdgeType>, r: Result<map<string, NodeType>, ShaclError>)
    requires Returns(types, edges, r) && DistinctNames(types) && AllSettled(types) && RestKept(types, edges)
    ensures r.Ok? && ReturnedTable(types, r.value) <==> Printable(types)
  {
    hide SC.DocumentText, Turtle.ParsedDocument, ReturnedTable, Writable, Built, AllSettled, RestKept, Printable;
    hide DistinctNames;
    if Printable(types) {
      PrintableWritable(types, edges);
      SchemaReturns(types, edges, r);
    }
    if r.Ok? && ReturnedTable(types, r.value) {
      ReturnedPrintable(types, edges, r);
    }
  }
}
