// The schema that SHACL triples mean, read off the triples themselves.

module ShaclMeaning {
  import opened Wrappers
  import opened LocalNames
  import opened Numerals
  import opened Rdf
  import opened SchemaTypes
  import opened ShaclParse
  import opened ShaclGraph
  import ShaclCompile

  // ----- What the triples mean -----

  predicate IsIriOf(t: Triple, s: Subject, pred: string) {
    t.subj == s && t.pred == pred && t.obj.IriObject?
  }

  // The first IRI that the subject has under the predicate.
  ghost predicate FirstIri(all: seq<Triple>, s: Subject, pred: string, iri: string) {
    exists i | 0 <= i < |all| :: all[i] == Triple(s, pred, IriObject(iri))
                                 && forall j | 0 <= j < i :: !IsIriOf(all[j], s, pred)
  }

  // The last one.
  ghost predicate FinalIri(all: seq<Triple>, s: Subject, pred: string, iri: string) {
    exists i | 0 <= i < |all| :: all[i] == Triple(s, pred, IriObject(iri))
                                 && forall j | i < j < |all| :: !IsIriOf(all[j], s, pred)
  }

  predicate NoIri(all: seq<Triple>, s: Subject, pred: string) {
    forall j | 0 <= j < |all| :: !IsIriOf(all[j], s, pred)
  }

  // A literal whose text is a numeral of `n` within 32 bits, whatever its datatype.
  ghost predicate IsCountOf(t: Triple, s: Subject, pred: string, n: nat) {
    t.subj == s && t.pred == pred && t.obj.Literal? && n <= 4294967295 && IsNumeral(t.obj.lexical, n)
  }

  ghost predicate FinalCount(all: seq<Triple>, s: Subject, pred: string, n: nat) {
    exists i | 0 <= i < |all| :: IsCountOf(all[i], s, pred, n)
                                 && forall j, m | i < j < |all| :: !IsCountOf(all[j], s, pred, m)
  }

  ghost predicate NoCount(all: seq<Triple>, s: Subject, pred: string) {
    forall j, m | 0 <= j < |all| :: !IsCountOf(all[j], s, pred, m)
  }

  // The name is what follows the last of the characters `#`, `/` and `:`.
  ghost predicate LastSegment(iri: string, name: string) {
    && '#' !in name && '/' !in name && ':' !in name
    && (iri == name || exists before, c | c in "#/:" :: iri == before + ([c] + name))
  }

  // The text after the namespace of XML Schema, or the whole IRI outside it.
  ghost predicate XsdName(iri: string, local: string) {
    if "http://www.w3.org/2001/XMLSchema#" <= iri then iri == "http://www.w3.org/2001/XMLSchema#" + local
    else iri == local
  }

  ghost predicate DatatypeMeant(iri: string, d: Datatype) {
    exists local :: XsdName(iri, local) && LocalMeans(local, d)
  }

  predicate LocalMeans(local: string, d: Datatype) {
    match d
    case Int => local in ["integer", "int", "long", "short", "byte", "nonNegativeInteger", "positiveInteger",
                          "negativeInteger", "nonPositiveInteger"]
    case Float => local in ["double", "float", "decimal"]
    case Bool => local == "boolean"
    case DateTime => local in ["dateTime", "date"]
    case AnyUri => local == "anyURI"
    case Bytes => local in ["base64Binary", "hexBinary"]
    case Str => local !in ["integer", "int", "long", "short", "byte", "nonNegativeInteger", "positiveInteger",
                           "negativeInteger", "nonPositiveInteger", "double", "float", "decimal", "boolean",
                           "dateTime", "date", "anyURI", "base64Binary", "hexBinary"]
    case Json => false
  }

  // The block of `b` is that of the property: its last path and datatype, and its last counts.
  ghost predicate PropertyMeant(all: seq<Triple>, b: Subject, prop: PropertyType) {
    && prop.iri.Some? && FinalIri(all, b, Sh("path"), prop.iri.value) && LastSegment(prop.iri.value, prop.name)
    && (exists d :: FinalIri(all, b, Sh("datatype"), d) && DatatypeMeant(d, prop.datatyp))
    && (FinalCount(all, b, Sh("minCount"), prop.cardinality.min)
        || (NoCount(all, b, Sh("minCount")) && prop.cardinality.min == 0))
    && (match prop.cardinality.max
        case Some(n) => FinalCount(all, b, Sh("maxCount"), n)
        case None => NoCount(all, b, Sh("maxCount")))
    && prop.description == None
  }

  predicate RefersTo(t: Triple, s: Subject, b: Subject) {
    && t.subj == s && t.pred == Sh("property")
    && match b
       case IriSubject(iri) => t.obj == IriObject(iri)
       case BlankSubject(name) => t.obj == BlankObject(name)
  }

  ghost predicate Contributes(all: seq<Triple>, s: Subject, t: Triple, prop: PropertyType) {
    exists b :: RefersTo(t, s, b) && PropertyMeant(all, b, prop)
  }

  ghost predicate ContributesSome(all: seq<Triple>, s: Subject, t: Triple) {
    exists prop :: Contributes(all, s, t, prop)
  }

  // The properties that the references of some of the triples contribute, in their order.
  ghost predicate PropertiesMeant(all: seq<Triple>, s: Subject, refs: seq<Triple>, props: seq<PropertyType>)
    decreases |refs|
  {
    if refs == [] then props == []
    else
      var before, t := refs[..|refs| - 1], refs[|refs| - 1];
      if ContributesSome(all, s, t) then
        && props != [] && Contributes(all, s, t, props[|props| - 1])
        && PropertiesMeant(all, s, before, props[..|props| - 1])
      else PropertiesMeant(all, s, before, props)
  }

  // The shape `s` is that of the type: its first target class, and the properties it refers to.
  ghost predicate TypeMeant(all: seq<Triple>, s: Subject, ty: NodeType) {
    && ty.iri.Some? && FirstIri(all, s, Sh("targetClass"), ty.iri.value) && LastSegment(ty.iri.value, ty.name)
    && PropertiesMeant(all, s, all, ty.properties) && ty.supertypes == [] && ty.description == None
  }

  ghost predicate IsShape(all: seq<Triple>, s: Subject) {
    Triple(s, "http://www.w3.org/1999/02/22-rdf-syntax-ns#type", IriObject(Sh("NodeShape"))) in all
  }

  // ----- One subject -----

  lemma GroupSnoc(all: seq<Triple>, s: Subject)
    requires all != []
    ensures var t := all[|all| - 1];
            Group(all, s) == Group(all[..|all| - 1], s) + if t.subj == s then [t] else []
  {
  }

  lemma FinalIriSnoc(all: seq<Triple>, s: Subject, pred: string, iri: string)
    requires all != []
    ensures FinalIri(all, s, pred, iri)
            <==> if IsIriOf(all[|all| - 1], s, pred) then all[|all| - 1].obj.iri == iri
                 else FinalIri(all[..|all| - 1], s, pred, iri)
  {
    var init, n := all[..|all| - 1], |all| - 1;
    assert forall i | 0 <= i < n :: init[i] == all[i];
    if IsIriOf(all[n], s, pred) && all[n].obj.iri == iri {
      assert all[n] == Triple(s, pred, IriObject(iri));
    }
    if i :| 0 <= i < n && init[i] == Triple(s, pred, IriObject(iri))
            && forall j | i < j < n :: !IsIriOf(init[j], s, pred) {
      assert all[i] == Triple(s, pred, IriObject(iri));
    }
  }

  lemma LastIriSnoc(ts: seq<Triple>, t: Triple, pred: string)
    ensures LastIri(ts + [t], pred) == if t.pred == pred && t.obj.IriObject? then Some(t.obj.iri) else LastIri(ts, pred)
  {
    assert (ts + [t])[..|ts|] == ts;
  }

  lemma NothingFound(s: Subject, pred: string, iri: string, n: nat)
    ensures Group([], s) == []
    ensures LastIri([], pred) == None && !FinalIri([], s, pred, iri)
    ensures LastCount([], pred) == None && !FinalCount([], s, pred, n)
    ensures TargetOf([]) == None && !FirstIri([], s, pred, iri)
  {
  }

  lemma {:induction false} LastIriIs(all: seq<Triple>, s: Subject, pred: string, iri: string)
    ensures LastIri(Group(all, s), pred) == Some(iri) <==> FinalIri(all, s, pred, iri)
    decreases |all|
  {
    hide LastIri, Group, FinalIri;
    if all == [] {
      NothingFound(s, pred, iri, 0);
    } else {
      var init, t := all[..|all| - 1], all[|all| - 1];
      LastIriIs(init, s, pred, iri);
      GroupSnoc(all, s);
      FinalIriSnoc(all, s, pred, iri);
      LastIriSnoc(Group(init, s), t, pred);
      assert Group(init, s) + [] == Group(init, s);
    }
  }

  lemma FinalCountSnoc(all: seq<Triple>, s: Subject, pred: string, n: nat)
    requires all != []
    ensures FinalCount(all, s, pred, n)
            <==> || IsCountOf(all[|all| - 1], s, pred, n)
                 || (NoCount([all[|all| - 1]], s, pred) && FinalCount(all[..|all| - 1], s, pred, n))
  {
    hide IsCountOf, FinalCount;
    var init, t := all[..|all| - 1], all[|all| - 1];
    if FinalCount(all, s, pred, n) && !IsCountOf(t, s, pred, n) {
      FinalCountBefore(all, s, pred, n);
    }
    if IsCountOf(t, s, pred, n) {
      CountedLast(all, s, pred, n);
    }
    if NoCount([t], s, pred) && FinalCount(init, s, pred, n) {
      FinalCountAfter(all, s, pred, n);
    }
  }

  lemma CountedLast(all: seq<Triple>, s: Subject, pred: string, n: nat)
    requires all != [] && IsCountOf(all[|all| - 1], s, pred, n)
    ensures FinalCount(all, s, pred, n)
  {
    hide IsCountOf;
  }

  lemma FinalCountBefore(all: seq<Triple>, s: Subject, pred: string, n: nat)
    requires all != [] && FinalCount(all, s, pred, n) && !IsCountOf(all[|all| - 1], s, pred, n)
    ensures NoCount([all[|all| - 1]], s, pred) && FinalCount(all[..|all| - 1], s, pred, n)
  {
    hide IsCountOf;
    var init, last := all[..|all| - 1], |all| - 1;
    assert forall i | 0 <= i < last :: init[i] == all[i];
    var i :| 0 <= i < |all| && IsCountOf(all[i], s, pred, n)
             && forall j, m | i < j < |all| :: !IsCountOf(all[j], s, pred, m);
    assert IsCountOf(init[i], s, pred, n);
  }

  lemma FinalCountAfter(all: seq<Triple>, s: Subject, pred: string, n: nat)
    requires all != [] && NoCount([all[|all| - 1]], s, pred) && FinalCount(all[..|all| - 1], s, pred, n)
    ensures FinalCount(all, s, pred, n)
  {
    hide IsCountOf;
    var init, last := all[..|all| - 1], |all| - 1;
    assert forall i | 0 <= i < last :: init[i] == all[i];
    assert [all[last]][0] == all[last];
    var i :| 0 <= i < last && IsCountOf(init[i], s, pred, n)
             && forall j, m | i < j < last :: !IsCountOf(init[j], s, pred, m);
    assert IsCountOf(all[i], s, pred, n);
  }

  lemma CountOf(t: Triple, s: Subject, pred: string, n: nat)
    ensures t.subj == s && t.pred == pred && LiteralAsU32(t.obj) == Some(n) <==> IsCountOf(t, s, pred, n)
  {
    hide ParseUnsigned, IsNumeral;
    if t.obj.Literal? {
      ParsesExactly(t.obj.lexical, U32_MAX, n);
    }
  }

  lemma LastCountSnoc(ts: seq<Triple>, t: Triple, pred: string)
    ensures LastCount(ts + [t], pred)
            == if t.pred == pred && LiteralAsU32(t.obj).Some? then LiteralAsU32(t.obj) else LastCount(ts, pred)
  {
    hide LiteralAsU32;
    assert (ts + [t])[..|ts|] == ts;
  }

  // Whether one triple counts.
  lemma CountsNothing(t: Triple, s: Subject, pred: string)
    ensures NoCount([t], s, pred) <==> !(t.subj == s && t.pred == pred && LiteralAsU32(t.obj).Some?)
  {
    hide LiteralAsU32, IsCountOf;
    assert [t][0] == t;
    forall n: nat ensures t.subj == s && t.pred == pred && LiteralAsU32(t.obj) == Some(n) <==> IsCountOf(t, s, pred, n) {
      CountOf(t, s, pred, n);
    }
    if t.subj == s && t.pred == pred && LiteralAsU32(t.obj).Some? {
      assert IsCountOf([t][0], s, pred, LiteralAsU32(t.obj).value);
    }
  }

  lemma {:induction false} LastCountIs(all: seq<Triple>, s: Subject, pred: string, n: nat)
    ensures LastCount(Group(all, s), pred) == Some(n) <==> FinalCount(all, s, pred, n)
    decreases |all|
  {
    hide LastCount, Group, FinalCount, LiteralAsU32, IsCountOf, NoCount;
    if all == [] {
      NothingFound(s, pred, "", n);
    } else {
      var init, t := all[..|all| - 1], all[|all| - 1];
      LastCountIs(init, s, pred, n);
      GroupSnoc(all, s);
      FinalCountSnoc(all, s, pred, n);
      LastCountSnoc(Group(init, s), t, pred);
      assert Group(init, s) + [] == Group(init, s);
      CountOf(t, s, pred, n);
      CountsNothing(t, s, pred);
    }
  }

  lemma {:induction false} NoCountIs(all: seq<Triple>, s: Subject, pred: string)
    ensures LastCount(Group(all, s), pred) == None <==> NoCount(all, s, pred)
    decreases |all|
  {
    hide LastCount, Group, LiteralAsU32, IsCountOf;
    if all == [] {
      NothingFound(s, pred, "", 0);
    } else {
      var init, t := all[..|all| - 1], all[|all| - 1];
      NoCountIs(init, s, pred);
      GroupSnoc(all, s);
      LastCountSnoc(Group(init, s), t, pred);
      assert Group(init, s) + [] == Group(init, s);
      forall m: nat
        ensures t.subj == s && t.pred == pred && LiteralAsU32(t.obj) == Some(m) <==> IsCountOf(t, s, pred, m)
      {
        CountOf(t, s, pred, m);
      }
      assert forall j | 0 <= j < |init| :: init[j] == all[j];
    }
  }

  lemma FirstIriSnoc(all: seq<Triple>, s: Subject, pred: string, iri: string)
    requires all != []
    ensures FirstIri(all, s, pred, iri)
            <==> || FirstIri(all[..|all| - 1], s, pred, iri)
                 || (all[|all| - 1] == Triple(s, pred, IriObject(iri))
                     && forall j | 0 <= j < |all| - 1 :: !IsIriOf(all[j], s, pred))
  {
    var init, n := all[..|all| - 1], |all| - 1;
    assert forall i | 0 <= i < n :: init[i] == all[i];
    if i :| 0 <= i < n && init[i] == Triple(s, pred, IriObject(iri))
            && forall j | 0 <= j < i :: !IsIriOf(init[j], s, pred) {
      assert all[i] == Triple(s, pred, IriObject(iri));
    }
  }

  lemma {:induction false} TargetSnoc(ts: seq<Triple>, t: Triple)
    ensures TargetOf(ts + [t])
            == if TargetOf(ts).Some? then TargetOf(ts)
               else if t.pred == Sh("targetClass") && t.obj.IriObject? then Some(t.obj.iri) else None
  {
    hide Sh, ShaclCompile.ShaclIri;
    SameTerms("targetClass");
    if ts == [] {
      assert [] + [t] == [t] && [t][1..] == [];
    } else {
      assert (ts + [t])[1..] == ts[1..] + [t] && (ts + [t])[0] == ts[0];
      TargetSnoc(ts[1..], t);
    }
  }

  lemma {:induction false} TargetIs(all: seq<Triple>, s: Subject, iri: string)
    ensures TargetOf(Group(all, s)) == Some(iri) <==> FirstIri(all, s, Sh("targetClass"), iri)
    ensures TargetOf(Group(all, s)) == None <==> NoIri(all, s, Sh("targetClass"))
    decreases |all|
  {
    hide TargetOf, Group, FirstIri, Sh;
    if all == [] {
      NothingFound(s, Sh("targetClass"), iri, 0);
    } else {
      var init, t := all[..|all| - 1], all[|all| - 1];
      TargetIs(init, s, iri);
      GroupSnoc(all, s);
      FirstIriSnoc(all, s, Sh("targetClass"), iri);
      TargetSnoc(Group(init, s), t);
      assert Group(init, s) + [] == Group(init, s);
      assert forall j | 0 <= j < |init| :: init[j] == all[j];
    }
  }

  // ----- Names and datatypes -----

  lemma SegmentFound(iri: string)
    ensures LastSegment(iri, LocalName(iri))
  {
    var cut, name := CutPoint(iri), LocalName(iri);
    forall i | 0 <= i < |name| ensures !IsDelimiter(name[i]) {
      assert name[i] == iri[cut + i];
    }
    if cut > 0 {
      Delimiters(iri[cut - 1]);
      SplitAt(iri, cut);
    } else {
      assert iri[0..] == iri;
    }
  }

  lemma SplitAt(iri: string, cut: nat)
    requires 0 < cut <= |iri|
    ensures iri == iri[..cut - 1] + ([iri[cut - 1]] + iri[cut..])
  {
  }

  lemma SegmentIs(iri: string, name: string)
    ensures LocalName(iri) == name <==> LastSegment(iri, name)
  {
    hide LocalName;
    SegmentFound(iri);
    if LastSegment(iri, name) {
      LocalNameReads("", name);
      if iri != name {
        var before, c :| c in "#/:" && iri == before + ([c] + name);
        LocalNameReads(before, name);
      }
    }
  }

  lemma Delimiters(c: char)
    ensures IsDelimiter(c) <==> c in "#/:"
  {
    assert "#/:" == ['#', '/', ':'];
  }

  lemma DatatypeIsMeant(iri: string, d: Datatype)
    ensures DatatypeFromXsd(iri) == d <==> DatatypeMeant(iri, d)
  {
    hide LocalMeans;
    var base := "http://www.w3.org/2001/XMLSchema#";
    var local := if base <= iri then iri[|base|..] else iri;
    assert XsdName(iri, local) && forall x | XsdName(iri, x) :: x == local by {
      forall x | XsdName(iri, x) ensures x == local {
        assert base <= iri ==> (base + x)[|base|..] == x;
      }
    }
    LocalIsMeant(local, d);
    SameBase(iri, local);
  }

  lemma SameBase(iri: string, local: string)
    requires local == var base := "http://www.w3.org/2001/XMLSchema#"; if base <= iri then iri[|base|..] else iri
    ensures XsdLocal(iri) == local
  {
  }

  lemma LocalIsMeant(local: string, d: Datatype)
    ensures LocalMeans(local, d) <==>
            d == if local == "string" then Str
                 else if local in ["integer", "int", "long", "short", "byte", "nonNegativeInteger", "positiveInteger",
                                   "negativeInteger", "nonPositiveInteger"] then Int
                 else if local in ["double", "float", "decimal"] then Float
                 else if local == "boolean" then Bool
                 else if local in ["dateTime", "date"] then DateTime
                 else if local == "anyURI" then AnyUri
                 else if local in ["base64Binary", "hexBinary"] then Bytes
                 else Str
  {
  }

  // ----- Properties -----

  lemma BlockIs(path: Option<string>, min: Option<nat>, max: Option<nat>, datatyp: Option<string>, prop: PropertyType)
    ensures BlockType(path, min, max, datatyp) == Some(prop)
            <==> && path.Some? && datatyp.Some? && prop.iri == path && LastSegment(path.value, prop.name)
                 && DatatypeMeant(datatyp.value, prop.datatyp) && prop.cardinality.max == max
                 && prop.cardinality.min == (if min.Some? then min.value else 0) && prop.description == None
  {
    hide LocalName, LastSegment, DatatypeFromXsd, DatatypeMeant;
    if path.Some? && datatyp.Some? {
      SegmentIs(path.value, prop.name);
      DatatypeIsMeant(datatyp.value, prop.datatyp);
    }
  }

  lemma PropertyIs(all: seq<Triple>, b: Subject, prop: PropertyType)
    ensures ParsedBlock(Group(all, b)) == Some(prop) <==> PropertyMeant(all, b, prop)
  {
    hide LastIri, LastCount, Group, FinalIri, FinalCount, NoCount, LastSegment, DatatypeMeant, BlockType, Sh;
    hide ShaclCompile.ShaclIri;
    SameTerms("path");
    SameTerms("datatype");
    SameTerms("minCount");
    SameTerms("maxCount");
    var g := Group(all, b);
    forall iri ensures LastIri(g, Sh("path")) == Some(iri) <==> FinalIri(all, b, Sh("path"), iri)
      ensures LastIri(g, Sh("datatype")) == Some(iri) <==> FinalIri(all, b, Sh("datatype"), iri)
    {
      LastIriIs(all, b, Sh("path"), iri);
      LastIriIs(all, b, Sh("datatype"), iri);
    }
    forall n: nat ensures LastCount(g, Sh("minCount")) == Some(n) <==> FinalCount(all, b, Sh("minCount"), n)
      ensures LastCount(g, Sh("maxCount")) == Some(n) <==> FinalCount(all, b, Sh("maxCount"), n)
    {
      LastCountIs(all, b, Sh("minCount"), n);
      LastCountIs(all, b, Sh("maxCount"), n);
    }
    NoCountIs(all, b, Sh("minCount"));
    NoCountIs(all, b, Sh("maxCount"));
    BlockIs(LastIri(g, Sh("path")), LastCount(g, Sh("minCount")), LastCount(g, Sh("maxCount")),
            LastIri(g, Sh("datatype")), prop);
  }

  lemma EmptyBlock()
    ensures ParsedBlock([]) == None
  {
  }

  lemma ContributionIs(all: seq<Triple>, s: Subject, t: Triple, prop: PropertyType)
    requires t.subj == s
    ensures PropertyOf(all, t) == Some(prop) <==> Contributes(all, s, t, prop)
  {
    hide Group, ParsedBlock, PropertyMeant, Sh, ShaclCompile.ShaclIri;
    SameTerms("property");
    EmptyBlock();
    var key := BlockKey(t.obj);
    if key.Some? {
      PropertyIs(all, key.value, prop);
    }
    forall b | RefersTo(t, s, b) ensures key == Some(b) {
    }
    if t.pred == Sh("property") && key.Some? {
      assert RefersTo(t, s, key.value);
    }
  }

  lemma {:induction false} PropertiesAre(all: seq<Triple>, s: Subject, refs: seq<Triple>, props: seq<PropertyType>)
    ensures PropertiesOf(all, Group(refs, s)) == props <==> PropertiesMeant(all, s, refs, props)
    decreases |refs|
  {
    hide PropertiesOf, Group, PropertyOf, Contributes;
    if refs == [] {
      NothingFound(s, "", "", 0);
      NoProperties(all);
    } else {
      var before, t := refs[..|refs| - 1], refs[|refs| - 1];
      GroupSnoc(refs, s);
      PropertiesAre(all, s, before, props);
      if t.subj == s {
        PropertiesSnoc(all, Group(before, s), t);
        forall prop ensures PropertyOf(all, t) == Some(prop) <==> Contributes(all, s, t, prop) {
          ContributionIs(all, s, t, prop);
        }
        if PropertyOf(all, t).Some? && props != [] {
          PropertiesAre(all, s, before, props[..|props| - 1]);
          assert props == props[..|props| - 1] + [props[|props| - 1]];
        }
      } else {
        assert Group(before, s) + [] == Group(before, s);
        ForeignTriple(all, s, t);
      }
    }
  }

  lemma NoProperties(all: seq<Triple>)
    ensures PropertiesOf(all, []) == []
  {
  }

  lemma ForeignTriple(all: seq<Triple>, s: Subject, t: Triple)
    requires t.subj != s
    ensures !ContributesSome(all, s, t)
  {
    hide PropertyMeant;
  }

  lemma PropertiesSnoc(all: seq<Triple>, ts: seq<Triple>, t: Triple)
    ensures PropertiesOf(all, ts + [t])
            == PropertiesOf(all, ts) + if PropertyOf(all, t).Some? then [PropertyOf(all, t).value] else []
  {
    hide PropertyOf;
    assert (ts + [t])[..|ts|] == ts;
  }

  // ----- Shapes -----

  // A shape is read as the one type it means, and as none when it has no target class.
  lemma TypeIs(all: seq<Triple>, s: Subject, ty: NodeType)
    ensures ShapeType(all, s) == Some(ty) <==> TypeMeant(all, s, ty)
    ensures ShapeType(all, s) == None <==> NoIri(all, s, Sh("targetClass"))
  {
    hide TargetOf, Group, PropertiesOf, FirstIri, LastSegment, PropertiesMeant, LocalName, Sh;
    var target := TargetOf(Group(all, s));
    forall iri ensures target == Some(iri) <==> FirstIri(all, s, Sh("targetClass"), iri)
      ensures target == None <==> NoIri(all, s, Sh("targetClass"))
    {
      TargetIs(all, s, iri);
    }
    TargetIs(all, s, "");
    PropertiesAre(all, s, all, ty.properties);
    if target.Some? {
      SegmentIs(target.value, ty.name);
    }
  }

  lemma ShapesAre(all: seq<Triple>, s: Subject)
    ensures s in ShapeSubjects(all) <==> IsShape(all, s)
  {
    SameTerms("NodeShape");
    if i :| 0 <= i < |all| && MarksShape(all[i]) && all[i].subj == s {
      assert all[i] == Triple(s, "http://www.w3.org/1999/02/22-rdf-syntax-ns#type", IriObject(Sh("NodeShape")));
    }
  }

  // The schema read from a graph: the types that its shapes mean under their names, or an error when some
  // shape has no target class.
  lemma SchemaMeant(all: seq<Triple>, r: Result<map<string, NodeType>, ShaclError>)
    requires Built(all, r)
    ensures r.Err? <==> exists s :: IsShape(all, s) && NoIri(all, s, Sh("targetClass"))
    ensures r.Ok? ==>
              && (forall s | IsShape(all, s) :: exists ty :: TypeMeant(all, s, ty) && ty.name in r.value)
              && (forall n | n in r.value ::
                    r.value[n].name == n && exists s :: IsShape(all, s) && TypeMeant(all, s, r.value[n]))
  {
    hide ShapeType, TypeMeant, IsShape, ShapeSubjects, Sh, IsIriOf;
    forall s ensures s in ShapeSubjects(all) <==> IsShape(all, s) {
      ShapesAre(all, s);
    }
    forall s, ty
      ensures ShapeType(all, s) == Some(ty) <==> TypeMeant(all, s, ty)
      ensures ShapeType(all, s) == None <==> NoIri(all, s, Sh("targetClass"))
    {
      TypeIs(all, s, ty);
    }
    if r.Ok? {
      forall s | IsShape(all, s) ensures exists ty :: TypeMeant(all, s, ty) && ty.name in r.value {
        assert TypeMeant(all, s, ShapeType(all, s).value);
      }
    }
    var none := NodeType("", None, [], [], None);
    forall s ensures ShapeType(all, s) == None <==> NoIri(all, s, Sh("targetClass")) {
      TypeIs(all, s, none);
    }
  }
}
