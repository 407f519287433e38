// The Turtle parser on the text of compiled shapes: it returns the statements written.

module ShaclReading {
  import opened Wrappers
  import opened Numerals
  import opened Rdf
  import opened SchemaTypes
  import opened ShaclCompile
  import opened Turtle
  import opened TurtleRoundTrip
  import opened TurtleParser
  import SC = ShaclCompile

  // ----- What can be written -----

  predicate TermKept(iri: string) {
    if SH_URI <= iri && SimpleLocal(iri[|SH_URI|..]) then NameFree(iri[|SH_URI|..])
    else if XSD_URI <= iri && SimpleLocal(iri[|XSD_URI|..]) then NameFree(iri[|XSD_URI|..])
    else '>' !in iri
  }

  predicate SubjectPlain(s: Subject) {
    match s
    case IriSubject(iri) => TermKept(iri)
    case BlankSubject(name) => NameFree(name)
  }

  predicate ObjectPlain(o: Object) {
    match o
    case IriObject(iri) => TermKept(iri)
    case BlankObject(name) => NameFree(name)
    case Literal(lexical, kind, language) => AllDigits(lexical) && language.None? && TermKept(kind)
  }

  predicate PairPlain(p: (string, Object)) { (p.0 == RDF_TYPE || TermKept(p.0)) && ObjectPlain(p.1) }

  predicate StatementPlain(st: Statement) {
    SubjectPlain(st.subj) && st.pairs != [] && forall i | 0 <= i < |st.pairs| :: PairPlain(st.pairs[i])
  }

  ghost predicate ShaclBindings(m: Bindings) {
    "sh" in m && m["sh"] == SH_URI && "xsd" in m && m["xsd"] == XSD_URI
  }

  // ----- Terms -----

  lemma PrefixesPlain()
    ensures PlainPrefix("sh") && PlainPrefix("xsd")
  {
    WordIsPlain("sh");
    WordIsPlain("xsd");
  }

  lemma TermReads(m: Bindings, iri: string, rest: string)
    requires ShaclBindings(m) && TermKept(iri) && Spaced(rest)
    ensures ReadTerm(m, TermText(iri) + rest) == Ok((IriTerm(iri), rest))
  {
    hide ReadTerm, NameFree, PlainPrefix, SimpleLocal, Spaced;
    PrefixesPlain();
    if SH_URI <= iri && SimpleLocal(iri[|SH_URI|..]) {
      CurieReads(m, SH, iri[|SH_URI|..], rest);
      assert SH_URI + iri[|SH_URI|..] == iri;
    } else if XSD_URI <= iri && SimpleLocal(iri[|XSD_URI|..]) {
      CurieReads(m, XSD, iri[|XSD_URI|..], rest);
      assert XSD_URI + iri[|XSD_URI|..] == iri;
    } else {
      AngledReads(m, iri, rest);
    }
  }

  lemma TermStarts(iri: string)
    ensures var w := TermText(iri);
            w != [] && !Blank(w[0]) && w[0] != '"' && w[0] != '@' && w[0] != 'a'
  {
  }

  lemma PredicateTextReads(m: Bindings, p: string, rest: string)
    requires ShaclBindings(m) && (p == RDF_TYPE || TermKept(p)) && Spaced(rest)
    ensures ReadPredicate(m, PredicateText(p) + rest) == Ok((p, rest))
    ensures PredicateText(p) != [] && !Blank(PredicateText(p)[0])
  {
    hide ReadTerm, TermText, TermKept;
    var s := PredicateText(p) + rest;
    if p == RDF_TYPE {
      assert s[0] == 'a' && s[1] == rest[0] && s[1..] == rest;
    } else {
      TermReads(m, p, rest);
      TermStarts(p);
      assert s[0] == TermText(p)[0];
    }
  }

  lemma {:induction false} DigitsEscaped(s: string)
    requires AllDigits(s)
    ensures Escaped(s) == s
  {
    hide EscapeChar;
    if s != [] {
      assert s == [s[0]] + s[1..];
      assert forall c | c in s[1..] :: c in s;
      DigitsEscaped(s[1..]);
      assert s[0] in s;
      DigitStays(s[0]);
    }
  }

  lemma DigitsAscii(s: string)
    requires AllDigits(s)
    ensures AllAscii(s)
  {
  }

  lemma DigitStays(c: char)
    requires '0' <= c <= '9'
    ensures EscapeChar(c) == [c]
  {
  }

  lemma CountReads(m: Bindings, lexical: string, kind: string, rest: string)
    requires ShaclBindings(m) && AllDigits(lexical) && TermKept(kind) && Spaced(rest)
    ensures ReadObject(m, SC.ObjectText(Literal(lexical, kind, None)) + rest)
            == Ok((LiteralTerm(lexical, kind, None), rest))
  {
    hide TermText, TermKept, ReadTerm, ReadLexical, Escaped, AsBytes, AllAscii;
    var tag := "^^" + TermText(kind);
    DigitsEscaped(lexical);
    DigitsAscii(lexical);
    AsBytesExact(lexical);
    QuotedShape(lexical, tag, rest);
    LexicalReads(lexical, tag + rest);
    TermReads(m, kind, rest);
    Associate("^^", TermText(kind), rest);
    var t := tag + rest;
    assert t[0] == '^' && StartsTwo(t, '^', '^') && t[2..] == TermText(kind) + rest;
  }

  lemma ObjectTextReads(m: Bindings, o: Object, rest: string)
    requires ShaclBindings(m) && ObjectPlain(o) && Spaced(rest)
    ensures ReadObject(m, SC.ObjectText(o) + rest) == Ok((ObjectTerm(o), rest))
    ensures SC.ObjectText(o) != [] && !Blank(SC.ObjectText(o)[0])
  {
    hide TermText, TermKept, ReadTerm, NameFree, ReadLexical, ReadTag, AllDigits;
    match o {
      case IriObject(iri) =>
        TermReads(m, iri, rest);
        TermStarts(iri);
        assert (TermText(iri) + rest)[0] == TermText(iri)[0];
      case BlankObject(name) =>
        BlankReads(m, name, rest);
        assert ("_:" + name + rest)[0] == '_';
      case Literal(lexical, kind, _) =>
        CountReads(m, lexical, kind, rest);
    }
  }

  lemma SubjectTextReads(m: Bindings, s: Subject, rest: string)
    requires ShaclBindings(m) && SubjectPlain(s) && Spaced(rest)
    ensures ReadSubject(m, SC.SubjectText(s) + rest) == Ok((s, rest))
    ensures SC.SubjectText(s) != [] && !Blank(SC.SubjectText(s)[0]) && SC.SubjectText(s)[0] != '@'
  {
    hide TermText, TermKept, ReadTerm, NameFree;
    match s {
      case IriSubject(iri) =>
        TermReads(m, iri, rest);
        TermStarts(iri);
      case BlankSubject(name) =>
        BlankReads(m, name, rest);
    }
  }

  // ----- Statements -----

  function Triples(st: Statement): (ts: seq<Triple>)
    ensures |ts| == |st.pairs| && forall i | 0 <= i < |ts| :: ts[i] == Triple(st.subj, st.pairs[i].0, st.pairs[i].1)
  {
    seq(|st.pairs|, i requires 0 <= i < |st.pairs| => Triple(st.subj, st.pairs[i].0, st.pairs[i].1))
  }

  // One predicate with one object, up to a semicolon.
  lemma ContinuedReads(m: Bindings, subj: Subject, s: string, pred: string, s2: string, o: Object, rest: string)
    requires ReadPredicate(m, SkipBlank(s)) == Ok((pred, s2))
    requires ReadObject(m, SkipBlank(s2)) == Ok((ObjectTerm(o), " ;" + rest))
    ensures ReadPredicates(m, subj, s) == Before([Triple(subj, pred, o)], ReadPredicates(m, subj, rest))
  {
    hide ReadPredicate, ReadObject, SkipBlank;
    var semicolon := ";" + rest;
    assert " ;" + rest == " " + semicolon && semicolon[1..] == rest;
    SemicolonStays();
    SkipSpace(semicolon);
    ObjectsUnfold(m, subj, pred, s2);
    assert ReadObjects(m, subj, pred, s2) == Ok(([Triple(subj, pred, o)], semicolon));
    assert ReadEnding(semicolon) == Semicolon(rest);
    PredicatesUnfold(m, subj, s);
  }

  lemma SemicolonStays()
    ensures !Blank(';')
  {
  }

  lemma SkipIndent(s: string)
    requires s != [] && !Blank(s[0])
    ensures SkipBlank("\n  " + s) == s
  {
    hide Blank;
    var t := "\n  " + s;
    NewlineIsBlank();
    SpaceIsBlank();
    assert t[1..] == "  " + s && t[1..][1..] == " " + s;
    SkipOne(t);
    SkipOne(t[1..]);
    SkipSpace(s);
  }

  lemma PairsStart(pairs: seq<(string, Object)>)
    requires pairs != []
    ensures PairsText(pairs) != [] && !Blank(PairsText(pairs)[0])
  {
    hide TermText;
    if pairs[0].0 != RDF_TYPE {
      TermStarts(pairs[0].0);
    }
  }

  lemma LastPairReads(m: Bindings, subj: Subject, p: (string, Object), s: string, tail: string)
    requires ShaclBindings(m) && PairPlain(p) && SkipBlank(s) == PairText(p) + (" .\n" + tail)
    ensures ReadPredicates(m, subj, s) == Ok(([Triple(subj, p.0, p.1)], "\n" + tail))
  {
    hide ShaclBindings, ReadPredicate, ReadObject, ReadPredicates, SkipBlank, PairPlain, PairText, SC.ObjectText;
    var end := " .\n" + tail;
    OnePairReads(m, p.0, p.1, s, end);
    StoppedReads(m, subj, s, p.0, " " + (SC.ObjectText(p.1) + end), p.1, tail);
  }

  lemma NextPairReads(m: Bindings, subj: Subject, p: (string, Object), s: string, later: string, tail: string)
    requires ShaclBindings(m) && PairPlain(p)
    requires SkipBlank(s) == PairText(p) + (" ;\n  " + later) + (" .\n" + tail)
    ensures ReadPredicates(m, subj, s)
            == Before([Triple(subj, p.0, p.1)], ReadPredicates(m, subj, "\n  " + (later + (" .\n" + tail))))
  {
    hide ShaclBindings, ReadPredicate, ReadObject, ReadPredicates, SkipBlank, PairPlain, PairText, SC.ObjectText;
    var rest := "\n  " + (later + (" .\n" + tail));
    var end := " ;" + rest;
    JoinedShape(PairText(p), later, " .\n" + tail);
    OnePairReads(m, p.0, p.1, s, end);
    ContinuedReads(m, subj, s, p.0, " " + (SC.ObjectText(p.1) + end), p.1, rest);
  }

  lemma {:induction false} PairsRead(m: Bindings, subj: Subject, pairs: seq<(string, Object)>, s: string, tail: string)
    requires ShaclBindings(m) && pairs != [] && forall i | 0 <= i < |pairs| :: PairPlain(pairs[i])
    requires SkipBlank(s) == PairsText(pairs) + (" .\n" + tail)
    ensures ReadPredicates(m, subj, s) == Ok((Triples(Statement(subj, pairs)), "\n" + tail))
    decreases |pairs|
  {
    hide ShaclBindings, ReadPredicates, SkipBlank, PairPlain, PairText, Blank;
    if |pairs| == 1 {
      LastPairReads(m, subj, pairs[0], s, tail);
      assert Triples(Statement(subj, pairs)) == [Triple(subj, pairs[0].0, pairs[0].1)];
    } else {
      var later := pairs[1..];
      var rest := "\n  " + (PairsText(later) + (" .\n" + tail));
      NextPairReads(m, subj, pairs[0], s, PairsText(later), tail);
      PairsStart(later);
      SkipIndent(PairsText(later) + (" .\n" + tail));
      PairsRead(m, subj, later, rest, tail);
      assert Triples(Statement(subj, pairs))
          == [Triple(subj, pairs[0].0, pairs[0].1)] + Triples(Statement(subj, later));
    }
  }

  lemma JoinedShape(first: string, later: string, end: string)
    ensures first + (" ;\n  " + later) + end == first + (" ;" + ("\n  " + (later + end)))
  {
    Associate(first, " ;\n  " + later, end);
    Associate(" ;\n  ", later, end);
    Associate(" ;", "\n  ", later + end);
    assert " ;" + "\n  " == " ;\n  ";
  }

  // The predicate and the object of a pair, in front of either ending.
  lemma OnePairReads(m: Bindings, pred: string, o: Object, s: string, end: string)
    requires ShaclBindings(m) && PairPlain((pred, o)) && Spaced(end)
    requires SkipBlank(s) == PairText((pred, o)) + end
    ensures var s2 := " " + (SC.ObjectText(o) + end);
            ReadPredicate(m, SkipBlank(s)) == Ok((pred, s2)) && ReadObject(m, SkipBlank(s2)) == Ok((ObjectTerm(o), end))
  {
    hide ShaclBindings, ReadPredicate, ReadObject, SkipBlank, PredicateText, SC.ObjectText, ObjectPlain, TermKept;
    hide Blank;
    var fromObject := SC.ObjectText(o) + end;
    Associate(PredicateText(pred), " " + SC.ObjectText(o), end);
    Associate(" ", SC.ObjectText(o), end);
    PredicateTextReads(m, pred, " " + fromObject);
    ObjectTextReads(m, o, end);
    SkipSpace(fromObject);
  }

  lemma StatementReads(m: Bindings, st: Statement, tail: string)
    requires ShaclBindings(m) && StatementPlain(st)
    ensures ReadStatement(m, StatementText(st) + tail) == Ok((Triples(st), "\n" + tail))
    ensures StatementText(st) != [] && !Blank(StatementText(st)[0]) && StatementText(st)[0] != '@'
  {
    hide ShaclBindings, ReadSubject, ReadPredicates, SkipBlank, SC.SubjectText, PairsText, SubjectPlain, PairPlain;
    hide Blank;
    var body := PairsText(st.pairs) + (" .\n" + tail);
    Associate(OpenText(st.subj, st.pairs), " .\n", tail);
    Associate(SC.SubjectText(st.subj), " " + PairsText(st.pairs), " .\n" + tail);
    Associate(" ", PairsText(st.pairs), " .\n" + tail);
    SubjectTextReads(m, st.subj, " " + body);
    PairsStart(st.pairs);
    SkipSpace(body);
    PairsRead(m, st.subj, st.pairs, " " + body, tail);
  }

  function AllTriples(sts: seq<Statement>): seq<Triple> {
    if sts == [] then [] else Triples(sts[0]) + AllTriples(sts[1..])
  }

  lemma {:induction false} StatementsRead(m: Bindings, sts: seq<Statement>, tail: string)
    requires ShaclBindings(m) && AllPlain(sts)
    ensures ReadAll(m, StatementsText(sts) + tail) == Following(AllTriples(sts), ReadAll(m, tail))
    decreases |sts|
  {
    hide ShaclBindings, StatementPlain, StatementText, ReadAll, Triples;
    if sts == [] {
      assert "" + tail == tail;
      FollowingTwice([], [], ReadAll(m, tail));
    } else {
      var later := sts[1..];
      assert forall i | 0 <= i < |later| :: later[i] == sts[i + 1];
      var rest := StatementsText(later) + tail;
      Associate(StatementText(sts[0]), StatementsText(later), tail);
      OneStatementRead(m, sts[0], rest);
      StatementsRead(m, later, tail);
      FollowingTwice(Triples(sts[0]), AllTriples(later), ReadAll(m, tail));
    }
  }

  lemma OneStatementRead(m: Bindings, st: Statement, rest: string)
    requires ShaclBindings(m) && StatementPlain(st)
    ensures ReadAll(m, StatementText(st) + rest) == Following(Triples(st), ReadAll(m, rest))
  {
    hide ShaclBindings, StatementPlain, StatementText, ReadStatement, Triples, Blank;
    StatementReads(m, st, rest);
    NotBlankStays(StatementText(st) + rest);
    AllUnfold(m, StatementText(st) + rest);
    ReadAllFrom(m, rest);
  }

  predicate AllPlain(sts: seq<Statement>) { forall i | 0 <= i < |sts| :: StatementPlain(sts[i]) }

  lemma AllPlainSplit(a: seq<Statement>, b: seq<Statement>)
    ensures AllPlain(a + b) <==> AllPlain(a) && AllPlain(b)
  {
    hide StatementPlain;
    var all := a + b;
    assert forall i | 0 <= i < |a| :: a[i] == all[i];
    assert forall i | 0 <= i < |b| :: b[i] == all[|a| + i];
  }

  // ----- Documents -----

  // Every statement of the types still to come.
  function Statements(types: seq<NodeType>, edges: seq<EdgeType>, rest: seq<NodeType>, k: nat): seq<Statement>
    decreases |rest|
  {
    if rest == [] then []
    else
      [Shape(edges, rest[0], k)] + Blocks(types, edges, rest[0], k)
      + Statements(types, edges, rest[1..], k + BlockCount(edges, rest[0]))
  }

  lemma {:induction false} AllTriplesAppend(a: seq<Statement>, b: seq<Statement>)
    ensures AllTriples(a + b) == AllTriples(a) + AllTriples(b)
  {
    hide Triples;
    if a == [] {
      assert a + b == b;
    } else {
      assert (a + b)[1..] == a[1..] + b;
      AllTriplesAppend(a[1..], b);
    }
  }

  lemma {:induction false} ShapesRead(m: Bindings, types: seq<NodeType>, edges: seq<EdgeType>, rest: seq<NodeType>,
                                      k: nat)
    requires ShaclBindings(m) && AllPlain(Statements(types, edges, rest, k))
    ensures ReadAll(m, ShapesText(types, edges, rest, k)) == Ok(AllTriples(Statements(types, edges, rest, k)))
    decreases |rest|
  {
    hide ShaclBindings, AllPlain, StatementText, ReadAll, Shape, Blocks, BlockCount, Triples;
    if rest == [] {
      NothingRead(m);
    } else {
      var shape, blocks := Shape(edges, rest[0], k), Blocks(types, edges, rest[0], k);
      var next := k + BlockCount(edges, rest[0]);
      var own, later := [shape] + blocks, Statements(types, edges, rest[1..], next);
      AllPlainSplit(own, later);
      ShapesRead(m, types, edges, rest[1..], next);
      var tail := ShapesText(types, edges, rest[1..], next);
      assert StatementsText(own) == TypeText(types, edges, rest[0], k) by {
        assert own[1..] == blocks;
      }
      StatementsRead(m, own, "\n" + tail);
      ReadAllFrom(m, tail);
      AllTriplesAppend(own, later);
    }
  }

  lemma NothingRead(m: Bindings)
    ensures ReadAll(m, "") == Ok([])
  {
  }

  // The directives of the document bind its two prefixes, whatever follows them.
  lemma HeaderBinds(types: seq<NodeType>, edges: seq<EdgeType>)
    ensures ReadDirectives(map[], SC.DocumentText(types, edges))
            == Ok((Bound(map[], [SH, XSD]), ShapesText(types, edges, types, 0)))
  {
    hide ReadDirectives, ShapesText, PrefixLine, HeaderPlain, Bound, Blank;
    var v := [SH, XSD];
    var body := ShapesText(types, edges, types, 0);
    assert Header(v) == PrefixLine(SH) + PrefixLine(XSD) by {
      assert v[1..] == [XSD] && v[1..][1..] == [];
      assert Header([XSD]) == PrefixLine(XSD) + "";
    }
    Associate(PrefixLine(SH), PrefixLine(XSD), "\n" + body);
    ShaclIsPlain();
    BodyBegins(types, edges);
    HeaderReads(map[], v, body);
  }

  // Parsing the compiled document gives its statements back, in order.
  lemma DocumentReads(types: seq<NodeType>, edges: seq<EdgeType>)
    requires AllPlain(Statements(types, edges, types, 0))
    ensures ParsedDocument(SC.DocumentText(types, edges)) == Ok(AllTriples(Statements(types, edges, types, 0)))
  {
    hide ReadAll, ReadDirectives, ShapesText, AllPlain, Statements, Bound, SC.DocumentText;
    HeaderBinds(types, edges);
    ShaclBound();
    ShapesRead(Bound(map[], [SH, XSD]), types, edges, types, 0);
  }

  lemma ShaclIsPlain()
    ensures HeaderPlain([SH, XSD]) && DistinctPrefixes([SH, XSD])
  {
    PrefixesPlain();
    PlainIsReadable("sh");
    PlainIsReadable("xsd");
    RdfBase();
    assert '>' !in "http://www.w3.org/ns/shacl#";
  }

  lemma ShaclBound()
    ensures ShaclBindings(Bound(map[], [SH, XSD]))
  {
    hide HeaderPlain;
    ShaclIsPlain();
    BoundHas(map[], [SH, XSD], SH);
    BoundHas(map[], [SH, XSD], XSD);
  }

  lemma BodyBegins(types: seq<NodeType>, edges: seq<EdgeType>)
    ensures var body := ShapesText(types, edges, types, 0); body == "" || (!Blank(body[0]) && NoDirective(body))
  {
    hide Blank, TermText, PairsText, Blocks;
    if types != [] {
      TermStarts(ShapeIri(types[0]));
    }
  }
}
