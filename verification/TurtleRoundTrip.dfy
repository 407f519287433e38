// Exactly which triples survive writing as Turtle and parsing back.

module TurtleRoundTrip {
  import opened Wrappers
  import opened Rdf
  import opened Turtle

  // ----- Vocabularies -----

  predicate PlainPrefix(p: string) {
    && (forall c | c in p :: !Terminator(c) && c != ':') && p != "_"
    && (p != "" ==> p[0] != '#' && p[0] != '<' && p[0] != '"') && !("@prefix" <= p)
  }

  // A directive gives the prefix back: it ends at its first colon, and blanks around it are dropped.
  predicate ReadablePrefix(p: string) { ':' !in p && (p != "" ==> !Blank(p[0])) && Trim(p) == p }

  // The header can be read back.
  predicate HeaderPlain(v: Vocabulary) {
    forall i | 0 <= i < |v| :: ReadablePrefix(v[i].prefix) && '>' !in v[i].base
  }

  // No prefix is bound twice, as the source's map of bindings has it.
  predicate DistinctPrefixes(v: Vocabulary) {
    forall i, j | 0 <= i < j < |v| :: v[i].prefix != v[j].prefix
  }

  // The parser's table after the directives of the header.
  function Bound(m: Bindings, v: Vocabulary): Bindings
    decreases |v|
  {
    if v == [] then m else Bound(m[v[0].prefix := v[0].base], v[1..])
  }

  lemma {:induction false} BoundOther(m: Bindings, v: Vocabulary, p: string)
    requires forall i | 0 <= i < |v| :: v[i].prefix != p
    ensures (p in Bound(m, v) <==> p in m) && (p in m ==> Bound(m, v)[p] == m[p])
    decreases |v|
  {
    if v != [] {
      BoundOther(m[v[0].prefix := v[0].base], v[1..], p);
    }
  }

  lemma {:induction false} BoundHas(m: Bindings, v: Vocabulary, ns: Namespace)
    requires DistinctPrefixes(v) && ns in v
    ensures ns.prefix in Bound(m, v) && Bound(m, v)[ns.prefix] == ns.base
    decreases |v|
  {
    var next := m[v[0].prefix := v[0].base];
    if v[0] == ns {
      assert forall i | 0 <= i < |v[1..]| :: v[1..][i] == v[i + 1];
      BoundOther(next, v[1..], ns.prefix);
    } else {
      assert ns in v[1..];
      assert forall i | 0 <= i < |v[1..]| :: v[1..][i] == v[i + 1];
      BoundHas(next, v[1..], ns);
    }
  }

  // ----- What is kept -----

  predicate NameFree(name: string) { forall c | c in name :: !Terminator(c) }

  predicate IriKept(v: Vocabulary, iri: string) {
    match Chosen(v, iri)
    case Some(ns) => NameFree(LocalPart(ns, iri))
    case None => '>' !in iri
  }

  // If the IRI is compacted, the term reader takes its prefix whole.
  predicate Spelt(v: Vocabulary, iri: string) {
    DistinctPrefixes(v) && (Chosen(v, iri).Some? ==> PlainPrefix(Chosen(v, iri).value.prefix))
  }

  predicate SubjectSpelt(v: Vocabulary, s: Subject) { s.IriSubject? ==> Spelt(v, s.iri) }

  predicate TagSpelt(v: Vocabulary, kind: string, language: Option<string>) {
    language.None? && kind != XSD_STRING ==> Spelt(v, kind)
  }

  predicate ObjectSpelt(v: Vocabulary, o: Object) {
    match o
    case IriObject(iri) => Spelt(v, iri)
    case BlankObject(_) => true
    case Literal(_, kind, language) => TagSpelt(v, kind, language)
  }

  predicate TripleSpelt(v: Vocabulary, t: Triple) {
    SubjectSpelt(v, t.subj) && Spelt(v, t.pred) && ObjectSpelt(v, t.obj)
  }

  predicate SubjectKept(v: Vocabulary, s: Subject) {
    match s
    case IriSubject(iri) => IriKept(v, iri)
    case BlankSubject(name) => NameFree(name)
  }

  predicate TagKept(v: Vocabulary, kind: string, language: Option<string>) {
    if language.Some? then NameFree(language.value) && kind == LANG_STRING else kind == XSD_STRING || IriKept(v, kind)
  }

  predicate ObjectKept(v: Vocabulary, o: Object) {
    match o
    case IriObject(iri) => IriKept(v, iri)
    case BlankObject(name) => NameFree(name)
    case Literal(lexical, kind, language) => AllAscii(lexical) && TagKept(v, kind, language)
  }

  predicate Kept(v: Vocabulary, t: Triple) {
    SubjectKept(v, t.subj) && IriKept(v, t.pred) && ObjectKept(v, t.obj)
  }

  // ----- Reading terms back -----

  // What the words of a document are followed by.
  predicate Spaced(rest: string) { rest != [] && rest[0] == ' ' }

  // An angled IRI comes back exactly when it has no closing bracket; otherwise something shorter does.
  lemma AngledReads(m: Bindings, iri: string, rest: string)
    ensures var r := ReadTerm(m, "<" + (iri + ">") + rest);
            && r.Ok? && r.value.0.IriTerm?
            && ('>' !in iri ==> r == Ok((IriTerm(iri), rest)))
            && ('>' in iri ==> r.value.0.iri != iri)
  {
    var s := "<" + (iri + ">") + rest;
    assert s[0] == '<';
    var n := Find(iri, IsClose);
    assert forall i | 0 <= i < |iri| :: s[i + 1] == iri[i];
    assert s[|iri| + 1] == '>';
    FindAt(s, IsClose, n + 1);
    assert s[1..n + 1] == iri[..n];
    if '>' !in iri {
      assert n == |iri| && iri[..n] == iri && s[n + 2..] == rest;
    } else {
      var k :| 0 <= k < |iri| && iri[k] == '>';
      assert n < |iri| && |s[1..n + 1]| == n;
    }
  }

  lemma NameReads(name: string, rest: string)
    requires Spaced(rest)
    ensures var n := Find(name + rest, Terminator);
            && n <= |name| && (name + rest)[..n] == name[..n]
            && (NameFree(name) ==> n == |name| && (name + rest)[n..] == rest)
            && (!NameFree(name) ==> n < |name|)
  {
    var s := name + rest;
    var n := Find(name, Terminator);
    assert s[|name|] == ' ';
    FindAt(s, Terminator, n);
    assert forall i | 0 <= i < |name| :: name[i] in name;
  }

  lemma BlankReads(m: Bindings, name: string, rest: string)
    requires Spaced(rest)
    ensures var r := ReadTerm(m, "_:" + name + rest);
            && r.Ok? && r.value.0.BlankTerm?
            && (NameFree(name) ==> r == Ok((BlankTerm(name), rest)))
            && (!NameFree(name) ==> r.value.0.name != name)
  {
    hide NameFree, Terminator, Spaced;
    var s := "_:" + name + rest;
    assert s[0] == '_' && StartsTwo(s, '_', ':') && s[2..] == name + rest;
    NameReads(name, rest);
  }

  // A compacted IRI: the token ends at the first terminator of the local part.
  lemma CurieReads(m: Bindings, ns: Namespace, local: string, rest: string)
    requires PlainPrefix(ns.prefix) && ns.prefix in m && m[ns.prefix] == ns.base && Spaced(rest)
    ensures var r := ReadTerm(m, ns.prefix + (":" + local) + rest);
            && r.Ok? && r.value.0.IriTerm?
            && (NameFree(local) ==> r == Ok((IriTerm(ns.base + local), rest)))
            && (!NameFree(local) ==> |r.value.0.iri| < |ns.base + local|)
  {
    hide Spaced, PlainPrefix, NameFree, Terminator;
    var p := ns.prefix;
    var s := p + (":" + local) + rest;
    var j := Find(local, Terminator);
    CurieStart(p, local, rest);
    CurieToken(p, local, rest);
    var n := |p| + 1 + j;
    var token := s[..n];
    CurieParts(p, local, rest, j);
    PrefixHasNoColon(p);
    FindAt(token, IsColon, |p|);
    FindName(local);
  }

  lemma CurieParts(p: string, local: string, rest: string, j: nat)
    requires j <= |local|
    ensures var s := p + (":" + local) + rest;
            var n := |p| + 1 + j;
            && n <= |s| && s[..|p|] == p && s[..n][|p|] == ':' && s[..n][|p| + 1..] == local[..j]
            && (forall i | 0 <= i < |p| :: s[..n][i] == p[i])
            && (j == |local| ==> local[..j] == local && s[n..] == rest)
  {
    var s, n := p + (":" + local) + rest, |p| + 1 + j;
    assert s[..n] == p + (":" + local[..j]);
  }

  lemma PrefixHasNoColon(p: string)
    requires PlainPrefix(p)
    ensures forall i | 0 <= i < |p| :: !IsColon(p[i])
  {
    assert forall i | 0 <= i < |p| :: p[i] in p;
  }

  lemma CurieStart(p: string, local: string, rest: string)
    requires PlainPrefix(p)
    ensures var s := p + (":" + local) + rest; !Starts(s, '<') && !StartsTwo(s, '_', ':') && s[|p|] == ':'
  {
    hide Terminator;
    var s := p + (":" + local) + rest;
    assert forall i | 0 <= i < |p| :: s[i] == p[i] && p[i] in p;
    assert s[|p|] == ':';
    assert |p| == 1 ==> p == [p[0]];
    assert p != "" ==> s[0] == p[0];
    assert |p| > 1 ==> s[1] == p[1];
  }

  lemma FindName(name: string)
    ensures Find(name, Terminator) == |name| <==> NameFree(name)
  {
    hide IsSpace;
    assert forall i | 0 <= i < |name| :: name[i] in name;
  }

  lemma ColonGoesOn()
    ensures !Terminator(':') && Terminator(' ')
  {
  }

  lemma CurieToken(p: string, local: string, rest: string)
    requires PlainPrefix(p) && Spaced(rest)
    ensures Find(p + (":" + local) + rest, Terminator) == |p| + 1 + Find(local, Terminator)
  {
    hide Terminator, PlainPrefix;
    var s := p + (":" + local) + rest;
    var j := Find(local, Terminator);
    ColonGoesOn();
    PrefixGoesOn(p);
    Associate(p, ":" + local, rest);
    Associate(":", local, rest);
    FindAfter(p + ":", local + rest, j);
    Associate(p, ":", local + rest);
  }

  lemma PrefixGoesOn(p: string)
    requires PlainPrefix(p)
    ensures forall i | 0 <= i < |p| :: !Terminator(p[i])
  {
    hide Terminator;
    assert forall i | 0 <= i < |p| :: p[i] in p;
  }

  // The terminator of a word behind text without one.
  lemma FindAfter(before: string, s: string, j: nat)
    requires (forall i | 0 <= i < |before| :: !Terminator(before[i])) && j < |s| && Terminator(s[j])
    requires forall i | 0 <= i < j :: !Terminator(s[i])
    ensures Find(before + s, Terminator) == |before| + j
  {
    hide Terminator;
    var all := before + s;
    assert all[|before| + j] == s[j];
    forall i | 0 <= i < |before| + j ensures !Terminator(all[i]) {
      assert i >= |before| ==> all[i] == s[i - |before|];
    }
    FindAt(all, Terminator, |before| + j);
  }

  // An IRI as written comes back exactly when it is kept.
  lemma IriReads(v: Vocabulary, iri: string, rest: string)
    requires Spelt(v, iri) && Spaced(rest)
    ensures var r := ReadTerm(Bound(map[], v), IriText(v, iri) + rest);
            && r.Ok? && r.value.0.IriTerm?
            && (IriKept(v, iri) ==> r == Ok((IriTerm(iri), rest)))
            && (!IriKept(v, iri) ==> r.value.0.iri != iri)
  {
    hide PlainPrefix, Spaced, Bound, ReadTerm, NameFree;
    var m := Bound(map[], v);
    match Chosen(v, iri) {
      case Some(ns) =>
        BoundHas(map[], v, ns);
        CurieReads(m, ns, LocalPart(ns, iri), rest);
        assert ns.base + LocalPart(ns, iri) == iri;
      case None =>
        AngledReads(m, iri, rest);
    }
  }

  lemma SubjectReads(v: Vocabulary, s: Subject, rest: string)
    requires SubjectSpelt(v, s) && Spaced(rest)
    ensures var r := ReadSubject(Bound(map[], v), SubjectText(v, s) + rest);
            && r.Ok?
            && (SubjectKept(v, s) ==> r == Ok((s, rest)))
            && (!SubjectKept(v, s) ==> r.value.0 != s)
  {
    hide Spelt, Spaced, Bound, ReadTerm, NameFree, IriKept, IriText;
    match s {
      case IriSubject(iri) => IriReads(v, iri, rest);
      case BlankSubject(name) => BlankReads(Bound(map[], v), name, rest);
    }
  }

  // ----- Literals -----

  lemma EscapeReads(c: char, s: string)
    ensures ReadLexical(EscapeChar(c) + s) == Prepend(Latin1(c), ReadLexical(s))
  {
    hide Latin1;
    var e := EscapeChar(c);
    var x := e + s;
    if |e| == 2 {
      assert x[2..] == s;
      AsciiEscapes(c);
    } else {
      assert x[1..] == s;
    }
  }

  lemma AsciiEscapes(c: char)
    requires |EscapeChar(c)| == 2
    ensures Latin1(c) == [c] && Latin1('\\') == "\\" && Latin1('"') == "\""
  {
  }

  lemma {:induction false} LexicalReads(lexical: string, rest: string)
    ensures ReadLexical(Escaped(lexical) + ("\"" + rest)) == Ok((AsBytes(lexical), rest))
  {
    hide EscapeChar, Latin1;
    if lexical == [] {
      assert Escaped(lexical) + ("\"" + rest) == "\"" + rest;
      assert ("\"" + rest)[1..] == rest;
    } else {
      LexicalReads(lexical[1..], rest);
      EscapeReads(lexical[0], Escaped(lexical[1..]) + ("\"" + rest));
      Associate(EscapeChar(lexical[0]), Escaped(lexical[1..]), "\"" + rest);
    }
  }

  lemma LanguageReads(m: Bindings, lexical: string, language: string, rest: string)
    requires Spaced(rest)
    ensures var r := ReadTag(m, lexical, "@" + language + rest);
            && r.Ok? && r.value.0.LiteralTerm? && r.value.0.lexical == lexical && r.value.0.kind == LANG_STRING
            && (NameFree(language) ==> r.value == (LiteralTerm(lexical, LANG_STRING, Some(language)), rest))
            && (!NameFree(language) ==> r.value.0.language != Some(language))
  {
    hide NameFree, Terminator, Spaced;
    var s := "@" + language + rest;
    assert s[1..] == language + rest && Starts(s, '@');
    NameReads(language, rest);
  }

  lemma DatatypeReads(v: Vocabulary, lexical: string, kind: string, rest: string)
    requires Spelt(v, kind) && Spaced(rest)
    ensures var r := ReadTag(Bound(map[], v), lexical, "^^" + IriText(v, kind) + rest);
            && r.Ok? && r.value.0.LiteralTerm? && r.value.0.lexical == lexical
            && (IriKept(v, kind) ==> r.value == (LiteralTerm(lexical, kind, None), rest))
            && (!IriKept(v, kind) ==> r.value.0.kind != kind)
  {
    hide Spelt, IriKept, IriText, Bound, Spaced, ReadTerm;
    var s := "^^" + IriText(v, kind) + rest;
    assert s[0] == '^' && !Starts(s, '@') && StartsTwo(s, '^', '^') && s[2..] == IriText(v, kind) + rest;
    IriReads(v, kind, rest);
  }

  lemma TagReads(v: Vocabulary, lexical: string, kind: string, language: Option<string>, rest: string)
    requires TagSpelt(v, kind, language) && Spaced(rest)
    ensures var r := ReadTag(Bound(map[], v), lexical, TagText(v, kind, language) + rest);
            && r.Ok? && r.value.0.LiteralTerm? && r.value.0.lexical == lexical
            && (TagKept(v, kind, language) ==> r.value == (LiteralTerm(lexical, kind, language), rest))
            && (!TagKept(v, kind, language) ==> r.value.0.kind != kind || r.value.0.language != language)
  {
    hide Spelt, IriKept, IriText, Bound, NameFree;
    if language.Some? {
      LanguageReads(Bound(map[], v), lexical, language.value, rest);
    } else if kind == XSD_STRING {
      assert "" + rest == rest && rest[0] == ' ';
    } else {
      DatatypeReads(v, lexical, kind, rest);
    }
  }

  lemma QuotedShape(e: string, tag: string, rest: string)
    ensures var s := "\"" + (e + ("\"" + tag)) + rest; Starts(s, '"') && s[1..] == e + ("\"" + (tag + rest))
  {
    Associate("\"", e + ("\"" + tag), rest);
    Associate(e, "\"" + tag, rest);
    Associate("\"", tag, rest);
  }

  lemma LiteralReads(v: Vocabulary, o: Object, rest: string)
    requires o.Literal? && ObjectSpelt(v, o) && Spaced(rest)
    ensures var r := ReadObject(Bound(map[], v), ObjectText(v, o) + rest);
            && r.Ok?
            && (ObjectKept(v, o) ==> r == Ok((ObjectTerm(o), rest)))
            && (!ObjectKept(v, o) ==> r.value.0 != ObjectTerm(o))
  {
    hide Spelt, Bound, Escaped, AsBytes, ReadLexical, TagText, ReadTag, TagKept, Spaced;
    var tag := TagText(v, o.kind, o.language);
    QuotedShape(Escaped(o.lexical), tag, rest);
    LexicalReads(o.lexical, tag + rest);
    TagReads(v, AsBytes(o.lexical), o.kind, o.language, rest);
    AsBytesExact(o.lexical);
  }

  // The text differs from the directive keyword within its own length, so nothing that follows it can
  // make it one.
  ghost predicate NoDirective(w: string) {
    exists i | 0 <= i < 7 && i < |w| :: w[i] != "@prefix"[i]
  }

  // How a word that begins with a prefix and its colon begins.
  lemma CompactStarts(p: string, w: string)
    requires PlainPrefix(p) && |w| > |p| && w[..|p|] == p && w[|p|] == ':'
    ensures !Blank(w[0]) && w[0] != '"' && !(|w| > 1 && w[0] == 'a' && IsSpace(w[1])) && w != "a"
    ensures NoDirective(w)
  {
    hide IsSpace;
    assert !IsSpace(':') by {
      ColonGoesOn();
    }
    assert forall i | 0 <= i < |p| :: w[i] == p[i] && p[i] in p;
    if |p| < 7 {
      assert "@prefix"[|p|] in "@prefix";
    } else {
      assert p[..7] != "@prefix";
      assert exists i | 0 <= i < 7 :: p[..7][i] != "@prefix"[i];
    }
  }

  // No word of the writer but a literal starts with a quotation mark, and none is a directive.
  lemma WordStarts(v: Vocabulary, iri: string)
    requires Spelt(v, iri)
    ensures var w := IriText(v, iri);
            w != [] && !Blank(w[0]) && w[0] != '"' && NoDirective(w)
            && !(|w| > 1 && w[0] == 'a' && IsSpace(w[1])) && w != "a"
  {
    hide PlainPrefix, Compacts;
    match Chosen(v, iri) {
      case Some(ns) =>
        var w := IriText(v, iri);
        CompactStarts(ns.prefix, w);
      case None =>
        assert IriText(v, iri)[0] != "@prefix"[0];
    }
  }

  lemma ObjectReads(v: Vocabulary, o: Object, rest: string)
    requires ObjectSpelt(v, o) && Spaced(rest)
    ensures var r := ReadObject(Bound(map[], v), ObjectText(v, o) + rest);
            && r.Ok?
            && (ObjectKept(v, o) ==> r == Ok((ObjectTerm(o), rest)))
            && (!ObjectKept(v, o) ==> r.value.0 != ObjectTerm(o))
  {
    hide Spelt, Bound, ReadLexical, ReadTerm, TagText, ReadTag, TagKept, Spaced, IriText, IriKept, NameFree;
    match o {
      case IriObject(iri) =>
        WordStarts(v, iri);
        IriReads(v, iri, rest);
        assert (IriText(v, iri) + rest)[0] == IriText(v, iri)[0];
      case BlankObject(name) =>
        BlankReads(Bound(map[], v), name, rest);
        assert ("_:" + name + rest)[0] == '_';
      case Literal(_, _, _) =>
        LiteralReads(v, o, rest);
    }
  }

  // ----- Statements -----

  lemma SkipSpace(s: string)
    requires s != [] && !Blank(s[0])
    ensures SkipBlank(" " + s) == s && SkipBlank(s) == s
  {
    hide Blank;
    SpaceIsBlank();
    FindAt(s, Solid, 0);
    FindAt(" " + s, Solid, 1);
    assert (" " + s)[1..] == s;
  }

  lemma SpaceIsBlank()
    ensures Blank(' ')
  {
  }

  lemma ObjectStarts(v: Vocabulary, o: Object)
    requires ObjectSpelt(v, o)
    ensures ObjectText(v, o) != [] && !Blank(ObjectText(v, o)[0])
  {
    hide IriText, TagText, Spelt, Escaped;
    if o.IriObject? {
      WordStarts(v, o.iri);
    }
  }

  lemma SubjectStarts(v: Vocabulary, s: Subject)
    requires SubjectSpelt(v, s)
    ensures SubjectText(v, s) != [] && !Blank(SubjectText(v, s)[0]) && NoDirective(SubjectText(v, s))
  {
    hide IriText, Spelt;
    if s.IriSubject? {
      WordStarts(v, s.iri);
    } else {
      assert SubjectText(v, s)[0] != "@prefix"[0];
    }
  }

  lemma PredicateReads(v: Vocabulary, iri: string, rest: string)
    requires Spelt(v, iri) && Spaced(rest)
    ensures var r := ReadPredicate(Bound(map[], v), IriText(v, iri) + rest);
            && r.Ok?
            && (IriKept(v, iri) ==> r == Ok((iri, rest)))
            && (!IriKept(v, iri) ==> r.value.0 != iri)
  {
    hide Spelt, Bound, ReadTerm, IriText, IriKept;
    WordStarts(v, iri);
    IriReads(v, iri, rest);
    var s := IriText(v, iri) + rest;
    assert s[0] == IriText(v, iri)[0];
    assert |IriText(v, iri)| > 1 ==> s[1] == IriText(v, iri)[1];
    assert Starts(s, 'a') && |IriText(v, iri)| == 1 ==> IriText(v, iri) == "a";
  }

  // The first triple of a predicate-object list is made of the first predicate and object read.
  lemma FirstTriple(m: Bindings, subj: Subject, s: string)
    requires ReadPredicates(m, subj, s).Ok?
    ensures var p := ReadPredicate(m, SkipBlank(s));
            && p.Ok?
            && var o := ReadObject(m, SkipBlank(p.value.1));
            && o.Ok?
            && var ts := ReadPredicates(m, subj, s).value.0;
            && ts != [] && ts[0] == Triple(subj, p.value.0, TermObject(o.value.0))
  {
    hide ReadPredicate, ReadObject, SkipBlank, ReadEnding;
  }

  // One predicate with one object, up to the full stop.
  lemma StoppedReads(m: Bindings, subj: Subject, s: string, pred: string, s2: string, o: Object, rest: string)
    requires ReadPredicate(m, SkipBlank(s)) == Ok((pred, s2))
    requires ReadObject(m, SkipBlank(s2)) == Ok((ObjectTerm(o), " .\n" + rest))
    ensures ReadPredicates(m, subj, s) == Ok(([Triple(subj, pred, o)], "\n" + rest))
  {
    hide ReadPredicate, ReadObject, SkipBlank, Blank, ReadPredicates, ReadObjects, ReadEnding;
    var stop := ".\n" + rest;
    assert " .\n" + rest == " " + stop;
    StopIsNotBlank();
    SkipSpace(stop);
    ObjectsUnfold(m, subj, pred, s2);
    assert ReadObjects(m, subj, pred, s2) == Ok(([Triple(subj, pred, o)], stop));
    StopEnds(rest);
    PredicatesUnfold(m, subj, s);
  }

  lemma StopEnds(rest: string)
    ensures ReadEnding(".\n" + rest) == FullStop("\n" + rest)
  {
    hide SkipBlank, Blank;
    var stop := ".\n" + rest;
    StopIsNotBlank();
    SkipSpace(stop);
    assert stop[1..] == "\n" + rest;
  }

  lemma StopIsNotBlank()
    ensures !Blank('.')
  {
  }

  lemma SubjectAgrees(m: Bindings, s: string)
    requires ReadStatement(m, s).Ok?
    ensures ReadSubject(m, s).Ok? && ReadStatement(m, s).value.0 != []
    ensures ReadStatement(m, s).value.0[0].subj == ReadSubject(m, s).value.0
  {
    hide ReadSubject, ReadPredicates;
    var subj := ReadSubject(m, s);
    FirstTriple(m, subj.value.0, subj.value.1);
  }

  // The predicate and object of a written triple.
  lemma PairReads(v: Vocabulary, subj: Subject, pred: string, o: Object, rest: string)
    requires Spelt(v, pred) && ObjectSpelt(v, o)
    ensures var r := ReadPredicates(Bound(map[], v), subj,
                                    " " + (IriText(v, pred) + (" " + (ObjectText(v, o) + (" .\n" + rest)))));
            && (IriKept(v, pred) && ObjectKept(v, o) ==> r == Ok(([Triple(subj, pred, o)], "\n" + rest)))
            && (!(IriKept(v, pred) && ObjectKept(v, o)) ==>
                  r.Err? || (r.value.0 != [] && (r.value.0[0].pred != pred || r.value.0[0].obj != o)))
  {
    hide Spelt, Bound, ReadPredicate, ReadObject, ReadPredicates, IriText, ObjectText, IriKept, ObjectKept;
    var m := Bound(map[], v);
    var end := " .\n" + rest;
    var fromObject := ObjectText(v, o) + end;
    var s2 := " " + fromObject;
    var fromPredicate := IriText(v, pred) + s2;
    var s := " " + fromPredicate;
    WordStarts(v, pred);
    ObjectStarts(v, o);
    SkipSpace(fromPredicate);
    SkipSpace(fromObject);
    PredicateReads(v, pred, s2);
    ObjectReads(v, o, end);
    if IriKept(v, pred) && ObjectKept(v, o) {
      StoppedReads(m, subj, s, pred, s2, o, rest);
    } else if ReadPredicates(m, subj, s).Ok? {
      FirstTriple(m, subj, s);
      TermAndObject(o);
    }
  }

  lemma TermAndObject(o: Object)
    ensures forall t: Term :: TermObject(t) == o <==> t == ObjectTerm(o)
  {
  }

  lemma TripleShape(v: Vocabulary, t: Triple, end: string)
    ensures TripleText(v, t) + end
            == SubjectText(v, t.subj) + (" " + (IriText(v, t.pred) + (" " + (ObjectText(v, t.obj) + end))))
  {
    hide SubjectText, IriText, ObjectText;
    var s, p, o := SubjectText(v, t.subj), IriText(v, t.pred), ObjectText(v, t.obj);
    Associate(" ", o, end);
    Associate(p, " " + o, end);
    Associate(" ", p + (" " + o), end);
    Associate(s, " " + (p + (" " + o)), end);
  }

  // A written triple comes back, and alone, exactly when it is kept.
  lemma TripleReads(v: Vocabulary, t: Triple, rest: string)
    requires TripleSpelt(v, t)
    ensures var r := ReadStatement(Bound(map[], v), TripleText(v, t) + (" .\n" + rest));
            && (Kept(v, t) ==> r == Ok(([t], "\n" + rest)))
            && (!Kept(v, t) ==> r.Err? || (r.value.0 != [] && r.value.0[0] != t))
  {
    hide Spelt, Bound, ReadSubject, ReadPredicates, SubjectText, IriText, ObjectText, SubjectKept;
    hide IriKept, ObjectKept, TripleText;
    var m := Bound(map[], v);
    var tail := " " + (IriText(v, t.pred) + (" " + (ObjectText(v, t.obj) + (" .\n" + rest))));
    TripleShape(v, t, " .\n" + rest);
    SubjectReads(v, t.subj, tail);
    if SubjectKept(v, t.subj) {
      PairReads(v, t.subj, t.pred, t.obj, rest);
    } else if ReadStatement(m, SubjectText(v, t.subj) + tail).Ok? {
      SubjectAgrees(m, SubjectText(v, t.subj) + tail);
    }
  }

  // ----- Documents -----

  lemma BodyStarts(v: Vocabulary, ts: seq<Triple>)
    requires forall i | 0 <= i < |ts| :: TripleSpelt(v, ts[i])
    ensures ts != [] ==> Body(v, ts) != [] && !Blank(Body(v, ts)[0]) && NoDirective(Body(v, ts))
  {
    hide Spelt, SubjectText, IriText, ObjectText;
    if ts != [] {
      SubjectStarts(v, ts[0].subj);
    }
  }

  lemma SkipNewline(s: string)
    ensures SkipBlank("\n" + s) == SkipBlank(s)
  {
    var t := "\n" + s;
    assert t[1..] == s;
    NewlineIsBlank();
    SkipOne(t);
  }

  lemma NewlineIsBlank()
    ensures Blank('\n')
  {
  }

  lemma SkipOne(s: string)
    requires s != [] && Blank(s[0])
    ensures SkipBlank(s) == SkipBlank(s[1..])
  {
    hide Blank;
    var n := Find(s[1..], Solid);
    FindAt(s, Solid, n + 1);
  }

  lemma ReadAllFrom(m: Bindings, s: string)
    ensures ReadAll(m, "\n" + s) == ReadAll(m, s)
  {
    hide ReadStatement, SkipBlank;
    SkipNewline(s);
  }

  lemma OneThenRest(v: Vocabulary, ts: seq<Triple>)
    requires ts != []
    ensures (forall i | 0 <= i < |ts| :: Kept(v, ts[i]))
            <==> Kept(v, ts[0]) && forall i | 0 <= i < |ts[1..]| :: Kept(v, ts[1..][i])
  {
    hide Kept;
    assert forall i | 0 < i < |ts| :: ts[i] == ts[1..][i - 1];
    assert forall i | 0 <= i < |ts[1..]| :: ts[1..][i] == ts[i + 1];
  }

  lemma {:induction false} BodyExact(v: Vocabulary, ts: seq<Triple>)
    requires forall i | 0 <= i < |ts| :: TripleSpelt(v, ts[i])
    ensures ReadAll(Bound(map[], v), Body(v, ts)) == Ok(ts) <==> forall i | 0 <= i < |ts| :: Kept(v, ts[i])
    decreases |ts|
  {
    hide TripleSpelt, Bound, ReadStatement, TripleText, Kept;
    var m := Bound(map[], v);
    if ts != [] {
      var t, rest := ts[0], ts[1..];
      assert forall i | 0 <= i < |rest| :: rest[i] == ts[i + 1];
      BodyExact(v, rest);
      BodyStarts(v, ts);
      TripleReads(v, t, Body(v, rest));
      ReadAllFrom(m, Body(v, rest));
      OneThenRest(v, ts);
      assert SkipBlank(Body(v, ts)) == Body(v, ts);
      assert ts == [t] + rest;
      FollowingFirst(ReadStatement(m, Body(v, ts)), t, ReadAll(m, Body(v, rest)), ts);
    }
  }

  // What the statements after the first contribute.
  lemma FollowingFirst(x: Statements, t: Triple, r: Result<seq<Triple>, TurtleError>, ts: seq<Triple>)
    requires ts != [] && ts[0] == t
    ensures Following([t], r) == Ok(ts) <==> r == Ok(ts[1..])
    ensures x.Ok? && x.value.0 != [] && x.value.0[0] != t ==> forall r2 :: Following(x.value.0, r2) != Ok(ts)
  {
    assert ts == [t] + ts[1..];
    if r.Ok? {
      assert ([t] + r.value)[1..] == r.value;
    }
    if x.Ok? && x.value.0 != [] && x.value.0[0] != t {
      forall r2: Result<seq<Triple>, TurtleError> | r2.Ok? ensures Following(x.value.0, r2) != Ok(ts) {
        assert (x.value.0 + r2.value)[0] == x.value.0[0];
      }
    }
  }

  // ----- The header -----

  lemma StopReads(ns: Namespace, tail: string)
    ensures ReadStop(ns, " .\n" + tail) == Ok((ns, "\n" + tail))
  {
    var stop := ".\n" + tail;
    assert " .\n" + tail == " " + stop && stop[1..] == "\n" + tail;
    SkipSpace(stop);
  }

  lemma CloseReads(ns: Namespace, tail: string)
    requires '>' !in ns.base
    ensures ReadClose(ns.prefix, ns.base + ("> .\n" + tail)) == Ok((ns, "\n" + tail))
  {
    hide ReadStop;
    var s := ns.base + ("> .\n" + tail);
    FindAt(s, IsClose, |ns.base|);
    assert s[..|ns.base|] == ns.base && s[|ns.base| + 1..] == " .\n" + tail;
    StopReads(ns, tail);
  }

  lemma BaseReads(ns: Namespace, tail: string)
    requires '>' !in ns.base
    ensures ReadBase(ns.prefix, " <" + (ns.base + ("> .\n" + tail))) == Ok((ns, "\n" + tail))
  {
    hide ReadClose;
    var open := "<" + (ns.base + ("> .\n" + tail));
    assert " <" + (ns.base + ("> .\n" + tail)) == " " + open;
    assert open[1..] == ns.base + ("> .\n" + tail);
    SkipSpace(open);
    CloseReads(ns, tail);
  }

  lemma PrefixReads(ns: Namespace, tail: string)
    requires ReadablePrefix(ns.prefix) && '>' !in ns.base
    ensures ReadPrefix(" " + (ns.prefix + (": <" + (ns.base + ("> .\n" + tail))))) == Ok((ns, "\n" + tail))
  {
    hide ReadBase, Trim, SkipBlank, Blank;
    var p := ns.prefix;
    var after := " <" + (ns.base + ("> .\n" + tail));
    var named := p + (":" + after);
    assert ": <" + (ns.base + ("> .\n" + tail)) == ":" + after;
    ColonIsSolid();
    assert p != "" ==> named[0] == p[0];
    SkipSpace(named);
    assert forall i | 0 <= i < |p| :: named[i] == p[i] && p[i] in p;
    FindAt(named, IsColon, |p|);
    assert named[..|p|] == p && named[|p| + 1..] == after;
    BaseReads(ns, tail);
  }

  lemma ColonIsSolid()
    ensures !Blank(':')
  {
  }

  lemma LineShape(ns: Namespace, tail: string)
    ensures var s := PrefixLine(ns) + tail;
            "@prefix" <= s && s[7..] == " " + (ns.prefix + (": <" + (ns.base + ("> .\n" + tail)))) && !Blank(s[0])
  {
    var p, b := ns.prefix, ns.base;
    Associate(b, "> .\n", tail);
    Associate(": <", b + "> .\n", tail);
    Associate(p, ": <" + (b + "> .\n"), tail);
    Associate("@prefix ", p + (": <" + (b + "> .\n")), tail);
    assert "@prefix " == "@prefix" + " ";
    Associate("@prefix", " ", p + (": <" + (b + ("> .\n" + tail))));
    assert (PrefixLine(ns) + tail)[0] == '@';
  }

  lemma DirectivesFrom(m: Bindings, s: string)
    ensures ReadDirectives(m, "\n" + s) == ReadDirectives(m, s)
  {
    hide ReadPrefix, SkipBlank;
    SkipNewline(s);
  }

  // The directives of the header bind the whole vocabulary, and reading stops at the body.
  lemma {:induction false} HeaderReads(m: Bindings, v: Vocabulary, body: string)
    requires HeaderPlain(v) && (body == "" || (!Blank(body[0]) && NoDirective(body)))
    ensures ReadDirectives(m, Header(v) + ("\n" + body)) == Ok((Bound(m, v), body))
    decreases |v|
  {
    hide ReadablePrefix, Blank, ReadPrefix, PrefixLine, SkipBlank;
    if v == [] {
      assert Header(v) + ("\n" + body) == "\n" + body;
      DirectivesFrom(m, body);
      NotBlankStays(body);
    } else {
      var ns := v[0];
      var tail := Header(v[1..]) + ("\n" + body);
      var s := PrefixLine(ns) + tail;
      Associate(PrefixLine(ns), Header(v[1..]), "\n" + body);
      LineShape(ns, tail);
      NotBlankStays(s);
      PrefixReads(ns, tail);
      DirectivesFrom(m[ns.prefix := ns.base], tail);
      assert forall i | 0 <= i < |v[1..]| :: v[1..][i] == v[i + 1];
      HeaderReads(m[ns.prefix := ns.base], v[1..], body);
    }
  }

  lemma NotBlankStays(s: string)
    ensures s == "" || !Blank(s[0]) ==> SkipBlank(s) == s
  {
    hide Blank;
  }

  // ----- Exactly which headers can be read back -----

  ghost predicate ReadableBindings(m: Bindings) {
    forall p | p in m :: ReadablePrefix(p) && '>' !in m[p]
  }

  lemma TrimmedReadable(x: string)
    requires ':' !in x && (x != "" ==> !Blank(x[0]))
    ensures ReadablePrefix(Trim(x))
  {
    var t := TrimEnd(x);
    assert t == x[..|t|];
    assert t != "" ==> t[0] == x[0] && !IsSpace(t[0]);
    assert TrimStart(t) == t && TrimEnd(t) == t;
    assert forall c | c in t :: c in x;
  }

  lemma StopKeeps(ns: Namespace, s: string)
    ensures ReadStop(ns, s).Ok? ==> ReadStop(ns, s).value.0 == ns
  {
  }

  lemma CloseReadable(prefix: string, s: string)
    ensures ReadClose(prefix, s).Ok? ==>
              ReadClose(prefix, s).value.0.prefix == prefix && '>' !in ReadClose(prefix, s).value.0.base
  {
    hide ReadStop;
    var close := Find(s, IsClose);
    if close < |s| {
      StopKeeps(Namespace(prefix, s[..close]), s[close + 1..]);
      assert forall i | 0 <= i < close :: !IsClose(s[i]);
    }
  }

  lemma BaseReadable(prefix: string, s: string)
    ensures ReadBase(prefix, s).Ok? ==>
              ReadBase(prefix, s).value.0.prefix == prefix && '>' !in ReadBase(prefix, s).value.0.base
  {
    hide ReadClose, SkipBlank;
    var open := SkipBlank(s);
    if Starts(open, '<') {
      CloseReadable(prefix, open[1..]);
    }
  }

  // Whatever a directive binds could be written.
  lemma PrefixReadable(s: string)
    ensures ReadPrefix(s).Ok? ==>
              ReadablePrefix(ReadPrefix(s).value.0.prefix) && '>' !in ReadPrefix(s).value.0.base
  {
    hide ReadBase, ReadablePrefix, Trim, Blank;
    PrefixUnfold(s);
    var s2 := SkipBlank(s);
    var colon := Find(s2, IsColon);
    if colon < |s2| {
      var x := s2[..colon];
      assert forall i | 0 <= i < colon :: !IsColon(s2[i]);
      TrimmedReadable(x);
      BaseReadable(Trim(x), s2[colon + 1..]);
    }
  }

  lemma {:induction false} DirectivesReadable(m: Bindings, s: string)
    requires ReadableBindings(m)
    ensures ReadDirectives(m, s).Ok? ==> ReadableBindings(ReadDirectives(m, s).value.0)
    decreases |s|
  {
    hide ReadPrefix, SkipBlank, ReadablePrefix, ReadDirectives;
    DirectivesUnfold(m, s);
    var start := SkipBlank(s);
    if "@prefix" <= start {
      PrefixReadable(start[7..]);
      var p := ReadPrefix(start[7..]);
      if p.Ok? {
        DirectivesReadable(m[p.value.0.prefix := p.value.0.base], p.value.1);
      }
    }
  }

  // The header gives its bindings back exactly when every prefix is free of colons and of blanks at its
  // ends, and no base holds a closing angle bracket.
  lemma HeaderExact(v: Vocabulary, body: string)
    requires DistinctPrefixes(v) && (body == "" || (!Blank(body[0]) && NoDirective(body)))
    ensures ReadDirectives(map[], Header(v) + ("\n" + body)) == Ok((Bound(map[], v), body)) <==> HeaderPlain(v)
  {
    hide ReadDirectives, Header, Bound, ReadablePrefix, DistinctPrefixes, Blank;
    if HeaderPlain(v) {
      HeaderReads(map[], v, body);
    }
    if ReadDirectives(map[], Header(v) + ("\n" + body)) == Ok((Bound(map[], v), body)) {
      DirectivesReadable(map[], Header(v) + ("\n" + body));
      forall i | 0 <= i < |v| ensures ReadablePrefix(v[i].prefix) && '>' !in v[i].base {
        BoundHas(map[], v, v[i]);
      }
    }
  }

  // The main theorem: if the header can be read back and the prefixes in use are spelt plainly, a
  // written document parses back to its triples, in order, exactly when each triple is kept: angled
  // IRIs without `>`, no white space, `.`, `;` or `,` in the local part of a compacted IRI, a blank
  // label or a language tag, `rdf:langString` wherever a language is set, and ASCII literals.
  lemma DocumentExact(vocabulary: Vocabulary, ts: seq<Triple>)
    requires DistinctPrefixes(vocabulary) && HeaderPlain(vocabulary)
    requires forall i | 0 <= i < |ts| :: TripleSpelt(Effective(vocabulary), ts[i])
    ensures ParsedDocument(DocumentText(vocabulary, ts)) == Ok(ts)
            <==> forall i | 0 <= i < |ts| :: Kept(Effective(vocabulary), ts[i])
  {
    hide HeaderPlain, TripleSpelt, Body, Header, Kept, ReadAll, ReadDirectives, Bound, Blank;
    var v := Effective(vocabulary);
    StandardIsPlain();
    EmptyBodyText(v);
    BodyStarts(v, ts);
    HeaderReads(map[], v, Body(v, ts));
    BodyExact(v, ts);
  }

  lemma EmptyBodyText(v: Vocabulary)
    ensures Body(v, []) == ""
  {
  }

  lemma WordIsPlain(p: string)
    requires p != "" && forall i | 0 <= i < |p| :: 'a' <= p[i] <= 'z'
    ensures PlainPrefix(p)
  {
    assert p != "_" by {
      assert p[0] != '_';
    }
    forall c | c in p ensures !Terminator(c) && c != ':' {
      var i :| 0 <= i < |p| && p[i] == c;
    }
  }

  lemma ShortBases()
    ensures '>' !in "http://www.w3.org/ns/org#" && '>' !in "http://www.w3.org/ns/prov#" && '>' !in "http://schema.org/"
  {
  }

  lemma OwlBase()
    ensures '>' !in "http://www.w3.org/2002/07/owl#" && '>' !in "http://www.w3.org/2000/01/rdf-schema#"
  {
  }

  lemma RdfBase()
    ensures '>' !in "http://www.w3.org/1999/02/22-rdf-syntax-ns#" && '>' !in "http://www.w3.org/2001/XMLSchema#"
  {
  }

  lemma PlainIsReadable(p: string)
    requires PlainPrefix(p)
    ensures ReadablePrefix(p)
  {
    assert forall i | 0 <= i < |p| :: p[i] in p;
    assert TrimEnd(p) == p && TrimStart(p) == p;
  }

  lemma StandardPrefixes()
    ensures forall i | 0 <= i < |STANDARD_BINDINGS| :: PlainPrefix(STANDARD_BINDINGS[i].prefix)
    ensures DistinctPrefixes(STANDARD_BINDINGS)
  {
    hide PlainPrefix;
    WordIsPlain("org");
    WordIsPlain("owl");
    WordIsPlain("prov");
    WordIsPlain("rdf");
    WordIsPlain("rdfs");
    WordIsPlain("schema");
    WordIsPlain("xsd");
  }

  lemma StandardBases()
    ensures forall i | 0 <= i < |STANDARD_BINDINGS| :: '>' !in STANDARD_BINDINGS[i].base
  {
    ShortBases();
    OwlBase();
    RdfBase();
  }

  lemma PlainHeader(v: Vocabulary)
    requires forall i | 0 <= i < |v| :: PlainPrefix(v[i].prefix) && '>' !in v[i].base
    ensures HeaderPlain(v)
  {
    hide PlainPrefix, ReadablePrefix;
    forall i | 0 <= i < |v| ensures ReadablePrefix(v[i].prefix) {
      PlainIsReadable(v[i].prefix);
    }
  }

  // The standard bindings: their header can be read back, and every triple is spelt plainly over them.
  lemma StandardIsPlain()
    ensures DistinctPrefixes(STANDARD_BINDINGS) && HeaderPlain(STANDARD_BINDINGS)
    ensures forall t: Triple :: TripleSpelt(STANDARD_BINDINGS, t)
  {
    hide PlainPrefix, HeaderPlain, DistinctPrefixes, TripleSpelt;
    StandardPrefixes();
    StandardBases();
    PlainHeader(STANDARD_BINDINGS);
    forall t: Triple ensures TripleSpelt(STANDARD_BINDINGS, t) {
      PlainSpells(STANDARD_BINDINGS, t);
    }
  }

  lemma PlainSpells(v: Vocabulary, t: Triple)
    requires DistinctPrefixes(v) && forall i | 0 <= i < |v| :: PlainPrefix(v[i].prefix)
    ensures TripleSpelt(v, t)
  {
    hide PlainPrefix, DistinctPrefixes;
  }
}
