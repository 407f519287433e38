// Exactly which triples survive writing as N-Triples and parsing back.

module NTriplesRoundTrip {
  import opened Wrappers
  import opened Rdf
  import opened NTriples

  predicate AngledFree(iri: string) { '>' !in iri && '\n' !in iri }

  predicate Unbroken(name: string) { forall c | c in name :: !EndsName(c) }

  // What the raw parts of a triple may contain. Literal text is escaped and needs no such condition.
  predicate PlainSubject(s: Subject) {
    match s
    case IriSubject(iri) => AngledFree(iri)
    case BlankSubject(name) => Unbroken(name)
  }

  predicate PlainTag(kind: string, language: Option<string>) {
    if language.Some? then Unbroken(language.value) && kind == LANG_STRING else AngledFree(kind)
  }

  predicate PlainObject(o: Object) {
    match o
    case IriObject(iri) => AngledFree(iri)
    case BlankObject(name) => Unbroken(name)
    case Literal(_, kind, language) => PlainTag(kind, language)
  }

  predicate Plain(t: Triple) {
    PlainSubject(t.subj) && AngledFree(t.pred) && PlainObject(t.obj)
  }

  predicate Preserved(t: Triple) {
    Plain(t) && (t.obj.Literal? ==> AllAscii(t.obj.lexical))
  }

  // The triple with its literal text read byte by byte.
  function ByteRead(t: Triple): Triple {
    if t.obj.Literal? then t.(obj := t.obj.(lexical := AsBytes(t.obj.lexical))) else t
  }

  // ----- Terms -----

  lemma AngledReads(iri: string, rest: string, error: NtError)
    requires '>' !in iri
    ensures ReadAngled("<" + iri + ">" + rest, error) == Ok((iri, rest))
  {
    var s := "<" + iri + ">" + rest;
    FindAt(s, IsClose, |iri| + 1);
    assert s[1..|iri| + 1] == iri && s[|iri| + 2..] == rest;
  }

  lemma NameReads(name: string, rest: string)
    requires Unbroken(name) && (rest == [] || EndsName(rest[0]))
    ensures Find(name + rest, EndsName) == |name|
    ensures (name + rest)[..|name|] == name && (name + rest)[|name|..] == rest
  {
    FindAt(name + rest, EndsName, |name|);
  }

  lemma EscapeReads(c: char, s: string)
    ensures ReadLexical(EscapeChar(c) + s) == Prepend(Latin1(c), ReadLexical(s))
  {
    hide Latin1;
    var e := EscapeChar(c);
    var x := e + s;
    if |e| == 2 {
      assert x[1..][1..] == s && x[1..] == [e[1]] + s;
      assert ReadEscape(x[1..]) == Ok(([c], 1));
      assert x[2..] == s;
      AsciiEscapes(c);
    } else {
      assert x[1..] == s;
    }
  }

  lemma AsciiEscapes(c: char)
    requires |EscapeChar(c)| == 2
    ensures Latin1(c) == [c]
  {
  }

  lemma {:induction false} LexicalReads(lexical: string, rest: string)
    ensures ReadLexical(Escaped(lexical) + ("\"" + rest)) == Ok((AsBytes(lexical), rest))
  {
    hide EscapeChar, Latin1;
    if lexical == [] {
      assert Escaped(lexical) + ("\"" + rest) == "\"" + rest;
      assert ("\"" + rest)[1..] == rest;
    } else {
      LexicalReads(lexical[1..], rest);
      EscapeReads(lexical[0], Escaped(lexical[1..]) + ("\"" + rest));
      assert Escaped(lexical) + ("\"" + rest) == EscapeChar(lexical[0]) + (Escaped(lexical[1..]) + ("\"" + rest));
    }
  }

  lemma LanguageReads(lexical: string, language: string, rest: string)
    requires Unbroken(language) && (rest == [] || EndsName(rest[0]))
    ensures ReadTag(lexical, "@" + language + rest) == Ok((LiteralTerm(lexical, LANG_STRING, Some(language)), rest))
  {
    hide Unbroken, IsSpace;
    var s := "@" + language + rest;
    assert s[1..] == language + rest && "@" <= s;
    NameReads(language, rest);
  }

  lemma DatatypeReads(lexical: string, kind: string, rest: string)
    requires AngledFree(kind)
    ensures ReadTag(lexical, "^^<" + kind + ">" + rest) == Ok((LiteralTerm(lexical, kind, None), rest))
  {
    hide Find, ReadAngled;
    var s, dt := "^^<" + kind + ">" + rest, "<" + kind + ">" + rest;
    assert s[0] == '^' && "^^" <= s && !("@" <= s);
    assert s[2..] == dt && dt[0] == '<';
    assert TrimStart(dt) == dt;
    AngledReads(kind, rest, UnterminatedIri);
  }

  lemma TagReads(lexical: string, kind: string, language: Option<string>, rest: string)
    requires PlainTag(kind, language)
    requires rest == [] || EndsName(rest[0])
    ensures ReadTag(lexical, TagText(kind, language) + rest) == Ok((LiteralTerm(lexical, kind, language), rest))
  {
    hide ReadTag, Unbroken, AngledFree;
    if language.Some? {
      LanguageReads(lexical, language.value, rest);
    } else {
      DatatypeReads(lexical, kind, rest);
    }
  }

  lemma QuotedShape(e: string, tag: string, rest: string)
    ensures var s := "\"" + (e + ("\"" + tag)) + rest;
            s != [] && s[0] == '"' && !("_:" <= s) && s[1..] == e + ("\"" + (tag + rest))
  {
    Associate("\"", e + ("\"" + tag), rest);
    Associate(e, "\"" + tag, rest);
    Associate("\"", tag, rest);
  }

  lemma LiteralReads(o: Object, rest: string)
    requires o.Literal? && PlainObject(o) && (rest == [] || EndsName(rest[0]))
    ensures ReadTerm(ObjectText(o) + rest) == Ok((LiteralTerm(AsBytes(o.lexical), o.kind, o.language), rest))
  {
    hide Escaped, AsBytes, ReadLexical, TagText, ReadTag, PlainTag, EndsName;
    var tag := TagText(o.kind, o.language);
    QuotedShape(Escaped(o.lexical), tag, rest);
    LexicalReads(o.lexical, tag + rest);
    TagReads(AsBytes(o.lexical), o.kind, o.language, rest);
  }

  // An object reads back byte by byte, up to what follows it.
  lemma ObjectReads(o: Object, rest: string)
    requires PlainObject(o) && (rest == [] || EndsName(rest[0]))
    ensures ReadTerm(ObjectText(o) + rest)
            == Ok((if o.Literal? then ObjectTerm(o.(lexical := AsBytes(o.lexical))) else ObjectTerm(o), rest))
  {
    hide AsBytes, ReadLexical, ReadTag, Unbroken, EndsName, PlainTag, Escaped;
    match o {
      case IriObject(iri) =>
        AngledReads(iri, rest, UnterminatedIri);
      case BlankObject(name) =>
        assert (ObjectText(o) + rest)[2..] == name + rest;
        NameReads(name, rest);
      case Literal(_, _, _) =>
        LiteralReads(o, rest);
    }
  }

  lemma SubjectReads(b: Subject, rest: string)
    requires PlainSubject(b) && (rest == [] || EndsName(rest[0]))
    ensures ReadTerm(SubjectText(b) + rest) == Ok((SubjectTerm(b), rest))
  {
    match b {
      case IriSubject(iri) => AngledReads(iri, rest, UnterminatedIri);
      case BlankSubject(name) =>
        assert (SubjectText(b) + rest)[2..] == name + rest;
        NameReads(name, rest);
    }
  }

  // ----- One triple -----

  lemma ObjectEndsSolid(o: Object)
    requires PlainObject(o)
    ensures ObjectText(o) != [] && !IsSpace(ObjectText(o)[|ObjectText(o)| - 1])
  {
    match o {
      case IriObject(iri) =>
      case BlankObject(name) =>
        if name != [] {
          assert name[|name| - 1] in name;
        }
      case Literal(lexical, kind, language) =>
        var tag := TagText(kind, language);
        assert ObjectText(o)[|ObjectText(o)| - 1] == tag[|tag| - 1];
        if language.Some? && language.value != [] {
          assert language.value[|language.value| - 1] in language.value;
        }
    }
  }

  lemma SubjectStartsSolid(b: Subject, rest: string)
    ensures var s := SubjectText(b) + rest; s != [] && !IsSpace(s[0]) && s[0] != '#'
  {
  }

  lemma TrimOne(s: string)
    requires s != [] && !IsSpace(s[0]) && !IsSpace(s[|s| - 1])
    ensures Trim(s) == s && TrimEnd(s) == s && TrimStart(s) == s && Trim(s + " ") == s
  {
    assert (s + " ")[..|s|] == s;
    assert TrimEnd(s + " ") == TrimEnd(s);
  }

  // The steps of `parse_triple` on a well-shaped line.
  lemma ReadTripleSteps(line: string, t: Triple, afterSubj: string, afterPred: string, obj: Term, afterObj: string)
    requires line != [] && line[|line| - 1] == '.' && TrimEnd(line) == line
    requires ReadTerm(Trim(line[..|line| - 1])) == Ok((SubjectTerm(t.subj), afterSubj))
    requires ReadTerm(TrimStart(afterSubj)) == Ok((IriTerm(t.pred), afterPred))
    requires ReadTerm(TrimStart(afterPred)) == Ok((obj, afterObj)) && Trim(afterObj) == []
    ensures ReadTriple(line) == Ok(Triple(t.subj, t.pred, TermObject(obj)))
  {
    hide ReadTerm, Trim, TrimStart, TrimEnd;
  }

  lemma LineShape(s: string, p: string, o: string)
    requires s != [] && o != [] && !IsSpace(s[0]) && !IsSpace(o[|o| - 1])
    ensures var core, line := s + (" " + (p + (" " + o))), s + (" " + (p + (" " + (o + " ."))));
            && line[|line| - 1] == '.' && line[..|line| - 1] == core + " "
            && Trim(line) == line && TrimEnd(line) == line && Trim(core + " ") == core
  {
    hide Trim, TrimEnd, TrimStart;
    var core, line := s + (" " + (p + (" " + o))), s + (" " + (p + (" " + (o + " ."))));
    LineSplits(s, p, o);
    assert core[0] == s[0] && line[0] == s[0];
    assert core[|core| - 1] == o[|o| - 1];
    TrimOne(line);
    TrimOne(core);
  }

  lemma LineSplits(s: string, p: string, o: string)
    ensures s + (" " + (p + (" " + (o + " .")))) == s + (" " + (p + (" " + o))) + " ."
  {
    Associate(s, " " + (p + (" " + o)), " .");
    Associate(" ", p + (" " + o), " .");
    Associate(p, " " + o, " .");
    Associate(" ", o, " .");
  }

  lemma SpaceEndsNames()
    ensures EndsName(' ')
  {
  }

  // A triple with plain parts reads back byte by byte.
  lemma TripleReads(t: Triple)
    requires Plain(t)
    ensures ReadTriple(TripleText(t)) == Ok(ByteRead(t))
    ensures Trim(TripleText(t)) == TripleText(t)
  {
    hide ObjectText, SubjectText, ReadTerm, ReadTriple, Trim, TrimStart, TrimEnd, PlainSubject, PlainObject;
    hide AngledFree, AsBytes, EndsName;
    var s, p, o := SubjectText(t.subj), "<" + t.pred + ">", ObjectText(t.obj);
    SpaceEndsNames();
    ObjectEndsSolid(t.obj);
    SubjectStartsSolid(t.subj, "");
    assert s + "" == s;
    LineShape(s, p, o);
    SubjectReads(t.subj, " " + (p + (" " + o)));
    TrimSpace(p + (" " + o));
    PredicateReads(t.pred, " " + o);
    ObjectStartsSolid(t.obj);
    ObjectReads(t.obj, "");
    assert o + "" == o;
    TrimEmpty();
    var obj := if t.obj.Literal? then ObjectTerm(t.obj.(lexical := AsBytes(t.obj.lexical))) else ObjectTerm(t.obj);
    ReadTripleSteps(TripleText(t), t, " " + (p + (" " + o)), " " + o, obj, "");
  }

  lemma ObjectStartsSolid(o: Object)
    ensures ObjectText(o) != [] && !IsSpace(ObjectText(o)[0])
    ensures TrimStart(" " + ObjectText(o)) == ObjectText(o)
  {
    hide Escaped, TagText;
    TrimSpace(ObjectText(o));
  }

  lemma TrimSpace(s: string)
    ensures s != [] && !IsSpace(s[0]) ==> TrimStart(" " + s) == s
  {
    assert (" " + s)[1..] == s;
    if s != [] && !IsSpace(s[0]) {
      assert TrimStart(s) == s;
    }
  }

  lemma TrimEmpty()
    ensures Trim("") == ""
  {
  }

  lemma PredicateReads(iri: string, rest: string)
    requires AngledFree(iri)
    ensures ReadTerm("<" + iri + ">" + rest) == Ok((IriTerm(iri), rest))
  {
    AngledReads(iri, rest, UnterminatedIri);
  }

  // ----- What the parser can return from one line -----

  predicate OneLine(s: string) { '\n' !in s }

  // Terms in the range of the parser, read from a line.
  predicate Ranged(t: Term) {
    match t
    case IriTerm(iri) => AngledFree(iri)
    case BlankTerm(name) => Unbroken(name)
    case LiteralTerm(_, kind, language) => PlainTag(kind, language)
  }

  lemma AngledRange(s: string, error: NtError)
    requires s != [] && s[0] != '>' && OneLine(s) && ReadAngled(s, error).Ok?
    ensures AngledFree(ReadAngled(s, error).value.0) && OneLine(ReadAngled(s, error).value.1)
  {
  }

  lemma NameRange(s: string)
    requires OneLine(s)
    ensures Unbroken(s[..Find(s, EndsName)]) && OneLine(s[Find(s, EndsName)..])
  {
  }

  lemma {:induction false} LexicalRange(s: string)
    requires OneLine(s) && ReadLexical(s).Ok?
    ensures OneLine(ReadLexical(s).value.1)
    decreases |s|
  {
    hide ReadEscape, Latin1;
    if s[0] == '\\' {
      LexicalRange(s[1 + ReadEscape(s[1..]).value.1..]);
    } else if s[0] != '"' {
      LexicalRange(s[1..]);
    }
  }

  lemma OneLineParts(s: string, i: nat)
    requires OneLine(s) && i <= |s|
    ensures OneLine(s[i..]) && OneLine(s[..i])
  {
  }

  lemma OneLineTrims(s: string)
    requires OneLine(s)
    ensures OneLine(TrimStart(s)) && OneLine(TrimEnd(s)) && OneLine(Trim(s))
  {
    OneLineTrimEnd(s);
    OneLineTrimStart(s);
    OneLineTrimStart(TrimEnd(s));
  }

  lemma OneLineTrimStart(s: string)
    requires OneLine(s)
    ensures OneLine(TrimStart(s))
  {
    var t := TrimStart(s);
    OneLineParts(s, |s| - |t|);
  }

  lemma OneLineTrimEnd(s: string)
    requires OneLine(s)
    ensures OneLine(TrimEnd(s))
  {
    OneLineParts(s, |TrimEnd(s)|);
  }

  lemma TagRange(lexical: string, rest: string)
    requires OneLine(rest) && ReadTag(lexical, rest).Ok?
    ensures Ranged(ReadTag(lexical, rest).value.0) && OneLine(ReadTag(lexical, rest).value.1)
  {
    hide Unbroken, ReadAngled, EndsName, OneLine, AngledFree;
    if "@" <= rest {
      OneLineParts(rest, 1);
      NameRange(rest[1..]);
    } else if "^^" <= rest {
      OneLineParts(rest, 2);
      OneLineTrims(rest[2..]);
      AngledRange(TrimStart(rest[2..]), UnterminatedIri);
    } else {
      StringKindPlain();
    }
  }

  lemma StringKindPlain()
    ensures AngledFree(XSD_STRING)
  {
  }

  lemma TermRange(s: string)
    requires OneLine(s) && ReadTerm(s).Ok?
    ensures Ranged(ReadTerm(s).value.0) && OneLine(ReadTerm(s).value.1)
  {
    hide Unbroken, ReadAngled, EndsName, ReadTag, ReadLexical, OneLine, AngledFree;
    if s[0] == '<' {
      AngledRange(s, UnterminatedIri);
    } else if "_:" <= s {
      OneLineParts(s, 2);
      NameRange(s[2..]);
    } else {
      OneLineParts(s, 1);
      LexicalRange(s[1..]);
      TagRange(ReadLexical(s[1..]).value.0, ReadLexical(s[1..]).value.1);
    }
  }

  // Whatever one line parses to has plain parts.
  lemma TripleRange(line: string)
    requires OneLine(line) && ReadTriple(line).Ok?
    ensures Plain(ReadTriple(line).value)
  {
    hide ReadTerm, Unbroken, AngledFree, PlainTag, OneLine, Trim, TrimStart, TrimEnd;
    var trimmed := TrimEnd(line);
    OneLineTrims(line);
    OneLineParts(trimmed, |trimmed| - 1);
    OneLineTrims(trimmed[..|trimmed| - 1]);
    var first := Trim(trimmed[..|trimmed| - 1]);
    TermRange(first);
    OneLineTrims(ReadTerm(first).value.1);
    var second := TrimStart(ReadTerm(first).value.1);
    TermRange(second);
    OneLineTrims(ReadTerm(second).value.1);
    TermRange(TrimStart(ReadTerm(second).value.1));
  }

  // ----- The exact condition for one triple -----

  lemma {:induction false} EscapedOneLine(s: string)
    ensures OneLine(Escaped(s))
  {
    if s != [] {
      EscapedOneLine(s[1..]);
      assert OneLine(EscapeChar(s[0]));
    }
  }

  lemma PlainIsOneLine(t: Triple)
    requires Plain(t)
    ensures OneLine(TripleText(t))
  {
    hide Escaped, EscapeChar;
    NameOneLine();
    assert OneLine(SubjectText(t.subj));
    if t.obj.Literal? {
      EscapedOneLine(t.obj.lexical);
      assert OneLine(TagText(t.obj.kind, t.obj.language));
    }
    assert OneLine(ObjectText(t.obj));
  }

  lemma NameOneLine()
    ensures forall name | Unbroken(name) :: OneLine(name)
  {
    assert EndsName('\n');
  }

  lemma ByteReadExact(t: Triple)
    ensures ByteRead(t) == t <==> (t.obj.Literal? ==> AllAscii(t.obj.lexical))
  {
    hide AsBytes;
    if t.obj.Literal? {
      AsBytesExact(t.obj.lexical);
      assert t.obj == Literal(t.obj.lexical, t.obj.kind, t.obj.language);
    }
  }

  // On a single line, the triple comes back exactly when it is preserved.
  lemma TripleExact(t: Triple)
    requires OneLine(TripleText(t))
    ensures ReadTriple(TripleText(t)) == Ok(t) <==> Preserved(t)
  {
    hide ReadTriple, TripleText, Plain, ByteRead;
    if ReadTriple(TripleText(t)) == Ok(t) {
      TripleRange(TripleText(t));
    }
    if Plain(t) {
      TripleReads(t);
      ByteReadExact(t);
    }
  }

  // ----- Documents -----

  lemma ParsedSnoc(lines: seq<string>, line: string)
    ensures ParsedLines(lines + [line]).Ok? <==> ParsedLines(lines).Ok? && (Skipped(line) || ReadTriple(Trim(line)).Ok?)
    ensures ParsedLines(lines + [line]).Ok? ==>
              (ParsedLines(lines + [line]).value
               == ParsedLines(lines).value + (if Skipped(line) then [] else [ReadTriple(Trim(line)).value]))
  {
    hide ReadTriple, Skipped, Trim;
    assert (lines + [line])[..|lines|] == lines;
  }

  lemma {:induction false} ParsedAppend(a: seq<string>, b: seq<string>)
    ensures ParsedLines(a + b).Ok? <==> ParsedLines(a).Ok? && ParsedLines(b).Ok?
    ensures ParsedLines(a + b).Ok? ==> ParsedLines(a + b).value == ParsedLines(a).value + ParsedLines(b).value
    decreases |b|
  {
    hide ReadTriple, Skipped, Trim, ParsedLines;
    if b == [] {
      assert a + b == a;
      assert ParsedLines([]) == Ok([]) by { NoLines(); }
    } else {
      var init, last := b[..|b| - 1], b[|b| - 1];
      assert b == init + [last] && a + b == (a + init) + [last];
      ParsedAppend(a, init);
      ParsedSnoc(init, last);
      ParsedSnoc(a + init, last);
    }
  }

  lemma NoLines()
    ensures ParsedLines([]) == Ok([])
  {
  }

  lemma SingleLine(line: string)
    requires !Skipped(line)
    ensures ParsedLines([line]).Ok? <==> ReadTriple(Trim(line)).Ok?
    ensures ParsedLines([line]).Ok? ==> ParsedLines([line]).value == [ReadTriple(Trim(line)).value]
  {
    hide ReadTriple, Skipped;
    assert [line][..0] == [];
    assert ParsedLines([]) == Ok([]);
  }

  lemma FirstLine(a: string, rest: string)
    requires OneLine(a)
    ensures Lines(a + ("\n" + rest)) == [StripReturn(a)] + Lines(rest)
  {
    var s := a + ("\n" + rest);
    FindAt(s, IsNewline, |a|);
    assert s[..|a|] == a && s[|a| + 1..] == rest;
  }

  lemma TextEnds(t: Triple)
    ensures var text := TripleText(t);
            text != [] && (text[0] == '<' || text[0] == '_') && text[|text| - 1] == '.'
  {
    hide ObjectText;
  }

  lemma SplitText(text: string, rest: string, n: nat)
    requires n < |text| && text[n] == '\n'
    ensures text + ("\n" + rest) == text[..n] + ("\n" + (text[n + 1..] + ("\n" + rest)))
  {
    Associate("\n", text[n + 1..], "\n" + rest);
    assert text == text[..n] + ("\n" + text[n + 1..]);
    Associate(text[..n], "\n" + text[n + 1..], "\n" + rest);
  }

  // The line a triple's text begins with: up to its first newline.
  lemma HeadLine(t: Triple, rest: string) returns (head: string, tail: string)
    ensures OneLine(head) && Lines(TripleText(t) + ("\n" + rest)) == [StripReturn(head)] + Lines(tail)
    ensures !Skipped(StripReturn(head)) && OneLine(Trim(StripReturn(head)))
    ensures OneLine(TripleText(t)) ==> head == TripleText(t) && tail == rest && StripReturn(head) == head
  {
    hide TripleText, Lines, Skipped, Trim;
    var text := TripleText(t);
    TextEnds(t);
    var n := Find(text, IsNewline);
    head := text[..n];
    tail := if n == |text| then rest else text[n + 1..] + ("\n" + rest);
    if n == |text| {
      assert head == text;
    } else {
      SplitText(text, rest, n);
    }
    FirstLine(head, tail);
    assert n > 0 && head[0] == text[0];
    KeepsStart(head);
  }

  lemma KeepsStart(head: string)
    requires head != [] && (head[0] == '<' || head[0] == '_') && OneLine(head)
    ensures !Skipped(StripReturn(head)) && OneLine(Trim(StripReturn(head)))
  {
    var s := StripReturn(head);
    assert s != [] && s[0] == head[0];
    KeepsFirst(s);
  }

  lemma {:induction false} KeepsFirst(s: string)
    requires s != [] && !IsSpace(s[0])
    ensures TrimEnd(s) != [] && TrimEnd(s)[0] == s[0] && Trim(s) == TrimEnd(s)
    decreases |s|
  {
    if IsSpace(s[|s| - 1]) {
      KeepsFirst(s[..|s| - 1]);
    }
  }

  // The main theorem: a document written from triples parses back to them exactly when each of them
  // is preserved: no `>` or newline in an IRI, no white space or full stop in a blank label or
  // language tag, `rdf:langString` wherever a language is set, and ASCII literals.
  lemma {:induction false} DocumentExact(ts: seq<Triple>)
    ensures ParsedDocument(DocumentText(ts)) == Ok(ts) <==> forall i | 0 <= i < |ts| :: Preserved(ts[i])
    decreases |ts|
  {
    hide TripleText, Lines, ParsedLines, Preserved, ReadTriple;
    if ts == [] {
      EmptyDocument();
    } else {
      var t, rest := ts[0], ts[1..];
      DocumentExact(rest);
      assert forall i | 0 < i < |ts| :: ts[i] == rest[i - 1];
      var head, tail := HeadLine(t, DocumentText(rest));
      var line := StripReturn(head);
      ParsedAppend([line], Lines(tail));
      SingleLine(line);
      if OneLine(TripleText(t)) {
        TripleExact(t);
        if Preserved(t) {
          PreservedTrim(t);
        }
        if ReadTriple(Trim(line)) == Ok(t) {
          LineGivesPreserved(t, line);
        }
      } else {
        LongTripleLost(t, Trim(line));
      }
      OneThenRest(t, rest, ts);
    }
  }

  lemma OneThenRest(t: Triple, rest: seq<Triple>, ts: seq<Triple>)
    requires ts != [] && t == ts[0] && rest == ts[1..]
    ensures [t] + rest == ts
    ensures (forall i | 0 <= i < |ts| :: Preserved(ts[i]))
            <==> Preserved(t) && forall i | 0 <= i < |rest| :: Preserved(rest[i])
  {
    hide Preserved;
    assert forall i | 0 < i < |ts| :: ts[i] == rest[i - 1];
    assert forall i | 0 <= i < |rest| :: rest[i] == ts[i + 1];
  }

  lemma EmptyDocument()
    ensures ParsedDocument(DocumentText([])) == Ok([])
  {
  }

  lemma PreservedTrim(t: Triple)
    requires Preserved(t)
    ensures Trim(TripleText(t)) == TripleText(t)
  {
    TripleReads(t);
  }

  // What is read from the (trimmed) line of a triple is that triple only if it is preserved.
  lemma LineGivesPreserved(t: Triple, line: string)
    requires line == TripleText(t) && OneLine(line) && ReadTriple(Trim(line)) == Ok(t)
    ensures Preserved(t)
  {
    hide ReadTriple, TripleText, Plain;
    assert OneLine(Trim(line));
    TripleRange(Trim(line));
    TripleReads(t);
    TripleExact(t);
  }

  // A triple whose text runs over a newline is never read back.
  lemma LongTripleLost(t: Triple, line: string)
    requires !OneLine(TripleText(t)) && OneLine(line)
    ensures ReadTriple(line) != Ok(t) && !Preserved(t)
  {
    hide ReadTriple, TripleText, Plain;
    if Plain(t) {
      PlainIsOneLine(t);
    }
    if ReadTriple(line) == Ok(t) {
      TripleRange(line);
    }
  }
}
