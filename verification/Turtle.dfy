// The Turtle writer and parser.

module Turtle {
  import opened Wrappers
  import opened Rdf

  datatype Namespace = Namespace(prefix: string, base: string)

  // Bindings in the order of iteration, which the source keeps sorted by prefix.
  type Vocabulary = seq<Namespace>

  const STANDARD_BINDINGS: Vocabulary := [
    Namespace("org", "http://www.w3.org/ns/org#"),
    Namespace("owl", "http://www.w3.org/2002/07/owl#"),
    Namespace("prov", "http://www.w3.org/ns/prov#"),
    Namespace("rdf", "http://www.w3.org/1999/02/22-rdf-syntax-ns#"),
    Namespace("rdfs", "http://www.w3.org/2000/01/rdf-schema#"),
    Namespace("schema", "http://schema.org/"),
    Namespace("xsd", "http://www.w3.org/2001/XMLSchema#")
  ]

  datatype TurtleError =
    | MissingColon | ExpectedIri | UnterminatedPrefixIri | ExpectedDot | ExpectedEnd
    | SubjectIsLiteral | PredicateNotIri
    | UnterminatedIri | UnrecognizedToken | UnknownPrefix | DanglingEscape | UnterminatedLiteral

  // ----- Writer -----

  predicate Compacts(ns: Namespace, iri: string) {
    ns.base <= iri && ' ' !in iri[|ns.base|..] && '/' !in iri[|ns.base|..]
  }

  // The first binding that compacts the IRI.
  function Chosen(v: Vocabulary, iri: string): (c: Option<Namespace>)
    ensures c.Some? ==> c.value in v && Compacts(c.value, iri)
  {
    if v == [] then None else if Compacts(v[0], iri) then Some(v[0]) else Chosen(v[1..], iri)
  }

  function LocalPart(ns: Namespace, iri: string): string
    requires ns.base <= iri
  {
    iri[|ns.base|..]
  }

  function IriText(v: Vocabulary, iri: string): string {
    match Chosen(v, iri)
    case Some(ns) => ns.prefix + (":" + LocalPart(ns, iri))
    case None => "<" + (iri + ">")
  }

  function SubjectText(v: Vocabulary, s: Subject): string {
    match s
    case IriSubject(iri) => IriText(v, iri)
    case BlankSubject(name) => "_:" + name
  }

  function TagText(v: Vocabulary, kind: string, language: Option<string>): string {
    if language.Some? then "@" + language.value else if kind == XSD_STRING then "" else "^^" + IriText(v, kind)
  }

  function ObjectText(v: Vocabulary, o: Object): string {
    match o
    case IriObject(iri) => IriText(v, iri)
    case BlankObject(name) => "_:" + name
    case Literal(lexical, kind, language) => "\"" + (Escaped(lexical) + ("\"" + TagText(v, kind, language)))
  }

  function TripleText(v: Vocabulary, t: Triple): string {
    SubjectText(v, t.subj) + (" " + (IriText(v, t.pred) + (" " + ObjectText(v, t.obj))))
  }

  function Body(v: Vocabulary, ts: seq<Triple>): string {
    if ts == [] then "" else TripleText(v, ts[0]) + (" .\n" + Body(v, ts[1..]))
  }

  function PrefixLine(ns: Namespace): string {
    "@prefix " + (ns.prefix + (": <" + (ns.base + "> .\n")))
  }

  function Header(v: Vocabulary): string {
    if v == [] then "" else PrefixLine(v[0]) + Header(v[1..])
  }

  // An empty vocabulary is replaced by the standard one.
  function Effective(v: Vocabulary): Vocabulary {
    if v == [] then STANDARD_BINDINGS else v
  }

  function DocumentText(v: Vocabulary, ts: seq<Triple>): string {
    Header(Effective(v)) + ("\n" + Body(Effective(v), ts))
  }

  // `push_iri`
  method PushIri(out: string, v: Vocabulary, iri: string) returns (next: string)
    ensures next == out + IriText(v, iri)
  {
    for i := 0 to |v|
      invariant Chosen(v, iri) == Chosen(v[i..], iri)
    {
      if v[i].base <= iri {
        var local := iri[|v[i].base|..];
        if ' ' !in local && '/' !in local {
          JoinFour(out, v[i].prefix, ":", local);
          return out + v[i].prefix + ":" + local;
        }
      }
      assert v[i..][1..] == v[i + 1..];
    }
    JoinFour(out, "<", iri, ">");
    next := out + "<" + iri + ">";
  }

  method PushSubject(out: string, v: Vocabulary, s: Subject) returns (next: string)
    ensures next == out + SubjectText(v, s)
  {
    match s {
      case IriSubject(iri) => next := PushIri(out, v, iri);
      case BlankSubject(name) => next := out + "_:" + name;
    }
  }

  method PushTag(out: string, v: Vocabulary, kind: string, language: Option<string>) returns (next: string)
    ensures next == out + TagText(v, kind, language)
  {
    if language.Some? {
      next := out + "@" + language.value;
    } else if kind != XSD_STRING {
      next := PushIri(out + "^^", v, kind);
    } else {
      next := out;
    }
  }

  method PushObject(out: string, v: Vocabulary, o: Object) returns (next: string)
    ensures next == out + ObjectText(v, o)
  {
    hide IriText, TagText;
    match o {
      case IriObject(iri) => next := PushIri(out, v, iri);
      case BlankObject(name) => next := out + "_:" + name;
      case Literal(lexical, kind, language) =>
        next := PushEscaped(out + "\"", lexical);
        next := PushTag(next + "\"", v, kind, language);
        JoinFour(out, "\"", Escaped(lexical), "\"" + TagText(v, kind, language));
    }
  }

  method PushTriple(out: string, v: Vocabulary, t: Triple) returns (next: string)
    ensures next == out + TripleText(v, t)
  {
    hide IriText, SubjectText, ObjectText;
    next := PushSubject(out, v, t.subj);
    next := PushIri(next + " ", v, t.pred);
    next := PushObject(next + " ", v, t.obj);
    var s, p, o := SubjectText(v, t.subj), IriText(v, t.pred), ObjectText(v, t.obj);
    JoinFour(out + s, " ", p, " " + o);
    JoinFour(out, s, " ", p + (" " + o));
  }

  // `write`, over the triples of the ontology.
  method Write(vocabulary: Vocabulary, ts: seq<Triple>) returns (out: string)
    ensures out == DocumentText(vocabulary, ts)
  {
    hide TripleText, PrefixLine, Body, Header;
    var v := if vocabulary != [] then vocabulary else STANDARD_BINDINGS;
    out := PushHeader(v);
    HeaderNotEmpty(v);
    if out != "" {
      out := out + "\n";
    }
    out := PushBody(out, v, ts);
    JoinFour("", Header(v), "\n", Body(v, ts));
  }

  method PushHeader(v: Vocabulary) returns (out: string)
    ensures out == Header(v)
  {
    hide PrefixLine;
    out := "";
    for i := 0 to |v|
      invariant out == Header(v[..i])
    {
      PrefixLineText(v[i]);
      out := out + ("@prefix " + v[i].prefix + ": <" + v[i].base + "> .\n");
      HeaderAppend(v[..i], v[i]);
      assert v[..i + 1] == v[..i] + [v[i]];
    }
    assert v[..|v|] == v;
  }

  method PushBody(start: string, v: Vocabulary, ts: seq<Triple>) returns (out: string)
    ensures out == start + Body(v, ts)
  {
    hide TripleText, Body;
    out := start;
    EmptyBody(v);
    for i := 0 to |ts|
      invariant out == start + Body(v, ts[..i])
    {
      out := PushTriple(out, v, ts[i]);
      out := out + " .\n";
      BodyAppend(v, ts[..i], ts[i]);
      JoinFour(start, Body(v, ts[..i]), TripleText(v, ts[i]), " .\n");
      JoinFour("", Body(v, ts[..i]), TripleText(v, ts[i]), " .\n");
      assert ts[..i + 1] == ts[..i] + [ts[i]];
    }
    assert ts[..|ts|] == ts;
  }

  lemma EmptyBody(v: Vocabulary)
    ensures forall s: string :: s + Body(v, []) == s
  {
  }

  lemma HeaderNotEmpty(v: Vocabulary)
    ensures v != [] ==> Header(v) != ""
  {
    hide PrefixLine;
    if v != [] {
      PrefixLineText(v[0]);
    }
  }

  lemma PrefixLineText(ns: Namespace)
    ensures "@prefix " + ns.prefix + ": <" + ns.base + "> .\n" == PrefixLine(ns) != ""
  {
    JoinFour("@prefix ", ns.prefix, ": <", ns.base + "> .\n");
  }

  lemma {:induction false} HeaderAppend(v: Vocabulary, ns: Namespace)
    ensures Header(v + [ns]) == Header(v) + PrefixLine(ns)
  {
    hide PrefixLine;
    if v == [] {
      assert v + [ns] == [ns] && [ns][1..] == [];
    } else {
      assert (v + [ns])[1..] == v[1..] + [ns];
      HeaderAppend(v[1..], ns);
    }
  }

  lemma {:induction false} BodyAppend(v: Vocabulary, ts: seq<Triple>, t: Triple)
    ensures Body(v, ts + [t]) == Body(v, ts) + TripleText(v, t) + " .\n"
  {
    hide TripleText;
    if ts == [] {
      assert ts + [t] == [t] && [t][1..] == [];
    } else {
      assert (ts + [t])[1..] == ts[1..] + [t] && (ts + [t])[0] == ts[0];
      BodyAppend(v, ts[1..], t);
      var rest, last := Body(v, ts[1..]), TripleText(v, t) + " .\n";
      Associate(rest, TripleText(v, t), " .\n");
      Associate(" .\n", rest, last);
      Associate(TripleText(v, ts[0]), " .\n" + rest, last);
      Associate(Body(v, ts), TripleText(v, t), " .\n");
    }
  }

  // ----- Parser, as functions of the text still to be read -----

  type Bindings = map<string, string>

  predicate Terminator(c: char) { IsSpace(c) || c == '.' || c == ';' || c == ',' }

  predicate Blank(c: char) { IsSpace(c) || c == '#' }

  predicate Starts(s: string, c: char) { s != [] && s[0] == c }

  predicate StartsTwo(s: string, c: char, d: char) { |s| > 1 && s[0] == c && s[1] == d }

  predicate Solid(c: char) { !Blank(c) }

  // What `skip_ws` leaves: see `Parser.SkipWs`.
  function SkipBlank(s: string): (t: string)
    ensures |t| <= |s| && (t != [] ==> !Blank(t[0]))
  {
    s[Find(s, Solid)..]
  }

  function ReadTerm(v: Bindings, s: string): (r: Result<(Term, string), TurtleError>)
    ensures r.Ok? ==> |r.value.1| < |s|
  {
    if Starts(s, '<') then
      var close := Find(s, IsClose);
      if close == |s| then Err(UnterminatedIri) else Ok((IriTerm(s[1..close]), s[close + 1..]))
    else if StartsTwo(s, '_', ':') then
      var n := Find(s[2..], Terminator);
      Ok((BlankTerm(s[2..][..n]), s[2..][n..]))
    else
      var n := Find(s, Terminator);
      var colon := Find(s[..n], IsColon);
      if colon == n then Err(UnrecognizedToken)
      else if s[..colon] in v then Ok((IriTerm(v[s[..colon]] + s[..n][colon + 1..]), s[n..]))
      else Err(UnknownPrefix)
  }

  type Read = Result<(string, string), TurtleError>

  function Prepend(x: string, r: Read): Read {
    if r.Ok? then Ok((x + r.value.0, r.value.1)) else r
  }

  // What an escaped character stands for.
  function Unescaped(c: char): string {
    match c
    case 'n' => "\n"
    case 'r' => "\r"
    case 't' => "\t"
    case _ => Latin1(c)
  }

  // The lexical form up to the closing quote, and what follows the quote.
  function ReadLexical(s: string): (r: Read)
    ensures r.Ok? ==> |r.value.1| < |s|
  {
    if s == [] then Err(UnterminatedLiteral)
    else if s[0] == '\\' then
      if |s| == 1 then Err(DanglingEscape) else Prepend(Unescaped(s[1]), ReadLexical(s[2..]))
    else if s[0] == '"' then Ok(("", s[1..]))
    else Prepend(Latin1(s[0]), ReadLexical(s[1..]))
  }

  function ReadTag(v: Bindings, lexical: string, rest: string): (r: Result<(Term, string), TurtleError>)
    ensures r.Ok? ==> |r.value.1| <= |rest|
  {
    if Starts(rest, '@') then
      var n := Find(rest[1..], Terminator);
      Ok((LiteralTerm(lexical, LANG_STRING, Some(rest[1..][..n])), rest[1..][n..]))
    else if StartsTwo(rest, '^', '^') then
      var kind := ReadTerm(v, rest[2..]);
      if kind.Err? then Err(kind.error)
      else Ok((LiteralTerm(lexical, if kind.value.0.IriTerm? then kind.value.0.iri else XSD_STRING, None),
          kind.value.1))
    else Ok((LiteralTerm(lexical, XSD_STRING, None), rest))
  }

  function ReadObject(v: Bindings, s: string): (r: Result<(Term, string), TurtleError>)
    ensures r.Ok? ==> |r.value.1| < |s|
  {
    if Starts(s, '"') then
      var x := ReadLexical(s[1..]);
      if x.Err? then Err(x.error) else ReadTag(v, x.value.0, x.value.1)
    else ReadTerm(v, s)
  }

  function ReadSubject(v: Bindings, s: string): (r: Result<(Subject, string), TurtleError>)
    ensures r.Ok? ==> |r.value.1| < |s|
  {
    var x := ReadTerm(v, s);
    if x.Err? then Err(x.error)
    else
      match x.value.0
      case IriTerm(iri) => Ok((IriSubject(iri), x.value.1))
      case BlankTerm(name) => Ok((BlankSubject(name), x.value.1))
      case LiteralTerm(_, _, _) => Err(SubjectIsLiteral)
  }

  function ReadPredicate(v: Bindings, s: string): (r: Result<(string, string), TurtleError>)
    ensures r.Ok? ==> |r.value.1| < |s|
  {
    if Starts(s, 'a') && |s| > 1 && IsSpace(s[1]) then Ok((RDF_TYPE, s[1..]))
    else
      var x := ReadTerm(v, s);
      if x.Err? then Err(x.error)
      else if x.value.0.IriTerm? then Ok((x.value.0.iri, x.value.1))
      else Err(PredicateNotIri)
  }

  type Statements = Result<(seq<Triple>, string), TurtleError>

  function Before(ts: seq<Triple>, r: Statements): Statements {
    if r.Ok? then Ok((ts + r.value.0, r.value.1)) else r
  }

  // An object list.
  function ReadObjects(v: Bindings, subj: Subject, pred: string, s: string): (r: Statements)
    ensures r.Ok? ==> |r.value.1| < |s|
    decreases |s|
  {
    var o := ReadObject(v, SkipBlank(s));
    if o.Err? then Err(o.error)
    else
      var t := Triple(subj, pred, TermObject(o.value.0));
      var rest := SkipBlank(o.value.1);
      if Starts(rest, ',') then Before([t], ReadObjects(v, subj, pred, rest[1..])) else Ok(([t], rest))
  }

  // What closes an object list: a semicolon, the full stop, or something else.
  datatype Ending = Semicolon(rest: string) | FullStop(rest: string) | Other

  function ReadEnding(s: string): (e: Ending)
    ensures !e.Other? ==> |e.rest| < |s|
  {
    var rest := SkipBlank(s);
    if Starts(rest, ';') then Semicolon(rest[1..]) else if Starts(rest, '.') then FullStop(rest[1..]) else Other
  }

  // One predicate with its object list.
  function ReadGroup(v: Bindings, subj: Subject, s: string): (r: Statements)
    ensures r.Ok? ==> |r.value.1| < |s|
  {
    var p := ReadPredicate(v, SkipBlank(s));
    if p.Err? then Err(p.error) else ReadObjects(v, subj, p.value.0, p.value.1)
  }

  // A predicate-object list and its closing full stop.
  function ReadPredicates(v: Bindings, subj: Subject, s: string): (r: Statements)
    ensures r.Ok? ==> |r.value.1| < |s|
    decreases |s|
  {
    var os := ReadGroup(v, subj, s);
    if os.Err? then os
    else
      var ending := ReadEnding(os.value.1);
      if ending.Semicolon? then Before(os.value.0, ReadPredicates(v, subj, ending.rest))
      else if ending.FullStop? then Ok((os.value.0, ending.rest))
      else Err(ExpectedEnd)
  }

  // `parse_triples`
  function ReadStatement(v: Bindings, s: string): (r: Statements)
    ensures r.Ok? ==> |r.value.1| < |s|
  {
    var subj := ReadSubject(v, s);
    if subj.Err? then Err(subj.error) else ReadPredicates(v, subj.value.0, subj.value.1)
  }

  function ReadAll(v: Bindings, s: string): Result<seq<Triple>, TurtleError>
    decreases |s|
  {
    var start := SkipBlank(s);
    if start == [] then Ok([])
    else
      var x := ReadStatement(v, start);
      if x.Err? then Err(x.error) else Following(x.value.0, ReadAll(v, x.value.1))
  }

  function Following(ts: seq<Triple>, r: Result<seq<Triple>, TurtleError>): Result<seq<Triple>, TurtleError> {
    if r.Ok? then Ok(ts + r.value) else r
  }

  // The full stop of a directive.
  function ReadStop(ns: Namespace, s: string): (r: Result<(Namespace, string), TurtleError>)
    ensures r.Ok? ==> |r.value.1| < |s|
  {
    var stop := SkipBlank(s);
    if Starts(stop, '.') then Ok((ns, stop[1..])) else Err(ExpectedDot)
  }

  // What follows the opening angle bracket of a directive.
  function ReadClose(prefix: string, s: string): (r: Result<(Namespace, string), TurtleError>)
    ensures r.Ok? ==> |r.value.1| < |s|
  {
    var close := Find(s, IsClose);
    if close == |s| then Err(UnterminatedPrefixIri) else ReadStop(Namespace(prefix, s[..close]), s[close + 1..])
  }

  // What follows the colon of a directive.
  function ReadBase(prefix: string, s: string): (r: Result<(Namespace, string), TurtleError>)
    ensures r.Ok? ==> |r.value.1| < |s|
  {
    var open := SkipBlank(s);
    if Starts(open, '<') then ReadClose(prefix, open[1..]) else Err(ExpectedIri)
  }

  // One directive after the keyword: the binding and the rest.
  function ReadPrefix(s: string): (r: Result<(Namespace, string), TurtleError>)
    ensures r.Ok? ==> |r.value.1| < |s|
  {
    var s2 := SkipBlank(s);
    var colon := Find(s2, IsColon);
    if colon == |s2| then Err(MissingColon) else ReadBase(Trim(s2[..colon]), s2[colon + 1..])
  }

  // `parse_directives`
  function ReadDirectives(v: Bindings, s: string): Result<(Bindings, string), TurtleError>
    decreases |s|
  {
    var start := SkipBlank(s);
    if !("@prefix" <= start) then Ok((v, start))
    else
      var p := ReadPrefix(start[7..]);
      if p.Err? then Err(p.error) else ReadDirectives(v[p.value.0.prefix := p.value.0.base], p.value.1)
  }

  // `parse`
  function ParsedDocument(s: string): Result<seq<Triple>, TurtleError> {
    var d := ReadDirectives(map[], s);
    if d.Err? then Err(d.error) else ReadAll(d.value.0, d.value.1)
  }

  // ----- One step of each reading function -----

  lemma ObjectsUnfold(v: Bindings, subj: Subject, pred: string, s: string)
    ensures ReadObjects(v, subj, pred, s)
            == (var o := ReadObject(v, SkipBlank(s));
                if o.Err? then Err(o.error)
                else
                  var t := Triple(subj, pred, TermObject(o.value.0));
                  var rest := SkipBlank(o.value.1);
                  if Starts(rest, ',') then Before([t], ReadObjects(v, subj, pred, rest[1..])) else Ok(([t], rest)))
  {
  }

  lemma PredicatesUnfold(v: Bindings, subj: Subject, s: string)
    ensures ReadPredicates(v, subj, s)
            == (var os := ReadGroup(v, subj, s);
                if os.Err? then os
                else
                  match ReadEnding(os.value.1)
                  case Semicolon(rest) => Before(os.value.0, ReadPredicates(v, subj, rest))
                  case FullStop(rest) => Ok((os.value.0, rest))
                  case Other => Err(ExpectedEnd))
  {
  }

  lemma PrefixUnfold(s: string)
    ensures ReadPrefix(s)
            == (var s2 := SkipBlank(s);
                var colon := Find(s2, IsColon);
                if colon == |s2| then Err(MissingColon) else ReadBase(Trim(s2[..colon]), s2[colon + 1..]))
  {
    hide SkipBlank, Trim, ReadBase;
  }

  lemma DirectivesUnfold(v: Bindings, s: string)
    ensures ReadDirectives(v, s)
            == (var start := SkipBlank(s);
                if !("@prefix" <= start) then Ok((v, start))
                else
                  var p := ReadPrefix(start[7..]);
                  if p.Err? then Err(p.error) else ReadDirectives(v[p.value.0.prefix := p.value.0.base], p.value.1))
  {
  }

  lemma AllUnfold(v: Bindings, s: string)
    ensures ReadAll(v, s)
            == (var start := SkipBlank(s);
                if start == [] then Ok([])
                else
                  var x := ReadStatement(v, start);
                  if x.Err? then Err(x.error) else Following(x.value.0, ReadAll(v, x.value.1)))
  {
  }
}
