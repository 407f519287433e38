// The Turtle parser as it runs: a position moving over the source, and a growing prefix table.

module TurtleParser {
  import opened Wrappers
  import opened Rdf
  import opened Turtle

  // The parser's outcome and new rest are those of the reading function.
  ghost predicate Matches<T>(spec: Result<(T, string), TurtleError>, r: Result<T, TurtleError>, rest: string) {
    match spec
    case Ok((value, after)) => r == Ok(value) && rest == after
    case Err(error) => r == Err(error)
  }

  lemma MatchesErr<T>(error: TurtleError, rest: string)
    ensures Matches<T>(Err(error), Err(error), rest)
  {
  }

  lemma BeforeTwice(a: seq<Triple>, b: seq<Triple>, r: Statements)
    ensures Before(a, Before(b, r)) == Before(a + b, r)
    ensures Before([], r) == r
  {
    if r.Ok? {
      assert a + (b + r.value.0) == a + b + r.value.0;
      assert [] + r.value.0 == r.value.0;
    }
  }

  lemma PrependTwice(x: string, y: string, r: Read)
    ensures Prepend(x, Prepend(y, r)) == Prepend(x + y, r)
    ensures Prepend("", r) == r
  {
    if r.Ok? {
      assert x + (y + r.value.0) == x + y + r.value.0;
      assert "" + r.value.0 == r.value.0;
    }
  }

  lemma AllBlankSkips(s: string, n: nat)
    requires n <= |s| && (forall i | 0 <= i < n :: Blank(s[i])) && (n < |s| ==> !Blank(s[n]))
    ensures SkipBlank(s) == s[n..]
  {
    hide Blank;
    FindAt(s, Solid, n);
  }

  class Parser {
    const src: string
    var pos: nat
    var vocab: Bindings

    constructor (src: string)
      ensures this.src == src && Valid() && Rest() == src && vocab == map[]
    {
      this.src := src;
      pos, vocab := 0, map[];
    }

    ghost predicate Valid()
      reads this`pos
    {
      pos <= |src|
    }

    ghost function Rest(): string
      requires Valid()
      reads this`pos
    {
      src[pos..]
    }

    // `skip_ws`. On a `#` the scan notes the end of the line but goes on with the next character, so
    // the first character that is neither white space nor `#` ends it, inside a comment or not.
    method SkipWs()
      requires Valid()
      modifies this`pos
      ensures Valid() && Rest() == SkipBlank(old(Rest()))
    {
      var rest := src[pos..];
      var consumed := 0;
      var i := 0;
      while i < |rest|
        invariant 0 <= i <= |rest| && forall k | 0 <= k < i :: Blank(rest[k])
        invariant i == |rest| ==> consumed == |rest|
      {
        var c := rest[i];
        if IsSpace(c) {
          consumed := i + 1;
          i := i + 1;
          continue;
        }
        if c == '#' {
          var nl := Find(rest[i..], IsNewline);
          consumed := if nl < |rest| - i then i + nl + 1 else |rest|;
          i := i + 1;
          continue;
        }
        consumed := i;
        break;
      }
      AllBlankSkips(rest, i);
      pos := pos + consumed;
    }

    // `rest`
    method Peek() returns (s: string)
      requires Valid()
      ensures s == Rest()
    {
      s := src[pos..];
    }

    // `advance`
    method Advance(n: nat)
      requires Valid() && n <= |Rest()|
      modifies this`pos
      ensures Valid() && Rest() == old(Rest())[n..]
    {
      pos := pos + n;
    }

    method ParseTerm() returns (r: Result<Term, TurtleError>)
      requires Valid()
      modifies this`pos
      ensures Valid() && Matches(ReadTerm(vocab, old(Rest())), r, Rest())
    {
      hide SkipBlank, Terminator;
      var rest := src[pos..];
      if Starts(rest, '<') {
        var close := Find(rest, IsClose);
        if close == |rest| {
          return Err(UnterminatedIri);
        }
        pos := pos + close + 1;
        return Ok(IriTerm(rest[1..close]));
      }
      if StartsTwo(rest, '_', ':') {
        var after := rest[2..];
        var end := Find(after, Terminator);
        pos := pos + 2 + end;
        return Ok(BlankTerm(after[..end]));
      }
      var end := Find(rest, Terminator);
      var token := rest[..end];
      var colon := Find(token, IsColon);
      if colon == |token| {
        return Err(UnrecognizedToken);
      }
      var prefix, local := rest[..colon], token[colon + 1..];
      if prefix !in vocab {
        return Err(UnknownPrefix);
      }
      pos := pos + end;
      r := Ok(IriTerm(vocab[prefix] + local));
    }

    // The byte loop of `parse_literal`, up to the closing quote.
    method ParseLexical() returns (r: Result<string, TurtleError>)
      requires Valid() && Starts(Rest(), '"')
      modifies this`pos
      ensures Valid() && Matches(ReadLexical(old(Rest())[1..]), r, Rest())
    {
      hide SkipBlank, Latin1, Unescaped;
      var rest := src[pos..];
      var i := 1;
      var lexical := "";
      PrependTwice("", "", ReadLexical(rest[1..]));
      while i < |rest|
        invariant 1 <= i <= |rest| && pos == old(pos)
        invariant ReadLexical(rest[1..]) == Prepend(lexical, ReadLexical(rest[i..]))
      {
        assert rest[i..][1..] == rest[i + 1..];
        if rest[i] == '\\' {
          i := i + 1;
          if i >= |rest| {
            return Err(DanglingEscape);
          }
          assert rest[i - 1..][2..] == rest[i + 1..] && rest[i - 1..][1] == rest[i];
          PrependTwice(lexical, Unescaped(rest[i]), ReadLexical(rest[i + 1..]));
          lexical := lexical + Unescaped(rest[i]);
          i := i + 1;
        } else if rest[i] == '"' {
          assert lexical + "" == lexical;
          pos := pos + i + 1;
          return Ok(lexical);
        } else {
          PrependTwice(lexical, Latin1(rest[i]), ReadLexical(rest[i + 1..]));
          lexical := lexical + Latin1(rest[i]);
          i := i + 1;
        }
      }
      r := Err(UnterminatedLiteral);
    }

    method ParseLiteral() returns (r: Result<Term, TurtleError>)
      requires Valid() && Starts(Rest(), '"')
      modifies this`pos
      ensures Valid() && Matches(ReadObject(vocab, old(Rest())), r, Rest())
    {
      hide SkipBlank, ReadLexical, ReadTag;
      var lexical := ParseLexical();
      if lexical.Err? {
        return Err(lexical.error);
      }
      r := ParseTag(lexical.value);
    }

    // What `parse_literal` does after the closing quote.
    method ParseTag(lexical: string) returns (r: Result<Term, TurtleError>)
      requires Valid()
      modifies this`pos
      ensures Valid() && Matches(ReadTag(vocab, lexical, old(Rest())), r, Rest())
    {
      hide ReadTerm;
      var kind := XSD_STRING;
      var rest := src[pos..];
      if Starts(rest, '@') {
        var end := Find(rest[1..], Terminator);
        pos := pos + 1 + end;
        return Ok(LiteralTerm(lexical, LANG_STRING, Some(rest[1..][..end])));
      } else if StartsTwo(rest, '^', '^') {
        pos := pos + 2;
        var dt := ParseTerm();
        if dt.Err? {
          return Err(dt.error);
        }
        if dt.value.IriTerm? {
          kind := dt.value.iri;
        }
      }
      r := Ok(LiteralTerm(lexical, kind, None));
    }

    method ParseObject() returns (r: Result<Term, TurtleError>)
      requires Valid()
      modifies this`pos
      ensures Valid() && Matches(ReadObject(vocab, old(Rest())), r, Rest())
    {
      hide ReadLexical, ReadTerm, ReadTag;
      if Starts(src[pos..], '"') {
        r := ParseLiteral();
      } else {
        r := ParseTerm();
      }
    }

    method ParseSubject() returns (r: Result<Subject, TurtleError>)
      requires Valid()
      modifies this`pos
      ensures Valid() && Matches(ReadSubject(vocab, old(Rest())), r, Rest())
    {
      hide ReadTerm;
      var token := ParseTerm();
      if token.Err? {
        return Err(token.error);
      }
      match token.value {
        case IriTerm(iri) => r := Ok(IriSubject(iri));
        case BlankTerm(name) => r := Ok(BlankSubject(name));
        case LiteralTerm(_, _, _) => r := Err(SubjectIsLiteral);
      }
    }

    method ParsePredicate() returns (r: Result<string, TurtleError>)
      requires Valid()
      modifies this`pos
      ensures Valid() && Matches(ReadPredicate(vocab, old(Rest())), r, Rest())
    {
      hide ReadTerm;
      var rest := src[pos..];
      if Starts(rest, 'a') && |rest| > 1 && IsSpace(rest[1]) {
        pos := pos + 1;
        return Ok(RDF_TYPE);
      }
      var token := ParseTerm();
      if token.Err? {
        return Err(token.error);
      }
      r := if token.value.IriTerm? then Ok(token.value.iri) else Err(PredicateNotIri);
    }

    // The inner loop of `parse_triples`: one object list.
    method ParseObjects(subj: Subject, pred: string) returns (r: Result<seq<Triple>, TurtleError>)
      requires Valid()
      modifies this`pos
      ensures Valid() && Matches(ReadObjects(vocab, subj, pred, old(Rest())), r, Rest())
    {
      hide ReadObject, SkipBlank, ReadObjects, Rest;
      ghost var v, start := vocab, Rest();
      var out: seq<Triple> := [];
      BeforeTwice([], [], ReadObjects(v, subj, pred, start));
      while true
        invariant Valid() && vocab == v
        invariant ReadObjects(v, subj, pred, start) == Before(out, ReadObjects(v, subj, pred, Rest()))
        decreases |Rest()|
      {
        ObjectsUnfold(v, subj, pred, Rest());
        SkipWs();
        var o := ParseObject();
        if o.Err? {
          return Err(o.error);
        }
        var t := Triple(subj, pred, TermObject(o.value));
        SkipWs();
        var rest := Peek();
        if Starts(rest, ',') {
          Advance(1);
          BeforeTwice(out, [t], ReadObjects(v, subj, pred, Rest()));
          out := out + [t];
          continue;
        }
        return Ok(out + [t]);
      }
    }

    // One predicate and its objects.
    method ParseGroup(subj: Subject) returns (r: Result<seq<Triple>, TurtleError>)
      requires Valid()
      modifies this`pos
      ensures Valid() && Matches(ReadGroup(vocab, subj, old(Rest())), r, Rest())
    {
      hide ReadPredicate, SkipBlank, ReadObjects, Rest;
      SkipWs();
      var pred := ParsePredicate();
      if pred.Err? {
        return Err(pred.error);
      }
      r := ParseObjects(subj, pred.value);
    }

    // `parse_triples`
    method ParseStatement() returns (r: Result<seq<Triple>, TurtleError>)
      requires Valid()
      modifies this`pos
      ensures Valid() && Matches(ReadStatement(vocab, old(Rest())), r, Rest())
    {
      hide ReadSubject, ReadPredicates, ReadGroup, SkipBlank, Rest;
      ghost var v := vocab;
      var subj := ParseSubject();
      if subj.Err? {
        return Err(subj.error);
      }
      var out: seq<Triple> := [];
      ghost var start := Rest();
      BeforeTwice([], [], ReadPredicates(v, subj.value, start));
      while true
        invariant Valid() && vocab == v
        invariant ReadPredicates(v, subj.value, start) == Before(out, ReadPredicates(v, subj.value, Rest()))
        decreases |Rest()|
      {
        PredicatesUnfold(v, subj.value, Rest());
        var group := ParseGroup(subj.value);
        if group.Err? {
          return Err(group.error);
        }
        SkipWs();
        var rest := Peek();
        if Starts(rest, ';') {
          Advance(1);
          BeforeTwice(out, group.value, ReadPredicates(v, subj.value, Rest()));
          out := out + group.value;
          continue;
        }
        if Starts(rest, '.') {
          Advance(1);
          return Ok(out + group.value);
        }
        return Err(ExpectedEnd);
      }
    }

    // One `@prefix` directive, after the keyword.
    method ParsePrefix() returns (r: Result<Namespace, TurtleError>)
      requires Valid()
      modifies this`pos
      ensures Valid() && Matches(ReadPrefix(old(Rest())), r, Rest())
    {
      hide SkipBlank, Trim, Rest, ReadBase, ReadPrefix, Matches;
      PrefixUnfold(Rest());
      SkipWs();
      var rest := Peek();
      var prefixEnd := Find(rest, IsColon);
      if prefixEnd == |rest| {
        MatchesErr<Namespace>(MissingColon, Rest());
        return Err(MissingColon);
      }
      var prefix := Trim(rest[..prefixEnd]);
      Advance(prefixEnd + 1);
      r := ParseBase(prefix);
    }

    method ParseBase(prefix: string) returns (r: Result<Namespace, TurtleError>)
      requires Valid()
      modifies this`pos
      ensures Valid() && Matches(ReadBase(prefix, old(Rest())), r, Rest())
    {
      hide SkipBlank, Rest, ReadClose;
      SkipWs();
      var rest := Peek();
      if !Starts(rest, '<') {
        return Err(ExpectedIri);
      }
      Advance(1);
      r := ParseClose(prefix);
    }

    method ParseClose(prefix: string) returns (r: Result<Namespace, TurtleError>)
      requires Valid()
      modifies this`pos
      ensures Valid() && Matches(ReadClose(prefix, old(Rest())), r, Rest())
    {
      hide SkipBlank, Rest;
      var rest := Peek();
      var close := Find(rest, IsClose);
      if close == |rest| {
        return Err(UnterminatedPrefixIri);
      }
      var base := rest[..close];
      Advance(close + 1);
      SkipWs();
      rest := Peek();
      if !Starts(rest, '.') {
        return Err(ExpectedDot);
      }
      Advance(1);
      r := Ok(Namespace(prefix, base));
    }

    // `parse_directives`
    method ParseDirectives() returns (r: Result<(), TurtleError>)
      requires Valid()
      modifies this`pos, this`vocab
      ensures Valid()
      ensures match old(ReadDirectives(vocab, Rest()))
              case Ok((v, rest)) => r == Ok(()) && vocab == v && Rest() == rest
              case Err(error) => r == Err(error)
    {
      hide SkipBlank, ReadPrefix, ReadDirectives, Rest;
      ghost var all := ReadDirectives(vocab, Rest());
      while true
        invariant Valid()
        invariant all == ReadDirectives(vocab, Rest())
        decreases |Rest()|
      {
        DirectivesUnfold(vocab, Rest());
        SkipWs();
        var rest := Peek();
        if !("@prefix" <= rest) {
          return Ok(());
        }
        Advance(7);
        var ns := ParsePrefix();
        if ns.Err? {
          return Err(ns.error);
        }
        vocab := vocab[ns.value.prefix := ns.value.base];
      }
    }
  }

  lemma FollowingTwice(a: seq<Triple>, b: seq<Triple>, r: Result<seq<Triple>, TurtleError>)
    ensures Following(a, Following(b, r)) == Following(a + b, r)
    ensures Following([], r) == r
  {
    if r.Ok? {
      assert a + (b + r.value) == a + b + r.value;
      assert [] + r.value == r.value;
    }
  }

  // The loop of `parse` over the statements.
  method ParseAll(p: Parser) returns (r: Result<seq<Triple>, TurtleError>)
    requires p.Valid()
    modifies p`pos
    ensures r == old(ReadAll(p.vocab, p.Rest()))
  {
    hide SkipBlank, ReadStatement, ReadAll, Parser.Rest;
    var triples: seq<Triple> := [];
    ghost var v, all := p.vocab, ReadAll(p.vocab, p.Rest());
    FollowingTwice([], [], all);
    var rest := p.Peek();
    while rest != []
      invariant p.Valid() && p.vocab == v && rest == p.Rest()
      invariant all == Following(triples, ReadAll(v, rest))
      decreases |rest|
    {
      AllUnfold(v, rest);
      p.SkipWs();
      rest := p.Peek();
      if rest == [] {
        break;
      }
      var statement := p.ParseStatement();
      if statement.Err? {
        return Err(statement.error);
      }
      rest := p.Peek();
      FollowingTwice(triples, statement.value, ReadAll(v, rest));
      triples := triples + statement.value;
    }
    AllUnfold(v, []);
    NothingBlank();
    assert triples + [] == triples;
    r := Ok(triples);
  }

  // `parse`
  method Parse(input: string) returns (r: Result<seq<Triple>, TurtleError>)
    ensures r == ParsedDocument(input)
  {
    hide ReadDirectives, ReadAll;
    var p := new Parser(input);
    var directives := p.ParseDirectives();
    if directives.Err? {
      return Err(directives.error);
    }
    r := ParseAll(p);
  }

  lemma NothingBlank()
    ensures SkipBlank("") == ""
  {
  }
}
