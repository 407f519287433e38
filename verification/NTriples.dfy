// The N-Triples writer and parser.

module NTriples {
  import opened Wrappers
  import opened Rdf

  datatype NtError =
    | EndOfInput | UnterminatedIri | UnexpectedStart | UnterminatedLiteral | DanglingEscape | ShortEscape | BadHex
    | UnknownEscape | ExpectedDatatypeIri | MissingDot | PredicateNotIri | SubjectIsLiteral | TrailingData

  // ----- Writer -----

  function SubjectText(s: Subject): string {
    match s
    case IriSubject(iri) => "<" + iri + ">"
    case BlankSubject(name) => "_:" + name
  }

  function TagText(kind: string, language: Option<string>): string {
    if language.Some? then "@" + language.value else "^^<" + kind + ">"
  }

  function ObjectText(o: Object): string {
    match o
    case IriObject(iri) => "<" + iri + ">"
    case BlankObject(name) => "_:" + name
    case Literal(lexical, kind, language) => "\"" + (Escaped(lexical) + ("\"" + TagText(kind, language)))
  }

  function TripleText(t: Triple): string {
    SubjectText(t.subj) + (" " + ("<" + t.pred + ">" + (" " + (ObjectText(t.obj) + " ."))))
  }

  function DocumentText(ts: seq<Triple>): string {
    if ts == [] then "" else TripleText(ts[0]) + ("\n" + DocumentText(ts[1..]))
  }

  method PushSubject(out: string, s: Subject) returns (next: string)
    ensures next == out + SubjectText(s)
  {
    match s {
      case IriSubject(iri) => next := out + "<" + iri + ">";
      case BlankSubject(name) => next := out + "_:" + name;
    }
  }

  method PushObject(out: string, o: Object) returns (next: string)
    ensures next == out + ObjectText(o)
  {
    match o {
      case IriObject(iri) => next := out + "<" + iri + ">";
      case BlankObject(name) => next := out + "_:" + name;
      case Literal(lexical, kind, language) =>
        next := PushEscaped(out + "\"", lexical);
        var tag := if language.Some? then "@" + language.value else "^^<" + kind + ">";
        JoinFour(out, "\"", Escaped(lexical), "\"" + tag);
        next := next + ("\"" + tag);
    }
  }

  method PushTriple(out: string, t: Triple) returns (next: string)
    ensures next == out + TripleText(t)
  {
    next := PushSubject(out, t.subj);
    next := next + " <" + t.pred + "> ";
    next := PushObject(next, t.obj);
    next := next + " .";
  }

  // `write`, over the triples of the ontology.
  method Write(ts: seq<Triple>) returns (out: string)
    ensures out == DocumentText(ts)
  {
    hide TripleText;
    out := "";
    for i := 0 to |ts|
      invariant out == DocumentText(ts[..i])
    {
      out := PushTriple(out, ts[i]);
      out := out + "\n";
      DocumentAppend(ts[..i], ts[i]);
      assert ts[..i + 1] == ts[..i] + [ts[i]];
    }
    assert ts[..|ts|] == ts;
  }

  lemma {:induction false} DocumentAppend(ts: seq<Triple>, t: Triple)
    ensures DocumentText(ts + [t]) == DocumentText(ts) + TripleText(t) + "\n"
  {
    hide TripleText;
    if ts == [] {
      assert [t][1..] == [];
      assert ts + [t] == [t];
    } else {
      assert (ts + [t])[1..] == ts[1..] + [t];
      DocumentAppend(ts[1..], t);
    }
  }

  // ----- Parser -----

  function HexDigit(c: char): Option<nat> {
    if '0' <= c <= '9' then Some(c as int - '0' as int)
    else if 'a' <= c <= 'f' then Some(c as int - 'a' as int + 10)
    else if 'A' <= c <= 'F' then Some(c as int - 'A' as int + 10)
    else None
  }

  function HexDigits(s: string): Option<nat> {
    if s == [] then Some(0)
    else
      var hi := HexDigits(s[..|s| - 1]);
      var lo := HexDigit(s[|s| - 1]);
      if hi.Some? && lo.Some? then Some(16 * hi.value + lo.value) else None
  }

  // `u32::from_str_radix(_, 16)`, which allows a leading plus sign.
  function HexNumber(s: string): Option<nat> {
    if s != [] && s[0] == '+' then (if s[1..] == [] then None else HexDigits(s[1..])) else HexDigits(s)
  }

  // `char::from_u32`, nothing for a surrogate or a number beyond the last code point.
  function Scalar(n: nat): string {
    if n < 0xD800 || 0xE000 <= n < 0x11_0000 then [n as char] else ""
  }

  type Read = Result<(string, string), NtError>

  function Prepend(x: string, r: Read): Read {
    if r.Ok? then Ok((x + r.value.0, r.value.1)) else r
  }

  // What an escape sequence at the start of `s` (after the backslash) stands for, and its length.
  function ReadEscape(s: string): Result<(string, nat), NtError>
    ensures ReadEscape(s).Ok? ==> 0 < ReadEscape(s).value.1 <= |s|
  {
    if s == [] then Err(DanglingEscape)
    else if s[0] == 'n' then Ok(("\n", 1))
    else if s[0] == 'r' then Ok(("\r", 1))
    else if s[0] == 't' then Ok(("\t", 1))
    else if s[0] == '"' then Ok(("\"", 1))
    else if s[0] == '\\' then Ok(("\\", 1))
    else if s[0] == 'u' || s[0] == 'U' then
      var width := if s[0] == 'u' then 4 else 8;
      if |s| <= width then Err(ShortEscape)
      else
        var n := HexNumber(s[1..width + 1]);
        if n.None? then Err(BadHex) else Ok((Scalar(n.value), width + 1))
    else Err(UnknownEscape)
  }

  // The lexical form up to the closing quote, and what follows the quote.
  function ReadLexical(s: string): Read {
    if s == [] then Err(UnterminatedLiteral)
    else if s[0] == '\\' then
      var e := ReadEscape(s[1..]);
      if e.Err? then Err(e.error) else Prepend(e.value.0, ReadLexical(s[1 + e.value.1..]))
    else if s[0] == '"' then Ok(("", s[1..]))
    else Prepend(Latin1(s[0]), ReadLexical(s[1..]))
  }

  predicate EndsName(c: char) { IsSpace(c) || c == '.' }

  type TermRead = Result<(Term, string), NtError>

  function ReadAngled(s: string, error: NtError): Read
    requires s != []
  {
    var end := Find(s, IsClose);
    if end == |s| then Err(error) else if end == 0 then Ok(("", s[1..])) else Ok((s[1..end], s[end + 1..]))
  }

  // What follows the closing quote.
  function ReadTag(lexical: string, rest: string): TermRead {
    if "@" <= rest then
      var n := Find(rest[1..], EndsName);
      Ok((LiteralTerm(lexical, LANG_STRING, Some(rest[1..][..n])), rest[1..][n..]))
    else if "^^" <= rest then
      var dt := TrimStart(rest[2..]);
      if dt == [] || dt[0] != '<' then Err(ExpectedDatatypeIri)
      else
        var r := ReadAngled(dt, UnterminatedIri);
        if r.Err? then Err(r.error) else Ok((LiteralTerm(lexical, r.value.0, None), r.value.1))
    else Ok((LiteralTerm(lexical, XSD_STRING, None), rest))
  }

  // `parse_term`
  function ReadTerm(s: string): TermRead {
    if s == [] then Err(EndOfInput)
    else if s[0] == '<' then
      var r := ReadAngled(s, UnterminatedIri);
      if r.Err? then Err(r.error) else Ok((IriTerm(r.value.0), r.value.1))
    else if "_:" <= s then
      var n := Find(s[2..], EndsName);
      Ok((BlankTerm(s[2..][..n]), s[2..][n..]))
    else if s[0] == '"' then
      var r := ReadLexical(s[1..]);
      if r.Err? then Err(r.error) else ReadTag(r.value.0, r.value.1)
    else Err(UnexpectedStart)
  }

  // `parse_triple`
  function ReadTriple(line: string): Result<Triple, NtError> {
    var trimmed := TrimEnd(line);
    if trimmed == [] || trimmed[|trimmed| - 1] != '.' then Err(MissingDot)
    else
      var a := ReadTerm(Trim(trimmed[..|trimmed| - 1]));
      if a.Err? then Err(a.error)
      else
        var b := ReadTerm(TrimStart(a.value.1));
        if b.Err? then Err(b.error)
        else if !b.value.0.IriTerm? then Err(PredicateNotIri)
        else
          var c := ReadTerm(TrimStart(b.value.1));
          if c.Err? then Err(c.error)
          else if Trim(c.value.1) != [] then Err(TrailingData)
          else
            match a.value.0
            case IriTerm(iri) => Ok(Triple(IriSubject(iri), b.value.0.iri, TermObject(c.value.0)))
            case BlankTerm(name) => Ok(Triple(BlankSubject(name), b.value.0.iri, TermObject(c.value.0)))
            case LiteralTerm(_, _, _) => Err(SubjectIsLiteral)
  }

  function StripReturn(s: string): string {
    if s != [] && s[|s| - 1] == '\r' then s[..|s| - 1] else s
  }

  // `str::lines`
  function Lines(s: string): seq<string>
    decreases |s|
  {
    if s == [] then []
    else
      var n := Find(s, IsNewline);
      if n == |s| then [s] else [StripReturn(s[..n])] + Lines(s[n + 1..])
  }

  predicate Skipped(line: string) { Trim(line) == [] || Trim(line)[0] == '#' }

  // The parse of a line list: the triples of the lines that are not skipped, or the first error with
  // its 1-based line number.
  function ParsedLines(lines: seq<string>): Result<seq<Triple>, (nat, NtError)>
    decreases |lines|
  {
    if lines == [] then Ok([])
    else
      var before := ParsedLines(lines[..|lines| - 1]);
      var line := lines[|lines| - 1];
      if before.Err? || Skipped(line) then before
      else
        var t := ReadTriple(Trim(line));
        if t.Ok? then Ok(before.value + [t.value]) else Err((|lines|, t.error))
  }

  function ParsedDocument(input: string): Result<seq<Triple>, (nat, NtError)> { ParsedLines(Lines(input)) }

  // The byte loop of `parse_literal`.
  method ParseLiteral(input: string) returns (r: TermRead)
    requires input != [] && input[0] == '"'
    ensures r == ReadTerm(input)
  {
    hide Latin1, ReadEscape, ReadTag, ReadAngled;
    var i := 1;
    var lexical := "";
    PrependNothing(ReadLexical(input[1..]));
    while i < |input|
      invariant 1 <= i <= |input|
      invariant ReadLexical(input[1..]) == Prepend(lexical, ReadLexical(input[i..]))
    {
      if input[i] == '\\' {
        assert input[i..][1..] == input[i + 1..];
        var e := ReadEscape(input[i + 1..]);
        if e.Err? {
          return Err(e.error);
        }
        assert input[i..][1 + e.value.1..] == input[i + 1 + e.value.1..];
        PrependTwice(lexical, e.value.0, ReadLexical(input[i + 1 + e.value.1..]));
        lexical := lexical + e.value.0;
        i := i + 1 + e.value.1;
      } else if input[i] == '"' {
        assert input[i..][1..] == input[i + 1..];
        assert lexical + "" == lexical;
        r := ReadTag(lexical, input[i + 1..]);
        return;
      } else {
        assert input[i..][1..] == input[i + 1..];
        PrependTwice(lexical, Latin1(input[i]), ReadLexical(input[i + 1..]));
        lexical := lexical + Latin1(input[i]);
        i := i + 1;
      }
    }
    r := Err(UnterminatedLiteral);
  }

  lemma PrependNothing(r: Read)
    ensures Prepend("", r) == r
  {
    if r.Ok? {
      assert "" + r.value.0 == r.value.0;
    }
  }

  lemma PrependTwice(x: string, y: string, r: Read)
    ensures Prepend(x, Prepend(y, r)) == Prepend(x + y, r)
  {
    if r.Ok? {
      assert x + (y + r.value.0) == x + y + r.value.0;
    }
  }

  // `parse`
  method Parse(input: string) returns (r: Result<seq<Triple>, (nat, NtError)>)
    ensures r == ParsedDocument(input)
  {
    hide ReadTriple, Lines, TrimStart, TrimEnd, ParsedLines;
    var out := [];
    var lines := Lines(input);
    NothingParsed();
    for i := 0 to |lines|
      invariant ParsedLines(lines[..i]) == Ok(out)
    {
      ParsedStep(lines, i);
      var line := Trim(lines[i]);
      if line == [] || line[0] == '#' {
        continue;
      }
      var t := ReadTriple(line);
      if t.Err? {
        LineErrorSticks(lines, i + 1);
        return Err((i + 1, t.error));
      }
      out := out + [t.value];
    }
    assert lines[..|lines|] == lines;
    r := Ok(out);
  }

  lemma NothingParsed()
    ensures ParsedLines([]) == Ok([])
  {
  }

  lemma ParsedStep(lines: seq<string>, i: nat)
    requires i < |lines|
    ensures ParsedLines(lines[..i + 1])
            == (var before := ParsedLines(lines[..i]);
                if before.Err? || Skipped(lines[i]) then before
                else
                  var t := ReadTriple(Trim(lines[i]));
                  if t.Ok? then Ok(before.value + [t.value]) else Err((i + 1, t.error)))
  {
    hide ReadTriple, Skipped, Trim;
    assert lines[..i + 1][..i] == lines[..i];
  }

  lemma {:induction false} LineErrorSticks(lines: seq<string>, n: nat)
    requires n <= |lines| && ParsedLines(lines[..n]).Err?
    ensures ParsedLines(lines) == ParsedLines(lines[..n])
    decreases |lines|
  {
    hide ReadTriple, Skipped;
    if n < |lines| {
      assert lines[..|lines| - 1][..n] == lines[..n];
      LineErrorSticks(lines[..|lines| - 1], n);
    } else {
      assert lines[..n] == lines;
    }
  }
}
