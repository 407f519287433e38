// RDF terms and the text primitives shared by the writers and parsers.

module Rdf {
  import opened Wrappers

  datatype Subject = IriSubject(iri: string) | BlankSubject(name: string)

  datatype Object =
    | IriObject(iri: string)
    | BlankObject(name: string)
    | Literal(lexical: string, kind: string, language: Option<string>)

  datatype Triple = Triple(subj: Subject, pred: string, obj: Object)

  const XSD_STRING := "http://www.w3.org/2001/XMLSchema#string"
  const LANG_STRING := "http://www.w3.org/1999/02/22-rdf-syntax-ns#langString"
  const RDF_TYPE := "http://www.w3.org/1999/02/22-rdf-syntax-ns#type"

  // A term as the parsers hand it on.
  datatype Term =
    | IriTerm(iri: string)
    | BlankTerm(name: string)
    | LiteralTerm(lexical: string, kind: string, language: Option<string>)

  function SubjectTerm(s: Subject): Term {
    match s
    case IriSubject(iri) => IriTerm(iri)
    case BlankSubject(name) => BlankTerm(name)
  }

  function ObjectTerm(o: Object): Term {
    match o
    case IriObject(iri) => IriTerm(iri)
    case BlankObject(name) => BlankTerm(name)
    case Literal(x, k, l) => LiteralTerm(x, k, l)
  }

  function TermObject(t: Term): Object {
    match t
    case IriTerm(iri) => IriObject(iri)
    case BlankTerm(name) => BlankObject(name)
    case LiteralTerm(x, k, l) => Literal(x, k, l)
  }

  // ----- Characters -----

  // The Unicode White_Space property.
  predicate IsSpace(c: char) {
    var n := c as int;
    || 0x09 <= n <= 0x0D || n == 0x20 || n == 0x85 || n == 0xA0 || n == 0x1680
    || 0x2000 <= n <= 0x200A || n == 0x2028 || n == 0x2029 || n == 0x202F || n == 0x205F || n == 0x3000
  }

  predicate IsClose(c: char) { c == '>' }

  predicate IsColon(c: char) { c == ':' }

  predicate IsNewline(c: char) { c == '\n' }

  predicate IsAscii(c: char) { c as int < 0x80 }

  // The literal readers push each UTF-8 byte of a character as a character of its own.
  function Latin1(c: char): (s: string)
    ensures IsAscii(c) ==> s == [c]
    ensures !IsAscii(c) ==> |s| >= 2
  {
    var n := c as int;
    if n < 0x80 then [c]
    else if n < 0x800 then [(0xC0 + n / 0x40) as char, (0x80 + n % 0x40) as char]
    else if n < 0x1_0000 then
      [(0xE0 + n / 0x1000) as char, (0x80 + n / 0x40 % 0x40) as char, (0x80 + n % 0x40) as char]
    else
      [(0xF0 + n / 0x4_0000 % 0x08) as char, (0x80 + n / 0x1000 % 0x40) as char,
       (0x80 + n / 0x40 % 0x40) as char, (0x80 + n % 0x40) as char]
  }

  function AsBytes(s: string): string {
    if s == [] then [] else Latin1(s[0]) + AsBytes(s[1..])
  }

  predicate AllAscii(s: string) { forall c | c in s :: IsAscii(c) }

  // Reading byte by byte returns the text exactly when it is ASCII.
  lemma {:induction false} AsBytesExact(s: string)
    ensures |AsBytes(s)| >= |s|
    ensures AsBytes(s) == s <==> AllAscii(s)
  {
    if s != [] {
      AsBytesExact(s[1..]);
      assert s == [s[0]] + s[1..];
      assert forall c :: c in s <==> c == s[0] || c in s[1..];
      if IsAscii(s[0]) {
        assert AsBytes(s) == [s[0]] + AsBytes(s[1..]);
        assert AsBytes(s)[1..] == AsBytes(s[1..]);
      } else {
        assert |AsBytes(s)| > |s|;
      }
    }
  }

  // ----- Joining -----

  lemma Associate(a: string, b: string, c: string)
    ensures (a + b) + c == a + (b + c)
  {
  }

  lemma JoinFour(a: string, b: string, c: string, d: string)
    ensures a + b + c + d == a + (b + (c + d))
  {
  }

  // ----- Searching and trimming -----

  // Index of the first character satisfying `p`, or the length.
  function Find(s: string, p: char -> bool): (n: nat)
    ensures n <= |s| && (n < |s| ==> p(s[n])) && forall i | 0 <= i < n :: !p(s[i])
  {
    if s == [] || p(s[0]) then 0 else 1 + Find(s[1..], p)
  }

  lemma FindAt(s: string, p: char -> bool, n: nat)
    requires n <= |s| && (n < |s| ==> p(s[n])) && forall i | 0 <= i < n :: !p(s[i])
    ensures Find(s, p) == n
  {
    var f := Find(s, p);
    assert forall i | 0 <= i < n :: !p(s[i]) && i != f;
  }

  function TrimStart(s: string): (t: string)
    ensures |t| <= |s| && t == s[|s| - |t|..] && (t != [] ==> !IsSpace(t[0]))
  {
    if s != [] && IsSpace(s[0]) then TrimStart(s[1..]) else s
  }

  function TrimEnd(s: string): (t: string)
    ensures |t| <= |s| && t == s[..|t|] && (t != [] ==> !IsSpace(t[|t| - 1]))
  {
    if s != [] && IsSpace(s[|s| - 1]) then TrimEnd(s[..|s| - 1]) else s
  }

  function Trim(s: string): string { TrimStart(TrimEnd(s)) }

  // ----- Literals -----

  function EscapeChar(c: char): string {
    match c
    case '\\' => "\\\\"
    case '"' => "\\\""
    case '\n' => "\\n"
    case '\r' => "\\r"
    case '\t' => "\\t"
    case _ => [c]
  }

  function Escaped(s: string): string {
    if s == [] then [] else EscapeChar(s[0]) + Escaped(s[1..])
  }

  // The writers' loop over the characters of a literal.
  method PushEscaped(out: string, lexical: string) returns (next: string)
    ensures next == out + Escaped(lexical)
  {
    hide Escaped;
    next := out;
    NothingEscaped(out);
    for i := 0 to |lexical|
      invariant next == out + Escaped(lexical[..i])
    {
      match lexical[i] {
        case '\\' => next := next + "\\\\";
        case '"' => next := next + "\\\"";
        case '\n' => next := next + "\\n";
        case '\r' => next := next + "\\r";
        case '\t' => next := next + "\\t";
        case c => next := next + [c];
      }
      EscapedAppend(lexical[..i], lexical[i]);
      assert lexical[..i + 1] == lexical[..i] + [lexical[i]];
    }
    assert lexical[..|lexical|] == lexical;
  }

  lemma NothingEscaped(out: string)
    ensures out + Escaped([]) == out
  {
  }

  lemma {:induction false} EscapedAppend(s: string, c: char)
    ensures Escaped(s + [c]) == Escaped(s) + EscapeChar(c)
  {
    if s == [] {
      assert s + [c] == [c];
      assert Escaped([c]) == EscapeChar(c) + Escaped([]);
    } else {
      assert (s + [c])[1..] == s[1..] + [c];
      EscapedAppend(s[1..], c);
    }
  }
}
