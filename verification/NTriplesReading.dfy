// What N-Triples documents read as, spelt character by character.

module NTriplesReading {
  import opened Wrappers
  import opened Rdf
  import opened Texts
  import opened NTriples
  import NTriplesRoundTrip

  // ----- A grammar of its own for lines -----

  datatype Word = Angled(iri: string) | Anonymous(name: string)

  // A character of a literal as it stands, one after a backslash, or a code point in hexadecimal digits.
  datatype Unit = Raw(c: char) | Escape(c: char) | Code(long: bool, digits: string, point: nat)

  datatype Mark = Unmarked | Language(name: string) | Typed(gap: string, iri: string)

  datatype Item = Entity(word: Word) | Quoted(units: seq<Unit>, mark: Mark)

  // A statement with the white space around its words, a comment, or a line of white space.
  datatype Line =
    | Statement(lead: string, subj: Word, gap1: string, pred: string, gap2: string, obj: Item, gap3: string,
                tail: string)
    | Comment(lead: string, text: string)
    | Empty(lead: string)

  // Each of these writes its phrase in front of `rest`.

  function WordSpelt(w: Word, rest: string): string {
    match w
    case Angled(iri) => "<" + (iri + (">" + rest))
    case Anonymous(name) => "_:" + (name + rest)
  }

  function UnitSpelt(u: Unit, rest: string): string {
    match u
    case Raw(c) => [c] + rest
    case Escape(c) => ['\\', c] + rest
    case Code(long, digits, _) => (if long then "\\U" else "\\u") + (digits + rest)
  }

  function UnitsSpelt(units: seq<Unit>, rest: string): string {
    if units == [] then rest else UnitSpelt(units[0], UnitsSpelt(units[1..], rest))
  }

  function MarkSpelt(mark: Mark, rest: string): string {
    match mark
    case Unmarked => rest
    case Language(name) => "@" + (name + rest)
    case Typed(gap, iri) => "^^" + (gap + ("<" + (iri + (">" + rest))))
  }

  function ItemSpelt(item: Item, rest: string): string {
    match item
    case Entity(word) => WordSpelt(word, rest)
    case Quoted(units, mark) => "\"" + UnitsSpelt(units, "\"" + MarkSpelt(mark, rest))
  }

  function CoreSpelt(l: Line): string
    requires l.Statement?
  {
    WordSpelt(l.subj, l.gap1 + WordSpelt(Angled(l.pred), l.gap2 + ItemSpelt(l.obj, "")))
  }

  function LineSpelt(l: Line): string {
    match l
    case Statement(lead, _, _, _, _, _, gap3, tail) => lead + ((CoreSpelt(l) + (gap3 + ".")) + tail)
    case Comment(lead, text) => lead + ("#" + text)
    case Empty(lead) => lead
  }

  // ----- What it means -----

  // The character with the code point, if there is one.
  function CodeValue(point: nat): string {
    if point <= 0xD7FF || 0xE000 <= point <= 0x10FFFF then [point as char] else ""
  }

  function UnitValue(u: Unit): string {
    match u
    case Raw(c) => Latin1(c)
    case Escape('n') => "\n"
    case Escape('r') => "\r"
    case Escape('t') => "\t"
    case Escape(c) => [c]
    case Code(_, _, point) => CodeValue(point)
  }

  function UnitsValue(units: seq<Unit>): string {
    if units == [] then "" else UnitValue(units[0]) + UnitsValue(units[1..])
  }

  function ItemObject(item: Item): Object {
    match item
    case Entity(Angled(iri)) => IriObject(iri)
    case Entity(Anonymous(name)) => BlankObject(name)
    case Quoted(units, Unmarked) => Literal(UnitsValue(units), "http://www.w3.org/2001/XMLSchema#string", None)
    case Quoted(units, Language(name)) =>
      Literal(UnitsValue(units), "http://www.w3.org/1999/02/22-rdf-syntax-ns#langString", Some(name))
    case Quoted(units, Typed(_, iri)) => Literal(UnitsValue(units), iri, None)
  }

  function WordSubject(w: Word): Subject {
    match w
    case Angled(iri) => IriSubject(iri)
    case Anonymous(name) => BlankSubject(name)
  }

  function LineTriple(l: Line): Triple
    requires l.Statement?
  {
    Triple(WordSubject(l.subj), l.pred, ItemObject(l.obj))
  }

  function LineTriples(l: Line): seq<Triple> {
    if l.Statement? then [LineTriple(l)] else []
  }

  // ----- Which lines it speaks about -----

  // The digits of the number, in either case.
  predicate SpellsHex(digits: string, n: nat)
    decreases |digits|
  {
    if digits == "" then n == 0
    else
      var c := digits[|digits| - 1];
      && (c == "0123456789abcdef"[n % 16] || c == "0123456789ABCDEF"[n % 16])
      && SpellsHex(digits[..|digits| - 1], n / 16)
  }

  predicate PlainUnit(u: Unit) {
    match u
    case Raw(c) => c != '"' && c != '\\'
    case Escape(c) => c in "nrt\"\\"
    case Code(long, digits, point) =>
      && |digits| == (if long then 8 else 4)
      && (SpellsHex(digits, point) || (digits[0] == '+' && SpellsHex(digits[1..], point)))
  }

  predicate PlainName(name: string) { forall c | c in name :: !IsSpace(c) && c != '.' }

  predicate PlainWord(w: Word) {
    match w
    case Angled(iri) => '>' !in iri
    case Anonymous(name) => PlainName(name)
  }

  predicate PlainItem(item: Item) {
    match item
    case Entity(word) => PlainWord(word)
    case Quoted(units, mark) =>
      && (forall u | u in units :: PlainUnit(u))
      && match mark
         case Unmarked => true
         case Language(name) => PlainName(name)
         case Typed(gap, iri) => White(gap) && '>' !in iri
  }

  // A name is kept apart from what follows it by white space; other words need none.
  predicate PlainLine(l: Line) {
    match l
    case Statement(lead, subj, gap1, pred, gap2, obj, gap3, tail) =>
      && White(lead) && PlainWord(subj) && White(gap1) && (subj.Anonymous? ==> gap1 != "")
      && '>' !in pred && White(gap2) && PlainItem(obj) && White(gap3) && White(tail)
    case Comment(lead, _) => White(lead)
    case Empty(lead) => White(lead)
  }

  // ----- Code points -----

  lemma HexDigitReads(c: char, d: nat)
    requires d < 16
    ensures HexDigit(c) == Some(d) <==> c == "0123456789abcdef"[d] || c == "0123456789ABCDEF"[d]
  {
  }

  lemma {:induction false} HexReads(digits: string, n: nat)
    ensures HexDigits(digits) == Some(n) <==> SpellsHex(digits, n)
    decreases |digits|
  {
    hide HexDigit;
    if digits != "" {
      var init, c := digits[..|digits| - 1], digits[|digits| - 1];
      HexReads(init, n / 16);
      HexDigitReads(c, n % 16);
      if HexDigits(digits) == Some(n) {
        HexDigitRange(c);
      }
    }
  }

  lemma HexDigitRange(c: char)
    ensures HexDigit(c).Some? ==> HexDigit(c).value < 16
  {
  }

  lemma {:induction false} HexHasNoPlus(digits: string, n: nat)
    requires SpellsHex(digits, n)
    ensures '+' !in digits
    decreases |digits|
  {
    if digits != "" {
      var init, c := digits[..|digits| - 1], digits[|digits| - 1];
      HexHasNoPlus(init, n / 16);
      assert digits == init + [c];
      assert "0123456789abcdef"[n % 16] in "0123456789abcdef" && "0123456789ABCDEF"[n % 16] in "0123456789ABCDEF";
    }
  }

  lemma CodeReads(digits: string, n: nat)
    requires |digits| > 1 && (SpellsHex(digits, n) || (digits[0] == '+' && SpellsHex(digits[1..], n)))
    ensures HexNumber(digits) == Some(n)
  {
    hide HexDigits, SpellsHex;
    if SpellsHex(digits, n) {
      HexHasNoPlus(digits, n);
      assert digits[0] in digits;
      HexReads(digits, n);
    } else {
      HexReads(digits[1..], n);
    }
  }

  lemma CodeUnit(u: Unit, rest: string)
    requires u.Code? && PlainUnit(u)
    ensures ReadEscape(UnitSpelt(u, rest)[1..]) == Ok((CodeValue(u.point), |u.digits| + 1))
    ensures UnitSpelt(u, rest)[1..][|u.digits| + 1..] == rest && UnitSpelt(u, rest)[0] == '\\'
  {
    hide HexNumber, SpellsHex;
    var s := UnitSpelt(u, rest)[1..];
    assert s == (if u.long then "U" else "u") + (u.digits + rest);
    assert s[1..|u.digits| + 1] == u.digits && s[|u.digits| + 1..] == rest;
    CodeReads(u.digits, u.point);
  }

  lemma UnitReads(u: Unit, rest: string)
    requires PlainUnit(u)
    ensures ReadLexical(UnitSpelt(u, rest)) == Prepend(UnitValue(u), ReadLexical(rest))
  {
    hide HexNumber, SpellsHex, Latin1;
    var s := UnitSpelt(u, rest);
    match u {
      case Raw(c) =>
        assert s[1..] == rest;
      case Escape(c) =>
        assert s[1..][0] == c && s[1 + 1..] == rest && s[1..] != [];
        assert ReadEscape(s[1..]) == Ok((UnitValue(u), 1));
      case Code(long, digits, point) =>
        CodeUnit(u, rest);
        assert s[1 + (|digits| + 1)..] == s[1..][|digits| + 1..];
    }
  }

  lemma {:induction false} UnitsRead(units: seq<Unit>, rest: string)
    requires forall u | u in units :: PlainUnit(u)
    ensures ReadLexical(UnitsSpelt(units, "\"" + rest)) == Ok((UnitsValue(units), rest))
  {
    hide PlainUnit, UnitSpelt, UnitValue;
    if units == [] {
      assert ("\"" + rest)[1..] == rest;
    } else {
      assert units[0] in units;
      UnitsRead(units[1..], rest);
      UnitReads(units[0], UnitsSpelt(units[1..], "\"" + rest));
    }
  }

  // ----- Words -----

  // Where a name ends.
  predicate Ended(rest: string) { rest == "" || IsSpace(rest[0]) || rest[0] == '.' }

  lemma NameEnds(name: string, rest: string)
    requires PlainName(name) && Ended(rest)
    ensures Find(name + rest, EndsName) == |name|
  {
    hide IsSpace;
    assert forall i | 0 <= i < |name| :: name[i] in name;
    FindAt(name + rest, EndsName, |name|);
  }

  lemma AngledReads(iri: string, rest: string)
    requires '>' !in iri
    ensures ReadAngled("<" + (iri + (">" + rest)), UnterminatedIri) == Ok((iri, rest))
  {
    var s := "<" + (iri + (">" + rest));
    AngledEnds(iri, rest);
    assert s[1..|iri| + 1] == iri && s[|iri| + 2..] == rest;
  }

  lemma AngledEnds(iri: string, rest: string)
    requires '>' !in iri
    ensures Find("<" + (iri + (">" + rest)), IsClose) == |iri| + 1
  {
    var s := "<" + (iri + (">" + rest));
    forall i | 0 <= i < |iri| + 1 ensures !IsClose(s[i]) {
      assert i > 0 ==> s[i] == iri[i - 1] && iri[i - 1] in iri;
    }
    FindAt(s, IsClose, |iri| + 1);
  }

  lemma WordReads(w: Word, rest: string)
    requires PlainWord(w) && (w.Anonymous? ==> Ended(rest))
    ensures ReadTerm(WordSpelt(w, rest)) == Ok((if w.Angled? then IriTerm(w.iri) else BlankTerm(w.name), rest))
  {
    hide PlainName, Ended, ReadAngled;
    match w {
      case Angled(iri) => AngledReads(iri, rest);
      case Anonymous(name) =>
        var s := WordSpelt(w, rest);
        assert s[0] == '_' && s[1] == ':' && s[2..] == name + rest;
        NameEnds(name, rest);
    }
  }

  lemma TagAfter(lexical: string, rest: string, dt: string, iri: string, tail: string)
    requires "^^" <= rest && TrimStart(rest[2..]) == dt && Starts(dt, '<')
    requires ReadAngled(dt, UnterminatedIri) == Ok((iri, tail))
    ensures ReadTag(lexical, rest) == Ok((LiteralTerm(lexical, iri, None), tail))
  {
    hide ReadAngled, TrimStart;
    assert rest[0] == '^';
  }

  predicate Starts(s: string, c: char) { s != "" && s[0] == c }

  lemma TypedReads(lexical: string, gap: string, iri: string, rest: string)
    requires White(gap) && '>' !in iri
    ensures ReadTag(lexical, "^^" + (gap + ("<" + (iri + (">" + rest))))) == Ok((LiteralTerm(lexical, iri, None), rest))
  {
    hide ReadAngled, ReadTag, TrimStart, White;
    var dt := "<" + (iri + (">" + rest));
    AngledReads(iri, rest);
    assert !IsSpace('<') && Starts(dt, '<');
    TrimStartDrops(gap, dt);
    assert ("^^" + (gap + dt))[2..] == gap + dt;
    TagAfter(lexical, "^^" + (gap + dt), dt, iri, rest);
  }

  lemma MarkReads(lexical: string, mark: Mark)
    requires PlainItem(Quoted([], mark))
    ensures ReadTag(lexical, MarkSpelt(mark, ""))
            == Ok((ObjectTerm(match mark
                              case Unmarked => Literal(lexical, "http://www.w3.org/2001/XMLSchema#string", None)
                              case Language(name) =>
                                Literal(lexical, "http://www.w3.org/1999/02/22-rdf-syntax-ns#langString", Some(name))
                              case Typed(_, iri) => Literal(lexical, iri, None)), ""))
  {
    hide White, PlainName, ReadAngled;
    match mark {
      case Unmarked =>
      case Language(name) =>
        assert ("@" + (name + ""))[1..] == name + "" && name + "" == name;
        NameEnds(name, "");
      case Typed(gap, iri) =>
        TypedReads(lexical, gap, iri, "");
    }
  }

  lemma ItemReads(item: Item)
    requires PlainItem(item)
    ensures ReadTerm(ItemSpelt(item, "")) == Ok((ObjectTerm(ItemObject(item)), ""))
  {
    hide PlainUnit, White, PlainName, ReadTag, UnitsSpelt, UnitsValue, MarkSpelt;
    match item {
      case Entity(word) =>
        assert Ended("");
        WordReads(word, "");
      case Quoted(units, mark) =>
        var text := UnitsSpelt(units, "\"" + MarkSpelt(mark, ""));
        var s := "\"" + text;
        assert s[1..] == text && s[0] == '"';
        UnitsRead(units, MarkSpelt(mark, ""));
        MarkReads(UnitsValue(units), mark);
    }
  }

  // ----- Lines -----

  lemma WordBegins(w: Word, rest: string)
    ensures var s := WordSpelt(w, rest); s != "" && !IsSpace(s[0]) && s[0] != '#'
  {
  }

  lemma ItemBegins(item: Item, rest: string)
    ensures var s := ItemSpelt(item, rest); s != "" && !IsSpace(s[0])
  {
    hide UnitsSpelt;
  }

  // Text that ends in something else than white space.
  predicate Solid(s: string) { s != "" && !IsSpace(s[|s| - 1]) }

  lemma {:induction false} UnitsEnd(units: seq<Unit>, rest: string)
    requires rest != ""
    ensures var s := UnitsSpelt(units, rest); s != "" && s[|s| - 1] == rest[|rest| - 1]
  {
    if units != [] {
      UnitsEnd(units[1..], rest);
    }
  }

  lemma NameSolid(before: string, name: string)
    requires PlainName(name) && Solid(before)
    ensures Solid(before + (name + ""))
  {
    hide IsSpace;
    assert name != "" ==> name[|name| - 1] in name;
    assert before + (name + "") == before + name;
  }

  lemma WordSolid(w: Word)
    requires PlainWord(w)
    ensures Solid(WordSpelt(w, ""))
  {
    hide PlainName, IsSpace;
    StopIsSolid();
    if w.Anonymous? {
      NameSolid("_:", w.name);
    }
  }

  lemma MarkSolid(mark: Mark)
    requires PlainItem(Quoted([], mark))
    ensures Solid("\"" + MarkSpelt(mark, ""))
  {
    hide PlainName, IsSpace, White;
    StopIsSolid();
    if mark.Language? {
      NameSolid("\"@", mark.name);
      assert "\"@" + (mark.name + "") == "\"" + ("@" + (mark.name + ""));
    }
  }

  lemma ItemSolid(item: Item)
    requires PlainItem(item)
    ensures Solid(ItemSpelt(item, ""))
  {
    hide PlainUnit, White, PlainName, UnitsSpelt, MarkSpelt, IsSpace;
    match item {
      case Entity(word) => WordSolid(word);
      case Quoted(units, mark) =>
        MarkSolid(mark);
        UnitsEnd(units, "\"" + MarkSpelt(mark, ""));
    }
  }

  lemma SolidBehind(before: string, s: string)
    requires Solid(s)
    ensures Solid(before + s)
  {
  }

  lemma WordBefore(w: Word, rest: string)
    requires Solid(rest)
    ensures Solid(WordSpelt(w, rest))
  {
    hide IsSpace;
  }

  lemma CoreEnds(l: Line)
    requires l.Statement? && PlainLine(l)
    ensures Solid(CoreSpelt(l)) && !IsSpace(CoreSpelt(l)[0]) && CoreSpelt(l)[0] != '#'
  {
    hide Solid, PlainItem, PlainWord, White, WordSpelt, ItemSpelt;
    ItemSolid(l.obj);
    SolidBehind(l.gap2, ItemSpelt(l.obj, ""));
    WordBefore(Angled(l.pred), l.gap2 + ItemSpelt(l.obj, ""));
    SolidBehind(l.gap1, WordSpelt(Angled(l.pred), l.gap2 + ItemSpelt(l.obj, "")));
    WordBefore(l.subj, l.gap1 + WordSpelt(Angled(l.pred), l.gap2 + ItemSpelt(l.obj, "")));
    WordBegins(l.subj, l.gap1 + WordSpelt(Angled(l.pred), l.gap2 + ItemSpelt(l.obj, "")));
  }

  lemma GapEnds(gap: string, rest: string)
    requires White(gap) && gap != ""
    ensures Ended(gap + rest)
  {
    assert gap[0] in gap;
  }

  lemma SubjectReads(w: Word, gap: string, rest: string)
    requires PlainWord(w) && White(gap) && (w.Anonymous? ==> gap != "")
    ensures ReadTerm(WordSpelt(w, gap + rest)) == Ok((SubjectTerm(WordSubject(w)), gap + rest))
  {
    hide ReadTerm, WordSpelt, White, PlainWord, Ended;
    if w.Anonymous? {
      GapEnds(gap, rest);
    }
    WordReads(w, gap + rest);
  }

  lemma PredicateReads(gap: string, pred: string, rest: string)
    requires White(gap) && '>' !in pred
    ensures ReadTerm(TrimStart(gap + WordSpelt(Angled(pred), rest))) == Ok((IriTerm(pred), rest))
  {
    hide ReadTerm, WordSpelt, White, TrimStart, IsSpace;
    WordBegins(Angled(pred), rest);
    TrimStartDrops(gap, WordSpelt(Angled(pred), rest));
    WordReads(Angled(pred), rest);
  }

  lemma ObjectReads(gap: string, item: Item)
    requires White(gap) && PlainItem(item)
    ensures ReadTerm(TrimStart(gap + ItemSpelt(item, ""))) == Ok((ObjectTerm(ItemObject(item)), ""))
  {
    hide ReadTerm, ItemSpelt, ItemObject, White, TrimStart, IsSpace, PlainItem;
    ItemBegins(item, "");
    TrimStartDrops(gap, ItemSpelt(item, ""));
    ItemReads(item);
  }

  // The three terms of a statement.
  lemma CoreReads(l: Line) returns (afterSubj: string, afterPred: string)
    requires l.Statement? && PlainLine(l)
    ensures ReadTerm(CoreSpelt(l)) == Ok((SubjectTerm(WordSubject(l.subj)), afterSubj))
    ensures ReadTerm(TrimStart(afterSubj)) == Ok((IriTerm(l.pred), afterPred))
    ensures ReadTerm(TrimStart(afterPred)) == Ok((ObjectTerm(ItemObject(l.obj)), ""))
  {
    hide ReadTerm, WordSpelt, ItemSpelt, ItemObject, White, PlainItem, PlainWord, TrimStart, IsSpace, Ended;
    hide SubjectTerm, ObjectTerm, WordSubject;
    afterPred := l.gap2 + ItemSpelt(l.obj, "");
    afterSubj := l.gap1 + WordSpelt(Angled(l.pred), afterPred);
    SubjectReads(l.subj, l.gap1, WordSpelt(Angled(l.pred), afterPred));
    PredicateReads(l.gap1, l.pred, afterPred);
    ObjectReads(l.gap2, l.obj);
  }

  lemma ObjectOfTerm(o: Object)
    ensures TermObject(ObjectTerm(o)) == o
  {
  }

  // A statement without the white space at its ends.
  lemma StatementReads(l: Line)
    requires l.Statement? && PlainLine(l)
    ensures ReadTriple(CoreSpelt(l) + (l.gap3 + ".")) == Ok(LineTriple(l))
  {
    hide ReadTriple, ReadTerm, CoreSpelt, White, PlainItem, PlainWord, Trim, TrimStart, ItemObject, WordSubject;
    var core := CoreSpelt(l);
    var s := core + (l.gap3 + ".");
    CoreEnds(l);
    StopIsSolid();
    assert s[|s| - 1] == '.' && TrimEnd(s) == s;
    assert s[..|s| - 1] == core + l.gap3 && "" + (core + l.gap3) == core + l.gap3;
    WhiteJoins("", "");
    TrimmedOut("", core, l.gap3);
    var afterSubj, afterPred := CoreReads(l);
    NTriplesRoundTrip.TrimEmpty();
    NTriplesRoundTrip.ReadTripleSteps(s, LineTriple(l), afterSubj, afterPred, ObjectTerm(ItemObject(l.obj)), "");
    ObjectOfTerm(ItemObject(l.obj));
  }

  lemma StopIsSolid()
    ensures !IsSpace('.') && !IsSpace('#') && !IsSpace(':') && !IsSpace('>') && !IsSpace('"') && !IsSpace('@')
    ensures !IsSpace('^')
  {
  }

  lemma LineReads(l: Line)
    requires PlainLine(l)
    ensures Skipped(LineSpelt(l)) <==> !l.Statement?
    ensures l.Statement? ==> ReadTriple(Trim(LineSpelt(l))) == Ok(LineTriple(l))
  {
    hide ReadTriple, CoreSpelt, ItemObject, White, PlainItem, PlainWord, Trim, LineTriple;
    StopIsSolid();
    match l {
      case Statement(lead, _, _, _, _, _, gap3, tail) =>
        CoreEnds(l);
        TrimmedOut(lead, CoreSpelt(l) + (gap3 + "."), tail);
        StatementReads(l);
      case Comment(lead, text) =>
        CommentSkipped(lead, text);
      case Empty(lead) =>
        WhiteJoins("", "");
        assert lead + ("" + "") == lead;
        TrimmedOut(lead, "", "");
    }
  }

  lemma {:induction false} CommentSkipped(lead: string, text: string)
    requires White(lead)
    ensures Trim(lead + ("#" + text)) != "" && Trim(lead + ("#" + text))[0] == '#'
    decreases |text|
  {
    hide IsSpace, White, TrimStart;
    StopIsSolid();
    var s := lead + ("#" + text);
    if text != "" && IsSpace(text[|text| - 1]) {
      assert s[..|s| - 1] == lead + ("#" + text[..|text| - 1]);
      CommentSkipped(lead, text[..|text| - 1]);
    } else {
      assert text == "" ==> s[|s| - 1] == '#';
      TrimStartDrops(lead, "#" + text);
    }
  }

  // ----- Documents -----

  predicate Unbroken(s: string) { '\n' !in s }

  // Lines with newlines between them; the last may be without one.
  function JoinLines(lines: seq<string>): string
    requires lines != []
  {
    if |lines| == 1 then lines[0] else lines[0] + ("\n" + JoinLines(lines[1..]))
  }

  lemma {:induction false} LinesRead(lines: seq<string>, i: nat)
    requires lines != [] && forall line | line in lines :: Unbroken(line)
    ensures |Lines(JoinLines(lines))| == |lines| - (if lines[|lines| - 1] == "" then 1 else 0)
    ensures i < |Lines(JoinLines(lines))| ==> Trim(Lines(JoinLines(lines))[i]) == Trim(lines[i])
    decreases |lines|
  {
    hide Trim, StripReturn, Lines, Unbroken;
    assert lines[0] in lines;
    if |lines| == 1 {
      LastLine(lines[0]);
    } else {
      var rest := lines[1..];
      assert forall line | line in rest :: line in lines;
      LinesRead(rest, if i > 0 then i - 1 else 0);
      FirstLine(lines[0], JoinLines(rest));
      StrippedTrims(lines[0]);
    }
  }

  lemma FirstLine(line: string, rest: string)
    requires Unbroken(line)
    ensures Lines(line + ("\n" + rest)) == [StripReturn(line)] + Lines(rest)
  {
    hide Lines, StripReturn;
    NTriplesRoundTrip.FirstLine(line, rest);
  }

  lemma LastLine(line: string)
    requires Unbroken(line)
    ensures Lines(line) == if line == "" then [] else [line]
  {
    hide StripReturn;
    FindAt(line, IsNewline, |line|);
  }

  lemma StrippedTrims(s: string)
    ensures Trim(StripReturn(s)) == Trim(s)
  {
  }

  function LineTexts(ls: seq<Line>): seq<string> {
    seq(|ls|, i requires 0 <= i < |ls| => LineSpelt(ls[i]))
  }

  function AllTriples(ls: seq<Line>): seq<Triple> {
    if ls == [] then [] else AllTriples(ls[..|ls| - 1]) + LineTriples(ls[|ls| - 1])
  }

  // The lines before the first that is no line of the grammar are read, skipping comments and white space.
  lemma {:induction false} PrefixReads(lines: seq<string>, ls: seq<Line>)
    requires |ls| <= |lines| && forall i | 0 <= i < |ls| :: PlainLine(ls[i]) && Trim(lines[i]) == Trim(LineSpelt(ls[i]))
    ensures ParsedLines(lines[..|ls|]) == Ok(AllTriples(ls))
    decreases |ls|
  {
    hide Trim, PlainLine, LineSpelt, ReadTriple, LineTriple, ParsedLines, Skipped;
    if ls == [] {
      NothingParsed();
      assert lines[..0] == [];
    } else {
      var n := |ls| - 1;
      var init, last := ls[..n], ls[n];
      assert forall i | 0 <= i < n :: init[i] == ls[i];
      PrefixReads(lines, init);
      ParsedStep(lines, n);
      SkippedByTrim(lines[n], LineSpelt(last));
      LineReads(last);
      assert AllTriples(ls) == AllTriples(init) + LineTriples(last);
      assert !last.Statement? ==> AllTriples(ls) == AllTriples(init);
    }
  }

  // A document gives the triples of its statements in order; one whose first line outside the grammar is no
  // statement either gives that line's number and error.
  lemma DocumentReads(ls: seq<Line>, bad: string, after: seq<string>)
    requires forall l | l in ls :: PlainLine(l) && Unbroken(LineSpelt(l))
    requires forall line | line in after :: Unbroken(line)
    requires Unbroken(bad)
    ensures ls != [] ==> ParsedDocument(JoinLines(LineTexts(ls))) == Ok(AllTriples(ls))
    ensures !Skipped(bad) && ReadTriple(Trim(bad)).Err? ==>
              ParsedDocument(JoinLines(LineTexts(ls) + [bad] + after)) == Err((|ls| + 1, ReadTriple(Trim(bad)).error))
  {
    hide ReadTriple, PlainLine, LineSpelt, JoinLines, Trim, Lines, Unbroken, AllTriples, ParsedLines;
    if ls != [] {
      GoodDocument(ls);
    }
    if !Skipped(bad) && ReadTriple(Trim(bad)).Err? {
      BadLine(ls, bad, after);
    }
  }

  lemma TextsAt(ls: seq<Line>)
    requires forall l | l in ls :: PlainLine(l) && Unbroken(LineSpelt(l))
    ensures |LineTexts(ls)| == |ls| && forall line | line in LineTexts(ls) :: Unbroken(line)
    ensures forall i | 0 <= i < |ls| :: PlainLine(ls[i]) && LineTexts(ls)[i] == LineSpelt(ls[i])
  {
    hide PlainLine, LineSpelt;
  }

  lemma GoodDocument(ls: seq<Line>)
    requires ls != [] && forall l | l in ls :: PlainLine(l) && Unbroken(LineSpelt(l))
    ensures ParsedDocument(JoinLines(LineTexts(ls))) == Ok(AllTriples(ls))
  {
    hide ReadTriple, PlainLine, LineSpelt, JoinLines, Trim, Lines, Unbroken, ParsedLines;
    var texts := LineTexts(ls);
    TextsAt(ls);
    var lines := Lines(JoinLines(texts));
    LinesRead(texts, 0);
    forall i: nat | i < |lines| ensures Trim(lines[i]) == Trim(texts[i]) {
      LinesRead(texts, i);
    }
    var n := |lines|;
    assert lines[..n] == lines;
    PrefixReads(lines, ls[..n]);
    if n < |ls| {
      LastEmpty(ls);
    } else {
      assert ls[..n] == ls;
    }
  }

  lemma LastEmpty(ls: seq<Line>)
    requires ls != [] && LineSpelt(ls[|ls| - 1]) == "" && PlainLine(ls[|ls| - 1])
    ensures AllTriples(ls) == AllTriples(ls[..|ls| - 1])
  {
    hide CoreSpelt;
  }

  lemma BadLine(ls: seq<Line>, bad: string, after: seq<string>)
    requires forall l | l in ls :: PlainLine(l) && Unbroken(LineSpelt(l))
    requires forall line | line in after :: Unbroken(line)
    requires Unbroken(bad) && !Skipped(bad) && ReadTriple(Trim(bad)).Err?
    ensures ParsedDocument(JoinLines(LineTexts(ls) + [bad] + after)) == Err((|ls| + 1, ReadTriple(Trim(bad)).error))
  {
    hide ReadTriple, PlainLine, LineSpelt, JoinLines, Trim, Lines, Unbroken, ParsedLines, LineTexts, AllTriples;
    var texts := LineTexts(ls) + [bad] + after;
    TextsAt(ls);
    assert texts[|ls|] == bad;
    var lines := Lines(JoinLines(texts));
    LinesRead(texts, 0);
    assert bad != "" by { EmptySkipped(); }
    forall i: nat | i < |lines| ensures Trim(lines[i]) == Trim(texts[i]) {
      LinesRead(texts, i);
    }
    PrefixReads(lines, ls);
    ParsedStep(lines, |ls|);
    SkippedByTrim(bad, lines[|ls|]);
    LineErrorSticks(lines, |ls| + 1);
  }

  lemma EmptySkipped()
    ensures Skipped("")
  {
  }

  lemma SkippedByTrim(s: string, t: string)
    requires Trim(s) == Trim(t)
    ensures Skipped(s) == Skipped(t)
  {
    hide Trim;
  }

  // ----- What is rejected -----

  // Terms: none, another character, an IRI without its bracket.
  lemma TermsRejected(text: string)
    ensures ReadTerm("") == Err(EndOfInput)
    ensures text != "" && text[0] != '<' && text[0] != '"' && !(text[0] == '_' && |text| > 1 && text[1] == ':') ==>
              ReadTerm(text) == Err(UnexpectedStart)
    ensures '>' !in text ==> ReadTerm("<" + text) == Err(UnterminatedIri)
  {
    if '>' !in text {
      UnclosedIri(text);
    }
  }

  lemma UnclosedIri(text: string)
    requires '>' !in text
    ensures ReadTerm("<" + text) == Err(UnterminatedIri)
  {
    var s := "<" + text;
    forall i | 0 <= i < |s| ensures !IsClose(s[i]) {
      assert i > 0 ==> s[i] == text[i - 1] && text[i - 1] in text;
    }
    FindAt(s, IsClose, |s|);
  }

  lemma UnitsFail(units: seq<Unit>, rest: string)
    requires (forall u | u in units :: PlainUnit(u)) && ReadLexical(rest).Err?
    ensures ReadLexical(UnitsSpelt(units, rest)) == ReadLexical(rest)
  {
    hide PlainUnit, UnitSpelt, ReadLexical, UnitValue;
    if units != [] {
      assert units[0] in units;
      UnitsFail(units[1..], rest);
      UnitReads(units[0], UnitsSpelt(units[1..], rest));
    }
  }

  // Literals: the text ends in it or behind a backslash, an escape is unknown, short, or no number.
  lemma LiteralsRejected(units: seq<Unit>, c: char, digits: string)
    requires forall u | u in units :: PlainUnit(u)
    ensures ReadTerm("\"" + UnitsSpelt(units, "")) == Err(UnterminatedLiteral)
    ensures ReadTerm("\"" + UnitsSpelt(units, "\\")) == Err(DanglingEscape)
    ensures c !in "nrt\"\\uU" ==> ReadTerm("\"" + UnitsSpelt(units, ['\\', c] + digits)) == Err(UnknownEscape)
    ensures |digits| < 4 ==> ReadTerm("\"" + UnitsSpelt(units, "\\u" + digits)) == Err(ShortEscape)
    ensures |digits| < 8 ==> ReadTerm("\"" + UnitsSpelt(units, "\\U" + digits)) == Err(ShortEscape)
    ensures |digits| >= 4 && (forall n: nat :: !SpellsHex(digits[..4], n)) && digits[0] != '+' ==>
              ReadTerm("\"" + UnitsSpelt(units, "\\u" + digits)) == Err(BadHex)
  {
    hide *;
    EscapesRejected(c, digits);
    LiteralFails(units, "");
    LiteralFails(units, "\\");
    LiteralFails(units, ['\\', c] + digits);
    LiteralFails(units, "\\u" + digits);
    LiteralFails(units, "\\U" + digits);
  }

  lemma LiteralFails(units: seq<Unit>, rest: string)
    requires forall u | u in units :: PlainUnit(u)
    ensures ReadLexical(rest).Err? ==> ReadTerm("\"" + UnitsSpelt(units, rest)) == Err(ReadLexical(rest).error)
  {
    hide PlainUnit, UnitsSpelt, ReadLexical;
    if ReadLexical(rest).Err? {
      UnitsFail(units, rest);
      assert ("\"" + UnitsSpelt(units, rest))[1..] == UnitsSpelt(units, rest);
    }
  }

  lemma EscapesRejected(c: char, digits: string)
    ensures ReadLexical("") == Err(UnterminatedLiteral) && ReadLexical("\\") == Err(DanglingEscape)
    ensures c !in "nrt\"\\uU" ==> ReadLexical(['\\', c] + digits) == Err(UnknownEscape)
    ensures |digits| < 4 ==> ReadLexical("\\u" + digits) == Err(ShortEscape)
    ensures |digits| < 8 ==> ReadLexical("\\U" + digits) == Err(ShortEscape)
    ensures |digits| >= 4 && (forall n: nat :: !SpellsHex(digits[..4], n)) && digits[0] != '+' ==>
              ReadLexical("\\u" + digits) == Err(BadHex)
  {
    hide *;
    EscapeErrors(c, digits);
    EscapeFails("\\", "");
    EscapeFails(['\\', c] + digits, [c] + digits);
    EscapeFails("\\u" + digits, "u" + digits);
    EscapeFails("\\U" + digits, "U" + digits);
    NothingLexical();
  }

  lemma NothingLexical()
    ensures ReadLexical("") == Err(UnterminatedLiteral)
  {
  }

  lemma EscapeFails(s: string, rest: string)
    requires s == "\\" + rest
    ensures ReadEscape(rest).Err? ==> ReadLexical(s) == Err(ReadEscape(rest).error)
  {
    hide ReadEscape;
    assert s[1..] == rest;
  }

  lemma EscapeErrors(c: char, digits: string)
    ensures ReadEscape("") == Err(DanglingEscape)
    ensures c !in "nrt\"\\uU" ==> ReadEscape([c] + digits) == Err(UnknownEscape)
    ensures |digits| < 4 ==> ReadEscape("u" + digits) == Err(ShortEscape)
    ensures |digits| < 8 ==> ReadEscape("U" + digits) == Err(ShortEscape)
    ensures |digits| >= 4 && (forall n: nat :: !SpellsHex(digits[..4], n)) && digits[0] != '+' ==>
              ReadEscape("u" + digits) == Err(BadHex)
  {
    hide SpellsHex, HexDigits;
    if |digits| >= 4 {
      assert ("u" + digits)[1..5] == digits[..4];
      if HexDigits(digits[..4]).Some? {
        HexReads(digits[..4], HexDigits(digits[..4]).value);
      }
    }
  }

  // A statement without the white space at its ends needs a full stop.
  lemma StopMissing(s: string)
    requires s != "" ==> !IsSpace(s[|s| - 1])
    ensures ReadTriple(s) == Err(MissingDot) <==> s == "" || s[|s| - 1] != '.'
    ensures ReadTriple(".") == Err(EndOfInput)
  {
    hide ReadTerm, Trim, TrimStart;
    assert ReadTerm("") == Err(EndOfInput) by { TermsRejected(""); }
    StopIsSolid();
    NTriplesRoundTrip.TrimEmpty();
    assert TrimEnd(s) == s && TrimEnd(".") == ".";
    assert "."[..0] == "";
    if s != "" && s[|s| - 1] == '.' {
      ReadTripleError(s);
    }
  }

  lemma ReadTripleError(s: string)
    requires s != "" && s[|s| - 1] == '.' && TrimEnd(s) == s
    ensures ReadTriple(s) != Err(MissingDot)
  {
    hide ReadTerm, Trim, TrimStart, TrimEnd, TermObject;
    NeverMissing(Trim(s[..|s| - 1]));
    if ReadTerm(Trim(s[..|s| - 1])).Ok? {
      var a := TrimStart(ReadTerm(Trim(s[..|s| - 1])).value.1);
      NeverMissing(a);
      if ReadTerm(a).Ok? {
        NeverMissing(TrimStart(ReadTerm(a).value.1));
      }
    }
  }

  lemma NeverMissing(s: string)
    ensures ReadTerm(s) != Err(MissingDot)
  {
    hide Find, TrimStart, ReadLexical;
    if s != "" && s[0] == '"' {
      NeverMissingLexical(s[1..]);
    }
  }

  lemma {:induction false} NeverMissingLexical(s: string)
    ensures ReadLexical(s) != Err(MissingDot)
    decreases |s|
  {
    hide HexNumber, Latin1;
    if s != "" && s[0] == '\\' && ReadEscape(s[1..]).Ok? {
      NeverMissingLexical(s[1 + ReadEscape(s[1..]).value.1..]);
    } else if s != "" {
      NeverMissingLexical(s[1..]);
    }
  }

  lemma CoreEnding(core: string)
    requires core != "" && !IsSpace(core[0]) && Solid(core)
    ensures var s := core + "."; s[|s| - 1] == '.' && TrimEnd(s) == s && Trim(s[..|s| - 1]) == core
  {
    hide IsSpace, TrimStart, Trim, White;
    StopIsSolid();
    var s := core + ".";
    assert s[..|core|] == core && s[|s| - 1] == '.';
    WhiteJoins("", "");
    TrimmedOut("", core, "");
    assert core + "" == core && "" + core == core;
  }

  // The last checks on a line whose three terms are read.
  lemma ReadSteps(core: string, a: Term, afterA: string, p: string, afterP: string, c: Term, afterC: string)
    requires core != "" && !IsSpace(core[0]) && Solid(core) && ReadTerm(core) == Ok((a, afterA))
    requires ReadTerm(TrimStart(afterA)) == Ok((IriTerm(p), afterP))
    requires ReadTerm(TrimStart(afterP)) == Ok((c, afterC))
    ensures Trim(afterC) != "" ==> ReadTriple(core + ".") == Err(TrailingData)
    ensures Trim(afterC) == "" && a.LiteralTerm? ==> ReadTriple(core + ".") == Err(SubjectIsLiteral)
  {
    hide ReadTerm, Trim, TrimStart, TrimEnd, IsSpace, Solid;
    CoreEnding(core);
  }

  // A blank predicate, something behind the object, a literal for a subject.
  lemma StatementsRejected(subj: Word, gap: string, pred: string, obj: Word, name: string, junk: string,
                           units: seq<Unit>)
    requires PlainWord(subj) && PlainWord(obj) && '>' !in pred && White(gap) && gap != "" && PlainName(name)
    requires junk != "" && !IsSpace(junk[0]) && Solid(junk) && forall u | u in units :: PlainUnit(u)
    ensures ReadTriple(WordSpelt(subj, gap + WordSpelt(Anonymous(name), "")) + ".") == Err(PredicateNotIri)
    ensures ReadTriple(WordSpelt(subj, gap + WordSpelt(Angled(pred), gap + WordSpelt(obj, gap + junk))) + ".")
            == Err(TrailingData)
    ensures ReadTriple("\"" + UnitsSpelt(units, "\"" + (gap + WordSpelt(Angled(pred), gap + WordSpelt(obj, "")))) + ".")
            == Err(SubjectIsLiteral)
  {
    BlankRejected(subj, gap, name);
    JunkRejected(subj, gap, pred, obj, junk);
    LiteralRejected(gap, pred, obj, units);
  }

  lemma WordStays(gap: string, w: Word, rest: string)
    requires White(gap) && PlainWord(w) && (w.Anonymous? ==> Ended(rest))
    ensures ReadTerm(TrimStart(gap + WordSpelt(w, rest)))
            == Ok((if w.Angled? then IriTerm(w.iri) else BlankTerm(w.name), rest))
  {
    hide ReadTerm, WordSpelt, White, TrimStart, IsSpace, PlainWord, Ended;
    WordBegins(w, rest);
    TrimStartDrops(gap, WordSpelt(w, rest));
    WordReads(w, rest);
  }

  lemma BlankRejected(subj: Word, gap: string, name: string)
    requires PlainWord(subj) && White(gap) && gap != "" && PlainName(name)
    ensures ReadTriple(WordSpelt(subj, gap + WordSpelt(Anonymous(name), "")) + ".") == Err(PredicateNotIri)
  {
    hide ReadTerm, WordSpelt, White, Trim, TrimStart, TrimEnd, IsSpace, PlainName, Solid;
    var pred := WordSpelt(Anonymous(name), "");
    var core := WordSpelt(subj, gap + pred);
    WordSolid(Anonymous(name));
    SolidBehind(gap, pred);
    WordBefore(subj, gap + pred);
    WordBegins(subj, gap + pred);
    CoreEnding(core);
    SubjectReads(subj, gap, pred);
    assert Ended("");
    WordStays(gap, Anonymous(name), "");
  }

  lemma JunkRejected(subj: Word, gap: string, pred: string, obj: Word, junk: string)
    requires PlainWord(subj) && PlainWord(obj) && '>' !in pred && White(gap) && gap != ""
    requires junk != "" && !IsSpace(junk[0]) && Solid(junk)
    ensures ReadTriple(WordSpelt(subj, gap + WordSpelt(Angled(pred), gap + WordSpelt(obj, gap + junk))) + ".")
            == Err(TrailingData)
  {
    hide ReadTerm, ReadTriple, WordSpelt, White, Trim, TrimStart, TrimEnd, IsSpace, Solid, PlainWord, Ended;
    var third := WordSpelt(obj, gap + junk);
    var second := WordSpelt(Angled(pred), gap + third);
    var core := WordSpelt(subj, gap + second);
    SolidBehind(gap, junk);
    WordBefore(obj, gap + junk);
    SolidBehind(gap, third);
    WordBefore(Angled(pred), gap + third);
    SolidBehind(gap, second);
    WordBefore(subj, gap + second);
    WordBegins(subj, gap + second);
    SubjectReads(subj, gap, second);
    PredicateReads(gap, pred, gap + third);
    GapEnds(gap, junk);
    WordStays(gap, obj, gap + junk);
    JunkStays(gap, junk);
    ReadSteps(core, SubjectTerm(WordSubject(subj)), gap + second, pred, gap + third,
              if obj.Angled? then IriTerm(obj.iri) else BlankTerm(obj.name), gap + junk);
  }

  lemma JunkStays(gap: string, junk: string)
    requires White(gap) && junk != "" && !IsSpace(junk[0]) && Solid(junk)
    ensures Trim(gap + junk) != ""
  {
    WhiteJoins("", "");
    TrimmedOut(gap, junk, "");
    assert gap + (junk + "") == gap + junk;
  }

  lemma LiteralRejected(gap: string, pred: string, obj: Word, units: seq<Unit>)
    requires PlainWord(obj) && '>' !in pred && White(gap) && gap != "" && forall u | u in units :: PlainUnit(u)
    ensures ReadTriple("\"" + UnitsSpelt(units, "\"" + (gap + WordSpelt(Angled(pred), gap + WordSpelt(obj, "")))) + ".")
            == Err(SubjectIsLiteral)
  {
    hide ReadTerm, ReadTriple, WordSpelt, White, Trim, TrimStart, TrimEnd, IsSpace, Solid, PlainWord, PlainUnit;
    hide UnitsSpelt, UnitsValue, Ended;
    var third := WordSpelt(obj, "");
    var second := WordSpelt(Angled(pred), gap + third);
    var core := "\"" + UnitsSpelt(units, "\"" + (gap + second));
    WordSolid(obj);
    SolidBehind(gap, third);
    WordBefore(Angled(pred), gap + third);
    SolidBehind(gap, second);
    SolidBehind("\"", gap + second);
    UnitsEnd(units, "\"" + (gap + second));
    SameEnd(core, "\"" + (gap + second));
    StopIsSolid();
    QuotedReads(units, gap, second);
    PredicateReads(gap, pred, gap + third);
    NothingEnds();
    WordStays(gap, obj, "");
    NTriplesRoundTrip.TrimEmpty();
    ReadSteps(core, LiteralTerm(UnitsValue(units), "http://www.w3.org/2001/XMLSchema#string", None), gap + second, pred,
              gap + third, if obj.Angled? then IriTerm(obj.iri) else BlankTerm(obj.name), "");
  }

  lemma SameEnd(s: string, t: string)
    requires s != "" && Solid(t) && s[|s| - 1] == t[|t| - 1]
    ensures Solid(s)
  {
  }

  lemma NothingEnds()
    ensures Ended("")
  {
  }

  lemma QuotedReads(units: seq<Unit>, gap: string, rest: string)
    requires (forall u | u in units :: PlainUnit(u)) && White(gap) && gap != ""
    ensures ReadTerm("\"" + UnitsSpelt(units, "\"" + (gap + rest)))
            == Ok((LiteralTerm(UnitsValue(units), "http://www.w3.org/2001/XMLSchema#string", None), gap + rest))
  {
    hide PlainUnit, UnitsSpelt, UnitsValue, IsSpace, ReadLexical;
    var text := UnitsSpelt(units, "\"" + (gap + rest));
    assert ("\"" + text)[1..] == text;
    UnitsRead(units, gap + rest);
    assert gap[0] in gap && (gap + rest)[0] == gap[0];
    StopIsSolid();
  }
}
