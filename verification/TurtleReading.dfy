// What documents with predicate-object and object lists read as, spelt character by character.

module TurtleReading {
  import opened Wrappers
  import opened Rdf
  import opened Texts
  import opened Turtle

  // ----- A grammar of its own for documents -----

  // `prefix:local`, `<iri>` or `_:name`.
  datatype Word = Named(prefix: string, local: string) | Angled(iri: string) | Anonymous(name: string)

  // `a`, or a word.
  datatype Verb = Type | Relation(word: Word)

  // A character of a literal, as it stands or after a backslash.
  datatype Unit = Raw(c: char) | Escape(c: char)

  datatype Mark = Unmarked | Language(name: string) | Typed(word: Word)

  datatype Item = Entity(word: Word) | Quoted(units: seq<Unit>, mark: Mark)

  datatype Group = Group(verb: Verb, items: seq<Item>)

  datatype Sentence = Sentence(subj: Word, groups: seq<Group>)

  // White space: `wide` where words must be kept apart, `thin` around punctuation, where there may be none.
  datatype Spacing = Spacing(wide: string, thin: string)

  // Each of these writes its phrase in front of `rest`.

  function WordText(w: Word, rest: string): string {
    match w
    case Named(prefix, local) => prefix + (":" + (local + rest))
    case Angled(iri) => "<" + (iri + (">" + rest))
    case Anonymous(name) => "_:" + (name + rest)
  }

  function UnitsText(units: seq<Unit>, rest: string): string {
    if units == [] then rest
    else
      match units[0]
      case Raw(c) => [c] + UnitsText(units[1..], rest)
      case Escape(c) => ['\\', c] + UnitsText(units[1..], rest)
  }

  function MarkText(mark: Mark, rest: string): string {
    match mark
    case Unmarked => rest
    case Language(name) => "@" + (name + rest)
    case Typed(word) => "^^" + WordText(word, rest)
  }

  function ItemText(item: Item, rest: string): string {
    match item
    case Entity(word) => WordText(word, rest)
    case Quoted(units, mark) => "\"" + UnitsText(units, "\"" + MarkText(mark, rest))
  }

  function ItemsText(sp: Spacing, items: seq<Item>, rest: string): string
    requires items != []
  {
    ItemText(items[0], if |items| == 1 then rest
                       else sp.thin + ("," + (sp.thin + ItemsText(sp, items[1..], rest))))
  }

  function VerbText(verb: Verb, rest: string): string {
    match verb
    case Type => "a" + rest
    case Relation(word) => WordText(word, rest)
  }

  predicate Filled(groups: seq<Group>) {
    groups != [] && forall g | g in groups :: g.items != []
  }

  function GroupsText(sp: Spacing, groups: seq<Group>, rest: string): string
    requires Filled(groups)
  {
    assert groups[0] in groups;
    VerbText(groups[0].verb,
             sp.wide + ItemsText(sp, groups[0].items,
                                 if |groups| == 1 then rest
                                 else sp.thin + (";" + (sp.thin + GroupsText(sp, groups[1..], rest)))))
  }

  function SentenceText(sp: Spacing, s: Sentence, rest: string): string
    requires Filled(s.groups)
  {
    WordText(s.subj, sp.wide + GroupsText(sp, s.groups, sp.thin + ("." + rest)))
  }

  predicate AllFilled(ss: seq<Sentence>) {
    forall s | s in ss :: Filled(s.groups)
  }

  function SentencesText(sp: Spacing, ss: seq<Sentence>, rest: string): string
    requires AllFilled(ss)
  {
    if ss == [] then rest else SentenceText(sp, ss[0], sp.thin + SentencesText(sp, ss[1..], rest))
  }

  function DirectivesText(sp: Spacing, v: Vocabulary, rest: string): string {
    if v == [] then rest
    else
      "@prefix" + (sp.wide + (v[0].prefix + (":" + (sp.thin + ("<" + (v[0].base + (">" + (sp.thin + ("."
      + (sp.thin + DirectivesText(sp, v[1..], rest)))))))))))
  }

  // ----- What it means -----

  function WordTerm(m: map<string, string>, w: Word): Term {
    match w
    case Named(prefix, local) => IriTerm((if prefix in m then m[prefix] else "") + local)
    case Angled(iri) => IriTerm(iri)
    case Anonymous(name) => BlankTerm(name)
  }

  function UnitsValue(units: seq<Unit>): string {
    if units == [] then ""
    else
      (match units[0]
       case Escape('n') => "\n"
       case Escape('r') => "\r"
       case Escape('t') => "\t"
       case _ => Latin1(units[0].c))
      + UnitsValue(units[1..])
  }

  function ItemObject(m: map<string, string>, item: Item): Object {
    match item
    case Entity(Anonymous(name)) => BlankObject(name)
    case Entity(word) => IriObject(WordTerm(m, word).iri)
    case Quoted(units, Language(name)) =>
      Literal(UnitsValue(units), "http://www.w3.org/1999/02/22-rdf-syntax-ns#langString", Some(name))
    case Quoted(units, Typed(word)) =>
      Literal(UnitsValue(units),
              if word.Anonymous? then "http://www.w3.org/2001/XMLSchema#string" else WordTerm(m, word).iri, None)
    case Quoted(units, Unmarked) => Literal(UnitsValue(units), "http://www.w3.org/2001/XMLSchema#string", None)
  }

  function VerbIri(m: map<string, string>, verb: Verb): string {
    match verb
    case Type => "http://www.w3.org/1999/02/22-rdf-syntax-ns#type"
    case Relation(word) => if word.Anonymous? then "" else WordTerm(m, word).iri
  }

  function ItemsTriples(m: map<string, string>, subj: Subject, pred: string, items: seq<Item>): seq<Triple> {
    if items == [] then []
    else [Triple(subj, pred, ItemObject(m, items[0]))] + ItemsTriples(m, subj, pred, items[1..])
  }

  function GroupsTriples(m: map<string, string>, subj: Subject, groups: seq<Group>): seq<Triple> {
    if groups == [] then []
    else ItemsTriples(m, subj, VerbIri(m, groups[0].verb), groups[0].items) + GroupsTriples(m, subj, groups[1..])
  }

  function WordSubject(m: map<string, string>, w: Word): Subject {
    if w.Anonymous? then BlankSubject(w.name) else IriSubject(WordTerm(m, w).iri)
  }

  function SentencesTriples(m: map<string, string>, ss: seq<Sentence>): seq<Triple> {
    if ss == [] then [] else GroupsTriples(m, WordSubject(m, ss[0].subj), ss[0].groups) + SentencesTriples(m, ss[1..])
  }

  // A later directive for a prefix replaces an earlier one.
  function Table(m: map<string, string>, v: Vocabulary): map<string, string>
    decreases |v|
  {
    if v == [] then m else Table(m[v[0].prefix := v[0].base], v[1..])
  }

  // ----- Which documents it speaks about -----

  predicate Spaces(sp: Spacing) { White(sp.wide) && sp.wide != "" && White(sp.thin) }

  // Free of white space and of the three punctuation marks.
  predicate PlainName(s: string) {
    forall c | c in s :: !IsSpace(c) && c != '.' && c != ';' && c != ','
  }

  // A prefix is not mistaken for another kind of word.
  predicate PlainStart(prefix: string) {
    && PlainName(prefix) && ':' !in prefix && prefix != "_"
    && (prefix != "" ==> prefix[0] != '<' && prefix[0] != '"' && prefix[0] != '#')
  }

  predicate PlainWord(m: map<string, string>, w: Word) {
    match w
    case Named(prefix, local) => prefix in m && PlainStart(prefix) && PlainName(local)
    case Angled(iri) => '>' !in iri
    case Anonymous(name) => PlainName(name)
  }

  predicate PlainUnit(u: Unit) {
    u.Raw? ==> u.c != '"' && u.c != '\\'
  }

  predicate PlainMark(m: map<string, string>, mark: Mark) {
    match mark
    case Unmarked => true
    case Language(name) => PlainName(name)
    case Typed(word) => PlainWord(m, word)
  }

  predicate PlainItem(m: map<string, string>, item: Item) {
    match item
    case Entity(word) => PlainWord(m, word)
    case Quoted(units, mark) => (forall u | u in units :: PlainUnit(u)) && PlainMark(m, mark)
  }

  predicate PlainGroup(m: map<string, string>, g: Group) {
    && (g.verb.Relation? ==> PlainWord(m, g.verb.word) && !g.verb.word.Anonymous?)
    && forall item | item in g.items :: PlainItem(m, item)
  }

  predicate PlainSentence(m: map<string, string>, s: Sentence) {
    PlainWord(m, s.subj) && Filled(s.groups) && forall g | g in s.groups :: PlainGroup(m, g)
  }

  predicate PlainDirectives(v: Vocabulary) {
    forall ns | ns in v ::
      PlainName(ns.prefix) && ':' !in ns.prefix && '>' !in ns.base && (ns.prefix != "" ==> ns.prefix[0] != '#')
  }

  // Where a word ends.
  predicate Ended(rest: string) { rest == "" || Terminator(rest[0]) }

  lemma Punctuation()
    ensures Terminator('.') && Terminator(';') && Terminator(',') && !Terminator(':')
    ensures !Blank('.') && !Blank(';') && !Blank(',') && !Blank('<') && !Blank('_') && !Blank('"') && !Blank('a')
    ensures !Blank(':') && !Blank('@')
    ensures forall c | IsSpace(c) :: Terminator(c) && Blank(c)
  {
  }

  lemma PlainGoesOn(s: string)
    requires PlainName(s)
    ensures forall i | 0 <= i < |s| :: !Terminator(s[i])
  {
    hide IsSpace;
    assert forall i | 0 <= i < |s| :: s[i] in s;
  }

  lemma SkipWhite(w: string, s: string)
    requires White(w) && (s != "" ==> !Blank(s[0]))
    ensures SkipBlank(w + s) == s
  {
    hide IsSpace;
    assert forall i | 0 <= i < |w| :: w[i] in w && (w + s)[i] == w[i];
    FindAt(w + s, Solid, |w|);
  }

  lemma GapEnds(sp: Spacing, c: char, rest: string)
    requires Spaces(sp) && Terminator(c)
    ensures Ended(sp.wide + rest) && Ended(sp.thin + ([c] + rest))
  {
    hide IsSpace, Terminator;
    Punctuation();
    assert sp.wide[0] in sp.wide;
    assert sp.thin != "" ==> sp.thin[0] in sp.thin;
  }

  // ----- Words -----

  lemma NameEnds(name: string, rest: string)
    requires PlainName(name) && Ended(rest)
    ensures Find(name + rest, Terminator) == |name|
  {
    hide Terminator;
    PlainGoesOn(name);
    FindAt(name + rest, Terminator, |name|);
  }

  lemma PlainColon()
    ensures !IsSpace(':')
  {
  }

  lemma NotAnother(prefix: string, s: string)
    requires PlainStart(prefix) && |s| > |prefix| && s[..|prefix|] == prefix && s[|prefix|] == ':'
    ensures !Starts(s, '<') && !StartsTwo(s, '_', ':') && s[0] != '"' && !Blank(s[0])
    ensures !(|s| > 1 && s[0] == 'a' && IsSpace(s[1]))
  {
    hide IsSpace;
    PlainColon();
    assert forall i | 0 <= i < |prefix| :: s[i] == prefix[i] && prefix[i] in prefix;
    assert |prefix| == 1 ==> prefix == [prefix[0]];
  }

  lemma NamedToken(prefix: string, local: string, rest: string)
    requires PlainStart(prefix) && PlainName(local) && Ended(rest)
    ensures var s, n := prefix + (":" + (local + rest)), |prefix| + 1 + |local|;
            && Find(s, Terminator) == n && s[..n] == prefix + (":" + local) && s[n..] == rest
            && Find(s[..n], IsColon) == |prefix|
  {
    hide IsSpace, Terminator, Ended;
    var token := prefix + (":" + local);
    var s := prefix + (":" + (local + rest));
    assert PlainName(token) by { PlainColon(); }
    assert s == token + rest by {
      Associate(prefix, ":" + local, rest);
      Associate(":", local, rest);
    }
    NameEnds(token, rest);
    assert s[..|token|] == token && s[|token|..] == rest;
    assert token[|prefix|] == ':' && forall i | 0 <= i < |prefix| :: token[i] == prefix[i] && token[i] in prefix;
    FindAt(token, IsColon, |prefix|);
  }

  lemma NamedReads(m: Bindings, prefix: string, local: string, rest: string)
    requires prefix in m && PlainStart(prefix) && PlainName(local) && Ended(rest)
    ensures ReadTerm(m, prefix + (":" + (local + rest))) == Ok((IriTerm(m[prefix] + local), rest))
  {
    hide PlainName, PlainStart, Ended, Terminator, IsSpace;
    var s, token := prefix + (":" + (local + rest)), prefix + (":" + local);
    NamedToken(prefix, local, rest);
    assert s[..|prefix|] == prefix && s[|prefix|] == ':' && token[|prefix| + 1..] == local;
    NotAnother(prefix, s);
  }

  lemma AngledReads(m: Bindings, iri: string, rest: string)
    requires '>' !in iri
    ensures ReadTerm(m, "<" + (iri + (">" + rest))) == Ok((IriTerm(iri), rest))
  {
    var s := "<" + (iri + (">" + rest));
    assert s[|iri| + 1] == '>' && forall i | 0 <= i < |iri| :: s[i + 1] == iri[i] && iri[i] in iri;
    FindAt(s, IsClose, |iri| + 1);
    assert s[1..|iri| + 1] == iri && s[|iri| + 2..] == rest;
  }

  lemma AnonymousReads(m: Bindings, name: string, rest: string)
    requires PlainName(name) && Ended(rest)
    ensures ReadTerm(m, "_:" + (name + rest)) == Ok((BlankTerm(name), rest))
  {
    hide Terminator, PlainName, Ended;
    var s := "_:" + (name + rest);
    assert s[0] == '_' && s[1] == ':' && s[2..] == name + rest;
    NameEnds(name, rest);
  }

  lemma WordReads(m: Bindings, w: Word, rest: string)
    requires PlainWord(m, w) && Ended(rest)
    ensures ReadTerm(m, WordText(w, rest)) == Ok((WordTerm(m, w), rest))
  {
    hide Terminator, PlainName, PlainStart, ReadTerm, Ended;
    match w {
      case Named(prefix, local) => NamedReads(m, prefix, local, rest);
      case Angled(iri) => AngledReads(m, iri, rest);
      case Anonymous(name) => AnonymousReads(m, name, rest);
    }
  }

  lemma WordBegins(m: Bindings, w: Word, rest: string)
    requires PlainWord(m, w)
    ensures var s := WordText(w, rest);
            && s != "" && s[0] != '"' && !Blank(s[0]) && !(|s| > 1 && s[0] == 'a' && IsSpace(s[1]))
  {
    hide IsSpace, PlainName, PlainStart, Blank;
    Punctuation();
    if w.Named? {
      var s := WordText(w, rest);
      assert s[..|w.prefix|] == w.prefix && s[|w.prefix|] == ':';
      NotAnother(w.prefix, s);
    }
  }

  // ----- Literals -----

  lemma {:induction false} UnitsRead(units: seq<Unit>, rest: string)
    requires forall u | u in units :: PlainUnit(u)
    ensures ReadLexical(UnitsText(units, "\"" + rest)) == Ok((UnitsValue(units), rest))
  {
    if units == [] {
      assert ("\"" + rest)[1..] == rest;
    } else {
      assert units[0] in units;
      var more := UnitsText(units[1..], "\"" + rest);
      UnitsRead(units[1..], rest);
      match units[0] {
        case Raw(c) =>
          assert ([c] + more)[1..] == more;
        case Escape(c) =>
          assert (['\\', c] + more)[2..] == more;
      }
    }
  }

  // What a mark leaves of the term.
  function MarkedTerm(m: Bindings, lexical: string, mark: Mark): Term {
    match mark
    case Unmarked => LiteralTerm(lexical, XSD_STRING, None)
    case Language(name) => LiteralTerm(lexical, LANG_STRING, Some(name))
    case Typed(word) => LiteralTerm(lexical, if word.Anonymous? then XSD_STRING else WordTerm(m, word).iri, None)
  }

  lemma MarkReads(m: Bindings, lexical: string, mark: Mark, rest: string)
    requires PlainMark(m, mark) && Ended(rest)
    ensures ReadTag(m, lexical, MarkText(mark, rest)) == Ok((MarkedTerm(m, lexical, mark), rest))
  {
    hide Terminator, PlainName, ReadTerm, WordText, PlainWord;
    match mark {
      case Unmarked =>
        NoTag(rest);
      case Language(name) =>
        assert ("@" + (name + rest))[1..] == name + rest;
        NameEnds(name, rest);
      case Typed(word) =>
        assert ("^^" + WordText(word, rest))[2..] == WordText(word, rest);
        WordReads(m, word, rest);
    }
  }

  lemma NoTag(rest: string)
    requires Ended(rest)
    ensures !Starts(rest, '@') && !StartsTwo(rest, '^', '^')
  {
  }

  lemma ItemReads(m: Bindings, item: Item, rest: string)
    requires PlainItem(m, item) && Ended(rest)
    ensures ReadObject(m, ItemText(item, rest)).Ok?
    ensures TermObject(ReadObject(m, ItemText(item, rest)).value.0) == ItemObject(m, item)
    ensures ReadObject(m, ItemText(item, rest)).value.1 == rest
    ensures ItemText(item, rest) != "" && !Blank(ItemText(item, rest)[0])
  {
    hide Ended, PlainWord, PlainMark, PlainUnit, WordText, UnitsText, MarkText, ReadTerm, ReadTag, Blank, UnitsValue;
    Punctuation();
    match item {
      case Entity(word) =>
        WordReads(m, word, rest);
        WordBegins(m, word, rest);
      case Quoted(units, mark) =>
        var text := UnitsText(units, "\"" + MarkText(mark, rest));
        assert ("\"" + text)[1..] == text;
        UnitsRead(units, MarkText(mark, rest));
        MarkReads(m, UnitsValue(units), mark, rest);
    }
  }

  // ----- Lists -----

  lemma {:induction false} ItemsRead(m: Bindings, sp: Spacing, subj: Subject, pred: string, items: seq<Item>,
                                     gap: string, rest: string)
    requires Spaces(sp) && White(gap) && items != [] && forall item | item in items :: PlainItem(m, item)
    requires Ended(rest) && !Starts(SkipBlank(rest), ',')
    ensures ReadObjects(m, subj, pred, gap + ItemsText(sp, items, rest))
            == Ok((ItemsTriples(m, subj, pred, items), SkipBlank(rest)))
    decreases |items|
  {
    hide Ended, PlainItem, ReadObject, ItemText, White, SkipBlank, Blank, ReadObjects, ItemObject;
    var more := if |items| == 1 then rest else sp.thin + ("," + (sp.thin + ItemsText(sp, items[1..], rest)));
    var text := ItemText(items[0], more);
    Punctuation();
    assert items[0] in items;
    if |items| > 1 {
      GapEnds(sp, ',', sp.thin + ItemsText(sp, items[1..], rest));
    }
    ItemReads(m, items[0], more);
    SkipWhite(gap, text);
    ObjectsUnfold(m, subj, pred, gap + text);
    if |items| > 1 {
      var tail := sp.thin + ItemsText(sp, items[1..], rest);
      SkipWhite(sp.thin, "," + tail);
      assert ("," + tail)[1..] == tail;
      ItemsRead(m, sp, subj, pred, items[1..], sp.thin, rest);
    } else {
      assert ItemsTriples(m, subj, pred, items[1..]) == [];
      assert ItemsTriples(m, subj, pred, items) == [Triple(subj, pred, ItemObject(m, items[0]))];
    }
  }

  lemma VerbReads(m: Bindings, verb: Verb, gap: string, rest: string)
    requires verb.Relation? ==> PlainWord(m, verb.word) && !verb.word.Anonymous?
    requires White(gap) && rest != "" && IsSpace(rest[0])
    ensures ReadPredicate(m, SkipBlank(gap + VerbText(verb, rest))) == Ok((VerbIri(m, verb), rest))
  {
    hide PlainWord, WordText, ReadTerm, IsSpace, White, SkipBlank, Blank;
    Punctuation();
    var s := VerbText(verb, rest);
    match verb {
      case Type =>
        assert s[0] == 'a' && s[1] == rest[0] && s[1..] == rest;
      case Relation(word) =>
        WordBegins(m, word, rest);
        WordReads(m, word, rest);
    }
    SkipWhite(gap, s);
  }

  lemma {:induction false} GroupsRead(m: Bindings, sp: Spacing, subj: Subject, groups: seq<Group>, gap: string,
                                      rest: string)
    requires Spaces(sp) && White(gap) && Filled(groups) && forall g | g in groups :: PlainGroup(m, g)
    ensures ReadPredicates(m, subj, gap + GroupsText(sp, groups, sp.thin + ("." + rest)))
            == Ok((GroupsTriples(m, subj, groups), rest))
    decreases |groups|
  {
    hide Ended, ReadPredicate, ReadObjects, ReadPredicates, White, SkipBlank, Blank, ItemsText, VerbText, IsSpace;
    hide PlainItem, ItemsTriples, VerbIri, PlainWord, ReadEnding;
    var g := groups[0];
    assert g in groups;
    var end := sp.thin + ("." + rest);
    var mark := if |groups| == 1 then "." else ";";
    var after := if |groups| == 1 then rest else sp.thin + GroupsText(sp, groups[1..], end);
    var more := sp.thin + (mark + after);
    var objects := sp.wide + ItemsText(sp, g.items, more);
    Punctuation();
    GapEnds(sp, mark[0], after);
    SkipWhite(sp.thin, mark + after);
    assert IsSpace(objects[0]) by { WideFirst(sp, ItemsText(sp, g.items, more)); }
    VerbReads(m, g.verb, gap, objects);
    ItemsRead(m, sp, subj, VerbIri(m, g.verb), g.items, sp.wide, more);
    EndingReads(mark, after);
    PredicatesUnfold(m, subj, gap + VerbText(g.verb, objects));
    if |groups| > 1 {
      assert forall h | h in groups[1..] :: h in groups;
      GroupsRead(m, sp, subj, groups[1..], sp.thin, rest);
    } else {
      assert GroupsTriples(m, subj, groups[1..]) == [];
      assert GroupsTriples(m, subj, groups) == ItemsTriples(m, subj, VerbIri(m, g.verb), g.items);
    }
  }

  lemma WideFirst(sp: Spacing, rest: string)
    requires Spaces(sp)
    ensures sp.wide + rest != "" && IsSpace((sp.wide + rest)[0])
  {
    hide IsSpace;
    assert sp.wide[0] in sp.wide;
  }

  lemma EndingReads(mark: string, after: string)
    requires mark == "." || mark == ";"
    ensures ReadEnding(mark + after) == if mark == "." then FullStop(after) else Semicolon(after)
  {
    hide SkipBlank;
    Punctuation();
    SkipWhite("", mark + after);
    assert "" + (mark + after) == mark + after && (mark + after)[1..] == after;
  }

  // A sentence gives its triples in order, and the reader stops behind its full stop.
  lemma SentenceReads(m: Bindings, sp: Spacing, s: Sentence, rest: string)
    requires Spaces(sp) && PlainSentence(m, s)
    ensures ReadStatement(m, SentenceText(sp, s, rest))
            == Ok((GroupsTriples(m, WordSubject(m, s.subj), s.groups), rest))
  {
    hide Ended, ReadPredicates, ReadTerm, WordText, GroupsText, PlainWord, PlainGroup, IsSpace, White, Terminator;
    var tail := sp.wide + GroupsText(sp, s.groups, sp.thin + ("." + rest));
    assert Ended(tail) by {
      Punctuation();
      GapEnds(sp, '.', GroupsText(sp, s.groups, sp.thin + ("." + rest)));
    }
    WordReads(m, s.subj, tail);
    GroupsRead(m, sp, WordSubject(m, s.subj), s.groups, sp.wide, rest);
  }

  lemma SentenceBegins(m: Bindings, sp: Spacing, s: Sentence, rest: string)
    requires PlainSentence(m, s)
    ensures SentenceText(sp, s, rest) != "" && !Blank(SentenceText(sp, s, rest)[0])
  {
    hide WordText, PlainWord, GroupsText, Blank;
    WordBegins(m, s.subj, sp.wide + GroupsText(sp, s.groups, sp.thin + ("." + rest)));
  }

  // The triples of the sentences come first, then what is read from the text behind them.
  lemma {:induction false} SentencesRead(m: Bindings, sp: Spacing, ss: seq<Sentence>, gap: string, rest: string)
    requires Spaces(sp) && White(gap) && AllFilled(ss) && forall s | s in ss :: PlainSentence(m, s)
    requires rest != "" ==> !Blank(rest[0])
    ensures ReadAll(m, gap + SentencesText(sp, ss, rest)) == Following(SentencesTriples(m, ss), ReadAll(m, rest))
    decreases |ss|
  {
    hide PlainWord, PlainGroup, ReadStatement, ReadAll, SentenceText, White, SkipBlank, Blank, GroupsTriples;
    AllUnfold(m, gap + SentencesText(sp, ss, rest));
    if ss == [] {
      SkipWhite(gap, rest);
      WhiteJoins("", "");
      SkipWhite("", rest);
      assert "" + rest == rest;
      AllUnfold(m, rest);
      FollowsNothing(ReadAll(m, rest));
    } else {
      assert ss[0] in ss;
      var more := sp.thin + SentencesText(sp, ss[1..], rest);
      SentenceBegins(m, sp, ss[0], more);
      SkipWhite(gap, SentenceText(sp, ss[0], more));
      SentenceReads(m, sp, ss[0], more);
      SentencesRead(m, sp, ss[1..], sp.thin, rest);
      FollowsTwice(GroupsTriples(m, WordSubject(m, ss[0].subj), ss[0].groups), SentencesTriples(m, ss[1..]),
                   ReadAll(m, rest));
    }
  }

  lemma FollowsNothing(r: Result<seq<Triple>, TurtleError>)
    ensures Following([], r) == r
  {
    if r.Ok? {
      assert [] + r.value == r.value;
    }
  }

  lemma FollowsTwice(ts: seq<Triple>, us: seq<Triple>, r: Result<seq<Triple>, TurtleError>)
    ensures Following(ts, Following(us, r)) == Following(ts + us, r)
  {
    if r.Ok? {
      assert ts + (us + r.value) == ts + us + r.value;
    }
  }

  // ----- Documents -----

  lemma TrimsNothing(name: string)
    requires PlainName(name)
    ensures Trim(name) == name
  {
    hide IsSpace;
    assert name != "" ==> name[0] in name && name[|name| - 1] in name;
  }

  lemma PrefixBegins(prefix: string, from: string)
    requires PlainName(prefix) && Starts(from, ':') && (prefix != "" ==> prefix[0] != '#')
    ensures !Blank((prefix + from)[0])
  {
    hide IsSpace;
    PlainColon();
    assert prefix != "" ==> prefix[0] in prefix;
  }

  lemma NameThenBase(sp: Spacing, ns: Namespace, after: string)
    requires Spaces(sp) && PlainDirectives([ns])
    ensures ReadPrefix(sp.wide + (ns.prefix + (":" + after))) == ReadBase(ns.prefix, after)
  {
    hide IsSpace, White, Blank, SkipBlank, PlainName, ReadBase;
    assert ns in [ns];
    var s := ns.prefix + (":" + after);
    assert s != "" && !Blank(s[0]) by { PrefixBegins(ns.prefix, ":" + after); }
    SkipWhite(sp.wide, s);
    assert s[|ns.prefix|] == ':';
    assert forall i | 0 <= i < |ns.prefix| :: s[i] == ns.prefix[i] && ns.prefix[i] in ns.prefix;
    FindAt(s, IsColon, |ns.prefix|);
    assert s[..|ns.prefix|] == ns.prefix && s[|ns.prefix| + 1..] == after;
    PrefixUnfold(sp.wide + s);
    TrimsNothing(ns.prefix);
  }

  lemma BaseReads(sp: Spacing, ns: Namespace, rest: string)
    requires Spaces(sp) && '>' !in ns.base
    ensures ReadBase(ns.prefix, sp.thin + ("<" + (ns.base + (">" + (sp.thin + ("." + rest)))))) == Ok((ns, rest))
  {
    hide IsSpace, White, Blank, SkipBlank;
    Punctuation();
    var end := sp.thin + ("." + rest);
    var s := ns.base + (">" + end);
    SkipWhite(sp.thin, "<" + s);
    assert ("<" + s)[1..] == s;
    assert s[|ns.base|] == '>' && forall i | 0 <= i < |ns.base| :: s[i] == ns.base[i] && ns.base[i] in ns.base;
    FindAt(s, IsClose, |ns.base|);
    assert s[..|ns.base|] == ns.base && s[|ns.base| + 1..] == end;
    SkipWhite(sp.thin, "." + rest);
    assert ("." + rest)[1..] == rest;
  }

  lemma DirectiveReads(sp: Spacing, ns: Namespace, rest: string)
    requires Spaces(sp) && PlainDirectives([ns])
    ensures ReadPrefix(sp.wide + (ns.prefix + (":" + (sp.thin + ("<" + (ns.base + (">" + (sp.thin + ("." + rest)))))))))
            == Ok((ns, rest))
  {
    hide IsSpace, White, PlainName, ReadBase, ReadPrefix;
    assert ns in [ns];
    NameThenBase(sp, ns, sp.thin + ("<" + (ns.base + (">" + (sp.thin + ("." + rest))))));
    BaseReads(sp, ns, rest);
  }

  // The directives bind their prefixes in order, a later one over an earlier, and the reader stops at the
  // first text that is none.
  lemma {:induction false} DirectivesRead(m: Bindings, sp: Spacing, v: Vocabulary, gap: string, rest: string)
    requires Spaces(sp) && White(gap) && PlainDirectives(v)
    requires rest == "" || (!Blank(rest[0]) && !("@prefix" <= rest))
    ensures ReadDirectives(m, gap + DirectivesText(sp, v, rest)) == Ok((Table(m, v), rest))
    decreases |v|
  {
    hide IsSpace, White, Blank, SkipBlank, PlainName, ReadPrefix, ReadDirectives;
    var s := DirectivesText(sp, v, rest);
    DirectivesUnfold(m, gap + s);
    if v == [] {
      SkipWhite(gap, rest);
    } else {
      Punctuation();
      SkipWhite(gap, s);
      assert v[0] in v;
      var more := sp.thin + DirectivesText(sp, v[1..], rest);
      DirectiveReads(sp, v[0], more);
      assert s[7..]
             == sp.wide + (v[0].prefix + (":" + (sp.thin + ("<" + (v[0].base + (">" + (sp.thin + ("." + more))))))));
      DirectivesRead(m[v[0].prefix := v[0].base], sp, v[1..], sp.thin, rest);
    }
  }

  lemma WordNoDirective(m: Bindings, w: Word, rest: string)
    requires PlainWord(m, w) && (w.Named? ==> !("@prefix" <= w.prefix))
    ensures !("@prefix" <= WordText(w, rest))
  {
    hide PlainName;
    var s := WordText(w, rest);
    match w {
      case Named(prefix, local) =>
        assert s[..|prefix|] == prefix && s[|prefix|] == ':';
        NamedNoDirective(prefix, s);
      case Angled(_) =>
        assert s[0] != "@prefix"[0];
      case Anonymous(_) =>
        assert s[0] != "@prefix"[0];
    }
  }

  lemma NamedNoDirective(prefix: string, s: string)
    requires |s| > |prefix| && s[..|prefix|] == prefix && s[|prefix|] == ':' && !("@prefix" <= prefix)
    ensures !("@prefix" <= s)
  {
    if |prefix| >= 7 {
      assert s[..7] == prefix[..7];
    } else {
      assert "@prefix"[|prefix|] != ':';
    }
  }

  // What stands behind the directives.
  ghost predicate Begins(sp: Spacing, ss: seq<Sentence>, rest: string) {
    if ss == [] then rest == "" || (!Blank(rest[0]) && !("@prefix" <= rest))
    else ss[0].subj.Named? ==> !("@prefix" <= ss[0].subj.prefix)
  }

  // Directives and sentences are read, however they are spaced, and then whatever follows.
  lemma PrefixReads(sp: Spacing, v: Vocabulary, ss: seq<Sentence>, rest: string)
    requires Spaces(sp) && PlainDirectives(v) && AllFilled(ss) && Begins(sp, ss, rest)
    requires forall s | s in ss :: PlainSentence(Table(map[], v), s)
    requires rest != "" ==> !Blank(rest[0])
    ensures var m := Table(map[], v);
            ParsedDocument(DirectivesText(sp, v, SentencesText(sp, ss, rest)))
            == Following(SentencesTriples(m, ss), ReadAll(m, rest))
  {
    hide PlainWord, PlainGroup, Spaces, PlainDirectives, WordText, GroupsText, ReadAll, Blank, DirectivesText;
    hide ReadDirectives, GroupsTriples;
    var m := Table(map[], v);
    var text := SentencesText(sp, ss, rest);
    if ss != [] {
      assert ss[0] in ss;
      var more := sp.thin + SentencesText(sp, ss[1..], rest);
      SentenceBegins(m, sp, ss[0], more);
      WordNoDirective(m, ss[0].subj, sp.wide + GroupsText(sp, ss[0].groups, sp.thin + ("." + more)));
    }
    DirectivesRead(map[], sp, v, "", text);
    SentencesRead(m, sp, ss, "", rest);
    assert "" + text == text && "" + DirectivesText(sp, v, text) == DirectivesText(sp, v, text);
  }

  // A document of directives and sentences parses to their triples, in order; behind them, the first statement that
  // cannot be read gives its error.
  lemma DocumentReads(sp: Spacing, v: Vocabulary, ss: seq<Sentence>, rest: string)
    requires Spaces(sp) && PlainDirectives(v) && AllFilled(ss) && Begins(sp, ss, rest)
    requires forall s | s in ss :: PlainSentence(Table(map[], v), s)
    requires rest != "" ==> !Blank(rest[0])
    ensures rest == "" ==>
              ParsedDocument(DirectivesText(sp, v, SentencesText(sp, ss, rest)))
              == Ok(SentencesTriples(Table(map[], v), ss))
    ensures rest != "" && ReadStatement(Table(map[], v), rest).Err? ==>
              ParsedDocument(DirectivesText(sp, v, SentencesText(sp, ss, rest)))
              == Err(ReadStatement(Table(map[], v), rest).error)
  {
    hide PlainSentence, Spaces, PlainDirectives, ReadAll, Blank, DirectivesText, ReadStatement, SkipBlank;
    hide ParsedDocument, SentencesText, Begins, AllFilled, SentencesTriples;
    var m := Table(map[], v);
    PrefixReads(sp, v, ss, rest);
    SkipWhite("", rest) by { WhiteJoins("", ""); }
    assert "" + rest == rest;
    AllUnfold(m, rest);
    if rest == "" {
      assert SentencesTriples(m, ss) + [] == SentencesTriples(m, ss);
    }
  }

  // ----- What is rejected -----

  // Words: an angled IRI without its bracket, a name without a colon, a prefix that is not bound.
  lemma WordsRejected(m: Bindings, text: string, rest: string)
    requires Ended(rest)
    ensures '>' !in text && '>' !in rest ==> ReadTerm(m, "<" + (text + rest)) == Err(UnterminatedIri)
    ensures PlainName(text) && text != "" && text[0] != '<' && ':' !in text ==>
              ReadTerm(m, text + rest) == Err(UnrecognizedToken)
    ensures PlainStart(text) && text !in m ==>
              forall local | PlainName(local) :: ReadTerm(m, text + (":" + (local + rest))) == Err(UnknownPrefix)
  {
    hide IsSpace, Terminator, PlainStart, PlainName, ReadTerm, Ended;
    if '>' !in text && '>' !in rest {
      UnclosedRejected(m, text + rest);
    }
    if PlainName(text) && text != "" && text[0] != '<' && ':' !in text {
      BareRejected(m, text, rest);
    }
    if PlainStart(text) && text !in m {
      forall local | PlainName(local) ensures ReadTerm(m, text + (":" + (local + rest))) == Err(UnknownPrefix) {
        UnboundRejected(m, text, local, rest);
      }
    }
  }

  lemma UnclosedRejected(m: Bindings, text: string)
    requires '>' !in text
    ensures ReadTerm(m, "<" + text) == Err(UnterminatedIri)
  {
    var s := "<" + text;
    forall i | 0 <= i < |s| ensures !IsClose(s[i]) {
      assert i > 0 ==> s[i] == text[i - 1] && text[i - 1] in text;
    }
    FindAt(s, IsClose, |s|);
  }

  lemma BareRejected(m: Bindings, name: string, rest: string)
    requires PlainName(name) && name != "" && name[0] != '<' && ':' !in name && Ended(rest)
    ensures ReadTerm(m, name + rest) == Err(UnrecognizedToken)
  {
    hide IsSpace, Terminator, PlainName;
    var s := name + rest;
    NameEnds(name, rest);
    assert s[..|name|] == name && s[0] == name[0];
    assert forall i | 0 <= i < |name| :: name[i] in name;
    FindAt(name, IsColon, |name|);
    assert !StartsTwo(s, '_', ':') by {
      if |name| > 1 {
        assert s[1] == name[1];
      } else if rest != "" {
        assert s[1] == rest[0];
        Punctuation();
      }
    }
  }

  lemma UnboundRejected(m: Bindings, prefix: string, local: string, rest: string)
    requires PlainStart(prefix) && prefix !in m && PlainName(local) && Ended(rest)
    ensures ReadTerm(m, prefix + (":" + (local + rest))) == Err(UnknownPrefix)
  {
    hide Ended, PlainName;
    var s := prefix + (":" + (local + rest));
    NamedToken(prefix, local, rest);
    NotAnother(prefix, s) by { assert s[..|prefix|] == prefix && s[|prefix|] == ':'; }
    assert s[..|prefix|] == prefix;
  }

  lemma UnitFails(u: Unit, units: seq<Unit>, rest: string)
    requires PlainUnit(u) && ReadLexical(UnitsText(units, rest)).Err?
    ensures ReadLexical(UnitsText([u] + units, rest)) == ReadLexical(UnitsText(units, rest))
  {
    var more := UnitsText(units, rest);
    assert ([u] + units)[1..] == units;
    match u {
      case Raw(c) =>
        assert ([c] + more)[1..] == more;
      case Escape(c) =>
        assert (['\\', c] + more)[2..] == more;
    }
  }

  // Literals: one that ends with the text, or with a backslash.
  lemma {:induction false} LiteralsRejected(units: seq<Unit>)
    requires forall u | u in units :: PlainUnit(u)
    ensures ReadLexical(UnitsText(units, "")) == Err(UnterminatedLiteral)
    ensures ReadLexical(UnitsText(units, "\\")) == Err(DanglingEscape)
  {
    if units != [] {
      assert units[0] in units && units == [units[0]] + units[1..];
      LiteralsRejected(units[1..]);
      UnitFails(units[0], units[1..], "");
      UnitFails(units[0], units[1..], "\\");
    }
  }

  // Statements: a blank predicate, and an object list that neither goes on nor stops.
  lemma StatementsRejected(m: Bindings, sp: Spacing, subj: Word, name: string, verb: Verb, items: seq<Item>,
                           rest: string)
    requires Spaces(sp) && PlainWord(m, subj)
    ensures PlainName(name) ==>
              ReadStatement(m, WordText(subj, sp.wide + ("_:" + (name + (sp.wide + rest))))) == Err(PredicateNotIri)
    ensures PlainGroup(m, Group(verb, items)) && items != [] && Ended(rest)
            && (SkipBlank(rest) == "" || SkipBlank(rest)[0] !in ",;.") ==>
              ReadStatement(m, WordText(subj, sp.wide + VerbText(verb, sp.wide + ItemsText(sp, items, rest))))
              == Err(ExpectedEnd)
  {
    hide PlainWord, WordText, IsSpace, ReadTerm, PlainName, PlainGroup, VerbText, ItemsText, White, SkipBlank;
    hide ReadPredicates, Terminator;
    Punctuation();
    if PlainName(name) {
      WideEnds(sp, rest);
      BlankPredicateRejected(m, sp, WordSubject(m, subj), name, sp.wide + rest);
      WideEnds(sp, "_:" + (name + (sp.wide + rest)));
      WordReads(m, subj, sp.wide + ("_:" + (name + (sp.wide + rest))));
    }
    if PlainGroup(m, Group(verb, items)) && items != [] && Ended(rest)
       && (SkipBlank(rest) == "" || SkipBlank(rest)[0] !in ",;.") {
      OpenListRejected(m, sp, WordSubject(m, subj), verb, items, rest);
      WideEnds(sp, VerbText(verb, sp.wide + ItemsText(sp, items, rest)));
      WordReads(m, subj, sp.wide + VerbText(verb, sp.wide + ItemsText(sp, items, rest)));
    }
  }

  lemma WideEnds(sp: Spacing, rest: string)
    requires Spaces(sp)
    ensures Ended(sp.wide + rest)
  {
    hide IsSpace;
    Punctuation();
    assert sp.wide[0] in sp.wide;
  }

  lemma BlankPredicateRejected(m: Bindings, sp: Spacing, subj: Subject, name: string, rest: string)
    requires Spaces(sp) && PlainName(name) && Ended(rest)
    ensures ReadPredicates(m, subj, sp.wide + ("_:" + (name + rest))) == Err(PredicateNotIri)
  {
    hide IsSpace, White, PlainName, ReadTerm, SkipBlank, Blank, Ended;
    var s := "_:" + (name + rest);
    Punctuation();
    SkipWhite(sp.wide, s);
    AnonymousReads(m, name, rest);
    PredicatesUnfold(m, subj, sp.wide + s);
  }

  lemma OpenListRejected(m: Bindings, sp: Spacing, subj: Subject, verb: Verb, items: seq<Item>, rest: string)
    requires Spaces(sp) && PlainGroup(m, Group(verb, items)) && items != [] && Ended(rest)
    requires SkipBlank(rest) == "" || SkipBlank(rest)[0] !in ",;."
    ensures ReadPredicates(m, subj, sp.wide + VerbText(verb, sp.wide + ItemsText(sp, items, rest))) == Err(ExpectedEnd)
  {
    hide IsSpace, White, ReadPredicate, ReadObjects, SkipBlank, Blank, Ended, ItemsText, VerbText, PlainItem, PlainWord;
    hide ItemsTriples, VerbIri;
    var objects := sp.wide + ItemsText(sp, items, rest);
    WideFirst(sp, ItemsText(sp, items, rest));
    VerbReads(m, verb, sp.wide, objects);
    assert !Starts(SkipBlank(rest), ',');
    ItemsRead(m, sp, subj, VerbIri(m, verb), items, sp.wide, rest);
    SkipTwice(rest);
    PredicatesUnfold(m, subj, sp.wide + VerbText(verb, objects));
  }

  lemma SkipTwice(s: string)
    ensures SkipBlank(SkipBlank(s)) == SkipBlank(s)
  {
    hide Blank;
    FindAt(SkipBlank(s), Solid, 0);
  }

  function DirectiveText(sp: Spacing, prefix: string, after: string): string {
    "@prefix" + (sp.wide + (prefix + (":" + after)))
  }

  // Directives: no colon, no opening and no closing bracket, no full stop.
  lemma DirectivesRejected(m: Bindings, sp: Spacing, ns: Namespace, rest: string)
    requires Spaces(sp) && PlainDirectives([ns])
    ensures ':' !in rest ==> ReadDirectives(m, "@prefix" + rest) == Err(MissingColon)
    ensures rest != "" && !Blank(rest[0]) && rest[0] != '<' ==>
              ReadDirectives(m, DirectiveText(sp, ns.prefix, sp.thin + rest)) == Err(ExpectedIri)
    ensures '>' !in rest ==>
              ReadDirectives(m, DirectiveText(sp, ns.prefix, sp.thin + ("<" + rest))) == Err(UnterminatedPrefixIri)
    ensures rest != "" && !Blank(rest[0]) && rest[0] != '.' ==>
              ReadDirectives(m, DirectiveText(sp, ns.prefix, sp.thin + ("<" + (ns.base + (">" + (sp.thin + rest))))))
              == Err(ExpectedDot)
  {
    hide IsSpace, White, Blank, SkipBlank, PlainName, ReadPrefix, ReadDirectives, ReadBase;
    assert ns in [ns];
    if ':' !in rest {
      NoColonRejected(rest);
      DirectiveFails(m, rest);
    }
    forall after | ReadBase(ns.prefix, after).Err?
      ensures ReadDirectives(m, DirectiveText(sp, ns.prefix, after)) == Err(ReadBase(ns.prefix, after).error)
    {
      NameThenBase(sp, ns, after);
      DirectiveFails(m, sp.wide + (ns.prefix + (":" + after)));
    }
    BasesRejected(sp, ns, rest);
  }

  lemma DirectiveFails(m: Bindings, rest: string)
    requires ReadPrefix(rest).Err?
    ensures ReadDirectives(m, "@prefix" + rest) == Err(ReadPrefix(rest).error)
  {
    hide ReadPrefix, ReadDirectives, Blank, SkipBlank;
    var s := "@prefix" + rest;
    Punctuation();
    WhiteJoins("", "");
    SkipWhite("", s);
    assert "" + s == s && s[7..] == rest;
    DirectivesUnfold(m, s);
  }

  lemma NoColonRejected(rest: string)
    requires ':' !in rest
    ensures ReadPrefix(rest) == Err(MissingColon)
  {
    hide Blank;
    var s := SkipBlank(rest);
    forall i | 0 <= i < |s| ensures !IsColon(s[i]) {
      assert s[i] == rest[|rest| - |s| + i];
    }
    FindAt(s, IsColon, |s|);
  }

  lemma BasesRejected(sp: Spacing, ns: Namespace, rest: string)
    requires Spaces(sp) && '>' !in ns.base
    ensures rest != "" && !Blank(rest[0]) && rest[0] != '<' ==> ReadBase(ns.prefix, sp.thin + rest) == Err(ExpectedIri)
    ensures '>' !in rest ==> ReadBase(ns.prefix, sp.thin + ("<" + rest)) == Err(UnterminatedPrefixIri)
    ensures rest != "" && !Blank(rest[0]) && rest[0] != '.' ==>
              ReadBase(ns.prefix, sp.thin + ("<" + (ns.base + (">" + (sp.thin + rest))))) == Err(ExpectedDot)
  {
    hide IsSpace, White, Blank, SkipBlank;
    Punctuation();
    if rest != "" && !Blank(rest[0]) {
      SkipWhite(sp.thin, rest);
      var end := sp.thin + rest;
      var s := ns.base + (">" + end);
      SkipWhite(sp.thin, "<" + s);
      assert ("<" + s)[1..] == s && s[|ns.base|] == '>';
      assert forall i | 0 <= i < |ns.base| :: s[i] == ns.base[i] && ns.base[i] in ns.base;
      FindAt(s, IsClose, |ns.base|);
      assert s[..|ns.base|] == ns.base && s[|ns.base| + 1..] == end;
    }
    if '>' !in rest {
      SkipWhite(sp.thin, "<" + rest);
      assert ("<" + rest)[1..] == rest && forall i | 0 <= i < |rest| :: rest[i] in rest;
      FindAt(rest, IsClose, |rest|);
    }
  }

  // ----- What the writer abbreviates -----

  // The base is a prefix of the IRI, and the rest holds neither a blank nor a slash.
  predicate Abbreviates(ns: Namespace, iri: string) {
    |ns.base| <= |iri| && iri[..|ns.base|] == ns.base && forall c | c in iri[|ns.base|..] :: c != ' ' && c != '/'
  }

  lemma CompactsRead(ns: Namespace, iri: string)
    ensures Compacts(ns, iri) <==> Abbreviates(ns, iri)
  {
  }

  // An IRI is written with the first binding that abbreviates it, and in angle brackets without one.
  lemma {:induction false} IriWritten(v: Vocabulary, iri: string) returns (k: nat)
    ensures k <= |v| && forall j | 0 <= j < k :: !Abbreviates(v[j], iri)
    ensures k < |v| ==> Abbreviates(v[k], iri) && IriText(v, iri) == v[k].prefix + (":" + iri[|v[k].base|..])
    ensures k == |v| ==> IriText(v, iri) == "<" + (iri + ">")
  {
    hide Abbreviates, Compacts;
    if v == [] {
      k := 0;
    } else {
      CompactsRead(v[0], iri);
      if Compacts(v[0], iri) {
        k := 0;
      } else {
        var later := IriWritten(v[1..], iri);
        k := later + 1;
        assert forall j | 0 < j < |v| :: v[j] == v[1..][j - 1];
      }
    }
  }
}
