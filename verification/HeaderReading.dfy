// What a request header reads as, spelt line by line.

module HeaderReading {
  import opened Wrappers
  import opened Numerals
  import opened Rdf
  import opened Texts
  import opened Framing

  // ----- Lines -----

  predicate OneLine(line: string) {
    forall i | 0 <= i < |line| - 1 :: !(line[i] == '\r' && line[i + 1] == '\n')
  }

  predicate AllLines(lines: seq<string>) { forall line | line in lines :: OneLine(line) }

  function JoinLines(lines: seq<string>): string
    requires lines != []
  {
    if |lines| == 1 then lines[0] else lines[0] + ("\r\n" + JoinLines(lines[1..]))
  }

  lemma {:induction false} CrLfAt(line: string, rest: string)
    requires OneLine(line)
    ensures FindCrLf(line + ("\r\n" + rest)) == |line| && FindCrLf(line) == |line|
  {
    var s := line + ("\r\n" + rest);
    if |line| >= 1 {
      var tail := line[1..];
      assert forall i | 0 <= i < |tail| :: tail[i] == line[i + 1];
      CrLfAt(tail, rest);
      assert s[1..] == tail + ("\r\n" + rest);
      assert s[0] == line[0] && (|line| > 1 ==> s[1] == line[0 + 1]) && (|line| == 1 ==> s[1] == '\r');
    }
  }

  lemma {:induction false} CrLfFirst(s: string)
    ensures OneLine(s[..FindCrLf(s)])
    ensures FindCrLf(s) < |s| ==> s == s[..FindCrLf(s)] + ("\r\n" + s[FindCrLf(s) + 2..])
  {
    hide OneLine;
    if |s| < 2 || (s[0] == '\r' && s[1] == '\n') {
      ShortLine(s);
    } else {
      CrLfFirst(s[1..]);
      LaterLine(s, FindCrLf(s[1..]));
    }
  }

  lemma ShortLine(s: string)
    requires |s| < 2 || (s[0] == '\r' && s[1] == '\n')
    ensures OneLine(s[..FindCrLf(s)])
  {
  }

  // A character in front of a line that does not begin a break with it.
  lemma LaterLine(s: string, m: nat)
    requires |s| >= 2 && !(s[0] == '\r' && s[1] == '\n') && m <= |s| - 1 && OneLine(s[1..][..m])
    ensures OneLine(s[..m + 1])
    ensures m + 2 < |s| && s[1..] == s[1..][..m] + ("\r\n" + s[1..][m + 2..]) ==>
              s == s[..m + 1] + ("\r\n" + s[m + 3..])
  {
    var line, rest := s[..m + 1], s[1..][..m];
    assert line == [s[0]] + rest;
    forall i | 0 <= i < |line| - 1 ensures !(line[i] == '\r' && line[i + 1] == '\n') {
      assert i > 0 ==> line[i] == rest[i - 1] && line[i + 1] == rest[i - 1 + 1];
    }
    if m + 2 < |s| && s[1..] == rest + ("\r\n" + s[1..][m + 2..]) {
      assert s[1..][m + 2..] == s[m + 3..];
      assert s == [s[0]] + s[1..];
      Associate([s[0]], rest, "\r\n" + s[m + 3..]);
    }
  }

  // Splitting undoes joining, and every text is joined from the lines it splits into.
  lemma {:induction false} SplitJoined(lines: seq<string>)
    requires lines != [] && AllLines(lines)
    ensures Split(JoinLines(lines)) == lines
    decreases |lines|
  {
    hide OneLine;
    assert lines[0] in lines;
    if |lines| == 1 {
      CrLfAt(lines[0], "");
    } else {
      assert forall line | line in lines[1..] :: line in lines;
      SplitJoined(lines[1..]);
      var rest := JoinLines(lines[1..]);
      CrLfAt(lines[0], rest);
      assert JoinLines(lines)[..|lines[0]|] == lines[0] && JoinLines(lines)[|lines[0]| + 2..] == rest;
    }
  }

  lemma {:induction false} JoinedSplit(s: string)
    ensures AllLines(Split(s)) && JoinLines(Split(s)) == s
    decreases |s|
  {
    hide OneLine;
    var n := FindCrLf(s);
    CrLfFirst(s);
    if n < |s| {
      JoinedSplit(s[n + 2..]);
    } else {
      assert s[..n] == s;
    }
  }

  // ----- The request line -----

  predicate BlankText(s: string) { forall c | c in s :: c in " \t\n\r\U{000C}" }

  predicate WordText(s: string) { s != "" && forall c | c in s :: c !in " \t\n\r\U{000C}" }

  // What may follow a word.
  predicate AfterWord(s: string) { s == "" || s[0] in " \t\n\r\U{000C}" }

  lemma BlankIs(c: char)
    ensures AsciiSpace(c) <==> c in " \t\n\r\U{000C}"
  {
  }

  lemma WordNext(gap: string, word: string, tail: string)
    requires BlankText(gap) && WordText(word) && AfterWord(tail)
    ensures NextWord(gap + (word + tail)) == Some((word, tail))
  {
    hide AsciiSpace;
    var s := gap + (word + tail);
    forall c: char ensures AsciiSpace(c) <==> c in " \t\n\r\U{000C}" {
      BlankIs(c);
    }
    assert forall i | 0 <= i < |gap| :: s[i] == gap[i] && gap[i] in gap;
    assert s[|gap|] == word[0] && word[0] in word;
    FindAt(s, NotAsciiSpace, |gap|);
    var t := s[|gap|..];
    assert t == word + tail;
    assert forall i | 0 <= i < |word| :: t[i] == word[i] && word[i] in word;
    assert |t| > |word| ==> t[|word|] == tail[0];
    FindAt(t, AsciiSpace, |word|);
    assert t[..|word|] == word && t[|word|..] == tail;
  }

  lemma NoWord(gap: string)
    requires BlankText(gap)
    ensures NextWord(gap) == None
  {
    hide AsciiSpace;
    forall c: char ensures AsciiSpace(c) <==> c in " \t\n\r\U{000C}" {
      BlankIs(c);
    }
    assert forall i | 0 <= i < |gap| :: gap[i] in gap;
    FindAt(gap, NotAsciiSpace, |gap|);
  }

  // ----- Fields -----

  // "content-length", each letter in either case.
  predicate SpellsLength(name: string) {
    |name| == 14 && forall i | 0 <= i < 14 :: name[i] == "content-length"[i] || name[i] == "CONTENT-LENGTH"[i]
  }

  ghost predicate NamesLength(line: string, value: string) {
    exists lead, name, gap :: White(lead) && White(gap) && SpellsLength(name)
                              && line == lead + (name + (gap + (":" + value)))
  }

  // A content length with its value, or any other line.
  datatype Field = Length(name: string, lead: string, gap: string, open: string, value: string, close: string)
                 | Other(line: string)

  function FieldText(f: Field): string {
    match f
    case Length(name, lead, gap, open, value, close) => lead + (name + (gap + (":" + (open + (value + close)))))
    case Other(line) => line
  }

  ghost predicate FieldPlain(f: Field) {
    match f
    case Length(name, lead, gap, open, value, close) =>
      SpellsLength(name) && White(lead) && White(gap) && White(open) && White(close) && Trimmed(value)
    case Other(line) => forall value :: !NamesLength(line, value)
  }

  lemma LowerSpells(name: string)
    ensures EqIgnoreCase(name, "content-length") <==> SpellsLength(name)
  {
    if |name| == 14 {
      forall i | 0 <= i < 14
        ensures Lower(name[i]) == Lower("content-length"[i])
                <==> name[i] == "content-length"[i] || name[i] == "CONTENT-LENGTH"[i]
      {
        assert "content-length"[i] in "content-length";
        Letters(name[i], i);
      }
    }
  }

  lemma Letters(c: char, i: nat)
    requires i < 14
    ensures Lower(c) == Lower("content-length"[i]) <==> c == "content-length"[i] || c == "CONTENT-LENGTH"[i]
  {
    var d, e := "content-length"[i], "CONTENT-LENGTH"[i];
    assert d == '-' == e || ('a' <= d <= 'z' && e as int + 32 == d as int) by {
      assert |"content-length"| == 14 && |"CONTENT-LENGTH"| == 14;
    }
  }

  lemma CutAtColon(front: string, back: string)
    requires ':' !in front
    ensures var line := front + (":" + back);
            Find(line, IsColon) == |front| && line[..|front|] == front && line[|front| + 1..] == back
  {
    var line := front + (":" + back);
    forall i | 0 <= i < |front| ensures !IsColon(line[i]) {
      assert line[i] == front[i] && front[i] in front;
    }
    FindAt(line, IsColon, |front|);
  }

  lemma LengthReads(f: Field)
    requires f.Length? && FieldPlain(f)
    ensures LengthField(FieldText(f)) == Some(f.value)
  {
    hide IsSpace, White, Trimmed, SpellsLength, EqIgnoreCase, Trim;
    var front, back := f.lead + (f.name + f.gap), f.open + (f.value + f.close);
    LengthShape(f, back);
    FrontHasNoColon(f.lead, f.name, f.gap);
    CutAtColon(front, back);
    LengthTrimmed(f.name);
    TrimmedOut(f.lead, f.name, f.gap);
    TrimmedOut(f.open, f.value, f.close);
    LowerSpells(f.name);
  }

  lemma LengthShape(f: Field, back: string)
    requires f.Length? && back == f.open + (f.value + f.close)
    ensures FieldText(f) == (f.lead + (f.name + f.gap)) + (":" + back)
  {
    Associate(f.lead, f.name + f.gap, ":" + back);
    Associate(f.name, f.gap, ":" + back);
  }

  lemma FrontHasNoColon(lead: string, name: string, gap: string)
    requires White(lead) && White(gap) && SpellsLength(name)
    ensures ':' !in lead + (name + gap)
  {
    forall c | c in lead + (name + gap) ensures c != ':' {
      if c in name {
        var i :| 0 <= i < |name| && name[i] == c;
        assert "content-length"[i] in "content-length" && "CONTENT-LENGTH"[i] in "CONTENT-LENGTH";
      }
    }
  }

  lemma LengthTrimmed(name: string)
    requires SpellsLength(name)
    ensures Trimmed(name)
  {
    assert name[0] in "cC" && name[13] in "hH";
  }

  lemma NamesIt(front: string, lead: string, name: string, gap: string, value: string)
    requires White(lead) && White(gap) && SpellsLength(name) && front == lead + (name + gap)
    ensures NamesLength(front + (":" + value), value)
  {
    hide White, SpellsLength;
    Associate(lead, name + gap, ":" + value);
    Associate(name, gap, ":" + value);
  }

  lemma OtherReads(line: string)
    requires forall value :: !NamesLength(line, value)
    ensures LengthField(line) == None
  {
    hide IsSpace, White, SpellsLength, EqIgnoreCase, NamesLength, Trim;
    var colon := Find(line, IsColon);
    if colon < |line| {
      var front, value := line[..colon], line[colon + 1..];
      assert line == front + (":" + value);
      var lead, gap := TrimmedFrom(front);
      LowerSpells(Trim(front));
      if SpellsLength(Trim(front)) {
        NamesIt(front, lead, Trim(front), gap, value);
      }
    }
  }

  // ----- The length -----

  function Earlier(fs: seq<Field>): seq<Field>
    requires fs != []
  {
    fs[..|fs| - 1]
  }

  function FieldTexts(fs: seq<Field>): seq<string>
    decreases |fs|
  {
    if fs == [] then [] else FieldTexts(Earlier(fs)) + [FieldText(fs[|fs| - 1])]
  }

  // The last content length counts, if all of them are numerals within usize; without one there is no body.
  ghost predicate Announces(fs: seq<Field>, n: nat)
    decreases |fs|
  {
    if fs == [] then n == 0
    else
      var f := fs[|fs| - 1];
      if f.Other? then Announces(Earlier(fs), n)
      else n <= 0xFFFF_FFFF_FFFF_FFFF && IsNumeral(f.value, n) && exists m :: Announces(Earlier(fs), m)
  }

  lemma {:induction false} LengthAnnounced(fs: seq<Field>, n: nat)
    requires forall f | f in fs :: FieldPlain(f)
    ensures ContentLength(FieldTexts(fs)) == Ok(n) <==> Announces(fs, n)
    decreases |fs|
  {
    hide FieldPlain, LengthField, ParseUnsigned, IsNumeral, FieldText;
    if fs != [] {
      var init, f := Earlier(fs), fs[|fs| - 1];
      assert f in fs && forall g | g in init :: g in fs;
      var lines := FieldTexts(fs);
      assert lines[..|lines| - 1] == FieldTexts(init) && lines[|lines| - 1] == FieldText(f);
      forall m: nat ensures ContentLength(FieldTexts(init)) == Ok(m) <==> Announces(init, m) {
        LengthAnnounced(init, m);
      }
      FieldReads(f);
      if f.Length? {
        ParsesExactly(f.value, USIZE_MAX, n);
        if ContentLength(FieldTexts(init)).Ok? {
          assert Announces(init, ContentLength(FieldTexts(init)).value);
        }
      }
    }
  }

  lemma OtherField(f: Field)
    requires f.Other? && FieldPlain(f)
    ensures LengthField(f.line) == None
  {
    OtherReads(f.line);
  }

  lemma FieldReads(f: Field)
    requires FieldPlain(f)
    ensures LengthField(FieldText(f)) == if f.Length? then Some(f.value) else None
  {
    hide FieldPlain, LengthField;
    if f.Length? {
      LengthReads(f);
    } else {
      OtherField(f);
    }
  }

  lemma NotAnnounced(fs: seq<Field>)
    requires forall f | f in fs :: FieldPlain(f)
    ensures ContentLength(FieldTexts(fs)) == Err(BadContentLength) <==> !(exists n :: Announces(fs, n))
  {
    hide FieldPlain, Announces, ContentLength, FieldTexts;
    var length := ContentLength(FieldTexts(fs));
    LengthErrors(FieldTexts(fs));
    if length.Ok? {
      LengthAnnounced(fs, length.value);
    }
    if n :| Announces(fs, n) {
      LengthAnnounced(fs, n);
    }
  }

  // ----- The header -----

  // A first line with two words, and whatever follows the second.
  ghost predicate RequestLine(line: string, verb: string, path: string) {
    exists lead, gap, tail :: BlankText(lead) && WordText(verb) && BlankText(gap) && gap != "" && WordText(path)
                              && AfterWord(tail) && line == lead + (verb + (gap + (path + tail)))
  }

  ghost predicate OneWord(line: string) {
    exists lead, verb, tail :: BlankText(lead) && WordText(verb) && BlankText(tail) && line == lead + (verb + tail)
  }

  lemma GapAfter(gap: string, rest: string)
    requires BlankText(gap) && (gap != "" || rest == "")
    ensures AfterWord(gap + rest)
  {
    assert gap != "" ==> gap[0] in gap;
  }

  lemma BlankUntil(s: string, n: nat)
    requires n <= |s| && forall i | 0 <= i < n :: !NotAsciiSpace(s[i])
    ensures BlankText(s[..n])
  {
  }

  lemma WordUntil(s: string, n: nat)
    requires 0 < n <= |s| && forall i | 0 <= i < n :: !AsciiSpace(s[i])
    ensures WordText(s[..n])
  {
  }

  // What the next word leaves is what was there.
  lemma NextWordIs(s: string) returns (gap: string)
    ensures NextWord(s).None? ==> BlankText(s)
    ensures NextWord(s).Some? ==>
              var (word, tail) := NextWord(s).value;
              BlankText(gap) && WordText(word) && AfterWord(tail) && s == gap + (word + tail)
  {
    hide AsciiSpace, BlankText, WordText, AfterWord;
    var at := Find(s, NotAsciiSpace);
    gap := s[..at];
    var t := s[at..];
    BlankUntil(s, at);
    assert s == gap + t;
    if t == [] {
      assert gap == s;
    } else {
      assert t[0] == s[at];
      WordSplit(t);
    }
  }

  lemma WordSplit(t: string)
    requires t != "" && NotAsciiSpace(t[0])
    ensures var n := Find(t, AsciiSpace); WordText(t[..n]) && AfterWord(t[n..]) && t == t[..n] + t[n..]
  {
    hide AsciiSpace, WordText, AfterWord, Find;
    var n := Find(t, AsciiSpace);
    WordUntil(t, n);
    RestAfter(t, n);
  }

  lemma RestAfter(t: string, n: nat)
    requires n <= |t| && (n < |t| ==> AsciiSpace(t[n]))
    ensures AfterWord(t[n..])
  {
    if n < |t| {
      BlankIs(t[n]);
    }
  }

  // The four ways a first line reads.
  lemma LineReads(line: string, verb: string, path: string)
    ensures BlankText(line) <==> NextWord(line).None?
    ensures OneWord(line) <==> NextWord(line).Some? && NextWord(NextWord(line).value.1).None?
    ensures RequestLine(line, verb, path)
            <==> && NextWord(line).Some? && NextWord(NextWord(line).value.1).Some?
                 && NextWord(line).value.0 == verb && NextWord(NextWord(line).value.1).value.0 == path
  {
    hide BlankText, WordText, NextWord, AfterWord;
    var lead := NextWordIs(line);
    if BlankText(line) {
      NoWord(line);
    }
    if NextWord(line).Some? {
      var rest := NextWord(line).value.1;
      var gap := NextWordIs(rest);
      if NextWord(rest).Some? {
        var (second, tail) := NextWord(rest).value;
        GapNeeded(gap, second, tail);
      }
    }
    if OneWord(line) {
      var a, first, c :| BlankText(a) && WordText(first) && BlankText(c) && line == a + (first + c);
      assert c + "" == c;
      GapOrNothing(c);
      WordNext(a, first, c);
      NoWord(c);
    }
    if RequestLine(line, verb, path) {
      var a, b, c :| BlankText(a) && WordText(verb) && BlankText(b) && b != "" && WordText(path) && AfterWord(c)
        && line == a + (verb + (b + (path + c)));
      GapAfter(b, path + c);
      WordNext(a, verb, b + (path + c));
      WordNext(b, path, c);
    }
  }

  lemma GapOrNothing(c: string)
    requires BlankText(c)
    ensures AfterWord(c)
  {
    assert c != "" ==> c[0] in c;
  }

  lemma GapNeeded(gap: string, word: string, tail: string)
    requires AfterWord(gap + (word + tail)) && WordText(word)
    ensures gap != ""
  {
    assert word[0] in word;
    assert (gap + (word + tail))[|gap|] == word[0];
  }

  // What a header of one line and the fields below it reads as, in all four cases.
  lemma HeadReads(line: string, fs: seq<Field>, verb: string, path: string, n: nat)
    requires OneLine(line) && AllLines(FieldTexts(fs)) && forall f | f in fs :: FieldPlain(f)
    ensures var head := ReadHead(JoinLines([line] + FieldTexts(fs)));
            && (head == Ok(Head(verb, path, n)) <==> RequestLine(line, verb, path) && Announces(fs, n))
            && (head == Err(MissingMethod) <==> BlankText(line))
            && (head == Err(MissingPath) <==> OneWord(line))
            && (head == Err(BadContentLength)
                <==> !BlankText(line) && !OneWord(line) && !(exists m :: Announces(fs, m)))
  {
    hide OneLine, BlankText, OneWord, RequestLine, NextWord, Split, FieldPlain, Announces, ContentLength, FieldTexts;
    SplitJoined([line] + FieldTexts(fs));
    assert ([line] + FieldTexts(fs))[1..] == FieldTexts(fs);
    LineReads(line, verb, path);
    LengthAnnounced(fs, n);
    NotAnnounced(fs);
    LengthErrors(FieldTexts(fs));
  }

  // ----- The request -----

  predicate BlankLineAt(stream: seq<Byte>, i: nat) {
    i + 4 <= |stream| && stream[i..i + 4] == [13, 10, 13, 10]
  }

  ghost predicate FirstBlankLine(stream: seq<Byte>, header: seq<Byte>, body: seq<Byte>) {
    && stream == header + ([13, 10, 13, 10] + body)
    && forall i: nat | i < |header| :: !BlankLineAt(stream, i)
  }

  // A stream whose header ends within 65537 bytes: its two words and the bytes its length announces,
  // or an error when the stream ends before them.
  lemma RequestReads(decode: Decoder, chunks: seq<seq<Byte>>, ending: Ending, r: Result<Request, RemoteError>,
                     header: seq<Byte>, body: seq<Byte>, line: string, fs: seq<Field>, verb: string, path: string,
                     n: nat)
    requires Replies(decode, chunks, ending, r) && FirstBlankLine(Joined(chunks), header, body)
    requires |header| + 4 <= 65537 && decode(header) == Some(JoinLines([line] + FieldTexts(fs)))
    requires OneLine(line) && AllLines(FieldTexts(fs)) && forall f | f in fs :: FieldPlain(f)
    requires RequestLine(line, verb, path) && Announces(fs, n)
    ensures n <= |body| ==> r == Ok(Request(verb, path, body[..n]))
    ensures n > |body| ==> r == Err(if ending.Closes? then BodyTruncated else ReadFailed)
  {
    hide Replies, Joined, ReadHead, JoinLines, FieldTexts, FieldPlain, RequestLine, Announces, AllLines, OneLine;
    var stream, end := Joined(chunks), |header| + 4;
    HeaderEnds(stream, header, body);
    FramedInTime(decode, chunks, ending, r, |header|);
    HeadReads(line, fs, verb, path, n);
    assert stream[..end - 4] == header && stream[end..] == body;
    assert n <= |body| ==> stream[end..end + n] == body[..n];
  }

  // A header that cannot be read is answered with its error, and so is one that is no text.
  lemma RequestFails(decode: Decoder, chunks: seq<seq<Byte>>, ending: Ending, r: Result<Request, RemoteError>,
                     header: seq<Byte>, body: seq<Byte>, line: string, fs: seq<Field>)
    requires Replies(decode, chunks, ending, r) && FirstBlankLine(Joined(chunks), header, body)
    requires |header| + 4 <= 65537
    requires OneLine(line) && AllLines(FieldTexts(fs)) && forall f | f in fs :: FieldPlain(f)
    ensures decode(header) == None ==> r == Err(NotUtf8)
    ensures decode(header) == Some(JoinLines([line] + FieldTexts(fs))) ==>
              && (BlankText(line) ==> r == Err(MissingMethod))
              && (OneWord(line) ==> r == Err(MissingPath))
              && (!BlankText(line) && !OneWord(line) && !(exists n :: Announces(fs, n)) ==> r == Err(BadContentLength))
  {
    hide Replies, Joined, ReadHead, JoinLines, FieldTexts, FieldPlain, OneWord, BlankText, Announces, AllLines, OneLine;
    var stream, end := Joined(chunks), |header| + 4;
    HeaderEnds(stream, header, body);
    FramedInTime(decode, chunks, ending, r, |header|);
    HeadReads(line, fs, "", "", 0);
    assert stream[..end - 4] == header;
  }

  lemma HeaderEnds(stream: seq<Byte>, header: seq<Byte>, body: seq<Byte>)
    requires FirstBlankLine(stream, header, body)
    ensures FirstTerminator(stream, |header|)
  {
    forall i: nat | i < |header| ensures !TerminatorAt(stream, i) {
      var w := stream[i..i + 4];
      assert !BlankLineAt(stream, i);
      assert w[0] == stream[i] && w[1] == stream[i + 1] && w[2] == stream[i + 2] && w[3] == stream[i + 3];
    }
  }

  // Without a content length nothing is awaited.
  lemma {:induction false} NoLengthNoBody(fs: seq<Field>)
    requires forall f | f in fs :: f.Other?
    ensures Announces(fs, 0)
    decreases |fs|
  {
    if fs != [] {
      assert fs[|fs| - 1] in fs && forall f | f in Earlier(fs) :: f in fs;
      NoLengthNoBody(Earlier(fs));
    }
  }

  // With one, that many bytes are.
  lemma {:induction false} OneLength(before: seq<Field>, f: Field, after: seq<Field>, n: nat)
    requires (forall g | g in before + after :: g.Other?) && f.Length?
    requires f.value == Decimal(n) && n <= 0xFFFF_FFFF_FFFF_FFFF
    ensures Announces(before + [f] + after, n)
    decreases |after|
  {
    hide Decimal;
    var fs := before + [f] + after;
    if after == [] {
      assert Earlier(fs) == before;
      assert forall g | g in before :: g in before + after;
      NoLengthNoBody(before);
      assert Zeros("") && f.value == "" + Decimal(n);
    } else {
      assert after[|after| - 1] in before + after;
      assert Earlier(fs) == before + [f] + Earlier(after);
      assert forall g | g in before + Earlier(after) :: g in before + after;
      OneLength(before, f, Earlier(after), n);
    }
  }

  // The window of `InWindow` in bytes.
  lemma WindowBytes(stream: seq<Byte>)
    ensures InWindow(stream) <==> exists i: nat :: FirstTerminator(stream, i) && 65537 < i + 4 <= 69632
  {
    hide FirstTerminator;
  }
}
