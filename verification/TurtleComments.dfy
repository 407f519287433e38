// Comments in Turtle: what section 2.2 of RDF 1.1 Turtle asks of a reader, against what `skip_ws` does.

module TurtleComments {
  import opened Wrappers
  import opened Rdf
  import opened Turtle

  // White space and comments, each comment running from `#` to the end of its line.
  function SkipComments(s: string): (t: string)
    ensures |t| <= |s|
    decreases |s|
  {
    if s == [] then s
    else if IsSpace(s[0]) then SkipComments(s[1..])
    else if s[0] == '#' then
      var n := Find(s, IsNewline);
      SkipComments(s[n..])
    else s
  }

  // Every leading comment holds white space and `#` only.
  predicate QuietComments(s: string)
    decreases |s|
  {
    if s == [] then true
    else if IsSpace(s[0]) then QuietComments(s[1..])
    else if s[0] == '#' then
      var n := Find(s, IsNewline);
      (forall i | 0 <= i < n :: Blank(s[i])) && QuietComments(s[n..])
    else true
  }

  lemma BlankRun(s: string, n: nat)
    requires n <= |s| && forall i | 0 <= i < n :: Blank(s[i])
    ensures SkipBlank(s) == SkipBlank(s[n..])
  {
    hide Blank;
    FindAt(s, Solid, n + Find(s[n..], Solid));
  }

  lemma StopsAt(s: string, n: nat)
    requires n < |s| && !Blank(s[n])
    ensures |SkipBlank(s)| >= |s| - n
  {
    hide Blank;
  }

  // The reader skips its comments exactly when there is nothing in them.
  lemma {:induction false} CommentsSkipped(s: string)
    ensures SkipBlank(s) == SkipComments(s) <==> QuietComments(s)
    decreases |s|
  {
    hide IsSpace;
    if s == [] {
    } else if IsSpace(s[0]) {
      BlankRun(s, 1);
      CommentsSkipped(s[1..]);
    } else if s[0] == '#' {
      var n := Find(s, IsNewline);
      assert n > 0;
      if forall i | 0 <= i < n :: Blank(s[i]) {
        BlankRun(s, n);
        CommentsSkipped(s[n..]);
      } else {
        var k :| 0 <= k < n && !Blank(s[k]);
        StopsAt(s, k);
      }
    }
  }

  // The smallest document that the documentation allows and the parser rejects.
  lemma CommentRejected()
    ensures SkipComments("# x\n") == [] && ParsedDocument("# x\n") == Err(UnrecognizedToken)
  {
    CommentText();
    DirectivesStop();
    assert !Starts("x\n", '<') && !StartsTwo("x\n", '_', ':');
    FindAt("x\n", Terminator, 1);
    assert "x\n"[..1] == "x";
    FindAt("x", IsColon, 1);
    assert SkipBlank("x\n") == "x\n";
    assert ReadTerm(map[], "x\n") == Err(UnrecognizedToken);
  }

  lemma CommentText()
    ensures SkipComments("# x\n") == [] && SkipBlank("# x\n") == "x\n"
  {
    hide Blank, IsSpace;
    var s := "# x\n";
    FindAt(s, IsNewline, 3);
    SomeBlanks();
    assert s[3..] == "\n" && "\n"[1..] == [];
    assert s[1..] == " x\n" && " x\n"[1..] == "x\n";
    BlankRun(s, 2);
    assert s[2..] == "x\n";
    assert SkipBlank("x\n") == "x\n";
  }

  lemma SomeBlanks()
    ensures Blank('#') && Blank(' ') && !Blank('x') && IsSpace('\n') && !IsSpace('#')
  {
  }

  lemma DirectivesStop()
    ensures ReadDirectives(map[], "# x\n") == Ok((map[], "x\n"))
  {
    CommentText();
    assert !("@prefix" <= "x\n");
  }
}
