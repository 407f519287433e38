// White space, trimming, and characters read byte by byte.

module Texts {
  import opened Rdf

  // The characters with the Unicode property White_Space.
  lemma WhiteSpaceExact(c: char)
    ensures IsSpace(c) <==> c in "\t\n\U{000B}\U{000C}\r \U{0085}\U{00A0}\U{1680}\U{2000}\U{2001}\U{2002}\U{2003}"
                                 + "\U{2004}\U{2005}\U{2006}\U{2007}\U{2008}\U{2009}\U{200A}\U{2028}\U{2029}"
                                 + "\U{202F}\U{205F}\U{3000}"
  {
  }

  predicate White(s: string) { forall c | c in s :: IsSpace(c) }

  // No white space stands at either end.
  predicate Trimmed(s: string) { s != "" ==> !IsSpace(s[0]) && !IsSpace(s[|s| - 1]) }

  lemma WhiteJoins(s: string, t: string)
    ensures White("") && (White(s + t) <==> White(s) && White(t))
  {
    hide IsSpace;
    assert forall c :: c in s + t <==> c in s || c in t;
  }

  lemma WhiteOne(c: char)
    ensures White([c]) <==> IsSpace(c)
  {
    hide IsSpace;
    assert c in [c];
  }

  // Trimming takes the white space off both ends and leaves the rest.
  lemma {:induction false} TrimmedOut(lead: string, s: string, close: string)
    requires White(lead) && White(close) && Trimmed(s)
    ensures Trim(lead + (s + close)) == s
    decreases |close|
  {
    hide IsSpace, White, TrimStart, TrimEnd;
    if close == "" {
      assert s + "" == s;
      TrimEndKeeps(lead, s);
      TrimStartDrops(lead, s);
    } else {
      var init, c := close[..|close| - 1], close[|close| - 1];
      assert close == init + [c];
      WhiteJoins(init, [c]);
      TrimmedOut(lead, s, init);
      WhiteOne(c);
      OneLess(lead + (s + init), c);
      Associate(s, init, [c]);
      Associate(lead, s + init, [c]);
    }
  }

  lemma OneLess(s: string, c: char)
    requires IsSpace(c)
    ensures TrimEnd(s + [c]) == TrimEnd(s)
  {
    hide IsSpace;
    assert (s + [c])[..|s|] == s;
  }

  lemma {:induction false} TrimEndKeeps(lead: string, s: string)
    requires White(lead) && Trimmed(s)
    ensures TrimEnd(lead + s) == if s == "" then "" else lead + s
    decreases |lead|
  {
    hide IsSpace;
    if s == "" && lead != "" {
      var init := lead[..|lead| - 1];
      assert lead[|lead| - 1] in lead && forall c | c in init :: c in lead;
      assert (lead + s)[..|lead + s| - 1] == init + s;
      TrimEndKeeps(init, s);
    }
  }

  lemma {:induction false} TrimStartDrops(lead: string, s: string)
    requires White(lead) && (s != "" ==> !IsSpace(s[0]))
    ensures TrimStart(lead + s) == s && TrimStart("") == ""
    decreases |lead|
  {
    hide IsSpace;
    if lead != "" {
      assert lead[0] in lead && forall c | c in lead[1..] :: c in lead;
      assert (lead + s)[1..] == lead[1..] + s;
      TrimStartDrops(lead[1..], s);
    } else {
      assert lead + s == s;
    }
  }

  lemma TrimmedFrom(s: string) returns (lead: string, close: string)
    ensures White(lead) && White(close) && s == lead + (Trim(s) + close) && Trimmed(Trim(s))
  {
    hide IsSpace, White, TrimStart, TrimEnd;
    var t := TrimEnd(s);
    close := TrimEndWhite(s);
    lead := TrimStartWhite(t);
    Associate(lead, TrimStart(t), close);
  }

  lemma {:induction false} TrimEndWhite(s: string) returns (close: string)
    ensures White(close) && s == TrimEnd(s) + close
  {
    hide IsSpace, White;
    WhiteJoins("", "");
    if s != "" && IsSpace(s[|s| - 1]) {
      var init, last := s[..|s| - 1], s[|s| - 1];
      var more := TrimEndWhite(init);
      close := more + [last];
      WhiteOne(last);
      WhiteJoins(more, [last]);
      Associate(TrimEnd(init), more, [last]);
      assert s == init + [last];
    } else {
      close := "";
      assert s == s + "";
    }
  }

  lemma {:induction false} TrimStartWhite(s: string) returns (lead: string)
    ensures White(lead) && s == lead + TrimStart(s)
  {
    hide IsSpace, White;
    WhiteJoins("", "");
    if s != "" && IsSpace(s[0]) {
      var more := TrimStartWhite(s[1..]);
      lead := [s[0]] + more;
      WhiteOne(s[0]);
      WhiteJoins([s[0]], more);
      Associate([s[0]], more, TrimStart(s[1..]));
      assert s == [s[0]] + s[1..];
    } else {
      lead := "";
      assert s == "" + s;
    }
  }

  // ----- Bytes -----

  predicate Follows(c: char) { 0x80 <= c as int < 0xC0 }

  // The characters that a character is read as are its UTF-8 bytes (section 3 of RFC 3629): the first tells
  // how many there are, and together they hold the code point.
  lemma BytesAreUtf8(c: char)
    ensures var n, s := c as int, Latin1(c);
            match |s|
            case 1 => n < 0x80 && s[0] == c
            case 2 => 0x80 <= n < 0x800 && 0xC0 <= s[0] as int < 0xE0 && Follows(s[1])
                      && n == 0x40 * (s[0] as int - 0xC0) + (s[1] as int - 0x80)
            case 3 => 0x800 <= n < 0x1_0000 && 0xE0 <= s[0] as int < 0xF0 && Follows(s[1]) && Follows(s[2])
                      && n == 0x1000 * (s[0] as int - 0xE0) + 0x40 * (s[1] as int - 0x80) + (s[2] as int - 0x80)
            case 4 => 0x1_0000 <= n && 0xF0 <= s[0] as int < 0xF8 && Follows(s[1]) && Follows(s[2]) && Follows(s[3])
                      && n == 0x4_0000 * (s[0] as int - 0xF0) + 0x1000 * (s[1] as int - 0x80)
                              + 0x40 * (s[2] as int - 0x80) + (s[3] as int - 0x80)
            case _ => false
  {
    var n := c as int;
    SixBits(n);
    SixBits(n / 0x40);
    SixBits(n / 0x1000);
    assert n / 0x40 / 0x40 == n / 0x1000 && n / 0x1000 / 0x40 == n / 0x4_0000;
    if 0x80 <= n {
      LeadByte(n);
    }
  }

  lemma SixBits(n: nat)
    ensures n == 0x40 * (n / 0x40) + n % 0x40 && 0 <= n % 0x40 < 0x40
  {
  }

  lemma LeadByte(n: nat)
    requires n < 0x11_0000
    ensures n < 0x800 ==> n / 0x40 < 0x20
    ensures n < 0x1_0000 ==> n / 0x1000 < 0x10
    ensures n / 0x4_0000 % 0x08 == n / 0x4_0000 < 0x08
  {
  }
}
