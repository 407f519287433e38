// The last segment of an IRI or label.

module LocalNames {
  predicate IsDelimiter(c: char) { c == '#' || c == '/' || c == ':' }

  // One past the last delimiter.
  function CutPoint(s: string): (cut: nat)
    ensures cut <= |s|
    ensures forall i | cut <= i < |s| :: !IsDelimiter(s[i])
    ensures cut == 0 || IsDelimiter(s[cut - 1])
  {
    if s == [] then 0 else if IsDelimiter(s[|s| - 1]) then |s| else CutPoint(s[..|s| - 1])
  }

  function LocalName(s: string): string { s[CutPoint(s)..] }

  // A name without any of the three characters, alone or behind one of them.
  lemma LocalNameReads(base: string, name: string)
    requires '#' !in name && '/' !in name && ':' !in name
    ensures LocalName(name) == name
    ensures LocalName(base + ("#" + name)) == name
    ensures LocalName(base + ("/" + name)) == name
    ensures LocalName(base + (":" + name)) == name
  {
    CutsAt("", name);
    assert "" + name == name;
    assert base + ("#" + name) == (base + "#") + name;
    CutsAt(base + "#", name);
    assert base + ("/" + name) == (base + "/") + name;
    CutsAt(base + "/", name);
    assert base + (":" + name) == (base + ":") + name;
    CutsAt(base + ":", name);
  }

  lemma CutsAt(before: string, name: string)
    requires '#' !in name && '/' !in name && ':' !in name
    requires before == "" || before[|before| - 1] == '#' || before[|before| - 1] == '/' || before[|before| - 1] == ':'
    ensures LocalName(before + name) == name
  {
    var s := before + name;
    var cut := CutPoint(s);
    assert forall i | |before| <= i < |s| :: s[i] == name[i - |before|] && s[i] in name;
    assert before != "" ==> IsDelimiter(s[|before| - 1]);
    assert cut == |before|;
  }
}
