// Facts about sets and sequences that several components share.

module Collections {
  ghost predicate NoRepeats<T>(s: seq<T>) {
    forall i, j | 0 <= i < j < |s| :: s[i] != s[j]
  }

  ghost function Elements<T>(s: seq<T>): set<T> { set x | x in s }

  lemma SubsetCard<T>(a: set<T>, b: set<T>)
    requires a <= b
    ensures |a| <= |b| && (a != b ==> |a| < |b|)
  {
    assert b == a + (b - a);
    if a != b {
      var x :| x in b - a;
      assert |b - a| > 0;
    }
  }

  lemma RepeatFree<T>(s: seq<T>)
    requires NoRepeats(s) && s != []
    ensures NoRepeats(s[1..]) && forall x :: x in s[1..] <==> x in s && x != s[0]
  {
    assert s == [s[0]] + s[1..];
    assert forall i | 0 <= i < |s[1..]| :: s[1..][i] == s[i + 1];
  }

  lemma RepeatFreeAppend<T>(s: seq<T>, x: T)
    ensures NoRepeats(s + [x]) <==> NoRepeats(s) && x !in s
    ensures forall y :: y in s + [x] <==> y in s || y == x
  {
    var more := s + [x];
    assert forall i | 0 <= i < |s| :: more[i] == s[i];
    if NoRepeats(more) {
      assert forall i | 0 <= i < |s| :: more[i] != more[|s|];
    }
  }

  // A sequence has as many elements as places exactly when it repeats none.
  lemma {:induction false} ElementsCard<T>(s: seq<T>)
    ensures |Elements(s)| <= |s|
    ensures |Elements(s)| == |s| <==> NoRepeats(s)
    decreases |s|
  {
    hide NoRepeats;
    if s == [] {
      assert NoRepeats(s) by {
        NothingRepeats(s);
      }
    } else {
      var init, last := s[..|s| - 1], s[|s| - 1];
      ElementsCard(init);
      RepeatFreeAppend(init, last);
      assert init + [last] == s;
      assert Elements(s) == Elements(init) + {last};
      assert last in init ==> Elements(init) + {last} == Elements(init);
    }
  }

  lemma NothingRepeats<T>(s: seq<T>)
    requires s == []
    ensures NoRepeats(s)
  {
  }
}
