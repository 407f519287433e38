// The shape of an arbitrary accepted pattern: its hops, and the positions at which a walk through the
// compiled plan binds its variables.

module SparqlShapes {
  import opened Wrappers
  import opened Core
  import opened Sparql
  import opened SparqlMeaning

  predicate IsHop(t: TriplePattern) { !t.pred.Var? && t.pred.text != "a" }

  // The triples that are compiled to steps, in order.
  function Hops(ts: seq<TriplePattern>): seq<TriplePattern> {
    if ts == [] then []
    else Hops(ts[..|ts| - 1]) + if IsHop(ts[|ts| - 1]) then [ts[|ts| - 1]] else []
  }

  // The variables introduced so far.
  function Introduced(first: string, ts: seq<TriplePattern>): set<string> {
    if ts == [] then {first}
    else
      var t := ts[|ts| - 1];
      Introduced(first, ts[..|ts| - 1]) + if IsHop(t) && t.obj.Var? then {t.obj.name} else {}
  }

  // What the compiler accepts: every subject was introduced by an earlier triple or is the first one.
  ghost predicate Accepted(first: string, ts: seq<TriplePattern>) {
    forall i | 0 <= i < |ts| :: WellFormed(ts[i]) && ts[i].subj.name in Introduced(first, ts[..i])
  }

  lemma AcceptedInit(first: string, ts: seq<TriplePattern>)
    requires Accepted(first, ts) && ts != []
    ensures Accepted(first, ts[..|ts| - 1])
    ensures WellFormed(ts[|ts| - 1]) && ts[|ts| - 1].subj.name in Introduced(first, ts[..|ts| - 1])
  {
    hide Introduced;
    var init := ts[..|ts| - 1];
    forall i | 0 <= i < |init| ensures WellFormed(init[i]) && init[i].subj.name in Introduced(first, init[..i]) {
      assert init[i] == ts[i] && init[..i] == ts[..i];
    }
  }

  lemma {:induction false} HopsOf(ts: seq<TriplePattern>, i: nat) returns (j: nat)
    requires i < |ts| && IsHop(ts[i])
    ensures j < |Hops(ts)| && Hops(ts)[j] == ts[i]
    decreases |ts|
  {
    if i == |ts| - 1 {
      j := |Hops(ts)| - 1;
    } else {
      j := HopsOf(ts[..|ts| - 1], i);
    }
  }

  lemma {:induction false} HopsAreHops(ts: seq<TriplePattern>, j: nat)
    requires j < |Hops(ts)|
    ensures IsHop(Hops(ts)[j]) && Hops(ts)[j] in ts
    decreases |ts|
  {
    var init := ts[..|ts| - 1];
    if j < |Hops(init)| {
      HopsAreHops(init, j);
      assert forall t | t in init :: t in ts;
    } else {
      assert ts[|ts| - 1] in ts;
    }
  }

  lemma {:induction false} VarsIntroduced(first: string, ts: seq<TriplePattern>)
    requires Accepted(first, ts)
    ensures Vars(ts) + {first} == Introduced(first, ts)
    decreases |ts|
  {
    if ts != [] {
      AcceptedInit(first, ts);
      VarsIntroduced(first, ts[..|ts| - 1]);
    }
  }

  // ----- Positions -----

  // Where a walk along the plan binds each variable last: the seed at 0, the object of the j-th hop at j.
  function Positions(first: string, hs: seq<TriplePattern>): map<string, nat> {
    if hs == [] then map[first := 0]
    else
      var before, t := Positions(first, hs[..|hs| - 1]), hs[|hs| - 1];
      if t.obj.Var? then before[t.obj.name := |hs|] else before
  }

  lemma {:induction false} PositionsGrow(first: string, hs: seq<TriplePattern>, n: nat)
    requires n <= |hs|
    ensures forall v | v in Positions(first, hs[..n]) ::
              v in Positions(first, hs) && Positions(first, hs)[v] >= Positions(first, hs[..n])[v]
    ensures forall v | v in Positions(first, hs) :: Positions(first, hs)[v] <= |hs|
    decreases |hs|
  {
    if n == |hs| {
      assert hs[..n] == hs;
      if n > 0 {
        PositionsGrow(first, hs[..|hs| - 1], |hs| - 1);
      }
    } else {
      assert hs[..|hs| - 1][..n] == hs[..n];
      PositionsGrow(first, hs[..|hs| - 1], n);
    }
  }

  // A variable is bound no earlier than the last hop to it.
  lemma ObjectPosition(first: string, hs: seq<TriplePattern>, j: nat)
    requires j < |hs| && hs[j].obj.Var?
    ensures hs[j].obj.name in Positions(first, hs) && Positions(first, hs)[hs[j].obj.name] >= j + 1
  {
    var n := j + 1;
    assert hs[..n][..j] == hs[..j];
    assert hs[..n][|hs[..n]| - 1] == hs[j];
    PositionsGrow(first, hs, n);
  }

  lemma {:induction false} SeedPosition(first: string, hs: seq<TriplePattern>)
    ensures first in Positions(first, hs)
    ensures (forall j | 0 <= j < |hs| :: hs[j].obj != Var(first)) ==> Positions(first, hs)[first] == 0
    decreases |hs|
  {
    if hs != [] {
      var init := hs[..|hs| - 1];
      SeedPosition(first, init);
      assert forall j | 0 <= j < |init| :: init[j] == hs[j];
    }
  }

  // Each hop to a variable moves on by one position.
  ghost predicate Advancing(hs: seq<TriplePattern>, pos: map<string, nat>) {
    forall j | 0 <= j < |hs| && hs[j].obj.Var? ::
      hs[j].subj.Var? && hs[j].subj.name in pos && hs[j].obj.name in pos
      && pos[hs[j].obj.name] == pos[hs[j].subj.name] + 1
  }

  // Then no position lies before the seed's.
  lemma {:induction false} SeedIsLowest(first: string, ts: seq<TriplePattern>, hs: seq<TriplePattern>,
                                        pos: map<string, nat>)
    requires Accepted(first, ts) && Hops(ts) <= hs && Advancing(hs, pos) && first in pos
    ensures forall v | v in Introduced(first, ts) :: v in pos && pos[v] >= pos[first]
    decreases |ts|
  {
    if ts != [] {
      var init, t := ts[..|ts| - 1], ts[|ts| - 1];
      AcceptedInit(first, ts);
      SeedIsLowest(first, init, hs, pos);
      if IsHop(t) && t.obj.Var? {
        var j := |Hops(init)|;
        assert Hops(ts)[j] == t && hs[j] == t;
      }
    }
  }

  // So the seed is never bound again and stays at 0.
  lemma SeedStays(first: string, ts: seq<TriplePattern>)
    requires Accepted(first, ts) && Advancing(Hops(ts), Positions(first, Hops(ts)))
    ensures first in Positions(first, Hops(ts)) && Positions(first, Hops(ts))[first] == 0
  {
    var hs := Hops(ts);
    var pos := Positions(first, hs);
    SeedPosition(first, hs);
    SeedIsLowest(first, ts, hs, pos);
    forall j | 0 <= j < |hs| ensures hs[j].obj != Var(first) {
      if hs[j].obj == Var(first) {
        HopsAreHops(ts, j);
        var i :| 0 <= i < |ts| && ts[i] == hs[j];
        SubjectIntroduced(first, ts, i);
      }
    }
  }

  lemma SubjectIntroduced(first: string, ts: seq<TriplePattern>, i: nat)
    requires Accepted(first, ts) && i < |ts|
    ensures ts[i].subj.Var? && ts[i].subj.name in Introduced(first, ts)
  {
    IntroducedGrows(first, ts, i);
  }

  lemma {:induction false} IntroducedGrows(first: string, ts: seq<TriplePattern>, n: nat)
    requires n <= |ts|
    ensures Introduced(first, ts[..n]) <= Introduced(first, ts)
    decreases |ts|
  {
    if n == |ts| {
      assert ts[..n] == ts;
    } else {
      assert ts[..|ts| - 1][..n] == ts[..n];
      IntroducedGrows(first, ts[..|ts| - 1], n);
    }
  }

  // ----- The shape that is left -----

  // A chain of hops from name to name, then `c` hops to constants.
  ghost predicate Shaped(hs: seq<TriplePattern>, names: seq<string>, c: nat) {
    && names != [] && |hs| == |names| - 1 + c
    && (forall i | 0 <= i < |names| - 1 :: hs[i].subj == Var(names[i]) && hs[i].obj == Var(names[i + 1]))
    && (forall i | |names| - 1 <= i < |hs| :: hs[i].subj.Var? && hs[i].subj.name in names && !hs[i].obj.Var?)
  }

  // What makes such a shape a chain.
  ghost predicate Ends(hs: seq<TriplePattern>, names: seq<string>, c: nat)
    requires Shaped(hs, names, c)
  {
    c == 0 || (c == 1 && hs[|names| - 1].subj.name == names[|names| - 1])
  }

  ghost predicate Laid(first: string, ts: seq<TriplePattern>, pos: map<string, nat>, names: seq<string>, c: nat) {
    && Distinct(names) && names[0] == first
    && (forall v :: v in names <==> v in Introduced(first, ts))
    && (forall i | 0 <= i < |names| :: names[i] in pos && pos[names[i]] == i)
    && Shaped(Hops(ts), names, c)
    && Chain(first, ts) == if Ends(Hops(ts), names, c) then Some(Position(names, c == 1)) else None
  }

  // If every hop to a variable moves on by one position, the pattern is a chain followed by hops to constants.
  lemma {:induction false} Layout(first: string, ts: seq<TriplePattern>, all: seq<TriplePattern>, pos: map<string, nat>)
    returns (names: seq<string>, c: nat)
    requires Accepted(first, ts) && Hops(ts) <= all && Advancing(all, pos)
    requires first in pos && pos[first] == 0
    requires forall j | 0 <= j < |all| && all[j].obj.Var? :: all[j].obj.name in pos && pos[all[j].obj.name] >= j + 1
    ensures Laid(first, ts, pos, names, c)
    decreases |ts|
  {
    hide Laid;
    if ts == [] {
      names, c := [first], 0;
      LaidStart(first, pos);
    } else {
      var init, t := ts[..|ts| - 1], ts[|ts| - 1];
      AcceptedInit(first, ts);
      assert Hops(init) <= Hops(ts);
      names, c := Layout(first, init, all, pos);
      if !IsHop(t) {
        LaidType(first, ts, pos, names, c);
      } else if t.obj.Var? {
        LaidNames(first, init, pos, names, c);
        assert all[|Hops(init)|] == t by {
          assert Hops(ts)[|Hops(init)|] == t;
        }
        LaidVariable(first, ts, pos, names, c);
        names := names + [t.obj.name];
      } else {
        LaidConstant(first, ts, pos, names, c);
        c := c + 1;
      }
    }
  }

  lemma LaidStart(first: string, pos: map<string, nat>)
    requires first in pos && pos[first] == 0
    ensures Laid(first, [], pos, [first], 0)
  {
  }

  lemma LaidNames(first: string, ts: seq<TriplePattern>, pos: map<string, nat>, names: seq<string>, c: nat)
    requires Laid(first, ts, pos, names, c)
    ensures |Hops(ts)| == |names| - 1 + c
  {
  }

  lemma LaidType(first: string, ts: seq<TriplePattern>, pos: map<string, nat>, names: seq<string>, c: nat)
    requires ts != [] && !IsHop(ts[|ts| - 1]) && WellFormed(ts[|ts| - 1])
    requires ts[|ts| - 1].subj.name in Introduced(first, ts[..|ts| - 1])
    requires Laid(first, ts[..|ts| - 1], pos, names, c)
    ensures Laid(first, ts, pos, names, c)
  {
    hide Shaped, Distinct, Ends;
    assert Hops(ts) == Hops(ts[..|ts| - 1]);
  }

  // A hop to a variable: its position forces it to start at the last name and to end at a new one.
  lemma LaidVariable(first: string, ts: seq<TriplePattern>, pos: map<string, nat>, names: seq<string>, c: nat)
    requires ts != [] && IsHop(ts[|ts| - 1]) && WellFormed(ts[|ts| - 1]) && ts[|ts| - 1].obj.Var?
    requires ts[|ts| - 1].subj.name in Introduced(first, ts[..|ts| - 1])
    requires Laid(first, ts[..|ts| - 1], pos, names, c)
    requires var t := ts[|ts| - 1];
             && t.subj.name in pos && t.obj.name in pos && pos[t.obj.name] == pos[t.subj.name] + 1
             && pos[t.obj.name] >= |Hops(ts[..|ts| - 1])| + 1
    ensures c == 0 && Laid(first, ts, pos, names + [ts[|ts| - 1].obj.name], 0)
  {
    hide Distinct, Hops, Introduced;
    HopsStep(first, ts);
    var init, t := ts[..|ts| - 1], ts[|ts| - 1];
    var i :| 0 <= i < |names| && names[i] == t.subj.name;
    assert i == |names| - 1 && c == 0;
    assert t.obj.name !in names;
    LongerNames(names, t.obj.name);
    var more, hs := names + [t.obj.name], Hops(ts);
    assert hs == Hops(init) + [t];
    assert forall k | 0 <= k < |names| :: more[k] == names[k];
    assert forall k | 0 <= k < |hs| - 1 :: hs[k] == Hops(init)[k];
  }

  lemma HopsStep(first: string, ts: seq<TriplePattern>)
    requires ts != [] && IsHop(ts[|ts| - 1])
    ensures var t := ts[|ts| - 1];
            && Hops(ts) == Hops(ts[..|ts| - 1]) + [t]
            && Introduced(first, ts) == Introduced(first, ts[..|ts| - 1]) + if t.obj.Var? then {t.obj.name} else {}
  {
  }

  lemma LongerNames(names: seq<string>, name: string)
    requires Distinct(names) && name !in names
    ensures Distinct(names + [name]) && forall v :: v in names + [name] <==> v in names || v == name
  {
  }

  lemma LaidConstant(first: string, ts: seq<TriplePattern>, pos: map<string, nat>, names: seq<string>, c: nat)
    requires ts != [] && IsHop(ts[|ts| - 1]) && WellFormed(ts[|ts| - 1]) && !ts[|ts| - 1].obj.Var?
    requires ts[|ts| - 1].subj.name in Introduced(first, ts[..|ts| - 1])
    requires Laid(first, ts[..|ts| - 1], pos, names, c)
    ensures Laid(first, ts, pos, names, c + 1)
  {
    hide Distinct, Hops, Introduced;
    HopsStep(first, ts);
    var init, t := ts[..|ts| - 1], ts[|ts| - 1];
    var hs := Hops(ts);
    assert hs == Hops(init) + [t];
    assert forall k | 0 <= k < |hs| - 1 :: hs[k] == Hops(init)[k];
  }
}
