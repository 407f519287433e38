// What the property rules compute: asserted edges seen through symmetric and inverse labels, and walks
// over them where a label is transitive.

module EdgeClosure {
  import opened Core
  import opened FactBase
  import opened Deduction

  // ----- The laws of edges -----

  lemma SymmetricEdges(rs: seq<Rule>, base: set<Fact>, a: NodeId, p: string, b: NodeId)
    requires PropertySymmetry in rs && Ax(Symmetric(p)) in base
    ensures Ed(a, p, b) in Closure(rs, base) <==> Ed(b, p, a) in Closure(rs, base)
  {
    hide Closure;
    var c := Closure(rs, base);
    ClosureIsLeast(rs, base);
    assert ClosedUnder(PropertySymmetry, c);
    assert Ed(a, p, b) in c ==> Derives(PropertySymmetry, c, Ed(b, p, a));
    assert Ed(b, p, a) in c ==> Derives(PropertySymmetry, c, Ed(a, p, b));
  }

  lemma TransitiveEdges(rs: seq<Rule>, base: set<Fact>, a: NodeId, p: string, b: NodeId, d: NodeId)
    requires PropertyTransitivity in rs && Ax(Transitive(p)) in base && a != d
    requires Ed(a, p, b) in Closure(rs, base) && Ed(b, p, d) in Closure(rs, base)
    ensures Ed(a, p, d) in Closure(rs, base)
  {
    hide Closure;
    var c := Closure(rs, base);
    ClosureIsLeast(rs, base);
    assert ClosedUnder(PropertyTransitivity, c);
    assert EdgeHop(c, a, p, b, d);
    assert Derives(PropertyTransitivity, c, Ed(a, p, d));
  }

  lemma InverseLabels(rs: seq<Rule>, base: set<Fact>, a: NodeId, p: string, q: string, b: NodeId)
    requires InverseOfMaterializes in rs && (Ax(InverseOf(p, q)) in base || Ax(InverseOf(q, p)) in base)
    ensures Ed(a, p, b) in Closure(rs, base) <==> Ed(b, q, a) in Closure(rs, base)
  {
    hide Closure;
    var c := Closure(rs, base);
    ClosureIsLeast(rs, base);
    assert ClosedUnder(InverseOfMaterializes, c);
    assert Ed(a, p, b) in c ==> InverseHop(c, p, a, q, b) && Derives(InverseOfMaterializes, c, Ed(b, q, a));
    assert Ed(b, q, a) in c ==> InverseHop(c, q, b, p, a) && Derives(InverseOfMaterializes, c, Ed(a, p, b));
  }

  // ----- Edges as an independent reading of the assertions -----

  // An edge labelled `p` is one labelled `q` the other way round.
  ghost predicate Turn(base: set<Fact>, p: string, q: string) {
    (p == q && Ax(Symmetric(p)) in base) || Ax(InverseOf(p, q)) in base || Ax(InverseOf(q, p)) in base
  }

  ghost predicate Turns(base: set<Fact>, ls: seq<string>) {
    ls != [] && forall i | 0 <= i < |ls| - 1 :: Turn(base, ls[i], ls[i + 1])
  }

  // Some chain of turns leads from `p` to `q`; an odd number of them reverses edges.
  ghost predicate LinkedBy(base: set<Fact>, ls: seq<string>, p: string, q: string, reversed: bool) {
    Turns(base, ls) && ls[0] == p && ls[|ls| - 1] == q && reversed == (|ls| % 2 == 0)
  }

  ghost predicate Linked(base: set<Fact>, p: string, q: string, reversed: bool) {
    exists ls :: LinkedBy(base, ls, p, q, reversed)
  }

  function Oriented(a: NodeId, q: string, b: NodeId, reversed: bool): Fact {
    if reversed then Ed(b, q, a) else Ed(a, q, b)
  }

  // Some asserted edge is seen as one labelled `p` from `a` to `b`.
  ghost predicate Seen(base: set<Fact>, a: NodeId, p: string, b: NodeId) {
    exists q, reversed :: Linked(base, p, q, reversed) && Oriented(a, q, b, reversed) in base
  }

  // The label, or one it is linked to, is transitive.
  ghost predicate Composes(base: set<Fact>, p: string) {
    exists q, reversed :: Linked(base, p, q, reversed) && Ax(Transitive(q)) in base
  }

  ghost predicate SeenWalk(base: set<Fact>, ns: seq<NodeId>, a: NodeId, p: string, b: NodeId) {
    && |ns| >= 2 && ns[0] == a && ns[|ns| - 1] == b
    && forall i | 0 <= i < |ns| - 1 :: Seen(base, ns[i], p, ns[i + 1])
  }

  ghost predicate Joined(base: set<Fact>, a: NodeId, p: string, b: NodeId) {
    exists ns :: SeenWalk(base, ns, a, p, b)
  }

  ghost predicate Meant(base: set<Fact>, a: NodeId, p: string, b: NodeId) {
    Seen(base, a, p, b) || (Composes(base, p) && a != b && Joined(base, a, p, b))
  }

  // ----- Nothing else is derived -----

  lemma LinkedSelf(base: set<Fact>, p: string)
    ensures Linked(base, p, p, false)
  {
    assert LinkedBy(base, [p], p, p, false);
  }

  lemma LinkedMore(base: set<Fact>, p: string, q: string, r: string, reversed: bool)
    requires Turn(base, p, q) && Linked(base, q, r, reversed)
    ensures Linked(base, p, r, !reversed)
  {
    var ls :| LinkedBy(base, ls, q, r, reversed);
    var more := [p] + ls;
    forall i | 0 <= i < |more| - 1 ensures Turn(base, more[i], more[i + 1]) {
      assert i > 0 ==> more[i] == ls[i - 1] && more[i + 1] == ls[i];
    }
    assert LinkedBy(base, more, p, r, !reversed);
  }

  lemma SeenTurns(base: set<Fact>, a: NodeId, p: string, q: string, b: NodeId)
    requires Turn(base, p, q) && Seen(base, b, q, a)
    ensures Seen(base, a, p, b)
  {
    hide Turn, Linked;
    var r, reversed :| Linked(base, q, r, reversed) && Oriented(b, r, a, reversed) in base;
    LinkedMore(base, p, q, r, reversed);
    assert Oriented(a, r, b, !reversed) == Oriented(b, r, a, reversed);
  }

  lemma JoinedTurns(base: set<Fact>, a: NodeId, p: string, q: string, b: NodeId)
    requires Turn(base, p, q) && Joined(base, b, q, a)
    ensures Joined(base, a, p, b)
  {
    hide Turn, Seen;
    var ns :| SeenWalk(base, ns, b, q, a);
    var back := seq(|ns|, i requires 0 <= i < |ns| => ns[|ns| - 1 - i]);
    forall i | 0 <= i < |back| - 1 ensures Seen(base, back[i], p, back[i + 1]) {
      var j := |ns| - 2 - i;
      assert Seen(base, ns[j], q, ns[j + 1]);
      SeenTurns(base, ns[j + 1], p, q, ns[j]);
    }
    assert SeenWalk(base, back, a, p, b);
  }

  lemma MeantTurns(base: set<Fact>, a: NodeId, p: string, q: string, b: NodeId)
    requires Turn(base, p, q) && Meant(base, b, q, a)
    ensures Meant(base, a, p, b)
  {
    hide Turn, Linked, Joined, Seen;
    if Seen(base, b, q, a) {
      SeenTurns(base, a, p, q, b);
    } else {
      var r, reversed :| Linked(base, q, r, reversed) && Ax(Transitive(r)) in base;
      LinkedMore(base, p, q, r, reversed);
      JoinedTurns(base, a, p, q, b);
    }
  }

  lemma SeenJoins(base: set<Fact>, a: NodeId, p: string, b: NodeId)
    requires Meant(base, a, p, b)
    ensures Joined(base, a, p, b)
  {
    hide Seen;
    if Seen(base, a, p, b) {
      assert SeenWalk(base, [a, b], a, p, b);
    }
  }

  lemma JoinedTransitive(base: set<Fact>, a: NodeId, p: string, b: NodeId, d: NodeId)
    requires Joined(base, a, p, b) && Joined(base, b, p, d)
    ensures Joined(base, a, p, d)
  {
    hide Seen;
    var ns :| SeenWalk(base, ns, a, p, b);
    var ms :| SeenWalk(base, ms, b, p, d);
    var all := ns + ms[1..];
    forall i | 0 <= i < |all| - 1 ensures Seen(base, all[i], p, all[i + 1]) {
      assert i >= |ns| - 1 ==> all[i] == ms[i - |ns| + 1] && all[i + 1] == ms[i - |ns| + 2];
    }
    assert SeenWalk(base, all, a, p, d);
  }

  // What the closure may hold: edges that are meant, pairs asserted one way round, and otherwise only
  // asserted axioms; subclasses are left to their own account.
  ghost predicate Warranted(base: set<Fact>, f: Fact) {
    match f
    case Ed(a, p, b) => Meant(base, a, p, b)
    case Ax(k) =>
      match k
      case SubClassOf(_, _) => true
      case EquivalentClass(x, y) => Ax(EquivalentClass(x, y)) in base || Ax(EquivalentClass(y, x)) in base
      case InverseOf(x, y) => Ax(InverseOf(x, y)) in base || Ax(InverseOf(y, x)) in base
      case _ => Ax(k) in base
  }

  lemma BaseWarranted(base: set<Fact>, f: Fact)
    requires f in base
    ensures Warranted(base, f)
  {
    hide Linked;
    if f.Ed? {
      LinkedSelf(base, f.relation);
      assert Oriented(f.source, f.relation, f.target, false) in base;
    }
  }

  lemma DerivedWarranted(base: set<Fact>, r: Rule, fs: set<Fact>, f: Fact)
    requires Derives(r, fs, f) && forall g | g in fs :: Warranted(base, g)
    ensures Warranted(base, f)
  {
    hide Meant, Linked;
    match r {
      case PropertySymmetry =>
        assert Warranted(base, Ax(Symmetric(f.relation))) && Warranted(base, Ed(f.target, f.relation, f.source));
        MeantTurns(base, f.source, f.relation, f.relation, f.target);
      case PropertyTransitivity =>
        var b :| EdgeHop(fs, f.source, f.relation, b, f.target);
        assert Warranted(base, Ed(f.source, f.relation, b)) && Warranted(base, Ed(b, f.relation, f.target));
        assert Warranted(base, Ax(Transitive(f.relation)));
        WalkedMeant(base, f.source, f.relation, b, f.target);
      case InverseOfMaterializes =>
        var p :| InverseHop(fs, p, f.target, f.relation, f.source);
        assert Warranted(base, Ed(f.target, p, f.source));
        assert Warranted(base, if Ax(InverseOf(p, f.relation)) in fs then Ax(InverseOf(p, f.relation))
                               else Ax(InverseOf(f.relation, p)));
        MeantTurns(base, f.source, f.relation, p, f.target);
      case EquivalentSymmetry =>
        assert Warranted(base, Ax(EquivalentClass(f.kind.right, f.kind.left)));
      case InverseOfSymmetry =>
        assert Warranted(base, Ax(InverseOf(f.kind.right, f.kind.left)));
      case _ =>
    }
  }

  lemma WalkedMeant(base: set<Fact>, a: NodeId, p: string, b: NodeId, d: NodeId)
    requires Ax(Transitive(p)) in base && a != d && Meant(base, a, p, b) && Meant(base, b, p, d)
    ensures Meant(base, a, p, d)
  {
    hide Linked, Joined, Seen;
    LinkedSelf(base, p);
    SeenJoins(base, a, p, b);
    SeenJoins(base, b, p, d);
    JoinedTransitive(base, a, p, b, d);
  }

  lemma ClosureWarranted(rs: seq<Rule>, base: set<Fact>, f: Fact)
    requires f in Closure(rs, base)
    ensures Warranted(base, f)
  {
    hide Closure, Derives, Warranted;
    var c := Closure(rs, base);
    ClosureIsLeast(rs, base);
    var good := set g | g in c && Warranted(base, g);
    forall g | g in base ensures g in good {
      BaseWarranted(base, g);
    }
    forall r, g | r in rs && Derives(r, good, g) ensures g in good {
      DerivedWarranted(base, r, good, g);
      DerivesMonotone(r, good, c, g);
      assert ClosedUnder(r, c);
    }
    assert Closed(rs, good);
  }

  // ----- Everything of it is derived -----

  // The rules for edges.
  predicate EdgeRules(rs: seq<Rule>) {
    PropertySymmetry in rs && PropertyTransitivity in rs && InverseOfMaterializes in rs
  }

  lemma TurnInClosure(rs: seq<Rule>, base: set<Fact>, a: NodeId, p: string, q: string, b: NodeId)
    requires EdgeRules(rs) && Turn(base, p, q)
    ensures Ed(a, p, b) in Closure(rs, base) <==> Ed(b, q, a) in Closure(rs, base)
  {
    hide Closure;
    if p == q && Ax(Symmetric(p)) in base {
      SymmetricEdges(rs, base, a, p, b);
    } else {
      InverseLabels(rs, base, a, p, q, b);
    }
  }

  lemma {:induction false} LinkInClosure(rs: seq<Rule>, base: set<Fact>, ls: seq<string>, a: NodeId, p: string,
                                         q: string, b: NodeId, reversed: bool)
    requires EdgeRules(rs) && LinkedBy(base, ls, p, q, reversed)
    ensures Ed(a, p, b) in Closure(rs, base) <==> Oriented(a, q, b, reversed) in Closure(rs, base)
    decreases |ls|
  {
    hide Closure, Turn;
    if |ls| > 1 {
      var rest := ls[1..];
      assert forall i | 0 <= i < |rest| :: rest[i] == ls[i + 1];
      assert Turn(base, ls[0], ls[0 + 1]);
      TurnInClosure(rs, base, a, p, ls[1], b);
      LinkInClosure(rs, base, rest, b, ls[1], q, a, !reversed);
    }
  }

  lemma SeenInClosure(rs: seq<Rule>, base: set<Fact>, a: NodeId, p: string, b: NodeId)
    requires EdgeRules(rs) && Seen(base, a, p, b)
    ensures Ed(a, p, b) in Closure(rs, base)
  {
    hide Closure, LinkedBy;
    ClosureIsLeast(rs, base);
    var q, reversed :| Linked(base, p, q, reversed) && Oriented(a, q, b, reversed) in base;
    var ls :| LinkedBy(base, ls, p, q, reversed);
    LinkInClosure(rs, base, ls, a, p, q, b, reversed);
  }

  lemma ComposedInClosure(rs: seq<Rule>, base: set<Fact>, a: NodeId, p: string, b: NodeId, d: NodeId)
    requires EdgeRules(rs) && Composes(base, p) && a != d
    requires Ed(a, p, b) in Closure(rs, base) && Ed(b, p, d) in Closure(rs, base)
    ensures Ed(a, p, d) in Closure(rs, base)
  {
    hide Closure, LinkedBy;
    var q, reversed :| Linked(base, p, q, reversed) && Ax(Transitive(q)) in base;
    var ls :| LinkedBy(base, ls, p, q, reversed);
    LinkInClosure(rs, base, ls, a, p, q, b, reversed);
    LinkInClosure(rs, base, ls, b, p, q, d, reversed);
    LinkInClosure(rs, base, ls, a, p, q, d, reversed);
    if reversed {
      TransitiveEdges(rs, base, d, q, b, a);
    } else {
      TransitiveEdges(rs, base, a, q, b, d);
    }
  }

  lemma {:induction false} WalkInClosure(rs: seq<Rule>, base: set<Fact>, ns: seq<NodeId>, a: NodeId, p: string,
                                         b: NodeId)
    requires EdgeRules(rs) && Composes(base, p) && a != b && SeenWalk(base, ns, a, p, b)
    ensures Ed(a, p, b) in Closure(rs, base)
    decreases |ns|
  {
    hide Closure, Composes, Seen;
    var n := ns[1];
    assert Seen(base, ns[0], p, ns[0 + 1]);
    SeenInClosure(rs, base, a, p, n);
    if n != b {
      var rest := ns[1..];
      assert forall i | 0 <= i < |rest| :: rest[i] == ns[i + 1];
      assert SeenWalk(base, rest, n, p, b);
      WalkInClosure(rs, base, rest, n, p, b);
      ComposedInClosure(rs, base, a, p, n, b);
    }
  }

  // The derived edges are exactly those meant: asserted edges seen through symmetric and inverse labels
  // and, where the label composes, the ends of walks over them that differ.
  lemma EdgesExactly(rs: seq<Rule>, base: set<Fact>, a: NodeId, p: string, b: NodeId)
    requires EdgeRules(rs)
    ensures Ed(a, p, b) in Closure(rs, base) <==> Meant(base, a, p, b)
  {
    hide Closure, Seen, Composes;
    if Ed(a, p, b) in Closure(rs, base) {
      ClosureWarranted(rs, base, Ed(a, p, b));
    }
    if Meant(base, a, p, b) {
      if Seen(base, a, p, b) {
        SeenInClosure(rs, base, a, p, b);
      } else {
        var ns :| SeenWalk(base, ns, a, p, b);
        WalkInClosure(rs, base, ns, a, p, b);
      }
    }
  }

  // ----- What that means for single labels -----

  // No axiom turns the label.
  ghost predicate Unturned(base: set<Fact>, p: string) {
    forall q :: !Turn(base, p, q)
  }

  lemma FirstTurn(base: set<Fact>, ls: seq<string>)
    requires Turns(base, ls)
    ensures ls != [] && (|ls| > 1 ==> Turn(base, ls[0], ls[1]))
  {
    hide Turn;
    assert |ls| > 1 ==> Turn(base, ls[0], ls[0 + 1]);
  }

  lemma UnturnedLinks(base: set<Fact>, p: string, q: string, reversed: bool)
    requires Unturned(base, p) && Linked(base, p, q, reversed)
    ensures q == p && !reversed
  {
    hide Turn, Turns;
    var ls :| LinkedBy(base, ls, p, q, reversed);
    FirstTurn(base, ls);
  }

  lemma UnturnedSeen(base: set<Fact>, p: string)
    requires Unturned(base, p)
    ensures forall a, b :: Seen(base, a, p, b) <==> Ed(a, p, b) in base
    ensures Composes(base, p) <==> Ax(Transitive(p)) in base
  {
    hide Linked, Unturned;
    LinkedSelf(base, p);
    forall q, reversed | Linked(base, p, q, reversed) ensures q == p && !reversed {
      UnturnedLinks(base, p, q, reversed);
    }
    forall a, b ensures Seen(base, a, p, b) <==> Ed(a, p, b) in base {
      if Ed(a, p, b) in base {
        assert Oriented(a, p, b, false) in base;
      }
    }
  }

  // A label without axioms keeps exactly its asserted edges.
  lemma PlainLabel(rs: seq<Rule>, base: set<Fact>, a: NodeId, p: string, b: NodeId)
    requires EdgeRules(rs) && Unturned(base, p) && Ax(Transitive(p)) !in base
    ensures Ed(a, p, b) in Closure(rs, base) <==> Ed(a, p, b) in base
  {
    hide Closure, Seen, Composes, Joined, Unturned;
    EdgesExactly(rs, base, a, p, b);
    UnturnedSeen(base, p);
  }

  ghost predicate EdgeWalk(base: set<Fact>, ns: seq<NodeId>, a: NodeId, p: string, b: NodeId) {
    && |ns| >= 2 && ns[0] == a && ns[|ns| - 1] == b
    && forall i | 0 <= i < |ns| - 1 :: Ed(ns[i], p, ns[i + 1]) in base
  }

  // A label that is only transitive joins different nodes exactly along asserted edges, and a node to
  // itself only by an asserted edge.
  lemma TransitiveLabel(rs: seq<Rule>, base: set<Fact>, a: NodeId, p: string, b: NodeId)
    requires EdgeRules(rs) && Unturned(base, p) && Ax(Transitive(p)) in base
    ensures Ed(a, p, b) in Closure(rs, base)
            <==> if a == b then Ed(a, p, b) in base else exists ns :: EdgeWalk(base, ns, a, p, b)
  {
    hide Closure, Seen, Composes, Unturned;
    EdgesExactly(rs, base, a, p, b);
    UnturnedSeen(base, p);
    forall ns ensures EdgeWalk(base, ns, a, p, b) <==> SeenWalk(base, ns, a, p, b) {
    }
    if Ed(a, p, b) in base {
      assert EdgeWalk(base, [a, b], a, p, b);
    }
  }

  // ----- The other axioms -----

  // Equivalences and inverse declarations hold both ways round, and no axiom of another kind, subclasses
  // apart, is ever derived.
  lemma AxiomsExactly(rs: seq<Rule>, base: set<Fact>, k: AxiomKind)
    requires EquivalentSymmetry in rs && InverseOfSymmetry in rs && !k.SubClassOf?
    ensures Ax(k) in Closure(rs, base)
            <==> || Ax(k) in base
                 || (k.EquivalentClass? && Ax(EquivalentClass(k.right, k.left)) in base)
                 || (k.InverseOf? && Ax(InverseOf(k.right, k.left)) in base)
  {
    hide Closure;
    var c := Closure(rs, base);
    ClosureIsLeast(rs, base);
    if Ax(k) in c {
      ClosureWarranted(rs, base, Ax(k));
    }
    assert ClosedUnder(EquivalentSymmetry, c) && ClosedUnder(InverseOfSymmetry, c);
    if k.EquivalentClass? && Ax(EquivalentClass(k.right, k.left)) in base {
      assert Derives(EquivalentSymmetry, c, Ax(k));
    }
    if k.InverseOf? && Ax(InverseOf(k.right, k.left)) in base {
      assert Derives(InverseOfSymmetry, c, Ax(k));
    }
  }

  // The standard rules are all seven, so everything said here of the rules present is said of them.
  lemma StandardRules(r: Rule)
    ensures r in STANDARD_RULES && EdgeRules(STANDARD_RULES)
    ensures EquivalentSymmetry in STANDARD_RULES && InverseOfSymmetry in STANDARD_RULES
  {
    match r {
      case SubClassTransitivity => assert STANDARD_RULES[0] == r;
      case EquivalentSymmetry => assert STANDARD_RULES[1] == r;
      case EquivalentToSubClass => assert STANDARD_RULES[2] == r;
      case InverseOfSymmetry => assert STANDARD_RULES[3] == r;
      case PropertySymmetry => assert STANDARD_RULES[4] == r;
      case PropertyTransitivity => assert STANDARD_RULES[5] == r;
      case InverseOfMaterializes => assert STANDARD_RULES[6] == r;
    }
  }
}
