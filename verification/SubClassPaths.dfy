// What the subclass rules compute: reachability, and how fast the passes reach it.

module SubClassPaths {
  import opened Collections
  import opened Core
  import opened FactBase
  import opened Deduction

  // One asserted step from a class to a class above it.
  ghost predicate Link(base: set<Fact>, a: string, b: string) {
    Ax(SubClassOf(a, b)) in base || Ax(EquivalentClass(a, b)) in base || Ax(EquivalentClass(b, a)) in base
  }

  ghost predicate Walk(base: set<Fact>, p: seq<string>, a: string, c: string) {
    && |p| >= 2 && p[0] == a && p[|p| - 1] == c
    && forall i | 0 <= i < |p| - 1 :: Link(base, p[i], p[i + 1])
  }

  ghost predicate Reaches(base: set<Fact>, a: string, c: string) {
    exists p :: Walk(base, p, a, c)
  }

  lemma ReachesTransitive(base: set<Fact>, a: string, b: string, c: string)
    requires Reaches(base, a, b) && Reaches(base, b, c)
    ensures Reaches(base, a, c)
  {
    var p :| Walk(base, p, a, b);
    var q :| Walk(base, q, b, c);
    var w := p + q[1..];
    forall i | 0 <= i < |w| - 1 ensures Link(base, w[i], w[i + 1]) {
      assert i >= |p| - 1 ==> w[i] == q[i - |p| + 1] && w[i + 1] == q[i - |p| + 2];
    }
    assert Walk(base, w, a, c);
  }

  lemma LinkReaches(base: set<Fact>, a: string, b: string)
    requires Link(base, a, b)
    ensures Reaches(base, a, b)
  {
    assert Walk(base, [a, b], a, b);
  }

  // Facts that the asserted links explain.
  ghost predicate Explained(base: set<Fact>, f: Fact) {
    && (f.Ax? && f.kind.SubClassOf? ==> Reaches(base, f.kind.sub, f.kind.sup))
    && (f.Ax? && f.kind.EquivalentClass? ==>
          Link(base, f.kind.left, f.kind.right) && Link(base, f.kind.right, f.kind.left))
  }

  lemma DerivedExplained(base: set<Fact>, r: Rule, fs: set<Fact>, f: Fact)
    requires Derives(r, fs, f) && forall g | g in fs :: Explained(base, g)
    ensures Explained(base, f)
  {
    hide Reaches;
    match r {
      case SubClassTransitivity =>
        var b :| SubHop(fs, f.kind.sub, b, f.kind.sup);
        assert Explained(base, Ax(SubClassOf(f.kind.sub, b))) && Explained(base, Ax(SubClassOf(b, f.kind.sup)));
        ReachesTransitive(base, f.kind.sub, b, f.kind.sup);
      case EquivalentToSubClass =>
        var g := if Ax(EquivalentClass(f.kind.sub, f.kind.sup)) in fs then Ax(EquivalentClass(f.kind.sub, f.kind.sup))
                 else Ax(EquivalentClass(f.kind.sup, f.kind.sub));
        assert Explained(base, g);
        LinkReaches(base, f.kind.sub, f.kind.sup);
      case EquivalentSymmetry =>
        assert Explained(base, Ax(EquivalentClass(f.kind.right, f.kind.left)));
      case _ =>
    }
  }

  lemma ClosureExplained(rs: seq<Rule>, base: set<Fact>, f: Fact)
    requires f in Closure(rs, base)
    ensures Explained(base, f)
  {
    hide Closure, Derives, Explained;
    var c := Closure(rs, base);
    ClosureIsLeast(rs, base);
    var good := set g | g in c && Explained(base, g);
    forall g | g in base ensures g in good {
      BaseExplained(base, g);
    }
    forall r, g | r in rs && Derives(r, good, g) ensures g in good {
      DerivedExplained(base, r, good, g);
      DerivesMonotone(r, good, c, g);
      assert ClosedUnder(r, c);
    }
    assert Closed(rs, good);
  }

  lemma BaseExplained(base: set<Fact>, f: Fact)
    requires f in base
    ensures Explained(base, f)
  {
    if f.Ax? && f.kind.SubClassOf? {
      LinkReaches(base, f.kind.sub, f.kind.sup);
    }
  }

  lemma LinkInClosure(rs: seq<Rule>, base: set<Fact>, a: string, b: string)
    requires EquivalentToSubClass in rs && Link(base, a, b)
    ensures Ax(SubClassOf(a, b)) in Closure(rs, base)
  {
    hide Closure;
    var c := Closure(rs, base);
    ClosureIsLeast(rs, base);
    assert ClosedUnder(EquivalentToSubClass, c);
    if Ax(SubClassOf(a, b)) !in base {
      assert Derives(EquivalentToSubClass, c, Ax(SubClassOf(a, b)));
    }
  }

  lemma {:induction false} WalkInClosure(rs: seq<Rule>, base: set<Fact>, p: seq<string>, a: string, c: string)
    requires SubClassTransitivity in rs && EquivalentToSubClass in rs
    requires Walk(base, p, a, c) && a != c
    ensures Ax(SubClassOf(a, c)) in Closure(rs, base)
    decreases |p|
  {
    hide Closure, Link;
    var s := Closure(rs, base);
    ClosureIsLeast(rs, base);
    var b := p[1];
    LinkInClosure(rs, base, a, b);
    if b != c {
      var q := p[1..];
      assert forall i | 0 <= i < |q| :: q[i] == p[i + 1];
      assert Walk(base, q, b, c);
      WalkInClosure(rs, base, q, b, c);
      assert SubHop(s, a, b, c);
      assert ClosedUnder(SubClassTransitivity, s);
      assert Derives(SubClassTransitivity, s, Ax(SubClassOf(a, c)));
    }
  }

  // Between distinct classes, the closure's subclass relation is reachability over asserted
  // subclass and equivalence links.
  lemma SubClassIsReachability(rs: seq<Rule>, base: set<Fact>, a: string, c: string)
    requires SubClassTransitivity in rs && EquivalentToSubClass in rs && a != c
    ensures Ax(SubClassOf(a, c)) in Closure(rs, base) <==> Reaches(base, a, c)
  {
    hide Closure;
    if Ax(SubClassOf(a, c)) in Closure(rs, base) {
      ClosureExplained(rs, base, Ax(SubClassOf(a, c)));
    }
    if Reaches(base, a, c) {
      var p :| Walk(base, p, a, c);
      WalkInClosure(rs, base, p, a, c);
    }
  }

  // A reflexive conclusion is never drawn by transitivity: a ⊑ a is in the closure only when it is
  // asserted, or some equivalence relates a to itself.
  lemma ReflexiveOnlyAsserted(rs: seq<Rule>, base: set<Fact>, a: string)
    requires EquivalentToSubClass in rs
    ensures Ax(SubClassOf(a, a)) in Closure(rs, base) <==> Link(base, a, a)
  {
    hide Closure, Walk;
    var c := Closure(rs, base);
    var f := Ax(SubClassOf(a, a));
    ClosureIsLeast(rs, base);
    if Link(base, a, a) {
      LinkInClosure(rs, base, a, a);
    } else {
      var without := c - {f};
      forall r, g | r in rs && Derives(r, without, g) ensures g in without {
        DerivesMonotone(r, without, c, g);
        assert ClosedUnder(r, c);
        if g == f {
          assert Ax(EquivalentClass(a, a)) in c;
          ClosureExplained(rs, base, Ax(EquivalentClass(a, a)));
        }
      }
      assert Closed(rs, without);
    }
  }

  // ----- Path doubling -----

  ghost function Pow2(k: nat): nat {
    if k == 0 then 1 else 2 * Pow2(k - 1)
  }

  // Walks over asserted subclass axioms alone.
  ghost predicate SubWalk(base: set<Fact>, p: seq<string>) {
    && |p| >= 2
    && forall i | 0 <= i < |p| - 1 :: Ax(SubClassOf(p[i], p[i + 1])) in base
  }

  // Whatever a rule of the list concludes before the pass is there after it.
  lemma {:induction false} PassDerives(u: set<Fact>, base: set<Fact>, rs: seq<Rule>, fs: set<Fact>, r: Rule, f: Fact)
    requires Ample(u, base) && fs <= base + u && r in rs && Derives(r, fs, f)
    ensures f in Pass(u, rs, fs)
  {
    hide Derives;
    var first, last := rs[..|rs| - 1], rs[|rs| - 1];
    PassGrows(u, first, fs);
    if r == last {
      DerivesMonotone(r, fs, Pass(u, first, fs), f);
    } else {
      PassDerives(u, base, first, fs, r, f);
    }
  }

  // After k passes every walk of length at most 2^k is a direct fact.
  lemma {:induction false} PathDoubling(u: set<Fact>, rs: seq<Rule>, base: set<Fact>, p: seq<string>, k: nat)
    requires Ample(u, base) && SubClassTransitivity in rs
    requires SubWalk(base, p) && |p| - 1 <= Pow2(k) && p[0] != p[|p| - 1]
    ensures Ax(SubClassOf(p[0], p[|p| - 1])) in Passes(u, rs, base, k)
    decreases k
  {
    hide Pass, Ample;
    PassesGrow(u, rs, base, 0, k);
    if k > 0 && |p| > 2 {
      var now := Passes(u, rs, base, k - 1);
      PassesGrow(u, rs, base, k - 1, k);
      var m := (|p| - 1) / 2;
      var l, r := p[..m + 1], p[m..];
      assert SubWalk(base, l) && SubWalk(base, r) by {
        assert forall i | 0 <= i < |l| :: l[i] == p[i];
        assert forall i | 0 <= i < |r| :: r[i] == p[m + i];
      }
      var a, b, c := p[0], p[m], p[|p| - 1];
      if b != a {
        PathDoubling(u, rs, base, l, k - 1);
      }
      if b != c {
        PathDoubling(u, rs, base, r, k - 1);
      }
      if b != a && b != c {
        assert SubHop(now, a, b, c);
        PassDerives(u, base, rs, now, SubClassTransitivity, Ax(SubClassOf(a, c)));
      }
    }
  }

  // ----- Convergence on subclass axioms alone -----

  // Nothing but subclass axioms can set a rule off.
  ghost predicate SubClassOnly(fs: set<Fact>) {
    forall f | f in fs && f.Ax? ::
      !f.kind.EquivalentClass? && !f.kind.InverseOf? && !f.kind.Symmetric? && !f.kind.Transitive?
  }

  ghost function ClassNames(base: set<Fact>): set<string> {
    (set f | f in base && f.Ax? && f.kind.SubClassOf? :: f.kind.sub)
    + (set f | f in base && f.Ax? && f.kind.SubClassOf? :: f.kind.sup)
  }

  lemma FitsCard(p: seq<string>, names: set<string>)
    requires NoRepeats(p) && forall i | 0 <= i < |p| :: p[i] in names
    ensures |p| <= |names|
  {
    ElementsCard(p);
    SubsetCard(Elements(p), names);
  }

  // Cutting out loops.
  lemma {:induction false} Shorten(base: set<Fact>, p: seq<string>) returns (q: seq<string>)
    requires SubWalk(base, p) && p[0] != p[|p| - 1]
    ensures SubWalk(base, q) && NoRepeats(q) && q[0] == p[0] && q[|q| - 1] == p[|p| - 1]
    decreases |p|
  {
    if i, j :| 0 <= i < j < |p| && p[i] == p[j] {
      var w := p[..i] + p[j..];
      assert forall k | 0 <= k < |w| - 1 ::
          (k < i - 1 ==> w[k] == p[k] && w[k + 1] == p[k + 1])
          && (k == i - 1 ==> w[k] == p[k] && w[k + 1] == p[k + 1])
          && (k >= i ==> w[k] == p[j - i + k] && w[k + 1] == p[j - i + k + 1]);
      assert w[0] == p[0] && w[|w| - 1] == p[|p| - 1];
      q := Shorten(base, w);
    } else {
      q := p;
    }
  }

  lemma WalkNames(base: set<Fact>, p: seq<string>)
    requires SubWalk(base, p)
    ensures forall i | 0 <= i < |p| :: p[i] in ClassNames(base)
  {
    forall i | 0 <= i < |p| ensures p[i] in ClassNames(base) {
      var j := if i < |p| - 1 then i else i - 1;
      var f := Ax(SubClassOf(p[j], p[j + 1]));
      assert f in base && f.kind.sub == p[j] && f.kind.sup == p[j + 1];
    }
  }

  // A walk over links of a subclass-only base uses subclass axioms only.
  lemma ReachableDirectly(u: set<Fact>, rs: seq<Rule>, base: set<Fact>, a: string, c: string, k: nat)
    requires Ample(u, base) && SubClassTransitivity in rs
    requires SubClassOnly(base) && Reaches(base, a, c) && a != c && |ClassNames(base)| - 1 <= Pow2(k)
    ensures Ax(SubClassOf(a, c)) in Passes(u, rs, base, k)
  {
    hide Passes, Ample, ClassNames, Pow2;
    var p :| Walk(base, p, a, c);
    assert SubWalk(base, p);
    var q := Shorten(base, p);
    WalkNames(base, q);
    FitsCard(q, ClassNames(base));
    PathDoubling(u, rs, base, q, k);
  }

  lemma InertRules(r: Rule, fs: set<Fact>, f: Fact)
    requires SubClassOnly(fs) && Derives(r, fs, f)
    ensures r == SubClassTransitivity
  {
  }

  lemma PassesSubClassOnly(u: set<Fact>, rs: seq<Rule>, base: set<Fact>, k: nat)
    requires SubClassOnly(base) && Ample(u, base)
    ensures SubClassOnly(Passes(u, rs, base, k))
  {
    hide Passes, Ample;
    var all := base + u;
    var ok := set f | f in all
                      && (f.Ax? ==> !f.kind.EquivalentClass? && !f.kind.InverseOf?
                                    && !f.kind.Symmetric? && !f.kind.Transitive?);
    forall r, f | r in rs && Derives(r, ok, f) ensures f in ok {
      InertRules(r, ok, f);
      assert f in u by {
        AmpleApply(u, base, r, ok, f);
      }
    }
    assert Closed(rs, ok);
    PassesStayIn(u, rs, base, k, ok);
  }

  lemma AmpleApply(u: set<Fact>, base: set<Fact>, r: Rule, fs: set<Fact>, f: Fact)
    requires Ample(u, base) && fs <= base + u && Derives(r, fs, f)
    ensures f in u
  {
    hide Derives;
  }

  // With n classes, ceil(log2(max(1, n - 1))) passes suffice and one more notices it.
  lemma ConvergesLogarithmically(rs: seq<Rule>, base: set<Fact>, k: nat)
    requires SubClassTransitivity in rs && SubClassOnly(base) && |ClassNames(base)| - 1 <= Pow2(k)
    ensures Passes(UniverseOf(base), rs, base, k) == Closure(rs, base)
    ensures FixedAt(UniverseOf(base), rs, base, k + 1)
  {
    hide UniverseOf, Pass, Ample, ClassNames, Pow2, Derives, SubClassOnly;
    var u := UniverseOf(base);
    UniverseAmple(base);
    var now := Passes(u, rs, base, k);
    PassesGrow(u, rs, base, 0, k);
    PassesGrow(u, rs, base, k, k);
    PassesSubClassOnly(u, rs, base, k);
    var c := Closure(rs, base);
    ClosureIsLeast(rs, base);
    PassesStayIn(u, rs, base, k, c);
    forall r, f | r in rs && Derives(r, now, f) ensures f in now {
      InertRules(r, now, f);
      DerivesMonotone(r, now, c, f);
      assert ClosedUnder(r, c);
      ClosureExplained(rs, base, f);
      SubClassConclusion(now, f);
      ReachableDirectly(u, rs, base, f.kind.sub, f.kind.sup, k);
    }
    ClosedPassFixed(u, base, rs, now);
  }

  lemma SubClassConclusion(fs: set<Fact>, f: Fact)
    requires Derives(SubClassTransitivity, fs, f)
    ensures f.Ax? && f.kind.SubClassOf? && f.kind.sub != f.kind.sup
  {
  }

  ghost function CeilLog2(n: nat): nat {
    if n <= 1 then 0 else 1 + CeilLog2((n + 1) / 2)
  }

  lemma {:induction false} CeilLog2Spec(n: nat)
    ensures n <= Pow2(CeilLog2(n))
    ensures forall k | 0 <= k < CeilLog2(n) :: Pow2(k) < n
  {
    if n > 1 {
      CeilLog2Spec((n + 1) / 2);
      forall k | 0 <= k < CeilLog2(n) ensures Pow2(k) < n {
        if k > 0 {
          assert Pow2(k - 1) < (n + 1) / 2;
        }
      }
    }
  }

  // The pass count of a run over subclass axioms.
  lemma PassBound(rs: seq<Rule>, base: set<Fact>, n: nat, k: nat)
    requires SubClassTransitivity in rs && SubClassOnly(base) && n == |ClassNames(base)|
    requires FirstFixed(UniverseOf(base), rs, base, k)
    ensures k <= CeilLog2(if n <= 1 then 1 else n - 1) + 1
  {
    hide UniverseOf, FixedAt, SubClassOnly, ClassNames, Pow2, CeilLog2;
    var m := if n <= 1 then 1 else n - 1;
    CeilLog2Spec(m);
    ConvergesLogarithmically(rs, base, CeilLog2(m));
  }

  const DEFAULT_MAX_ITERATIONS: nat := 100

  // The default cap of 100 passes is enough for any such ontology with at most 2^99 + 1 classes.
  lemma DefaultCapSuffices(rs: seq<Rule>, base: set<Fact>)
    requires SubClassTransitivity in rs && SubClassOnly(base) && |ClassNames(base)| - 1 <= Pow2(99)
    ensures FixedAt(UniverseOf(base), rs, base, DEFAULT_MAX_ITERATIONS)
  {
    hide UniverseOf, FixedAt, SubClassOnly, ClassNames, Pow2;
    ConvergesLogarithmically(rs, base, 99);
  }
}
