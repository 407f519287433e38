// Deductive closure of a fact set under a rule list: the meaning of a reasoning run.

module Deduction {
  import opened Collections
  import opened Core
  import opened FactBase

  // ----- Vocabulary of a fact set, and the finite universe of facts over it -----

  ghost function NamesOf(f: Fact): set<string> {
    match f
    case Ed(_, p, _) => {p}
    case Ax(SubClassOf(a, b)) => {a, b}
    case Ax(EquivalentClass(a, b)) => {a, b}
    case Ax(DisjointWith(a, b)) => {a, b}
    case Ax(Domain(p, c)) => {p, c}
    case Ax(Range(p, c)) => {p, c}
    case Ax(InverseOf(p, q)) => {p, q}
    case Ax(Functional(p)) => {p}
    case Ax(InverseFunctional(p)) => {p}
    case Ax(Symmetric(p)) => {p}
    case Ax(Transitive(p)) => {p}
  }

  ghost function EndsOf(f: Fact): set<NodeId> {
    if f.Ed? then {f.source, f.target} else {}
  }

  ghost function Names(fs: set<Fact>): set<string> {
    set f, n | f in fs && n in NamesOf(f) :: n
  }

  ghost function Ends(fs: set<Fact>): set<NodeId> {
    set f, n | f in fs && n in EndsOf(f) :: n
  }

  // Every fact of the derivable shapes over the given names and nodes.
  ghost function Universe(names: set<string>, ends: set<NodeId>): set<Fact> {
    (set a, b | a in names && b in names :: Ax(SubClassOf(a, b)))
    + (set a, b | a in names && b in names :: Ax(EquivalentClass(a, b)))
    + (set a, b | a in names && b in names :: Ax(InverseOf(a, b)))
    + (set s, p, t | s in ends && p in names && t in ends :: Ed(s, p, t))
  }

  ghost function UniverseOf(base: set<Fact>): set<Fact> {
    Universe(Names(base), Ends(base))
  }

  lemma NamesEndsMember(fs: set<Fact>, f: Fact)
    requires f in fs
    ensures NamesOf(f) <= Names(fs) && EndsOf(f) <= Ends(fs)
  {
  }

  ghost predicate OverVocabulary(names: set<string>, ends: set<NodeId>, f: Fact) {
    match f
    case Ed(s, p, t) => s in ends && p in names && t in ends
    case Ax(SubClassOf(a, b)) => a in names && b in names
    case Ax(EquivalentClass(a, b)) => a in names && b in names
    case Ax(InverseOf(a, b)) => a in names && b in names
    case _ => false
  }

  lemma UniverseSpec(names: set<string>, ends: set<NodeId>, f: Fact)
    ensures f in Universe(names, ends) <==> OverVocabulary(names, ends, f)
  {
  }

  lemma NamesOfAll(fs: set<Fact>)
    ensures forall a, b | Ax(SubClassOf(a, b)) in fs :: a in Names(fs) && b in Names(fs)
    ensures forall a, b | Ax(EquivalentClass(a, b)) in fs :: a in Names(fs) && b in Names(fs)
    ensures forall a, b | Ax(InverseOf(a, b)) in fs :: a in Names(fs) && b in Names(fs)
    ensures forall s, p, t | Ed(s, p, t) in fs :: s in Ends(fs) && p in Names(fs) && t in Ends(fs)
  {
    forall a, b | Ax(SubClassOf(a, b)) in fs ensures a in Names(fs) && b in Names(fs) {
      NamesEndsMember(fs, Ax(SubClassOf(a, b)));
    }
    forall a, b | Ax(EquivalentClass(a, b)) in fs ensures a in Names(fs) && b in Names(fs) {
      NamesEndsMember(fs, Ax(EquivalentClass(a, b)));
    }
    forall a, b | Ax(InverseOf(a, b)) in fs ensures a in Names(fs) && b in Names(fs) {
      NamesEndsMember(fs, Ax(InverseOf(a, b)));
    }
    forall s, p, t | Ed(s, p, t) in fs ensures s in Ends(fs) && p in Names(fs) && t in Ends(fs) {
      NamesEndsMember(fs, Ed(s, p, t));
    }
  }

  lemma DerivedInUniverse(r: Rule, fs: set<Fact>, f: Fact)
    requires Derives(r, fs, f)
    ensures OverVocabulary(Names(fs), Ends(fs), f)
  {
    NamesOfAll(fs);
    match r {
      case SubClassTransitivity =>
        var b :| SubHop(fs, f.kind.sub, b, f.kind.sup);
      case PropertyTransitivity =>
        var b :| EdgeHop(fs, f.source, f.relation, b, f.target);
      case InverseOfMaterializes =>
        var p :| InverseHop(fs, p, f.target, f.relation, f.source);
      case _ =>
    }
  }

  // `u` holds every conclusion that any rule can draw from facts of `base` and `u`.
  ghost predicate Ample(u: set<Fact>, base: set<Fact>) {
    forall r, fs, f | fs <= base + u && Derives(r, fs, f) :: f in u
  }

  lemma UniverseAmple(base: set<Fact>)
    ensures Ample(UniverseOf(base), base)
  {
    hide Universe, Derives;
    var names, ends, u := Names(base), Ends(base), UniverseOf(base);
    forall r, fs, f | fs <= base + u && Derives(r, fs, f) ensures f in u {
      forall g | g in fs ensures NamesOf(g) <= names && EndsOf(g) <= ends {
        UniverseSpec(names, ends, g);
      }
      assert Names(fs) <= names && Ends(fs) <= ends;
      DerivedInUniverse(r, fs, f);
      UniverseSpec(names, ends, f);
    }
  }

  // ----- Rules, passes, closedness -----

  // What rule `r` adds to `fs`, conclusions being drawn from `u`.
  ghost function Step(u: set<Fact>, r: Rule, fs: set<Fact>): set<Fact> {
    fs + set f | f in u && Derives(r, fs, f)
  }

  // One pass: the rules in order, each seeing what the earlier ones added.
  ghost function Pass(u: set<Fact>, rs: seq<Rule>, fs: set<Fact>): set<Fact> {
    if rs == [] then fs else Step(u, rs[|rs| - 1], Pass(u, rs[..|rs| - 1], fs))
  }

  ghost function Passes(u: set<Fact>, rs: seq<Rule>, base: set<Fact>, k: nat): set<Fact> {
    if k == 0 then base else Pass(u, rs, Passes(u, rs, base, k - 1))
  }

  ghost predicate ClosedUnder(r: Rule, fs: set<Fact>) {
    forall f | Derives(r, fs, f) :: f in fs
  }

  ghost predicate Closed(rs: seq<Rule>, fs: set<Fact>) {
    forall r | r in rs :: ClosedUnder(r, fs)
  }

  lemma DerivesMonotone(r: Rule, fs: set<Fact>, gs: set<Fact>, f: Fact)
    requires fs <= gs && Derives(r, fs, f)
    ensures Derives(r, gs, f)
  {
    match r {
      case SubClassTransitivity =>
        var b :| SubHop(fs, f.kind.sub, b, f.kind.sup);
        assert SubHop(gs, f.kind.sub, b, f.kind.sup);
      case PropertyTransitivity =>
        var b :| EdgeHop(fs, f.source, f.relation, b, f.target);
        assert EdgeHop(gs, f.source, f.relation, b, f.target);
      case InverseOfMaterializes =>
        var p :| InverseHop(fs, p, f.target, f.relation, f.source);
        assert InverseHop(gs, p, f.target, f.relation, f.source);
      case _ =>
    }
  }

  lemma {:induction false} PassGrows(u: set<Fact>, rs: seq<Rule>, fs: set<Fact>)
    ensures fs <= Pass(u, rs, fs) <= fs + u
  {
    hide Derives;
    if rs != [] {
      PassGrows(u, rs[..|rs| - 1], fs);
    }
  }

  lemma {:induction false} PassesGrow(u: set<Fact>, rs: seq<Rule>, base: set<Fact>, j: nat, k: nat)
    requires j <= k
    ensures Passes(u, rs, base, j) <= Passes(u, rs, base, k) <= base + u
    decreases k
  {
    hide Pass;
    if k > 0 {
      PassGrows(u, rs, Passes(u, rs, base, k - 1));
      PassesGrow(u, rs, base, if j < k then j else 0, k - 1);
    }
  }

  lemma ClosedStepFixed(u: set<Fact>, base: set<Fact>, r: Rule, fs: set<Fact>)
    requires Ample(u, base) && fs <= base + u
    ensures ClosedUnder(r, fs) <==> Step(u, r, fs) == fs
  {
    hide Derives;
  }

  // A pass adds nothing exactly when it runs over a closed set.
  lemma {:induction false} ClosedPassFixed(u: set<Fact>, base: set<Fact>, rs: seq<Rule>, fs: set<Fact>)
    requires Ample(u, base) && fs <= base + u
    ensures Closed(rs, fs) <==> Pass(u, rs, fs) == fs
  {
    hide Derives, ClosedUnder, Ample;
    if rs != [] {
      var first, last := rs[..|rs| - 1], rs[|rs| - 1];
      assert forall r :: r in rs <==> r in first || r == last;
      ClosedPassFixed(u, base, first, fs);
      PassGrows(u, first, fs);
      ClosedStepFixed(u, base, last, fs);
    }
  }

  lemma {:induction false} PassStaysIn(u: set<Fact>, rs: seq<Rule>, fs: set<Fact>, s: set<Fact>)
    requires fs <= s && Closed(rs, s)
    ensures Pass(u, rs, fs) <= s
  {
    hide Derives;
    if rs != [] {
      var first, last := rs[..|rs| - 1], rs[|rs| - 1];
      assert last in rs && forall r | r in first :: r in rs;
      PassStaysIn(u, first, fs, s);
      var mid := Pass(u, first, fs);
      forall f | f in Step(u, last, mid) ensures f in s {
        if f !in mid {
          DerivesMonotone(last, mid, s, f);
          assert ClosedUnder(last, s);
        }
      }
    }
  }

  lemma {:induction false} PassesStayIn(u: set<Fact>, rs: seq<Rule>, base: set<Fact>, k: nat, s: set<Fact>)
    requires base <= s && Closed(rs, s)
    ensures Passes(u, rs, base, k) <= s
  {
    hide Pass, Closed;
    if k > 0 {
      PassesStayIn(u, rs, base, k - 1, s);
      PassStaysIn(u, rs, Passes(u, rs, base, k - 1), s);
    }
  }

  // ----- Termination -----

  ghost predicate FixedAt(u: set<Fact>, rs: seq<Rule>, base: set<Fact>, k: nat) {
    k >= 1 && Passes(u, rs, base, k) == Passes(u, rs, base, k - 1)
  }

  ghost predicate FirstFixed(u: set<Fact>, rs: seq<Rule>, base: set<Fact>, k: nat) {
    FixedAt(u, rs, base, k) && forall j: nat | j < k :: !FixedAt(u, rs, base, j)
  }

  // Each pass that is not the last adds at least one fact.
  lemma {:induction false} UnfixedGrow(u: set<Fact>, rs: seq<Rule>, base: set<Fact>, k: nat)
    requires forall j: nat | j <= k :: !FixedAt(u, rs, base, j)
    ensures |Passes(u, rs, base, k)| >= |base| + k
  {
    hide Pass;
    if k > 0 {
      UnfixedGrow(u, rs, base, k - 1);
      PassesGrow(u, rs, base, k - 1, k);
      assert !FixedAt(u, rs, base, k);
      SubsetCard(Passes(u, rs, base, k - 1), Passes(u, rs, base, k));
    }
  }

  lemma {:induction false} FixedForever(u: set<Fact>, rs: seq<Rule>, base: set<Fact>, k: nat, m: nat)
    requires FixedAt(u, rs, base, k) && m + 1 >= k
    ensures Passes(u, rs, base, m) == Passes(u, rs, base, k)
    decreases m
  {
    hide Pass;
    if m > k {
      FixedForever(u, rs, base, k, m - 1);
    }
  }

  lemma SomeFixed(u: set<Fact>, rs: seq<Rule>, base: set<Fact>) returns (k: nat)
    ensures FixedAt(u, rs, base, k) && k <= |u - base| + 1
  {
    hide Pass;
    var bound := |u - base| + 1;
    assert base + u - base == u - base;
    if i: nat :| i <= bound && FixedAt(u, rs, base, i) {
      k := i;
    } else {
      UnfixedGrow(u, rs, base, bound);
      PassesGrow(u, rs, base, 0, bound);
      Missing(base, bound, Passes(u, rs, base, bound), base + u);
      assert false;
    }
  }

  lemma Missing(base: set<Fact>, n: nat, some: set<Fact>, all: set<Fact>)
    requires base <= some <= all && |some| >= |base| + n
    ensures |all - base| >= n
  {
    assert some == base + (some - base);
    SubsetCard(some - base, all - base);
  }

  lemma {:induction false} LeastFixed(u: set<Fact>, rs: seq<Rule>, base: set<Fact>, j: nat) returns (k: nat)
    requires FixedAt(u, rs, base, j)
    ensures FirstFixed(u, rs, base, k) && k <= j
  {
    hide FixedAt;
    if i: nat :| i < j && FixedAt(u, rs, base, i) {
      k := LeastFixed(u, rs, base, i);
    } else {
      k := j;
    }
  }

  // The closure: the passes run for as long as any run could need.
  ghost function Closure(rs: seq<Rule>, base: set<Fact>): set<Fact> {
    Passes(UniverseOf(base), rs, base, |UniverseOf(base) - base| + 1)
  }

  // Some pass adds nothing, and the first such pass comes no later than one more than the number
  // of facts the closure adds.
  lemma ReachesFixedPoint(rs: seq<Rule>, base: set<Fact>) returns (k: nat)
    ensures FirstFixed(UniverseOf(base), rs, base, k)
    ensures k <= |Closure(rs, base) - base| + 1 <= |UniverseOf(base) - base| + 1
  {
    hide Pass, UniverseOf;
    var u := UniverseOf(base);
    var bound := |u - base| + 1;
    k := SomeFixed(u, rs, base);
    k := LeastFixed(u, rs, base, k);
    UnfixedGrow(u, rs, base, k - 1);
    PassesGrow(u, rs, base, k - 1, bound);
    PassesGrow(u, rs, base, 0, k - 1);
    Missing(base, k - 1, Passes(u, rs, base, k - 1), Closure(rs, base));
    SubsetCard(Closure(rs, base) - base, u - base);
  }

  lemma ClosureAtFixed(rs: seq<Rule>, base: set<Fact>, k: nat)
    requires FirstFixed(UniverseOf(base), rs, base, k)
    ensures Passes(UniverseOf(base), rs, base, k) == Closure(rs, base)
    ensures Passes(UniverseOf(base), rs, base, k - 1) == Closure(rs, base)
  {
    hide Pass, UniverseOf;
    var m := ReachesFixedPoint(rs, base);
    assert m == k;
    FixedForever(UniverseOf(base), rs, base, k, |UniverseOf(base) - base| + 1);
  }

  // ----- The closure is the least closed set over the base -----

  lemma ClosureIsLeast(rs: seq<Rule>, base: set<Fact>)
    ensures base <= Closure(rs, base)
    ensures Closed(rs, Closure(rs, base))
    ensures forall s | base <= s && Closed(rs, s) :: Closure(rs, base) <= s
  {
    hide Pass, UniverseOf, Closed;
    var u := UniverseOf(base);
    UniverseAmple(base);
    var k := ReachesFixedPoint(rs, base);
    ClosureAtFixed(rs, base, k);
    PassesGrow(u, rs, base, 0, k - 1);
    ClosedPassFixed(u, base, rs, Passes(u, rs, base, k - 1));
    forall s | base <= s && Closed(rs, s) ensures Closure(rs, base) <= s {
      PassesStayIn(u, rs, base, k, s);
    }
  }

  // Rules may be reordered or repeated.
  lemma ClosureConfluent(rs: seq<Rule>, qs: seq<Rule>, base: set<Fact>)
    requires forall r :: r in rs <==> r in qs
    ensures Closure(rs, base) == Closure(qs, base)
  {
    hide Closure, ClosedUnder;
    ClosureIsLeast(rs, base);
    ClosureIsLeast(qs, base);
    assert Closed(qs, Closure(rs, base)) && Closed(rs, Closure(qs, base));
  }

  // More rules and more facts give a larger closure.
  lemma ClosureMonotone(rs: seq<Rule>, qs: seq<Rule>, base: set<Fact>, more: set<Fact>)
    requires base <= more && forall r | r in rs :: r in qs
    ensures Closure(rs, base) <= Closure(qs, more)
  {
    hide Closure, ClosedUnder;
    ClosureIsLeast(rs, base);
    ClosureIsLeast(qs, more);
    assert Closed(rs, Closure(qs, more));
  }

  // A closed set is its own closure, reached at the first pass.
  lemma ClosedIsFixed(rs: seq<Rule>, base: set<Fact>)
    requires Closed(rs, base)
    ensures Closure(rs, base) == base && FirstFixed(UniverseOf(base), rs, base, 1)
  {
    hide Pass, UniverseOf, Closed;
    ClosureIsLeast(rs, base);
    UniverseAmple(base);
    ClosedPassFixed(UniverseOf(base), base, rs, base);
    assert Passes(UniverseOf(base), rs, base, 0) == base;
  }

  // ----- Finite derivations -----

  // Every fact of `d` is a one-step conclusion from the base and the facts before it.
  ghost predicate Derivation(rs: seq<Rule>, base: set<Fact>, d: seq<Fact>) {
    forall i | 0 <= i < |d| :: Justified(rs, base + Elements(d[..i]), d[i])
  }

  ghost predicate Justified(rs: seq<Rule>, known: set<Fact>, f: Fact) {
    exists r :: r in rs && Derives(r, known, f)
  }


  ghost predicate Derivable(rs: seq<Rule>, base: set<Fact>, f: Fact) {
    f in base || exists d :: Derivation(rs, base, d) && f in d
  }

  lemma JustifiedMonotone(rs: seq<Rule>, known: set<Fact>, more: set<Fact>, f: Fact)
    requires known <= more && Justified(rs, known, f)
    ensures Justified(rs, more, f)
  {
    var r :| r in rs && Derives(r, known, f);
    DerivesMonotone(r, known, more, f);
  }

  lemma ExtendDerivation(rs: seq<Rule>, base: set<Fact>, d: seq<Fact>, f: Fact)
    requires Derivation(rs, base, d) && Justified(rs, base + Elements(d), f)
    ensures Derivation(rs, base, d + [f]) && Elements(d + [f]) == Elements(d) + {f}
  {
    var e := d + [f];
    forall i | 0 <= i < |e| ensures Justified(rs, base + Elements(e[..i]), e[i]) {
      assert i < |d| ==> e[..i] == d[..i] && e[i] == d[i];
      assert i == |d| ==> e[..i] == d;
    }
  }

  // Appends a set of facts, each justified by what is already known.
  lemma {:induction false} ExtendByAll(rs: seq<Rule>, base: set<Fact>, d: seq<Fact>, added: set<Fact>)
    returns (e: seq<Fact>)
    requires Derivation(rs, base, d) && forall f | f in added :: Justified(rs, base + Elements(d), f)
    ensures Derivation(rs, base, e) && Elements(e) == Elements(d) + added
    decreases added
  {
    if added == {} {
      e := d;
    } else {
      var f :| f in added;
      ExtendDerivation(rs, base, d, f);
      forall g | g in added - {f} ensures Justified(rs, base + Elements(d + [f]), g) {
        JustifiedMonotone(rs, base + Elements(d), base + Elements(d + [f]), g);
      }
      e := ExtendByAll(rs, base, d + [f], added - {f});
    }
  }

  lemma {:induction false} PassDerivation(u: set<Fact>, rs: seq<Rule>, all: seq<Rule>, base: set<Fact>, d: seq<Fact>)
    returns (e: seq<Fact>)
    requires Derivation(all, base, d) && forall r | r in rs :: r in all
    ensures Derivation(all, base, e) && base + Elements(e) == Pass(u, rs, base + Elements(d))
    decreases |rs|
  {
    hide Derives;
    if rs == [] {
      e := d;
    } else {
      var last := rs[|rs| - 1];
      assert last in rs;
      e := PassDerivation(u, rs[..|rs| - 1], all, base, d);
      var fs := base + Elements(e);
      var added := Step(u, last, fs) - fs;
      assert forall f | f in added :: Derives(last, fs, f);
      e := ExtendByAll(all, base, e, added);
    }
  }

  lemma {:induction false} PassesDerivation(u: set<Fact>, rs: seq<Rule>, base: set<Fact>, k: nat) returns (d: seq<Fact>)
    ensures Derivation(rs, base, d) && base + Elements(d) == Passes(u, rs, base, k)
  {
    hide Pass;
    if k == 0 {
      d := [];
    } else {
      d := PassesDerivation(u, rs, base, k - 1);
      d := PassDerivation(u, rs, rs, base, d);
    }
  }

  lemma {:induction false} DerivationStaysIn(rs: seq<Rule>, base: set<Fact>, d: seq<Fact>, s: set<Fact>, n: nat)
    requires Derivation(rs, base, d) && base <= s && Closed(rs, s) && n <= |d|
    ensures Elements(d[..n]) <= s
  {
    hide Derives;
    if n > 0 {
      DerivationStaysIn(rs, base, d, s, n - 1);
      assert d[..n] == d[..n - 1] + [d[n - 1]];
      JustifiedMonotone(rs, base + Elements(d[..n - 1]), s, d[n - 1]);
      var r :| r in rs && Derives(r, s, d[n - 1]);
      assert ClosedUnder(r, s);
    }
  }

  // The closure is exactly what has a finite derivation.
  lemma ClosureIsDerivable(rs: seq<Rule>, base: set<Fact>, f: Fact)
    ensures f in Closure(rs, base) <==> Derivable(rs, base, f)
  {
    hide UniverseOf, Passes, Justified, Closed;
    ClosureIsLeast(rs, base);
    if f in Closure(rs, base) {
      var u := UniverseOf(base);
      var d := PassesDerivation(u, rs, base, |u - base| + 1);
      assert f in base + Elements(d);
    }
    if f !in base && Derivable(rs, base, f) {
      var d :| Derivation(rs, base, d) && f in d;
      DerivationStaysIn(rs, base, d, Closure(rs, base), |d|);
      assert d[..|d|] == d;
    }
  }
}
