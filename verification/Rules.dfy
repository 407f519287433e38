// The seven forward-chaining rules: the loops that compute what each one derives.

module Rules {
  import opened Core
  import opened FactBase

  datatype RuleOutput = RuleOutput(axioms: seq<Axiom>, edges: seq<Edge>)

  const EMPTY_OUTPUT := RuleOutput([], [])

  ghost function OutFacts(out: RuleOutput): set<Fact> {
    (set ax | ax in out.axioms :: AxiomFact(ax)) + (set e | e in out.edges :: EdgeFact(e))
  }

  // Everything in the output was built by `Axiom::new` or `Edge::between`.
  ghost predicate FreshlyBuilt(out: RuleOutput) {
    && (forall ax | ax in out.axioms :: ax == NewAxiom(ax.kind))
    && (forall e | e in out.edges :: e == Between(e.source, e.relation, e.target))
  }

  // The output of a rule: exactly its one-step conclusions that are not already facts.
  ghost predicate Emits(out: RuleOutput, r: Rule, fs: set<Fact>) {
    && FreshlyBuilt(out)
    && forall f :: f in OutFacts(out) <==> Derives(r, fs, f) && f !in fs
  }

  method PushAxiom(out: RuleOutput, kind: AxiomKind) returns (next: RuleOutput)
    ensures OutFacts(next) == OutFacts(out) + {Ax(kind)}
    ensures FreshlyBuilt(out) ==> FreshlyBuilt(next)
  {
    var ax := NewAxiom(kind);
    assert AxiomFact(ax) == Ax(kind);
    next := out.(axioms := out.axioms + [ax]);
    assert forall x :: x in next.axioms <==> x in out.axioms || x == ax;
  }

  method PushEdge(out: RuleOutput, source: NodeId, relation: string, target: NodeId) returns (next: RuleOutput)
    ensures OutFacts(next) == OutFacts(out) + {Ed(source, relation, target)}
    ensures FreshlyBuilt(out) ==> FreshlyBuilt(next)
  {
    var e := Between(source, relation, target);
    assert EdgeFact(e) == Ed(source, relation, target);
    next := out.(edges := out.edges + [e]);
    assert forall x :: x in next.edges <==> x in out.edges || x == e;
  }

  // `index.entry(key).or_default().insert(value)`
  function Insert<K(!new), V(!new)>(index: map<K, set<V>>, key: K, value: V): (next: map<K, set<V>>)
    ensures forall k, v :: Holds(next, k, v) <==> Holds(index, k, v) || (k == key && v == value)
  {
    index[key := (if key in index then index[key] else {}) + {value}]
  }

  predicate Holds<K, V(==)>(index: map<K, set<V>>, k: K, v: V) {
    k in index && v in index[k]
  }

  // sub -> its direct supers
  method SubClassIndex(o: Ontology) returns (bySub: map<string, set<string>>)
    ensures forall a, b :: Holds(bySub, a, b) <==> Ax(SubClassOf(a, b)) in Facts(o.axioms, o.edges)
  {
    ghost var fs := Facts(o.axioms, o.edges);
    bySub := map[];
    var axioms := o.axioms.Values;
    while axioms != {}
      invariant axioms <= o.axioms.Values
      invariant forall a, b :: Holds(bySub, a, b) ==> Ax(SubClassOf(a, b)) in fs
      invariant forall ax | ax in o.axioms.Values - axioms && ax.kind.SubClassOf? ::
                  Holds(bySub, ax.kind.sub, ax.kind.sup)
    {
      var ax :| ax in axioms;
      axioms := axioms - {ax};
      assert AxiomFact(ax) in fs;
      if ax.kind.SubClassOf? {
        bySub := Insert(bySub, ax.kind.sub, ax.kind.sup);
      }
    }
  }

  method SubclassTransitivity(o: Ontology) returns (out: RuleOutput)
    ensures Emits(out, SubClassTransitivity, Facts(o.axioms, o.edges))
  {
    var bySub := SubClassIndex(o);
    out := CloseSubClasses(Facts(o.axioms, o.edges), bySub);
  }

  // The outer loop of the join, over every class with a direct super.
  method CloseSubClasses(ghost fs: set<Fact>, bySub: map<string, set<string>>) returns (out: RuleOutput)
    requires forall a, b :: Holds(bySub, a, b) <==> Ax(SubClassOf(a, b)) in fs
    ensures Emits(out, SubClassTransitivity, fs)
  {
    out := EMPTY_OUTPUT;
    var subs := bySub.Keys;
    while subs != {}
      invariant subs <= bySub.Keys && FreshlyBuilt(out)
      invariant forall f | f in OutFacts(out) :: Derives(SubClassTransitivity, fs, f) && f !in fs
      invariant forall a, b, c | SubHop(fs, a, b, c) && a !in subs :: HopDone(fs, out, a, c)
    {
      var sub :| sub in subs;
      subs := subs - {sub};
      out := CloseClass(fs, bySub, sub, bySub[sub], out);
      forall a, b, c | SubHop(fs, a, b, c) && a !in subs ensures HopDone(fs, out, a, c) {
        if a == sub {
          assert Holds(bySub, sub, b);
        }
      }
    }
    forall f | Derives(SubClassTransitivity, fs, f) && f !in fs ensures f in OutFacts(out) {
      var b :| SubHop(fs, f.kind.sub, b, f.kind.sup);
      assert Holds(bySub, f.kind.sub, b);
      assert HopDone(fs, out, f.kind.sub, f.kind.sup);
    }
  }

  // The two inner loops: every sub ⊑ sup ⊑ grand for one `sub`.
  method CloseClass(ghost fs: set<Fact>, bySub: map<string, set<string>>, sub: string, supers: set<string>,
                    before: RuleOutput)
    returns (out: RuleOutput)
    requires forall a, b :: Holds(bySub, a, b) <==> Ax(SubClassOf(a, b)) in fs
    requires sub in bySub && supers == bySub[sub]
    requires FreshlyBuilt(before)
    requires forall f | f in OutFacts(before) :: Derives(SubClassTransitivity, fs, f) && f !in fs
    ensures FreshlyBuilt(out) && OutFacts(before) <= OutFacts(out)
    ensures forall f | f in OutFacts(out) :: Derives(SubClassTransitivity, fs, f) && f !in fs
    ensures forall b, c | b in supers && SubHop(fs, sub, b, c) :: HopDone(fs, out, sub, c)
  {
    out := before;
    var sups := supers;
    while sups != {}
      invariant sups <= supers && FreshlyBuilt(out) && OutFacts(before) <= OutFacts(out)
      invariant forall f | f in OutFacts(out) :: Derives(SubClassTransitivity, fs, f) && f !in fs
      invariant forall b, c | b in supers && b !in sups && SubHop(fs, sub, b, c) :: HopDone(fs, out, sub, c)
    {
      var sup :| sup in sups;
      sups := sups - {sup};
      assert Holds(bySub, sub, sup);
      var grands := if sup in bySub then bySub[sup] else {};
      ghost var all := grands;
      ghost var had := OutFacts(out);
      while grands != {}
        invariant grands <= all && FreshlyBuilt(out) && had <= OutFacts(out)
        invariant forall f | f in OutFacts(out) :: Derives(SubClassTransitivity, fs, f) && f !in fs
        invariant forall c | c in all && c !in grands :: sub == c || Ax(SubClassOf(sub, c)) in fs + OutFacts(out)
      {
        var grand :| grand in grands;
        grands := grands - {grand};
        assert Holds(bySub, sup, grand);
        assert SubHop(fs, sub, sup, grand);
        if grand == sub {
          continue;
        }
        assert Holds(bySub, sub, grand) <==> grand in supers;
        if grand in supers {
          continue;
        }
        out := PushAxiom(out, SubClassOf(sub, grand));
      }
      forall c | SubHop(fs, sub, sup, c) ensures HopDone(fs, out, sub, c) {
        assert Holds(bySub, sup, c);
      }
    }
  }

  // The pair a ⊑ c needs no further emission.
  ghost predicate HopDone(fs: set<Fact>, out: RuleOutput, a: string, c: string) {
    a == c || Ax(SubClassOf(a, c)) in fs || Ax(SubClassOf(a, c)) in OutFacts(out)
  }

  method EquivalentClassPairs(o: Ontology) returns (existing: set<(string, string)>)
    ensures forall a, b :: (a, b) in existing <==> Ax(EquivalentClass(a, b)) in Facts(o.axioms, o.edges)
  {
    ghost var fs := Facts(o.axioms, o.edges);
    existing := {};
    var axioms := o.axioms.Values;
    while axioms != {}
      invariant axioms <= o.axioms.Values
      invariant forall a, b :: (a, b) in existing ==> Ax(EquivalentClass(a, b)) in fs
      invariant forall ax | ax in o.axioms.Values - axioms && ax.kind.EquivalentClass? ::
                  (ax.kind.left, ax.kind.right) in existing
    {
      var ax :| ax in axioms;
      axioms := axioms - {ax};
      assert AxiomFact(ax) in fs;
      if ax.kind.EquivalentClass? {
        existing := existing + {(ax.kind.left, ax.kind.right)};
      }
    }
  }

  method EquivalentClassSymmetry(o: Ontology) returns (out: RuleOutput)
    ensures Emits(out, EquivalentSymmetry, Facts(o.axioms, o.edges))
  {
    var existing := EquivalentClassPairs(o);
    out := SwapEquivalentClass(Facts(o.axioms, o.edges), existing);
  }

  method SwapEquivalentClass(ghost fs: set<Fact>, existing: set<(string, string)>) returns (out: RuleOutput)
    requires forall a, b :: (a, b) in existing <==> Ax(EquivalentClass(a, b)) in fs
    ensures Emits(out, EquivalentSymmetry, fs)
  {
    out := EMPTY_OUTPUT;
    var pairs := existing;
    while pairs != {}
      invariant pairs <= existing && FreshlyBuilt(out)
      invariant forall f | f in OutFacts(out) :: Derives(EquivalentSymmetry, fs, f) && f !in fs
      invariant forall a, b | (a, b) in existing && (a, b) !in pairs ::
                (b, a) in existing || Ax(EquivalentClass(b, a)) in OutFacts(out)
    {
      var pair :| pair in pairs;
      pairs := pairs - {pair};
      if (pair.1, pair.0) !in existing {
        out := PushAxiom(out, EquivalentClass(pair.1, pair.0));
      }
    }
  }

  method InverseOfPairs(o: Ontology) returns (existing: set<(string, string)>)
    ensures forall a, b :: (a, b) in existing <==> Ax(InverseOf(a, b)) in Facts(o.axioms, o.edges)
  {
    ghost var fs := Facts(o.axioms, o.edges);
    existing := {};
    var axioms := o.axioms.Values;
    while axioms != {}
      invariant axioms <= o.axioms.Values
      invariant forall a, b :: (a, b) in existing ==> Ax(InverseOf(a, b)) in fs
      invariant forall ax | ax in o.axioms.Values - axioms && ax.kind.InverseOf? ::
                  (ax.kind.left, ax.kind.right) in existing
    {
      var ax :| ax in axioms;
      axioms := axioms - {ax};
      assert AxiomFact(ax) in fs;
      if ax.kind.InverseOf? {
        existing := existing + {(ax.kind.left, ax.kind.right)};
      }
    }
  }

  method InverseSymmetry(o: Ontology) returns (out: RuleOutput)
    ensures Emits(out, InverseOfSymmetry, Facts(o.axioms, o.edges))
  {
    var existing := InverseOfPairs(o);
    out := SwapInverseOf(Facts(o.axioms, o.edges), existing);
  }

  method SwapInverseOf(ghost fs: set<Fact>, existing: set<(string, string)>) returns (out: RuleOutput)
    requires forall a, b :: (a, b) in existing <==> Ax(InverseOf(a, b)) in fs
    ensures Emits(out, InverseOfSymmetry, fs)
  {
    out := EMPTY_OUTPUT;
    var pairs := existing;
    while pairs != {}
      invariant pairs <= existing && FreshlyBuilt(out)
      invariant forall f | f in OutFacts(out) :: Derives(InverseOfSymmetry, fs, f) && f !in fs
      invariant forall a, b | (a, b) in existing && (a, b) !in pairs ::
                (b, a) in existing || Ax(InverseOf(b, a)) in OutFacts(out)
    {
      var pair :| pair in pairs;
      pairs := pairs - {pair};
      if (pair.1, pair.0) !in existing {
        out := PushAxiom(out, InverseOf(pair.1, pair.0));
      }
    }
  }

  method EquivalentAndSubClassPairs(o: Ontology)
    returns (equivalents: seq<(string, string)>, subclasses: set<(string, string)>)
    ensures forall a, b :: (a, b) in equivalents <==> Ax(EquivalentClass(a, b)) in Facts(o.axioms, o.edges)
    ensures forall a, b :: (a, b) in subclasses <==> Ax(SubClassOf(a, b)) in Facts(o.axioms, o.edges)
  {
    ghost var fs := Facts(o.axioms, o.edges);
    equivalents, subclasses := [], {};
    var axioms := o.axioms.Values;
    while axioms != {}
      invariant axioms <= o.axioms.Values
      invariant forall a, b :: (a, b) in equivalents ==> Ax(EquivalentClass(a, b)) in fs
      invariant forall a, b :: (a, b) in subclasses ==> Ax(SubClassOf(a, b)) in fs
      invariant forall ax | ax in o.axioms.Values - axioms && ax.kind.EquivalentClass? ::
                  (ax.kind.left, ax.kind.right) in equivalents
      invariant forall ax | ax in o.axioms.Values - axioms && ax.kind.SubClassOf? ::
                  (ax.kind.sub, ax.kind.sup) in subclasses
    {
      var ax :| ax in axioms;
      axioms := axioms - {ax};
      assert AxiomFact(ax) in fs;
      match ax.kind {
        case EquivalentClass(left, right) => equivalents := equivalents + [(left, right)];
        case SubClassOf(sub, sup) => subclasses := subclasses + {(sub, sup)};
        case _ =>
      }
    }
  }

  method EquivalentsToSubClasses(o: Ontology) returns (out: RuleOutput)
    ensures Emits(out, EquivalentToSubClass, Facts(o.axioms, o.edges))
  {
    var equivalents, subclasses := EquivalentAndSubClassPairs(o);
    assert forall j | 0 <= j < |equivalents| :: (equivalents[j].0, equivalents[j].1) in equivalents;
    assert forall a, b | (a, b) in equivalents :: Listed(equivalents, a, b);
    out := BothDirections(Facts(o.axioms, o.edges), equivalents, subclasses);
  }

  method BothDirections(ghost fs: set<Fact>, equivalents: seq<(string, string)>, subclasses: set<(string, string)>)
    returns (out: RuleOutput)
    requires forall j | 0 <= j < |equivalents| :: Ax(EquivalentClass(equivalents[j].0, equivalents[j].1)) in fs
    requires forall a, b | Ax(EquivalentClass(a, b)) in fs :: Listed(equivalents, a, b)
    requires forall a, b :: (a, b) in subclasses <==> Ax(SubClassOf(a, b)) in fs
    ensures Emits(out, EquivalentToSubClass, fs)
  {
    out := EMPTY_OUTPUT;
    for i := 0 to |equivalents|
      invariant FreshlyBuilt(out)
      invariant forall f | f in OutFacts(out) :: Derives(EquivalentToSubClass, fs, f) && f !in fs
      invariant forall j | 0 <= j < i :: BothWays(fs + OutFacts(out), equivalents[j])
    {
      out := PushPair(fs, subclasses, equivalents[i], out);
    }
    AllEmitted(fs, equivalents, OutFacts(out));
  }

  lemma AllEmitted(fs: set<Fact>, equivalents: seq<(string, string)>, emitted: set<Fact>)
    requires forall a, b | Ax(EquivalentClass(a, b)) in fs :: Listed(equivalents, a, b)
    requires forall j | 0 <= j < |equivalents| :: BothWays(fs + emitted, equivalents[j])
    ensures forall f | Derives(EquivalentToSubClass, fs, f) && f !in fs :: f in emitted
  {
    forall f | Derives(EquivalentToSubClass, fs, f) && f !in fs ensures f in emitted {
      var a, b := f.kind.sub, f.kind.sup;
      assert Listed(equivalents, a, b) || Listed(equivalents, b, a);
    }
  }

  ghost predicate Listed(pairs: seq<(string, string)>, a: string, b: string) {
    exists j :: 0 <= j < |pairs| && pairs[j] == (a, b)
  }

  ghost predicate BothWays(known: set<Fact>, pair: (string, string)) {
    Ax(SubClassOf(pair.0, pair.1)) in known && Ax(SubClassOf(pair.1, pair.0)) in known
  }

  method PushPair(ghost fs: set<Fact>, subclasses: set<(string, string)>, pair: (string, string), before: RuleOutput)
    returns (out: RuleOutput)
    requires forall a, b :: (a, b) in subclasses <==> Ax(SubClassOf(a, b)) in fs
    requires Ax(EquivalentClass(pair.0, pair.1)) in fs && FreshlyBuilt(before)
    requires forall f | f in OutFacts(before) :: Derives(EquivalentToSubClass, fs, f) && f !in fs
    ensures FreshlyBuilt(out) && OutFacts(before) <= OutFacts(out)
    ensures forall f | f in OutFacts(out) :: Derives(EquivalentToSubClass, fs, f) && f !in fs
    ensures BothWays(fs + OutFacts(out), pair)
  {
    out := before;
    if (pair.0, pair.1) !in subclasses {
      out := PushAxiom(out, SubClassOf(pair.0, pair.1));
    }
    if (pair.1, pair.0) !in subclasses {
      out := PushAxiom(out, SubClassOf(pair.1, pair.0));
    }
  }

  // The `(label, source, target)` triples already present, against which the edge rules dedupe.
  method ExistingEdges(o: Ontology) returns (existing: set<(string, NodeId, NodeId)>)
    ensures forall p, s, t :: (p, s, t) in existing <==> Ed(s, p, t) in Facts(o.axioms, o.edges)
  {
    ghost var fs := Facts(o.axioms, o.edges);
    existing := {};
    var edges := o.edges.Values;
    while edges != {}
      invariant edges <= o.edges.Values
      invariant forall p, s, t :: (p, s, t) in existing ==> Ed(s, p, t) in fs
      invariant forall e | e in o.edges.Values - edges :: (e.relation, e.source, e.target) in existing
    {
      var e :| e in edges;
      edges := edges - {e};
      assert EdgeFact(e) in fs;
      existing := existing + {(e.relation, e.source, e.target)};
    }
  }

  method SymmetricNames(o: Ontology) returns (symmetric: set<string>)
    ensures forall p :: p in symmetric <==> Ax(Symmetric(p)) in Facts(o.axioms, o.edges)
  {
    ghost var fs := Facts(o.axioms, o.edges);
    symmetric := {};
    var axioms := o.axioms.Values;
    while axioms != {}
      invariant axioms <= o.axioms.Values
      invariant forall p :: p in symmetric ==> Ax(Symmetric(p)) in fs
      invariant forall ax | ax in o.axioms.Values - axioms && ax.kind.Symmetric? :: ax.kind.property in symmetric
    {
      var ax :| ax in axioms;
      axioms := axioms - {ax};
      assert AxiomFact(ax) in fs;
      if ax.kind.Symmetric? {
        symmetric := symmetric + {ax.kind.property};
      }
    }
  }

  // The stored edges are the edge facts.
  ghost predicate EdgesOf(edges: set<Edge>, fs: set<Fact>) {
    && (forall e | e in edges :: EdgeFact(e) in fs)
    && (forall s, p, t | Ed(s, p, t) in fs :: HasEdge(edges, s, p, t))
  }

  ghost predicate HasEdge(edges: set<Edge>, s: NodeId, p: string, t: NodeId) {
    exists e :: e in edges && EdgeFact(e) == Ed(s, p, t)
  }

  method SymmetricProperties(o: Ontology) returns (out: RuleOutput)
    ensures Emits(out, PropertySymmetry, Facts(o.axioms, o.edges))
  {
    var symmetric := SymmetricNames(o);
    if symmetric == {} {
      return EMPTY_OUTPUT;
    }
    var existing := ExistingEdges(o);
    out := ReverseEdges(Facts(o.axioms, o.edges), symmetric, existing, o.edges.Values);
  }

  method ReverseEdges(ghost fs: set<Fact>, symmetric: set<string>, existing: set<(string, NodeId, NodeId)>,
                      stored: set<Edge>)
    returns (out: RuleOutput)
    requires forall p, s, t :: (p, s, t) in existing <==> Ed(s, p, t) in fs
    requires forall p :: p in symmetric <==> Ax(Symmetric(p)) in fs
    requires EdgesOf(stored, fs)
    ensures Emits(out, PropertySymmetry, fs)
  {
    out := EMPTY_OUTPUT;
    var edges := stored;
    while edges != {}
      invariant edges <= stored && FreshlyBuilt(out)
      invariant forall f | f in OutFacts(out) :: Derives(PropertySymmetry, fs, f) && f !in fs
      invariant forall e | e in stored && e !in edges && e.relation in symmetric ::
                  Ed(e.target, e.relation, e.source) in fs + OutFacts(out)
    {
      var e :| e in edges;
      edges := edges - {e};
      if e.relation !in symmetric {
        continue;
      }
      if (e.relation, e.target, e.source) in existing {
        continue;
      }
      out := PushEdge(out, e.target, e.relation, e.source);
    }
    forall f | Derives(PropertySymmetry, fs, f) && f !in fs ensures f in OutFacts(out) {
      assert HasEdge(stored, f.target, f.relation, f.source);
    }
  }

  method TransitiveNames(o: Ontology) returns (transitive: set<string>)
    ensures forall p :: p in transitive <==> Ax(Transitive(p)) in Facts(o.axioms, o.edges)
  {
    ghost var fs := Facts(o.axioms, o.edges);
    transitive := {};
    var axioms := o.axioms.Values;
    while axioms != {}
      invariant axioms <= o.axioms.Values
      invariant forall p :: p in transitive ==> Ax(Transitive(p)) in fs
      invariant forall ax | ax in o.axioms.Values - axioms && ax.kind.Transitive? :: ax.kind.property in transitive
    {
      var ax :| ax in axioms;
      axioms := axioms - {ax};
      assert AxiomFact(ax) in fs;
      if ax.kind.Transitive? {
        transitive := transitive + {ax.kind.property};
      }
    }
  }

  // Successors of each (label, source) pair whose label is transitive.
  method SuccessorIndex(o: Ontology, transitive: set<string>)
    returns (successors: map<(string, NodeId), set<NodeId>>)
    ensures forall p, s, t :: Holds(successors, (p, s), t)
              <==> p in transitive && Ed(s, p, t) in Facts(o.axioms, o.edges)
  {
    ghost var fs := Facts(o.axioms, o.edges);
    successors := map[];
    var edges := o.edges.Values;
    while edges != {}
      invariant edges <= o.edges.Values
      invariant forall p, s, t :: Holds(successors, (p, s), t) ==> p in transitive && Ed(s, p, t) in fs
      invariant forall e | e in o.edges.Values - edges && e.relation in transitive ::
                  Holds(successors, (e.relation, e.source), e.target)
    {
      var e :| e in edges;
      edges := edges - {e};
      assert EdgeFact(e) in fs;
      if e.relation in transitive {
        successors := Insert(successors, (e.relation, e.source), e.target);
      }
    }
  }

  method TransitiveProperties(o: Ontology) returns (out: RuleOutput)
    ensures Emits(out, PropertyTransitivity, Facts(o.axioms, o.edges))
  {
    var transitive := TransitiveNames(o);
    if transitive == {} {
      return EMPTY_OUTPUT;
    }
    var successors := SuccessorIndex(o, transitive);
    var existing := ExistingEdges(o);
    out := CloseSources(Facts(o.axioms, o.edges), successors, existing);
  }

  method CloseSources(ghost fs: set<Fact>, successors: map<(string, NodeId), set<NodeId>>,
                      existing: set<(string, NodeId, NodeId)>)
    returns (out: RuleOutput)
    requires forall p, s, t :: (p, s, t) in existing <==> Ed(s, p, t) in fs
    requires forall p, s, t :: Holds(successors, (p, s), t) <==> Ax(Transitive(p)) in fs && Ed(s, p, t) in fs
    ensures Emits(out, PropertyTransitivity, fs)
  {
    out := EMPTY_OUTPUT;
    var sources := successors.Keys;
    while sources != {}
      invariant sources <= successors.Keys && FreshlyBuilt(out)
      invariant forall f | f in OutFacts(out) :: Derives(PropertyTransitivity, fs, f) && f !in fs
      invariant forall p, a, b, c | Ax(Transitive(p)) in fs && EdgeHop(fs, a, p, b, c) && (p, a) !in sources ::
                  EdgeDone(fs, out, a, p, c)
    {
      var key :| key in sources;
      sources := sources - {key};
      out := CloseSource(fs, successors, existing, key, successors[key], out);
      forall p, a, b, c | Ax(Transitive(p)) in fs && EdgeHop(fs, a, p, b, c) && (p, a) !in sources
        ensures EdgeDone(fs, out, a, p, c)
      {
        if (p, a) == key {
          assert Holds(successors, key, b);
        }
      }
    }
    forall f | Derives(PropertyTransitivity, fs, f) && f !in fs ensures f in OutFacts(out) {
      var b :| EdgeHop(fs, f.source, f.relation, b, f.target);
      assert Holds(successors, (f.relation, f.source), b);
      assert EdgeDone(fs, out, f.source, f.relation, f.target);
    }
  }

  // The two inner loops of the join: every a → b → c for one (label, a).
  method CloseSource(ghost fs: set<Fact>, successors: map<(string, NodeId), set<NodeId>>,
                     existing: set<(string, NodeId, NodeId)>, key: (string, NodeId), targets: set<NodeId>,
                     before: RuleOutput)
    returns (out: RuleOutput)
    requires forall p, s, t :: (p, s, t) in existing <==> Ed(s, p, t) in fs
    requires forall p, s, t :: Holds(successors, (p, s), t) <==> Ax(Transitive(p)) in fs && Ed(s, p, t) in fs
    requires key in successors && targets == successors[key]
    requires FreshlyBuilt(before)
    requires forall f | f in OutFacts(before) :: Derives(PropertyTransitivity, fs, f) && f !in fs
    ensures FreshlyBuilt(out) && OutFacts(before) <= OutFacts(out)
    ensures forall f | f in OutFacts(out) :: Derives(PropertyTransitivity, fs, f) && f !in fs
    ensures forall b, c | b in targets && EdgeHop(fs, key.1, key.0, b, c) :: EdgeDone(fs, out, key.1, key.0, c)
  {
    var (relation, a) := key;
    out := before;
    var bs := targets;
    while bs != {}
      invariant bs <= targets && FreshlyBuilt(out) && OutFacts(before) <= OutFacts(out)
      invariant forall f | f in OutFacts(out) :: Derives(PropertyTransitivity, fs, f) && f !in fs
      invariant forall b, c | b in targets - bs && EdgeHop(fs, a, relation, b, c) :: EdgeDone(fs, out, a, relation, c)
    {
      var b :| b in bs;
      bs := bs - {b};
      assert Holds(successors, key, b);
      var cs := if (relation, b) in successors then successors[(relation, b)] else {};
      ghost var all := cs;
      ghost var had := OutFacts(out);
      while cs != {}
        invariant cs <= all && FreshlyBuilt(out) && had <= OutFacts(out)
        invariant forall f | f in OutFacts(out) :: Derives(PropertyTransitivity, fs, f) && f !in fs
        invariant forall c | c in all && c !in cs :: a == c || Ed(a, relation, c) in fs + OutFacts(out)
      {
        var c :| c in cs;
        cs := cs - {c};
        assert Holds(successors, (relation, b), c);
        assert EdgeHop(fs, a, relation, b, c);
        if a != c && (relation, a, c) !in existing {
          out := PushEdge(out, a, relation, c);
        }
      }
      forall c | EdgeHop(fs, a, relation, b, c) ensures EdgeDone(fs, out, a, relation, c) {
        assert Holds(successors, (relation, b), c);
      }
    }
  }

  // The pair a → c over `relation` needs no further emission.
  ghost predicate EdgeDone(fs: set<Fact>, out: RuleOutput, a: NodeId, relation: string, c: NodeId) {
    a == c || Ed(a, relation, c) in fs || Ed(a, relation, c) in OutFacts(out)
  }

  // Both directions of every declared inverse pair.
  method InverseIndex(o: Ontology) returns (inverseOf: map<string, set<string>>)
    ensures forall p, q :: Holds(inverseOf, p, q) <==> Inverses(Facts(o.axioms, o.edges), p, q)
  {
    ghost var fs := Facts(o.axioms, o.edges);
    inverseOf := map[];
    var axioms := o.axioms.Values;
    while axioms != {}
      invariant axioms <= o.axioms.Values
      invariant forall p, q :: Holds(inverseOf, p, q) ==> Inverses(fs, p, q)
      invariant forall ax | ax in o.axioms.Values - axioms && ax.kind.InverseOf? ::
                  Holds(inverseOf, ax.kind.left, ax.kind.right) && Holds(inverseOf, ax.kind.right, ax.kind.left)
    {
      var ax :| ax in axioms;
      axioms := axioms - {ax};
      assert AxiomFact(ax) in fs;
      if ax.kind.InverseOf? {
        inverseOf := Insert(inverseOf, ax.kind.left, ax.kind.right);
        inverseOf := Insert(inverseOf, ax.kind.right, ax.kind.left);
      }
    }
  }

  method InverseEdges(o: Ontology) returns (out: RuleOutput)
    ensures Emits(out, InverseOfMaterializes, Facts(o.axioms, o.edges))
  {
    var inverseOf := InverseIndex(o);
    if inverseOf == map[] {
      assert forall p, q :: !Holds(inverseOf, p, q);
      return EMPTY_OUTPUT;
    }
    var existing := ExistingEdges(o);
    out := InvertAll(Facts(o.axioms, o.edges), inverseOf, existing, o.edges.Values);
  }

  method InvertAll(ghost fs: set<Fact>, inverseOf: map<string, set<string>>,
                   existing: set<(string, NodeId, NodeId)>, stored: set<Edge>)
    returns (out: RuleOutput)
    requires forall p, s, t :: (p, s, t) in existing <==> Ed(s, p, t) in fs
    requires forall p, q :: Holds(inverseOf, p, q) <==> Inverses(fs, p, q)
    requires EdgesOf(stored, fs)
    ensures Emits(out, InverseOfMaterializes, fs)
  {
    out := EMPTY_OUTPUT;
    var edges := stored;
    while edges != {}
      invariant edges <= stored && FreshlyBuilt(out)
      invariant forall f | f in OutFacts(out) :: Derives(InverseOfMaterializes, fs, f) && f !in fs
      invariant forall e, q | e in stored && e !in edges && Holds(inverseOf, e.relation, q) ::
                  Ed(e.target, q, e.source) in fs + OutFacts(out)
    {
      var e :| e in edges;
      edges := edges - {e};
      if e.relation !in inverseOf {
        continue;
      }
      assert forall q | q in inverseOf[e.relation] :: Holds(inverseOf, e.relation, q);
      out := Invert(fs, existing, e, inverseOf[e.relation], out);
    }
    forall f | Derives(InverseOfMaterializes, fs, f) && f !in fs ensures f in OutFacts(out) {
      var p :| InverseHop(fs, p, f.target, f.relation, f.source);
      assert HasEdge(stored, f.target, p, f.source);
      assert Holds(inverseOf, p, f.relation);
    }
  }

  // The inner loop: one edge read backwards under each of its inverse labels.
  method Invert(ghost fs: set<Fact>, existing: set<(string, NodeId, NodeId)>, e: Edge, inverses: set<string>,
                before: RuleOutput)
    returns (out: RuleOutput)
    requires forall p, s, t :: (p, s, t) in existing <==> Ed(s, p, t) in fs
    requires EdgeFact(e) in fs && forall q | q in inverses :: Inverses(fs, e.relation, q)
    requires FreshlyBuilt(before)
    requires forall f | f in OutFacts(before) :: Derives(InverseOfMaterializes, fs, f) && f !in fs
    ensures FreshlyBuilt(out) && OutFacts(before) <= OutFacts(out)
    ensures forall f | f in OutFacts(out) :: Derives(InverseOfMaterializes, fs, f) && f !in fs
    ensures forall q | q in inverses :: Ed(e.target, q, e.source) in fs + OutFacts(out)
  {
    out := before;
    var todo := inverses;
    while todo != {}
      invariant todo <= inverses && FreshlyBuilt(out) && OutFacts(before) <= OutFacts(out)
      invariant forall f | f in OutFacts(out) :: Derives(InverseOfMaterializes, fs, f) && f !in fs
      invariant forall q | q in inverses - todo :: Ed(e.target, q, e.source) in fs + OutFacts(out)
    {
      var inv :| inv in todo;
      todo := todo - {inv};
      assert InverseHop(fs, e.relation, e.source, inv, e.target);
      if (inv, e.target, e.source) in existing {
        continue;
      }
      out := PushEdge(out, e.target, inv, e.source);
    }
  }

  // `Rule::apply`
  method Apply(rule: Rule, o: Ontology) returns (out: RuleOutput)
    ensures Emits(out, rule, Facts(o.axioms, o.edges))
  {
    match rule {
      case SubClassTransitivity => out := SubclassTransitivity(o);
      case EquivalentSymmetry => out := EquivalentClassSymmetry(o);
      case EquivalentToSubClass => out := EquivalentsToSubClasses(o);
      case InverseOfSymmetry => out := InverseSymmetry(o);
      case PropertySymmetry => out := SymmetricProperties(o);
      case PropertyTransitivity => out := TransitiveProperties(o);
      case InverseOfMaterializes => out := InverseEdges(o);
    }
  }
}
