// The fixed-point engine: it runs the rules over a working copy until a pass adds nothing.

module Reasoning {
  import opened Wrappers
  import opened Collections
  import opened Core
  import opened FactBase
  import opened Rules
  import opened Deduction

  datatype ReasonerError = Cycle(limit: nat)

  datatype ReasoningReport = ReasoningReport(
    derivedAxioms: set<Axiom>, derivedEdges: set<Edge>, iterations: nat, activity: ProvenanceId)

  ghost function ReportFacts(report: ReasoningReport): set<Fact> {
    (set ax | ax in report.derivedAxioms :: AxiomFact(ax)) + (set e | e in report.derivedEdges :: EdgeFact(e))
  }

  predicate IsClean(report: ReasoningReport) {
    report.derivedAxioms == {} && report.derivedEdges == {}
  }

  // Entries sit under their own id, and content ids belong to the content they name.
  ghost predicate WellKeyed(axioms: map<AxiomId, Axiom>, edges: map<EdgeId, Edge>) {
    && (forall id | id in axioms :: axioms[id].id == id && id == Canonical(axioms[id].kind))
    && (forall id | id in edges :: edges[id].id == id
                                   && (id.ContentId?
                                      ==> id == ContentId(edges[id].source, edges[id].relation, edges[id].target)))
  }

  // No two axioms of the set share an id.
  ghost predicate DistinctIds(fs: set<Fact>) {
    forall k, m | Ax(k) in fs && Ax(m) in fs && Canonical(k) == Canonical(m) :: k == m
  }

  // What the set holds beyond the entries of an ontology has ids of its own, none of them in use there.
  ghost predicate FreeIds(axioms: map<AxiomId, Axiom>, edges: map<EdgeId, Edge>, c: set<Fact>) {
    var beyond := c - Facts(axioms, edges);
    && (forall k | Ax(k) in beyond :: Canonical(k) !in axioms)
    && (forall s, p, t | Ed(s, p, t) in beyond :: ContentId(s, p, t) !in edges)
    && DistinctIds(beyond)
  }

  // The condition under which the engine, which goes by ids, misses nothing.
  ghost predicate Unhindered(rules: seq<Rule>, axioms: map<AxiomId, Axiom>, edges: map<EdgeId, Edge>) {
    FreeIds(axioms, edges, Closure(rules, Facts(axioms, edges)))
  }

  // Where every entry sits under its own id, that is that no two derivable axioms share an id.
  ghost predicate Faithful(rules: seq<Rule>, base: set<Fact>) {
    DistinctIds(Closure(rules, base))
  }

  // No two pairs of these names are joined to one text.
  ghost predicate Splits(ns: set<string>) {
    forall a, b, c, d | a in ns && b in ns && c in ns && d in ns && a + "|" + b == c + "|" + d :: a == c && b == d
  }

  lemma OperandNames(k: AxiomKind)
    requires TwoOperands(k)
    ensures FirstOperand(k) in NamesOf(Ax(k)) && SecondOperand(k) in NamesOf(Ax(k))
  {
  }

  // The operands of a derivable axiom are names of the input.
  lemma ClosureNames(rules: seq<Rule>, base: set<Fact>, k: AxiomKind)
    requires Ax(k) in Closure(rules, base) && TwoOperands(k)
    ensures FirstOperand(k) in Names(base) && SecondOperand(k) in Names(base)
  {
    hide Universe, Passes;
    PassesGrow(UniverseOf(base), rules, base, 0, |UniverseOf(base) - base| + 1);
    UniverseSpec(Names(base), Ends(base), Ax(k));
    OperandNames(k);
    if Ax(k) in base {
      NamesEndsMember(base, Ax(k));
    }
  }

  lemma SplitsFaithful(rules: seq<Rule>, base: set<Fact>)
    requires Splits(Names(base))
    ensures Faithful(rules, base)
  {
    hide Canonical, Closure, Names, Operands;
    var c := Closure(rules, base);
    forall k, m | Ax(k) in c && Ax(m) in c && Canonical(k) == Canonical(m) ensures k == m {
      SameTag(k, m);
      if TwoOperands(k) {
        OperandsJoin(k);
        OperandsJoin(m);
        ClosureNames(rules, base, k);
        ClosureNames(rules, base, m);
        SameOperands(k, m);
      }
    }
  }

  lemma SplitsMeans(rules: seq<Rule>, base: set<Fact>)
    ensures Splits(Names(base)) ==> Faithful(rules, base)
  {
    hide Faithful, Splits;
    if Splits(Names(base)) {
      SplitsFaithful(rules, base);
    }
  }

  // Two pairs joined to one text: with the one asserted as a subclass and the other as equivalent, the
  // derived subclass takes the id of the asserted one.
  lemma JoinedCollide(rules: seq<Rule>, a: string, b: string, c: string, d: string)
    requires EquivalentToSubClass in rules && a + "|" + b == c + "|" + d && (a != c || b != d)
    ensures var base := {Ax(SubClassOf(a, b)), Ax(EquivalentClass(c, d))};
            && DistinctIds(base) && Names(base) <= {a, b, c, d} && !Faithful(rules, base)
  {
    hide Closure, Derives, Canonical, Names;
    var sub, same, derived := SubClassOf(a, b), EquivalentClass(c, d), SubClassOf(c, d);
    var base := {Ax(sub), Ax(same)};
    JoinedIds(a, b, c, d);
    JoinedNames(a, b, c, d);
    ClosureIsLeast(rules, base);
    var closure := Closure(rules, base);
    assert Ax(same) in closure && Ax(sub) in closure;
    EquivalentDerives(closure, c, d);
    assert ClosedUnder(EquivalentToSubClass, closure);
    assert Ax(derived) in closure && derived != sub;
  }

  lemma JoinedIds(a: string, b: string, c: string, d: string)
    requires a + "|" + b == c + "|" + d
    ensures Canonical(SubClassOf(a, b)) == Canonical(SubClassOf(c, d))
    ensures Canonical(SubClassOf(a, b)) != Canonical(EquivalentClass(c, d))
  {
    if Canonical(SubClassOf(a, b)) == Canonical(EquivalentClass(c, d)) {
      SameTag(SubClassOf(a, b), EquivalentClass(c, d));
      TagFixesConstructor(SubClassOf(a, b), EquivalentClass(c, d));
    }
  }

  lemma JoinedNames(a: string, b: string, c: string, d: string)
    ensures Names({Ax(SubClassOf(a, b)), Ax(EquivalentClass(c, d))}) <= {a, b, c, d}
  {
  }

  lemma EquivalentDerives(fs: set<Fact>, c: string, d: string)
    requires Ax(EquivalentClass(c, d)) in fs
    ensures Derives(EquivalentToSubClass, fs, Ax(SubClassOf(c, d)))
  {
  }

  // Over a set of names no input with distinct ids ever derives a shared one, exactly when no two pairs
  // of the names are joined to one text.
  lemma SplitsExactly(rules: seq<Rule>, ns: set<string>)
    requires EquivalentToSubClass in rules
    ensures (forall base: set<Fact> | Names(base) <= ns && DistinctIds(base) :: Faithful(rules, base)) <==> Splits(ns)
  {
    hide Faithful, DistinctIds, Names;
    if Splits(ns) {
      forall base: set<Fact> | Names(base) <= ns && DistinctIds(base) ensures Faithful(rules, base) {
        SplitsFaithful(rules, base);
      }
    } else {
      var a, b, c, d :| a in ns && b in ns && c in ns && d in ns && a + "|" + b == c + "|" + d && (a != c || b != d);
      JoinedCollide(rules, a, b, c, d);
    }
  }

  // Names without the separator are never joined to one text, nor is a name with it when there is no other.
  lemma PipeFreeSplits(ns: set<string>)
    ensures (forall n | n in ns :: '|' !in n) ==> Splits(ns)
    ensures |ns| <= 1 ==> Splits(ns)
  {
    forall a, b, c, d | a in ns && b in ns && c in ns && d in ns && a + "|" + b == c + "|" + d
                        && forall n | n in ns :: '|' !in n
      ensures a == c && b == d
    {
      SplitAtPipe(a, b, c, d);
    }
    if |ns| <= 1 {
      forall a, c | a in ns && c in ns ensures a == c {
        if a != c {
          SubsetCard({a, c}, ns);
        }
      }
    }
  }

  lemma PipeFreeFaithful(rules: seq<Rule>, base: set<Fact>)
    requires forall n | n in Names(base) :: '|' !in n
    ensures Faithful(rules, base)
  {
    hide Faithful, Splits;
    PipeFreeSplits(Names(base));
    SplitsFaithful(rules, base);
  }

  // With separators in names it can fail: the derivable a ⊑ b|c has the id of the asserted a|b ⊑ c.
  lemma PipeCollides()
    ensures !Faithful(STANDARD_RULES,
            {Ax(SubClassOf("a", "m")), Ax(SubClassOf("m", "b|c")), Ax(SubClassOf("a|b", "c"))})
  {
    hide Passes, UniverseOf, Canonical;
    var base := {Ax(SubClassOf("a", "m")), Ax(SubClassOf("m", "b|c")), Ax(SubClassOf("a|b", "c"))};
    var c := Closure(STANDARD_RULES, base);
    ClosureIsLeast(STANDARD_RULES, base);
    assert STANDARD_RULES[0] == SubClassTransitivity;
    assert ClosedUnder(SubClassTransitivity, c);
    assert SubHop(c, "a", "m", "b|c");
    assert Derives(SubClassTransitivity, c, Ax(SubClassOf("a", "b|c")));
    CanonicalCollision();
    assert Ax(SubClassOf("a|b", "c")) in c && Ax(SubClassOf("a", "b|c")) in c;
  }

  // What the working copy keeps: everything of the original, plus new facts, as stamped axioms and
  // content-addressed edges under their own ids.
  ghost predicate Extends(o: Ontology, w: Ontology, prov: ProvenanceId)
    reads o, w
  {
    && w.nodes == o.nodes
    && (forall id | id in o.axioms :: id in w.axioms && w.axioms[id] == o.axioms[id])
    && (forall id | id in o.edges :: id in w.edges && w.edges[id] == o.edges[id])
    && (forall id | id in w.axioms && id !in o.axioms ::
          && w.axioms[id] == NewAxiom(w.axioms[id].kind).(provenance := Some(prov)) && w.axioms[id].id == id
          && Ax(w.axioms[id].kind) !in Facts(o.axioms, o.edges))
    && (forall id | id in w.edges && id !in o.edges ::
          && w.edges[id] == Between(w.edges[id].source, w.edges[id].relation, w.edges[id].target)
          && w.edges[id].id == id)
  }

  lemma InsertAxiomFact(axioms: map<AxiomId, Axiom>, edges: map<EdgeId, Edge>, ax: Axiom)
    requires ax.id !in axioms
    ensures Facts(axioms[ax.id := ax], edges) == Facts(axioms, edges) + {AxiomFact(ax)}
  {
    var next := axioms[ax.id := ax];
    assert next[ax.id] == ax;
    assert forall a | a in axioms.Values :: exists id :: id in axioms && axioms[id] == a && next[id] == a;
    assert next.Values == axioms.Values + {ax};
  }

  lemma InsertEdgeFact(axioms: map<AxiomId, Axiom>, edges: map<EdgeId, Edge>, e: Edge)
    requires e.id !in edges
    ensures Facts(axioms, edges[e.id := e]) == Facts(axioms, edges) + {EdgeFact(e)}
  {
    var next := edges[e.id := e];
    assert next[e.id] == e;
    assert forall a | a in edges.Values :: exists id :: id in edges && edges[id] == a && next[id] == a;
    assert next.Values == edges.Values + {e};
  }

  lemma KnownAxiom(axioms: map<AxiomId, Axiom>, edges: map<EdgeId, Edge>, id: AxiomId)
    requires id in axioms
    ensures Ax(axioms[id].kind) in Facts(axioms, edges)
  {
    assert axioms[id] in axioms.Values;
    assert AxiomFact(axioms[id]) in Facts(axioms, edges);
  }

  lemma KnownEdge(axioms: map<AxiomId, Axiom>, edges: map<EdgeId, Edge>, id: EdgeId)
    requires id in edges
    ensures EdgeFact(edges[id]) in Facts(axioms, edges)
  {
    assert edges[id] in edges.Values;
  }

  // A well-keyed ontology cannot hold two axioms with one id.
  lemma WellKeyedDistinct(axioms: map<AxiomId, Axiom>, edges: map<EdgeId, Edge>)
    requires WellKeyed(axioms, edges)
    ensures DistinctIds(Facts(axioms, edges))
  {
    var fs := Facts(axioms, edges);
    forall k, m | Ax(k) in fs && Ax(m) in fs && Canonical(k) == Canonical(m) ensures k == m {
      var x :| x in axioms.Values && AxiomFact(x) == Ax(k);
      var y :| y in axioms.Values && AxiomFact(y) == Ax(m);
    }
  }

  // Facts about the closure that every step of a run uses.
  lemma RunFacts(rules: seq<Rule>, base: set<Fact>)
    ensures base <= Closure(rules, base) <= base + UniverseOf(base)
    ensures Closed(rules, Closure(rules, base)) && Ample(UniverseOf(base), base)
  {
    hide UniverseOf, Closed, Ample;
    ClosureIsLeast(rules, base);
    UniverseAmple(base);
    PassesGrow(UniverseOf(base), rules, base, 0, |UniverseOf(base) - base| + 1);
  }

  // A rule's output is what one step of it adds.
  lemma OutputIsStep(u: set<Fact>, base: set<Fact>, r: Rule, fs: set<Fact>, out: RuleOutput)
    requires Ample(u, base) && fs <= base + u && Emits(out, r, fs)
    ensures Step(u, r, fs) == fs + OutFacts(out)
  {
    hide Derives, FreshlyBuilt, OutFacts;
  }

  lemma OutputInClosed(rules: seq<Rule>, r: Rule, fs: set<Fact>, out: RuleOutput, c: set<Fact>)
    requires r in rules && Emits(out, r, fs) && fs <= c && Closed(rules, c)
    ensures OutFacts(out) <= c
  {
    hide Derives, FreshlyBuilt, OutFacts;
    forall f | f in OutFacts(out) ensures f in c {
      DerivesMonotone(r, fs, c, f);
      assert ClosedUnder(r, c);
    }
  }

  lemma ClosedEmitsNothing(rules: seq<Rule>, r: Rule, fs: set<Fact>, out: RuleOutput)
    requires r in rules && Emits(out, r, fs) && Closed(rules, fs)
    ensures OutFacts(out) == {}
  {
    hide Derives, FreshlyBuilt, OutFacts;
    assert ClosedUnder(r, fs);
  }

  // The original facts and the report's make up the facts of the working copy.
  lemma DiffFacts(axioms: map<AxiomId, Axiom>, edges: map<EdgeId, Edge>,
                  moreAxioms: map<AxiomId, Axiom>, moreEdges: map<EdgeId, Edge>, report: ReasoningReport)
    requires forall id | id in axioms :: id in moreAxioms && moreAxioms[id] == axioms[id]
    requires forall id | id in edges :: id in moreEdges && moreEdges[id] == edges[id]
    requires report.derivedAxioms == set id | id in moreAxioms && id !in axioms :: moreAxioms[id]
    requires report.derivedEdges == set id | id in moreEdges && id !in edges :: moreEdges[id]
    ensures Facts(moreAxioms, moreEdges) == Facts(axioms, edges) + ReportFacts(report)
  {
    hide AxiomFact, EdgeFact;
    assert moreAxioms.Values == axioms.Values + report.derivedAxioms by {
      forall a | a in moreAxioms.Values ensures a in axioms.Values + report.derivedAxioms {
        var id :| id in moreAxioms && moreAxioms[id] == a;
      }
      forall a | a in axioms.Values ensures a in moreAxioms.Values {
        var id :| id in axioms && axioms[id] == a;
        assert moreAxioms[id] == a;
      }
    }
    assert moreEdges.Values == edges.Values + report.derivedEdges by {
      forall a | a in moreEdges.Values ensures a in edges.Values + report.derivedEdges {
        var id :| id in moreEdges && moreEdges[id] == a;
      }
      forall a | a in edges.Values ensures a in moreEdges.Values {
        var id :| id in edges && edges[id] == a;
        assert moreEdges[id] == a;
      }
    }
  }

  // Derived facts are new, stamped, content-addressed, and the rest of the ontology is untouched.
  ghost predicate ReportWellFormed(report: ReasoningReport, o: Ontology, prov: ProvenanceId)
    reads o
  {
    && report.activity == prov
    && (forall ax | ax in report.derivedAxioms ::
          ax.id !in o.axioms && ax == NewAxiom(ax.kind).(provenance := Some(prov)))
    && (forall ax, bx | ax in report.derivedAxioms && bx in report.derivedAxioms && ax.id == bx.id :: ax == bx)
    && (forall e | e in report.derivedEdges :: e.id !in o.edges && e == Between(e.source, e.relation, e.target))
  }

  // The report of what the working copy holds beyond the original.
  lemma ReportOfCopy(o: Ontology, w: Ontology, prov: ProvenanceId, report: ReasoningReport)
    requires Extends(o, w, prov) && report.activity == prov
    requires report.derivedAxioms == set id | id in w.axioms && id !in o.axioms :: w.axioms[id]
    requires report.derivedEdges == set id | id in w.edges && id !in o.edges :: w.edges[id]
    ensures ReportWellFormed(report, o, prov)
    ensures Facts(w.axioms, w.edges) == Facts(o.axioms, o.edges) + ReportFacts(report)
    ensures w.axioms == o.axioms && w.edges == o.edges ==> IsClean(report)
  {
    hide Facts, ReportFacts, Canonical;
    DiffFacts(o.axioms, o.edges, w.axioms, w.edges, report);
  }

  // A fact of the working copy beyond the original sits under its own id.
  lemma BeyondAxiom(o: Ontology, w: Ontology, prov: ProvenanceId, k: AxiomKind)
    requires Extends(o, w, prov) && Ax(k) in Facts(w.axioms, w.edges) && Ax(k) !in Facts(o.axioms, o.edges)
    ensures Canonical(k) in w.axioms && Canonical(k) !in o.axioms && w.axioms[Canonical(k)].kind == k
  {
    hide Canonical;
    var ax :| ax in w.axioms.Values && AxiomFact(ax) == Ax(k);
    var id :| id in w.axioms && w.axioms[id] == ax;
  }

  lemma BeyondEdge(o: Ontology, w: Ontology, prov: ProvenanceId, s: NodeId, p: string, t: NodeId)
    requires Extends(o, w, prov) && Ed(s, p, t) in Facts(w.axioms, w.edges) && Ed(s, p, t) !in Facts(o.axioms, o.edges)
    ensures ContentId(s, p, t) !in o.edges
  {
    hide Canonical;
    var e :| e in w.edges.Values && EdgeFact(e) == Ed(s, p, t);
    var id :| id in w.edges && w.edges[id] == e;
  }

  // So a copy that holds a set of facts shows their ids to be free.
  lemma ReachedFree(o: Ontology, w: Ontology, prov: ProvenanceId)
    requires Extends(o, w, prov)
    ensures FreeIds(o.axioms, o.edges, Facts(w.axioms, w.edges))
  {
    hide Facts, Canonical, Extends;
    var base, fs := Facts(o.axioms, o.edges), Facts(w.axioms, w.edges);
    forall k | Ax(k) in fs - base ensures Canonical(k) !in o.axioms {
      BeyondAxiom(o, w, prov, k);
    }
    forall s, p, t | Ed(s, p, t) in fs - base ensures ContentId(s, p, t) !in o.edges {
      BeyondEdge(o, w, prov, s, p, t);
    }
    forall k, m | Ax(k) in fs - base && Ax(m) in fs - base && Canonical(k) == Canonical(m) ensures k == m {
      BeyondAxiom(o, w, prov, k);
      BeyondAxiom(o, w, prov, m);
    }
  }

  lemma UnhinderedMeans(rules: seq<Rule>, axioms: map<AxiomId, Axiom>, edges: map<EdgeId, Edge>, fs: set<Fact>)
    requires FreeIds(axioms, edges, fs)
    ensures fs == Closure(rules, Facts(axioms, edges)) ==> Unhindered(rules, axioms, edges)
  {
    hide FreeIds, Closure, Facts;
  }

  lemma CopyExtends(o: Ontology, w: Ontology, prov: ProvenanceId)
    requires w.nodes == o.nodes && w.axioms == o.axioms && w.edges == o.edges
    ensures Extends(o, w, prov)
  {
  }

  // Under their own ids the entries are told apart, and nothing derivable is hindered by them.
  lemma WellKeyedUnhindered(rules: seq<Rule>, axioms: map<AxiomId, Axiom>, edges: map<EdgeId, Edge>)
    requires WellKeyed(axioms, edges)
    ensures Unhindered(rules, axioms, edges) <==> Faithful(rules, Facts(axioms, edges))
  {
    hide Canonical, Facts, Closure;
    var base := Facts(axioms, edges);
    var c := Closure(rules, base);
    ClosureIsLeast(rules, base);
    WellKeyedDistinct(axioms, edges);
    forall k | Ax(k) in base ensures Canonical(k) in axioms && axioms[Canonical(k)].kind == k {
      KeyOfFact(axioms, edges, k);
    }
    forall id | id in axioms ensures Ax(axioms[id].kind) in base {
      KnownAxiom(axioms, edges, id);
    }
    forall s, p, t | ContentId(s, p, t) in edges ensures Ed(s, p, t) in base {
      KnownEdge(axioms, edges, ContentId(s, p, t));
    }
  }

  lemma KeyOfFact(axioms: map<AxiomId, Axiom>, edges: map<EdgeId, Edge>, k: AxiomKind)
    requires WellKeyed(axioms, edges) && Ax(k) in Facts(axioms, edges)
    ensures Canonical(k) in axioms && axioms[Canonical(k)].kind == k
  {
    hide Canonical;
    var ax :| ax in axioms.Values && AxiomFact(ax) == Ax(k);
  }

  lemma GrownWellKeyed(axioms: map<AxiomId, Axiom>, edges: map<EdgeId, Edge>,
                       moreAxioms: map<AxiomId, Axiom>, moreEdges: map<EdgeId, Edge>)
    requires forall id | id in moreAxioms ::
               if id in axioms then moreAxioms[id] == axioms[id]
               else moreAxioms[id].id == id == Canonical(moreAxioms[id].kind)
    requires forall id | id in moreEdges ::
               var e := moreEdges[id];
               if id in edges then e == edges[id] else e.id == id == ContentId(e.source, e.relation, e.target)
    ensures WellKeyed(axioms, edges) ==> WellKeyed(moreAxioms, moreEdges)
  {
    hide Canonical;
  }

  // `contains_key` then `upsert_axiom`, with the stamp.
  method AbsorbAxiom(o: Ontology, w: Ontology, prov: ProvenanceId, ax: Axiom) returns (added: bool)
    requires o != w && Extends(o, w, prov) && ax == NewAxiom(ax.kind) && Ax(ax.kind) !in Facts(o.axioms, o.edges)
    modifies w`axioms
    ensures Extends(o, w, prov)
    ensures added == (ax.id !in old(w.axioms))
    ensures !added ==> w.axioms == old(w.axioms)
    ensures added ==> Facts(w.axioms, w.edges) == old(Facts(w.axioms, w.edges)) + {Ax(ax.kind)}
  {
    hide Facts, Canonical;
    var stamped := ax.(provenance := Some(prov));
    added := stamped.id !in w.axioms;
    if added {
      InsertAxiomFact(w.axioms, w.edges, stamped);
      var _ := w.UpsertAxiom(stamped);
    }
  }

  method AbsorbEdge(o: Ontology, w: Ontology, prov: ProvenanceId, e: Edge) returns (added: bool)
    requires o != w && Extends(o, w, prov) && e == Between(e.source, e.relation, e.target)
    modifies w`edges
    ensures Extends(o, w, prov)
    ensures added == (e.id !in old(w.edges))
    ensures !added ==> w.edges == old(w.edges)
    ensures added ==> Facts(w.axioms, w.edges) == old(Facts(w.axioms, w.edges)) + {EdgeFact(e)}
  {
    hide Facts, Canonical;
    added := e.id !in w.edges;
    if added {
      InsertEdgeFact(w.axioms, w.edges, e);
      var _ := w.UpsertEdge(e);
    }
  }

  // An axiom whose id is taken is already a fact, if ids are free on a set holding both.
  lemma TakenAxiom(o: Ontology, w: Ontology, prov: ProvenanceId, ax: Axiom, c: set<Fact>)
    requires Extends(o, w, prov) && ax.id in w.axioms && ax == NewAxiom(ax.kind)
    requires FreeIds(o.axioms, o.edges, c) && Facts(w.axioms, w.edges) <= c && Ax(ax.kind) in c
    requires Ax(ax.kind) !in Facts(o.axioms, o.edges)
    ensures Ax(ax.kind) in Facts(w.axioms, w.edges)
  {
    hide Facts, Canonical;
    KnownAxiom(w.axioms, w.edges, ax.id);
  }

  lemma TakenEdge(o: Ontology, w: Ontology, prov: ProvenanceId, e: Edge, c: set<Fact>)
    requires Extends(o, w, prov) && e.id in w.edges && e == Between(e.source, e.relation, e.target)
    requires FreeIds(o.axioms, o.edges, c) && EdgeFact(e) in c && EdgeFact(e) !in Facts(o.axioms, o.edges)
    ensures EdgeFact(e) in Facts(w.axioms, w.edges)
  {
    hide Facts, Canonical;
    KnownEdge(w.axioms, w.edges, e.id);
  }

  // Merging one rule's output: all of it when its ids are free, and never anything else.
  ghost predicate Merged(before: set<Fact>, offered: set<Fact>, after: set<Fact>, c: set<Fact>, free: bool) {
    && before <= after <= before + offered
    && (free && before + offered <= c ==> after == before + offered)
  }

  // Nothing offered to the working copy is a fact of the original.
  lemma OfferedBeyond(o: Ontology, w: Ontology, prov: ProvenanceId)
    requires Extends(o, w, prov)
    ensures Facts(o.axioms, o.edges) <= Facts(w.axioms, w.edges)
  {
    forall ax | ax in o.axioms.Values ensures ax in w.axioms.Values {
      var id :| id in o.axioms && o.axioms[id] == ax;
      assert w.axioms[id] == ax;
    }
    forall e | e in o.edges.Values ensures e in w.edges.Values {
      var id :| id in o.edges && o.edges[id] == e;
      assert w.edges[id] == e;
    }
  }

  method AbsorbAxioms(o: Ontology, w: Ontology, prov: ProvenanceId, axioms: seq<Axiom>, ghost c: set<Fact>)
    returns (produced: bool)
    requires o != w && Extends(o, w, prov)
    requires forall ax | ax in axioms :: ax == NewAxiom(ax.kind) && AxiomFact(ax) !in Facts(w.axioms, w.edges)
    modifies w`axioms
    ensures Extends(o, w, prov)
    ensures Merged(old(Facts(w.axioms, w.edges)), set ax | ax in axioms :: AxiomFact(ax), Facts(w.axioms, w.edges), c,
                   FreeIds(o.axioms, o.edges, c))
    ensures if produced then Facts(w.axioms, w.edges) != old(Facts(w.axioms, w.edges)) else w.axioms == old(w.axioms)
  {
    hide Facts, Canonical, FreeIds, Extends;
    ghost var before := Facts(w.axioms, w.edges);
    ghost var offered := set ax | ax in axioms :: AxiomFact(ax);
    ghost var free := FreeIds(o.axioms, o.edges, c);
    OfferedBeyond(o, w, prov);
    produced := false;
    for i := 0 to |axioms|
      invariant Extends(o, w, prov)
      invariant before <= Facts(w.axioms, w.edges) <= before + offered
      invariant free && before + offered <= c ==>
                  forall j | 0 <= j < i :: AxiomFact(axioms[j]) in Facts(w.axioms, w.edges)
      invariant if produced then Facts(w.axioms, w.edges) != before else w.axioms == old(w.axioms)
    {
      var ax := axioms[i];
      assert ax in axioms && AxiomFact(ax) in offered;
      if free && before + offered <= c && ax.id in w.axioms {
        TakenAxiom(o, w, prov, ax, c);
      }
      var added := AbsorbAxiom(o, w, prov, ax);
      produced := produced || added;
    }
  }

  method AbsorbEdges(o: Ontology, w: Ontology, prov: ProvenanceId, edges: seq<Edge>, ghost c: set<Fact>)
    returns (produced: bool)
    requires o != w && Extends(o, w, prov)
    requires forall e | e in edges ::
             e == Between(e.source, e.relation, e.target) && EdgeFact(e) !in Facts(w.axioms, w.edges)
    modifies w`edges
    ensures Extends(o, w, prov)
    ensures Merged(old(Facts(w.axioms, w.edges)), set e | e in edges :: EdgeFact(e), Facts(w.axioms, w.edges), c,
                   FreeIds(o.axioms, o.edges, c))
    ensures if produced then Facts(w.axioms, w.edges) != old(Facts(w.axioms, w.edges)) else w.edges == old(w.edges)
  {
    hide Facts, Canonical, FreeIds, Extends;
    ghost var before := Facts(w.axioms, w.edges);
    ghost var offered := set e | e in edges :: EdgeFact(e);
    ghost var free := FreeIds(o.axioms, o.edges, c);
    OfferedBeyond(o, w, prov);
    produced := false;
    for i := 0 to |edges|
      invariant Extends(o, w, prov)
      invariant before <= Facts(w.axioms, w.edges) <= before + offered
      invariant free && before + offered <= c ==>
                  forall j | 0 <= j < i :: EdgeFact(edges[j]) in Facts(w.axioms, w.edges)
      invariant if produced then Facts(w.axioms, w.edges) != before else w.edges == old(w.edges)
    {
      var e := edges[i];
      assert e in edges && EdgeFact(e) in offered;
      if free && before + offered <= c && e.id in w.edges {
        TakenEdge(o, w, prov, e, c);
      }
      var added := AbsorbEdge(o, w, prov, e);
      produced := produced || added;
    }
  }

  method Absorb(o: Ontology, w: Ontology, prov: ProvenanceId, out: RuleOutput, ghost c: set<Fact>)
    returns (produced: bool)
    requires o != w && Extends(o, w, prov) && FreshlyBuilt(out)
    requires OutFacts(out) !! Facts(w.axioms, w.edges)
    modifies w`axioms, w`edges
    ensures Extends(o, w, prov)
    ensures Merged(old(Facts(w.axioms, w.edges)), OutFacts(out), Facts(w.axioms, w.edges), c,
                   FreeIds(o.axioms, o.edges, c))
    ensures if produced then Facts(w.axioms, w.edges) != old(Facts(w.axioms, w.edges))
            else w.axioms == old(w.axioms) && w.edges == old(w.edges)
  {
    hide Facts, Canonical, FreeIds, Extends;
    ghost var fs := Facts(w.axioms, w.edges);
    assert forall ax | ax in out.axioms :: AxiomFact(ax) in OutFacts(out);
    assert forall e | e in out.edges :: EdgeFact(e) in OutFacts(out);
    var a := AbsorbAxioms(o, w, prov, out.axioms, c);
    var b := AbsorbEdges(o, w, prov, out.edges, c);
    produced := a || b;
  }

  datatype Reasoner = Reasoner(rules: seq<Rule>, maxIterations: nat) {

    function WithMaxIterations(limit: nat): (r: Reasoner)
      ensures r.rules == rules && r.maxIterations >= 1 && r.maxIterations >= limit
      ensures limit >= 1 ==> r.maxIterations == limit
    {
      this.(maxIterations := if limit < 1 then 1 else limit)
    }

    // `run`: the ontology is untouched; the report holds what was added to the working copy.
    method Run(o: Ontology, prov: ProvenanceId) returns (r: Result<ReasoningReport, ReasonerError>)
      requires maxIterations >= 1
      ensures r.Ok? ==> ReportWellFormed(r.value, o, prov)
      ensures r.Ok? ==> ReportFacts(r.value) <= Closure(rules, Facts(o.axioms, o.edges))
      // Ok with the least fixed point, exactly when what is derivable has free ids.
      ensures r.Ok? ==> (Facts(o.axioms, o.edges) + ReportFacts(r.value) == Closure(rules, Facts(o.axioms, o.edges))
                         <==> Unhindered(rules, o.axioms, o.edges))
      // In particular when entries sit under their own ids and no two pairs of names are joined to one text.
      ensures r.Ok? && WellKeyed(o.axioms, o.edges) && Splits(Names(Facts(o.axioms, o.edges))) ==>
                Facts(o.axioms, o.edges) + ReportFacts(r.value) == Closure(rules, Facts(o.axioms, o.edges))
      // The pass count and the error are determined: the first pass that adds nothing.
      ensures Unhindered(rules, o.axioms, o.edges) && r.Ok? ==>
                && r.value.iterations <= maxIterations
                && FirstFixed(UniverseOf(Facts(o.axioms, o.edges)), rules, Facts(o.axioms, o.edges), r.value.iterations)
      ensures Unhindered(rules, o.axioms, o.edges) && r.Err? ==>
                && r.error == Cycle(maxIterations)
                && forall k: nat | k <= maxIterations ::
                   !FixedAt(UniverseOf(Facts(o.axioms, o.edges)), rules, Facts(o.axioms, o.edges), k)
      ensures Closed(rules, Facts(o.axioms, o.edges)) ==> r.Ok? && IsClean(r.value) && r.value.iterations == 1
    {
      hide Closure, UniverseOf, Facts, Closed, DistinctIds, FirstFixed, FixedAt, ReportFacts, Splits, Names, Faithful;
      hide ReportWellFormed, IsClean, Extends, WellKeyed, Unhindered, FreeIds;
      ghost var base := Facts(o.axioms, o.edges);
      if WellKeyed(o.axioms, o.edges) {
        SplitsMeans(rules, base);
        WellKeyedUnhindered(rules, o.axioms, o.edges);
      }
      var working := new Ontology.Clone(o);
      CopyExtends(o, working, prov);
      var converged := Converge(o, working, prov);
      if converged.Err? {
        return Err(converged.error);
      }
      var newAxioms := set id | id in working.axioms && id !in o.axioms :: working.axioms[id];
      var newEdges := set id | id in working.edges && id !in o.edges :: working.edges[id];
      var report := ReasoningReport(newAxioms, newEdges, converged.value, prov);
      ReportOfCopy(o, working, prov, report);
      ReachedFree(o, working, prov);
      UnhinderedMeans(rules, o.axioms, o.edges, Facts(working.axioms, working.edges));
      r := Ok(report);
    }

    // The outer loop: passes over the working copy until one adds nothing or the cap is passed.
    method Converge(o: Ontology, w: Ontology, prov: ProvenanceId) returns (r: Result<nat, ReasonerError>)
      requires o != w && Extends(o, w, prov) && w.axioms == o.axioms && w.edges == o.edges && maxIterations >= 1
      modifies w`axioms, w`edges
      ensures Extends(o, w, prov)
      ensures Facts(w.axioms, w.edges) <= Closure(rules, Facts(o.axioms, o.edges))
      ensures Unhindered(rules, o.axioms, o.edges) && r.Ok? ==>
                && r.value <= maxIterations
                && FirstFixed(UniverseOf(Facts(o.axioms, o.edges)), rules, Facts(o.axioms, o.edges), r.value)
                && Facts(w.axioms, w.edges) == Closure(rules, Facts(o.axioms, o.edges))
      ensures Unhindered(rules, o.axioms, o.edges) && r.Err? ==>
                && r.error == Cycle(maxIterations)
                && forall k: nat | k <= maxIterations ::
                   !FixedAt(UniverseOf(Facts(o.axioms, o.edges)), rules, Facts(o.axioms, o.edges), k)
      ensures Closed(rules, Facts(o.axioms, o.edges)) ==> r == Ok(1) && w.axioms == o.axioms && w.edges == o.edges
    {
      hide Pass, UniverseOf, Canonical, Facts, Closed, FreeIds, Extends, Closure;
      ghost var base := Facts(o.axioms, o.edges);
      ghost var u, c := UniverseOf(base), Closure(rules, base);
      ghost var free := FreeIds(o.axioms, o.edges, c);
      RunFacts(rules, base);
      var iterations: nat := 0;
      while true
        invariant iterations <= maxIterations
        invariant Extends(o, w, prov) && Facts(w.axioms, w.edges) <= c
        invariant free ==> Facts(w.axioms, w.edges) == Passes(u, rules, base, iterations)
        invariant free ==> forall k: nat | k <= iterations :: !FixedAt(u, rules, base, k)
        invariant Closed(rules, base) ==> iterations == 0 && w.axioms == o.axioms && w.edges == o.edges
        decreases maxIterations - iterations
      {
        iterations := iterations + 1;
        if iterations > maxIterations {
          return Err(Cycle(maxIterations));
        }
        var producedNew := RunPass(o, w, prov);
        if !producedNew {
          break;
        }
      }
      if free {
        ClosureAtFixed(rules, base, iterations);
      }
      r := Ok(iterations);
    }

    // The inner `for rule in rules` loop.
    method RunPass(o: Ontology, w: Ontology, prov: ProvenanceId) returns (producedNew: bool)
      requires o != w && Extends(o, w, prov)
      requires Facts(w.axioms, w.edges) <= Closure(rules, Facts(o.axioms, o.edges))
      modifies w`axioms, w`edges
      ensures Extends(o, w, prov)
      ensures old(Facts(w.axioms, w.edges)) <= Facts(w.axioms, w.edges) <= Closure(rules, Facts(o.axioms, o.edges))
      ensures Unhindered(rules, o.axioms, o.edges) ==>
                Facts(w.axioms, w.edges)
                    == Pass(UniverseOf(Facts(o.axioms, o.edges)), rules, old(Facts(w.axioms, w.edges)))
      ensures if producedNew then Facts(w.axioms, w.edges) != old(Facts(w.axioms, w.edges))
              else w.axioms == old(w.axioms) && w.edges == old(w.edges)
      ensures Closed(rules, old(Facts(w.axioms, w.edges))) ==> !producedNew
    {
      hide Closure, UniverseOf, Canonical, Facts, Closed, FreeIds, Extends, FreshlyBuilt, OutFacts, Derives;
      ghost var base := Facts(o.axioms, o.edges);
      ghost var fs := Facts(w.axioms, w.edges);
      ghost var u, c := UniverseOf(base), Closure(rules, base);
      RunFacts(rules, base);
      producedNew := false;
      for i := 0 to |rules|
        invariant Extends(o, w, prov)
        invariant fs <= Facts(w.axioms, w.edges) <= c
        invariant FreeIds(o.axioms, o.edges, c) ==> Facts(w.axioms, w.edges) == Pass(u, rules[..i], fs)
        invariant if producedNew then Facts(w.axioms, w.edges) != fs
                  else w.axioms == old(w.axioms) && w.edges == old(w.edges)
        invariant Closed(rules, fs) ==> !producedNew
      {
        ghost var now := Facts(w.axioms, w.edges);
        var out := Apply(rules[i], w);
        assert rules[..i + 1] == rules[..i] + [rules[i]];
        OutputIsStep(u, base, rules[i], now, out);
        OutputInClosed(rules, rules[i], now, out, c);
        if Closed(rules, fs) {
          ClosedEmitsNothing(rules, rules[i], now, out);
        }
        var added := Absorb(o, w, prov, out, c);
        producedNew := producedNew || added;
      }
      assert rules[..|rules|] == rules;
    }

    // `materialize`: the derived facts are merged into the ontology itself.
    method Materialize(o: Ontology, prov: ProvenanceId) returns (r: Result<ReasoningReport, ReasonerError>)
      requires maxIterations >= 1
      modifies o`axioms, o`edges
      ensures r.Err? ==> o.axioms == old(o.axioms) && o.edges == old(o.edges)
      ensures old(WellKeyed(o.axioms, o.edges)) ==> WellKeyed(o.axioms, o.edges)
      ensures forall id | id in old(o.axioms) :: id in o.axioms && o.axioms[id] == old(o.axioms)[id]
      ensures forall id | id in old(o.edges) :: id in o.edges && o.edges[id] == old(o.edges)[id]
      ensures r.Ok? ==> Facts(o.axioms, o.edges) == old(Facts(o.axioms, o.edges)) + ReportFacts(r.value)
      ensures r.Ok? && old(Unhindered(rules, o.axioms, o.edges)) ==>
                && Facts(o.axioms, o.edges) == Closure(rules, old(Facts(o.axioms, o.edges)))
                && Closed(rules, Facts(o.axioms, o.edges))
    {
      hide Closure, UniverseOf, Canonical, Facts, Closed, FirstFixed, FixedAt, ReportFacts, Unhindered, Splits, Names;
      ghost var axioms0, edges0 := o.axioms, o.edges;
      r := Run(o, prov);
      if r.Err? {
        return;
      }
      MergeAxioms(o, r.value.derivedAxioms, prov);
      MergeEdges(o, r.value.derivedEdges);
      DiffFacts(axioms0, edges0, o.axioms, o.edges, r.value);
      GrownWellKeyed(axioms0, edges0, o.axioms, o.edges);
      ClosureIsLeast(rules, Facts(axioms0, edges0));
    }
  }

  method MergeAxioms(o: Ontology, derived: set<Axiom>, prov: ProvenanceId)
    requires forall ax | ax in derived :: ax.id !in o.axioms && ax == NewAxiom(ax.kind).(provenance := Some(prov))
    requires forall ax, bx | ax in derived && bx in derived && ax.id == bx.id :: ax == bx
    modifies o`axioms
    ensures forall id | id in o.axioms && id !in old(o.axioms) :: o.axioms[id].id == id
    ensures forall id | id in old(o.axioms) :: id in o.axioms && o.axioms[id] == old(o.axioms)[id]
    ensures derived == set id | id in o.axioms && id !in old(o.axioms) :: o.axioms[id]
  {
    hide Canonical;
    var todo := derived;
    while todo != {}
      invariant todo <= derived
      invariant forall id | id in old(o.axioms) :: id in o.axioms && o.axioms[id] == old(o.axioms)[id]
      invariant forall id | id in o.axioms && id !in old(o.axioms) :: o.axioms[id] in derived && o.axioms[id].id == id
      invariant forall ax | ax in derived && ax !in todo :: ax.id in o.axioms && o.axioms[ax.id] == ax
    {
      var ax :| ax in todo;
      todo := todo - {ax};
      var _ := o.UpsertAxiom(ax);
    }
  }

  method MergeEdges(o: Ontology, derived: set<Edge>)
    requires forall e | e in derived :: e.id !in o.edges && e == Between(e.source, e.relation, e.target)
    modifies o`edges
    ensures forall id | id in o.edges && id !in old(o.edges) :: o.edges[id].id == id
    ensures forall id | id in old(o.edges) :: id in o.edges && o.edges[id] == old(o.edges)[id]
    ensures derived == set id | id in o.edges && id !in old(o.edges) :: o.edges[id]
  {
    hide Canonical;
    var todo := derived;
    while todo != {}
      invariant todo <= derived
      invariant forall id | id in old(o.edges) :: id in o.edges && o.edges[id] == old(o.edges)[id]
      invariant forall id | id in o.edges && id !in old(o.edges) :: o.edges[id] in derived && o.edges[id].id == id
      invariant forall e | e in derived && e !in todo :: e.id in o.edges && o.edges[e.id] == e
    {
      var e :| e in todo;
      todo := todo - {e};
      var _ := o.UpsertEdge(e);
    }
  }
}
