// Consistency of the data with its axioms: disjoint classes, functional edges, subclass cycles.

module Consistency {
  import opened Core
  import opened Walks

  datatype Finding =
    | HoldsDisjoint(node: NodeId, left: string, right: string)
    | ManyTargets(edge: EdgeId)
    | SubclassCycle(cls: string)

  // ----- Cycles -----

  // A non-empty walk from the class back to itself.
  ghost predicate OnCycle(g: Links, n: string) {
    exists m | m in Parents(g, n) :: Reaches(g, m, n)
  }

  // A walk out of `a` that ends in a parent of its last class goes on from a parent of `a`.
  lemma CycleFound(g: Links, start: string, n: string)
    requires Reaches(g, start, n) && start in Parents(g, n)
    ensures OnCycle(g, start)
  {
    var p :| LinkPath(g, p) && p[0] == start && p[|p| - 1] == n;
    var q := p + [start];
    var m := q[1];
    assert forall i | 0 <= i < |p| - 1 :: p[i + 1] in Parents(g, p[i]);
    forall i | 0 <= i < |q| - 1 ensures q[i + 1] in Parents(g, q[i]) {
      assert i < |p| - 1 ==> q[i + 1] == p[i + 1] && q[i] == p[i];
    }
    assert LinkPath(g, q[1..]) by {
      assert forall i | 0 <= i < |q[1..]| :: q[1..][i] == q[i + 1];
    }
    assert q[0 + 1] in Parents(g, q[0]);
    assert q[1..][0] == m && q[1..][|q[1..]| - 1] == start;
    assert Reaches(g, m, start);
  }

  // A closed set of visited classes, none of which has `start` for a parent, rules a cycle out.
  lemma NoCycle(g: Links, start: string, seen: set<string>)
    requires start in seen && forall n | n in seen :: forall c | c in Parents(g, n) :: c in seen && c != start
    ensures !OnCycle(g, start)
  {
    forall m | m in Parents(g, start) ensures !Reaches(g, m, start) {
      forall p | LinkPath(g, p) && p[0] == m ensures p[|p| - 1] != start {
        NeverBack(g, start, seen, p);
      }
    }
  }

  lemma {:induction false} NeverBack(g: Links, start: string, seen: set<string>, p: seq<string>)
    requires forall n | n in seen :: forall c | c in Parents(g, n) :: c in seen && c != start
    requires LinkPath(g, p) && p[0] in seen && p[0] != start
    ensures p[|p| - 1] in seen && p[|p| - 1] != start
    decreases |p|
  {
    if |p| > 1 {
      var q := p[..|p| - 1];
      assert forall i | 0 <= i < |q| :: q[i] == p[i];
      NeverBack(g, start, seen, q);
      assert p[|p| - 2 + 1] in Parents(g, q[|q| - 1]);
    }
  }

  // Visited classes are reachable, and their parents are visited or waiting and are not `start`.
  ghost predicate Searched(g: Links, start: string, stack: seq<string>, seen: set<string>) {
    && (start in seen || start in stack)
    && (forall n | n in stack || n in seen :: Reaches(g, start, n))
    && (forall n | n in seen :: forall c | c in Parents(g, n) :: (c in seen || c in stack) && c != start)
  }

  ghost function Everything(g: Links, start: string): set<string> {
    {start} + (set t, n | t in g.Keys && n in g[t] :: n)
  }

  lemma Popped(g: Links, start: string, stack: seq<string>, seen: set<string>)
    requires Searched(g, start, stack, seen) && stack != [] && stack[|stack| - 1] in seen
    ensures Searched(g, start, stack[..|stack| - 1], seen)
  {
    hide Reaches;
    assert stack == stack[..|stack| - 1] + [stack[|stack| - 1]];
  }

  lemma Expanded(g: Links, start: string, stack: seq<string>, seen: set<string>)
    requires Searched(g, start, stack, seen) && stack != []
    requires start !in Parents(g, stack[|stack| - 1])
    ensures var n := stack[|stack| - 1]; Searched(g, start, stack[..|stack| - 1] + Parents(g, n), seen + {n})
  {
    hide Reaches;
    var n := stack[|stack| - 1];
    var rest := stack[..|stack| - 1];
    assert stack == rest + [n];
    forall c | c in Parents(g, n) ensures Reaches(g, start, c) {
      ReachesFurther(g, start, n, c);
    }
    assert forall x :: x in rest + Parents(g, n) <==> x in rest || x in Parents(g, n);
  }

  lemma InEverything(g: Links, start: string, n: string)
    requires Reaches(g, start, n)
    ensures n in Everything(g, start)
  {
    var p :| LinkPath(g, p) && p[0] == start && p[|p| - 1] == n;
    if |p| > 1 {
      assert p[|p| - 2 + 1] in Parents(g, p[|p| - 2]);
    }
  }

  lemma Shrinks(all: set<string>, seen: set<string>, n: string)
    requires n in all && n !in seen
    ensures |all - (seen + {n})| < |all - seen|
  {
    assert all - seen == (all - (seen + {n})) + {n};
  }

  // `has_cycle`
  method HasCycle(start: string, g: Links) returns (r: bool)
    ensures r <==> OnCycle(g, start)
  {
    hide Searched, Reaches, OnCycle, Everything;
    var stack := [start];
    var seen: set<string> := {};
    ghost var all := Everything(g, start);
    SearchBegins(g, start);
    while stack != []
      invariant Searched(g, start, stack, seen)
      decreases |all - seen|, |stack|
    {
      var n := stack[|stack| - 1];
      SearchedMeans(g, start, stack, seen, n);
      if n in seen {
        Popped(g, start, stack, seen);
        stack := stack[..|stack| - 1];
        continue;
      }
      InEverything(g, start, n);
      Shrinks(all, seen, n);
      if start !in Parents(g, n) {
        Expanded(g, start, stack, seen);
      }
      stack := stack[..|stack| - 1];
      seen := seen + {n};
      if n in g {
        var found;
        found, stack := PushUps(start, g[n], stack);
        if found {
          CycleFound(g, start, n);
          return true;
        }
      } else {
        assert stack + [] == stack;
      }
    }
    SearchEnds(g, start, seen);
    r := false;
  }

  lemma SearchBegins(g: Links, start: string)
    ensures Searched(g, start, [start], {})
  {
    ReachesSelf(g, start);
  }

  lemma SearchedMeans(g: Links, start: string, stack: seq<string>, seen: set<string>, n: string)
    requires Searched(g, start, stack, seen) && n in stack
    ensures Reaches(g, start, n)
  {
  }

  lemma SearchEnds(g: Links, start: string, seen: set<string>)
    requires Searched(g, start, [], seen)
    ensures !OnCycle(g, start)
  {
    hide OnCycle, Reaches;
    NoCycle(g, start, seen);
  }

  // The inner loop of `has_cycle`.
  method PushUps(start: string, ups: seq<string>, from: seq<string>) returns (found: bool, stack: seq<string>)
    ensures found <==> start in ups
    ensures !found ==> stack == from + ups
  {
    stack := from;
    for i := 0 to |ups|
      invariant start !in ups[..i] && stack == from + ups[..i]
    {
      if ups[i] == start {
        return true, stack;
      }
      stack := stack + [ups[i]];
      assert ups[..i + 1] == ups[..i] + [ups[i]];
    }
    assert ups[..|ups|] == ups;
    found := false;
  }

  // ----- The whole check -----

  function Pairs(axioms: seq<Axiom>): seq<(string, string)>
    decreases |axioms|
  {
    if axioms == [] then []
    else
      var before, a := Pairs(axioms[..|axioms| - 1]), axioms[|axioms| - 1].kind;
      if a.DisjointWith? then before + [(a.left, a.right)] else before
  }

  function FunctionalLabels(axioms: seq<Axiom>): set<string> {
    set i | 0 <= i < |axioms| && axioms[i].kind.Functional? :: axioms[i].kind.property
  }

  // The superclasses listed for each class, in the order of the axioms.
  function SubclassLinks(axioms: seq<Axiom>): Links
    decreases |axioms|
  {
    if axioms == [] then map[]
    else
      var before, a := SubclassLinks(axioms[..|axioms| - 1]), axioms[|axioms| - 1].kind;
      if a.SubClassOf? then before[a.sub := Parents(before, a.sub) + [a.sup]] else before
  }

  lemma {:induction false} PairsExact(axioms: seq<Axiom>, l: string, r: string)
    ensures (l, r) in Pairs(axioms) <==> exists i | 0 <= i < |axioms| :: axioms[i].kind == DisjointWith(l, r)
    decreases |axioms|
  {
    if axioms != [] {
      var before := axioms[..|axioms| - 1];
      PairsExact(before, l, r);
      assert forall i | 0 <= i < |before| :: before[i] == axioms[i];
      assert axioms[|axioms| - 1].kind == DisjointWith(l, r) ==> (l, r) in Pairs(axioms);
      assert (l, r) in Pairs(axioms) && axioms[|axioms| - 1].kind != DisjointWith(l, r) ==> (l, r) in Pairs(before);
    }
  }

  lemma {:induction false} LinksExact(axioms: seq<Axiom>, sub: string, sup: string)
    ensures sup in Parents(SubclassLinks(axioms), sub)
            <==> exists i | 0 <= i < |axioms| :: axioms[i].kind == SubClassOf(sub, sup)
    ensures sub in SubclassLinks(axioms) ==> SubclassLinks(axioms)[sub] != []
    decreases |axioms|
  {
    if axioms != [] {
      var before := axioms[..|axioms| - 1];
      LinksExact(before, sub, sup);
      assert forall i | 0 <= i < |before| :: before[i] == axioms[i];
      assert axioms[|axioms| - 1].kind == SubClassOf(sub, sup) ==> sup in Parents(SubclassLinks(axioms), sub);
      assert sup in Parents(SubclassLinks(axioms), sub) && axioms[|axioms| - 1].kind != SubClassOf(sub, sup)
             ==> sup in Parents(SubclassLinks(before), sub);
    }
  }

  ghost predicate BreaksDisjoint(nodes: seq<Node>, pairs: seq<(string, string)>, f: Finding) {
    exists i, j | 0 <= i < |nodes| && 0 <= j < |pairs| ::
      pairs[j].0 in nodes[i].types && pairs[j].1 in nodes[i].types
          && f == HoldsDisjoint(nodes[i].id, pairs[j].0, pairs[j].1)
  }

  method DisjointCheck(nodes: seq<Node>, pairs: seq<(string, string)>) returns (fs: seq<Finding>)
    ensures forall f :: f in fs <==> BreaksDisjoint(nodes, pairs, f)
  {
    fs := [];
    for i := 0 to |nodes|
      invariant forall f :: f in fs <==> BreaksDisjoint(nodes[..i], pairs, f)
    {
      hide BreaksDisjoint;
      ghost var before := fs;
      for j := 0 to |pairs|
        invariant forall f :: f in fs <==> f in before || BreaksDisjoint([nodes[i]], pairs[..j], f)
      {
        var (a, b) := pairs[j];
        DisjointPair(nodes[i], pairs, j);
        if a in nodes[i].types && b in nodes[i].types {
          fs := fs + [HoldsDisjoint(nodes[i].id, a, b)];
        }
      }
      assert pairs[..|pairs|] == pairs;
      DisjointNode(nodes, pairs, i);
    }
    assert nodes[..|nodes|] == nodes;
  }

  lemma DisjointPair(n: Node, pairs: seq<(string, string)>, j: nat)
    requires j < |pairs|
    ensures forall f :: !BreaksDisjoint([n], pairs[..0], f)
    ensures forall f :: BreaksDisjoint([n], pairs[..j + 1], f)
                        <==> BreaksDisjoint([n], pairs[..j], f)
                             || (pairs[j].0 in n.types && pairs[j].1 in n.types
                                && f == HoldsDisjoint(n.id, pairs[j].0, pairs[j].1))
  {
    var one, all := [n], pairs[..j + 1];
    assert one[0] == n && all[j] == pairs[j];
    assert forall k | 0 <= k < j :: all[k] == pairs[..j][k];
    forall f | BreaksDisjoint(one, all, f) && !BreaksDisjoint(one, pairs[..j], f)
      ensures pairs[j].0 in n.types && pairs[j].1 in n.types && f == HoldsDisjoint(n.id, pairs[j].0, pairs[j].1)
    {
      var i, k :| 0 <= i < |one| && 0 <= k < |all| && all[k].0 in one[i].types && all[k].1 in one[i].types
                  && f == HoldsDisjoint(one[i].id, all[k].0, all[k].1);
    }
    forall f | BreaksDisjoint(one, pairs[..j], f) ensures BreaksDisjoint(one, all, f) {
      var i, k :| 0 <= i < |one| && 0 <= k < j && pairs[..j][k].0 in one[i].types && pairs[..j][k].1 in one[i].types
                  && f == HoldsDisjoint(one[i].id, pairs[..j][k].0, pairs[..j][k].1);
      assert all[k] == pairs[..j][k];
    }
  }

  lemma DisjointNode(nodes: seq<Node>, pairs: seq<(string, string)>, i: nat)
    requires i < |nodes|
    ensures forall f :: BreaksDisjoint(nodes[..i + 1], pairs, f)
                        <==> BreaksDisjoint(nodes[..i], pairs, f) || BreaksDisjoint([nodes[i]], pairs, f)
  {
    assert nodes[..i + 1] == nodes[..i] + [nodes[i]];
    assert forall k | 0 <= k < i :: nodes[..i + 1][k] == nodes[..i][k];
    assert nodes[..i + 1][i] == [nodes[i]][0];
  }

  // An edge with a functional label and an earlier edge with the same label and source.
  ghost predicate SecondTarget(edges: seq<Edge>, functional: set<string>, j: nat)
    requires j < |edges|
  {
    edges[j].relation in functional
    && exists i | 0 <= i < j :: edges[i].relation == edges[j].relation && edges[i].source == edges[j].source
  }

  ghost predicate BreaksFunctional(edges: seq<Edge>, functional: set<string>, f: Finding) {
    exists j | 0 <= j < |edges| :: SecondTarget(edges, functional, j) && f == ManyTargets(edges[j].id)
  }

  method FunctionalCheck(edges: seq<Edge>, functional: set<string>) returns (fs: seq<Finding>)
    ensures forall f :: f in fs <==> BreaksFunctional(edges, functional, f)
  {
    fs := [];
    var bySource: map<(string, NodeId), nat> := map[];
    for j := 0 to |edges|
      invariant forall k :: k in bySource
                            <==> exists i | 0 <= i < j ::
                                edges[i].relation in functional && (edges[i].relation, edges[i].source) == k
      invariant forall k | k in bySource :: bySource[k] >= 1
      invariant forall f :: f in fs
                            <==> exists i | 0 <= i < j ::
                                SecondTarget(edges, functional, i) && f == ManyTargets(edges[i].id)
    {
      var e := edges[j];
      if e.relation in functional {
        var key := (e.relation, e.source);
        var counter := (if key in bySource then bySource[key] else 0) + 1;
        bySource := bySource[key := counter];
        if counter > 1 {
          fs := fs + [ManyTargets(e.id)];
        }
      }
    }
  }

  method CycleCheck(g: Links) returns (fs: seq<Finding>)
    ensures forall f :: f in fs <==> f.SubclassCycle? && f.cls in g && OnCycle(g, f.cls)
  {
    hide OnCycle;
    fs := [];
    var left := g.Keys;
    while left != {}
      invariant left <= g.Keys
      invariant forall f :: f in fs <==> f.SubclassCycle? && f.cls in g && f.cls !in left && OnCycle(g, f.cls)
      decreases left
    {
      var start :| start in left;
      left := left - {start};
      var cyclic := HasCycle(start, g);
      if cyclic {
        fs := fs + [SubclassCycle(start)];
      }
    }
  }

  method Collect(axioms: seq<Axiom>) returns (pairs: seq<(string, string)>, functional: set<string>, links: Links)
    ensures pairs == Pairs(axioms) && functional == FunctionalLabels(axioms) && links == SubclassLinks(axioms)
  {
    pairs, functional, links := [], {}, map[];
    for i := 0 to |axioms|
      invariant pairs == Pairs(axioms[..i]) && links == SubclassLinks(axioms[..i])
      invariant functional == FunctionalLabels(axioms[..i])
    {
      assert axioms[..i + 1][..i] == axioms[..i];
      assert FunctionalLabels(axioms[..i + 1])
             == FunctionalLabels(axioms[..i])
                + (if axioms[i].kind.Functional? then {axioms[i].kind.property} else {}) by {
        assert forall k | 0 <= k < i :: axioms[..i + 1][k] == axioms[..i][k];
        assert axioms[..i + 1][i] == axioms[i];
      }
      match axioms[i].kind {
        case DisjointWith(l, r) => pairs := pairs + [(l, r)];
        case Functional(p) => functional := functional + {p};
        case SubClassOf(sub, sup) => links := links[sub := (if sub in links then links[sub] else []) + [sup]];
        case _ =>
      }
    }
    assert axioms[..|axioms|] == axioms;
  }

  // `check_consistency`: the report lists exactly the violations.
  method CheckConsistency(axioms: seq<Axiom>, nodes: seq<Node>, edges: seq<Edge>) returns (report: seq<Finding>)
    ensures forall f :: f in report
                        <==> || BreaksDisjoint(nodes, Pairs(axioms), f)
                             || BreaksFunctional(edges, FunctionalLabels(axioms), f)
                             || (f.SubclassCycle? && OnCycle(SubclassLinks(axioms), f.cls))
    ensures report == [] <==> Consistent(axioms, nodes, edges)
  {
    hide OnCycle, BreaksDisjoint, BreaksFunctional, Consistent;
    var pairs, functional, links := Collect(axioms);
    var disjoint := DisjointCheck(nodes, pairs);
    var many := FunctionalCheck(edges, functional);
    var cycles := CycleCheck(links);
    report := disjoint + many + cycles;
    CyclesHaveLinks(links);
    ConsistentExact(axioms, nodes, edges, report);
  }

  lemma CyclesHaveLinks(g: Links)
    ensures forall c | OnCycle(g, c) :: c in g
  {
  }

  ghost predicate HasAxiom(axioms: seq<Axiom>, kind: AxiomKind) {
    exists i | 0 <= i < |axioms| :: axioms[i].kind == kind
  }

  // A closed chain of subclass axioms from the class to itself.
  ghost predicate SubclassChain(axioms: seq<Axiom>, p: seq<string>, c: string) {
    && |p| >= 2 && p[0] == c && p[|p| - 1] == c
    && forall i | 0 <= i < |p| - 1 :: HasAxiom(axioms, SubClassOf(p[i], p[i + 1]))
  }

  lemma CycleMeans(axioms: seq<Axiom>, c: string)
    ensures OnCycle(SubclassLinks(axioms), c) <==> exists p :: SubclassChain(axioms, p, c)
  {
    hide SubclassLinks, Parents;
    var g := SubclassLinks(axioms);
    forall a, b ensures b in Parents(g, a) <==> HasAxiom(axioms, SubClassOf(a, b)) {
      LinksExact(axioms, a, b);
    }
    if m :| m in Parents(g, c) && Reaches(g, m, c) {
      var q :| LinkPath(g, q) && q[0] == m && q[|q| - 1] == c;
      var p := [c] + q;
      forall i | 0 <= i < |p| - 1 ensures HasAxiom(axioms, SubClassOf(p[i], p[i + 1])) {
        assert i > 0 ==> p[i] == q[i - 1] && p[i + 1] == q[i - 1 + 1];
      }
      assert SubclassChain(axioms, p, c);
    }
    if p :| SubclassChain(axioms, p, c) {
      var q := p[1..];
      assert HasAxiom(axioms, SubClassOf(p[0], p[0 + 1]));
      forall i | 0 <= i < |q| - 1 ensures q[i + 1] in Parents(g, q[i]) {
        assert q[i] == p[i + 1] && q[i + 1] == p[i + 1 + 1];
      }
      assert LinkPath(g, q) && q[0] == p[1] && q[|q| - 1] == c;
    }
  }

  // No node of two disjoint types, no functional label twice from one source, no subclass cycle.
  ghost predicate Consistent(axioms: seq<Axiom>, nodes: seq<Node>, edges: seq<Edge>) {
    && (forall i, l, r | 0 <= i < |nodes| && HasAxiom(axioms, DisjointWith(l, r)) ::
       !(l in nodes[i].types && r in nodes[i].types))
    && (forall i, j | 0 <= i < j < |edges| && HasAxiom(axioms, Functional(edges[j].relation)) ::
          edges[i].relation != edges[j].relation || edges[i].source != edges[j].source)
    && (forall c :: !OnCycle(SubclassLinks(axioms), c))
  }

  ghost predicate Violation(axioms: seq<Axiom>, nodes: seq<Node>, edges: seq<Edge>, f: Finding) {
    || BreaksDisjoint(nodes, Pairs(axioms), f)
    || BreaksFunctional(edges, FunctionalLabels(axioms), f)
    || (f.SubclassCycle? && OnCycle(SubclassLinks(axioms), f.cls))
  }

  lemma ConsistentExact(axioms: seq<Axiom>, nodes: seq<Node>, edges: seq<Edge>, report: seq<Finding>)
    requires forall f :: f in report <==> Violation(axioms, nodes, edges, f)
    ensures report == [] <==> Consistent(axioms, nodes, edges)
  {
    hide OnCycle, BreaksDisjoint, BreaksFunctional, Consistent;
    if report == [] {
      CleanIsConsistent(axioms, nodes, edges);
    } else {
      assert report[0] in report;
      ViolationBreaks(axioms, nodes, edges, report[0]);
    }
  }

  lemma ViolationBreaks(axioms: seq<Axiom>, nodes: seq<Node>, edges: seq<Edge>, f: Finding)
    requires Violation(axioms, nodes, edges, f)
    ensures !Consistent(axioms, nodes, edges)
  {
    hide OnCycle, Pairs, SubclassLinks;
    if BreaksDisjoint(nodes, Pairs(axioms), f) {
      var i, j :| 0 <= i < |nodes| && 0 <= j < |Pairs(axioms)| && Pairs(axioms)[j].0 in nodes[i].types
                  && Pairs(axioms)[j].1 in nodes[i].types;
      var (l, r) := Pairs(axioms)[j];
      PairsExact(axioms, l, r);
      assert HasAxiom(axioms, DisjointWith(l, r));
    } else if BreaksFunctional(edges, FunctionalLabels(axioms), f) {
      var j :| 0 <= j < |edges| && SecondTarget(edges, FunctionalLabels(axioms), j);
      assert HasAxiom(axioms, Functional(edges[j].relation));
    }
  }

  lemma CleanIsConsistent(axioms: seq<Axiom>, nodes: seq<Node>, edges: seq<Edge>)
    requires forall f :: !Violation(axioms, nodes, edges, f)
    ensures Consistent(axioms, nodes, edges)
  {
    hide OnCycle, Pairs, SubclassLinks;
    var links := SubclassLinks(axioms);
    forall c ensures !OnCycle(links, c) {
      assert !Violation(axioms, nodes, edges, SubclassCycle(c));
    }
    forall i, l, r | 0 <= i < |nodes| && HasAxiom(axioms, DisjointWith(l, r))
      ensures !(l in nodes[i].types && r in nodes[i].types)
    {
      PairsExact(axioms, l, r);
      var j :| 0 <= j < |Pairs(axioms)| && Pairs(axioms)[j] == (l, r);
      assert !Violation(axioms, nodes, edges, HoldsDisjoint(nodes[i].id, l, r));
    }
    forall i, j | 0 <= i < j < |edges| && HasAxiom(axioms, Functional(edges[j].relation))
      ensures edges[i].relation != edges[j].relation || edges[i].source != edges[j].source
    {
      assert !Violation(axioms, nodes, edges, ManyTargets(edges[j].id));
      assert edges[j].relation in FunctionalLabels(axioms);
      assert !SecondTarget(edges, FunctionalLabels(axioms), j);
    }
  }
}
