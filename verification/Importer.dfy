// The two-pass projection of imported triples onto nodes and edges.

module Importer {
  import opened Wrappers
  import opened Core
  import opened Rdf
  import opened SchemaTypes

  datatype ClassSpec = ClassSpec(iri: string, local: string)

  datatype DataSpec = DataSpec(iri: string, local: string, datatyp: Datatype)

  datatype ObjectSpec = ObjectSpec(iri: string, local: string)

  // A vocabulary, the content address of IRIs, and the reading of literals.
  datatype Mapping = Mapping(
    classes: seq<ClassSpec>, data: seq<DataSpec>, objects: seq<ObjectSpec>, fallback: Option<string>,
    address: string -> NodeId, literal: (Datatype, string) -> PropertyValue)

  // The content address takes different IRIs to different ids.
  ghost predicate Addressable(m: Mapping) {
    forall a, b | m.address(a) == m.address(b) :: a == b
  }

  function ClassOf(classes: seq<ClassSpec>, iri: string): Option<string> {
    if classes == [] then None else if classes[0].iri == iri then Some(classes[0].local) else ClassOf(classes[1..], iri)
  }

  function DataOf(specs: seq<DataSpec>, iri: string): Option<DataSpec> {
    if specs == [] then None else if specs[0].iri == iri then Some(specs[0]) else DataOf(specs[1..], iri)
  }

  function ObjectOf(specs: seq<ObjectSpec>, iri: string): Option<ObjectSpec> {
    if specs == [] then None else if specs[0].iri == iri then Some(specs[0]) else ObjectOf(specs[1..], iri)
  }

  // ----- Pass 1: the types of subjects -----

  // The subject and label a triple types: its object must be a recognised class, whatever its predicate.
  function Typing(m: Mapping, t: Triple): Option<(string, string)> {
    if t.subj.IriSubject? && t.obj.IriObject? && ClassOf(m.classes, t.obj.iri).Some?
    then Some((t.subj.iri, ClassOf(m.classes, t.obj.iri).value))
    else None
  }

  type Labels = map<string, seq<string>>

  function WithLabel(ls: Labels, subj: string, local: string): Labels {
    var before := if subj in ls then ls[subj] else [];
    ls[subj := if local in before then before else before + [local]]
  }

  function LabelsOf(m: Mapping, ts: seq<Triple>): Labels
    decreases |ts|
  {
    if ts == [] then map[]
    else
      var before, x := LabelsOf(m, ts[..|ts| - 1]), Typing(m, ts[|ts| - 1]);
      if x.Some? then WithLabel(before, x.value.0, x.value.1) else before
  }

  // A subject carries exactly the recognised labels some triple gives it.
  lemma {:induction false} LabelsExact(m: Mapping, ts: seq<Triple>, iri: string)
    ensures iri in LabelsOf(m, ts) <==> exists i, l | 0 <= i < |ts| :: Typing(m, ts[i]) == Some((iri, l))
    ensures iri in LabelsOf(m, ts) ==> LabelsOf(m, ts)[iri] != []
    ensures iri in LabelsOf(m, ts) ==>
              forall l :: l in LabelsOf(m, ts)[iri] <==> exists i | 0 <= i < |ts| :: Typing(m, ts[i]) == Some((iri, l))
    decreases |ts|
  {
    hide Typing;
    if ts != [] {
      var before := ts[..|ts| - 1];
      LabelsExact(m, before, iri);
      assert forall i | 0 <= i < |before| :: before[i] == ts[i];
      var x := Typing(m, ts[|ts| - 1]);
      assert forall l | x == Some((iri, l)) :: l in LabelsOf(m, ts)[iri];
      assert iri in LabelsOf(m, before) ==> forall l | l in LabelsOf(m, before)[iri] :: l in LabelsOf(m, ts)[iri];
      if iri in LabelsOf(m, ts) {
        forall l | l in LabelsOf(m, ts)[iri] ensures exists i | 0 <= i < |ts| :: Typing(m, ts[i]) == Some((iri, l)) {
          if x != Some((iri, l)) {
            assert iri in LabelsOf(m, before) && l in LabelsOf(m, before)[iri];
          }
        }
      }
    }
  }

  lemma {:induction false} LabelsOnce(m: Mapping, ts: seq<Triple>, iri: string)
    requires iri in LabelsOf(m, ts)
    ensures forall i, j | 0 <= i < j < |LabelsOf(m, ts)[iri]| :: LabelsOf(m, ts)[iri][i] != LabelsOf(m, ts)[iri][j]
    decreases |ts|
  {
    hide Typing;
    if ts != [] && iri in LabelsOf(m, ts[..|ts| - 1]) {
      LabelsOnce(m, ts[..|ts| - 1], iri);
    }
  }

  // ----- Pass 2: one triple -----

  // Nodes by IRI, and edges.
  datatype Abox = Abox(nodes: map<string, Node>, edges: set<Edge>)

  function TypesFor(ls: Labels, iri: string, fallback: Option<string>): Option<seq<string>> {
    if iri in ls && ls[iri] != [] then Some(ls[iri]) else if fallback.Some? then Some([fallback.value]) else None
  }

  function Merged(types: seq<string>, more: seq<string>): seq<string>
    decreases |more|
  {
    if more == [] then types
    else
      var before, last := Merged(types, more[..|more| - 1]), more[|more| - 1];
      if last in before then before else before + [last]
  }

  // `ensure_node`, where the types are known.
  function Ensured(m: Mapping, nodes: map<string, Node>, iri: string, types: seq<string>): map<string, Node> {
    if iri in nodes then nodes[iri := nodes[iri].(types := Merged(nodes[iri].types, types))]
    else nodes[iri := Node(m.address(iri), Some(iri), types, map[])]
  }

  function ValueOf(m: Mapping, spec: DataSpec, o: Object): Option<PropertyValue> {
    match o
    case Literal(lexical, _, _) => Some(m.literal(spec.datatyp, lexical))
    case IriObject(iri) => if spec.datatyp.AnyUri? then Some(IriValue(iri)) else None
    case BlankObject(_) => None
  }

  // What a triple asks for.
  datatype Action =
    | Skip
    | SetProperty(subj: string, local: string, value: PropertyValue)
    | Link(subj: string, local: string, obj: string)

  function ActionOf(m: Mapping, t: Triple): Action {
    if t.pred == RDF_TYPE || !t.subj.IriSubject? then Skip
    else if DataOf(m.data, t.pred).Some? then
      var spec := DataOf(m.data, t.pred).value;
      var value := ValueOf(m, spec, t.obj);
      if value.Some? then SetProperty(t.subj.iri, spec.local, value.value) else Skip
    else if ObjectOf(m.objects, t.pred).Some? && t.obj.IriObject? then
      Link(t.subj.iri, ObjectOf(m.objects, t.pred).value.local, t.obj.iri)
    else Skip
  }

  function WithProperty(nodes: map<string, Node>, iri: string, local: string, value: PropertyValue): map<string, Node>
    requires iri in nodes
  {
    nodes[iri := nodes[iri].(properties := nodes[iri].properties[local := value])]
  }

  function Performed(m: Mapping, ls: Labels, a: Abox, act: Action): Abox {
    match act
    case Skip => a
    case SetProperty(s, local, value) =>
      var types := TypesFor(ls, s, None);
      if types.None? then a else a.(nodes := WithProperty(Ensured(m, a.nodes, s, types.value), s, local, value))
    case Link(s, local, o) =>
      var types := TypesFor(ls, s, None);
      if types.None? then a
      else
        var withSource, target := Ensured(m, a.nodes, s, types.value), TypesFor(ls, o, m.fallback);
        if target.None? then a.(nodes := withSource)
        else Abox(Ensured(m, withSource, o, target.value), a.edges + {Between(m.address(s), local, m.address(o))})
  }

  function TypedNodes(m: Mapping, ls: Labels): map<string, Node> {
    map iri | iri in ls :: Node(m.address(iri), Some(iri), ls[iri], map[])
  }

  function Projected(m: Mapping, ls: Labels, ts: seq<Triple>): Abox
    decreases |ts|
  {
    if ts == [] then Abox(TypedNodes(m, ls), {})
    else Performed(m, ls, Projected(m, ls, ts[..|ts| - 1]), ActionOf(m, ts[|ts| - 1]))
  }

  // ----- As it runs -----

  // The ontology holds exactly the nodes and edges of the A-Box, under their ids.
  ghost predicate Holds(m: Mapping, a: Abox, nodes: map<NodeId, Node>, edges: map<EdgeId, Edge>) {
    && HoldsNodes(m, a.nodes, nodes)
    && HoldsEdges(a.edges, edges)
  }

  ghost predicate HoldsNodes(m: Mapping, spec: map<string, Node>, nodes: map<NodeId, Node>) {
    && (forall iri | iri in spec ::
       spec[iri].id == m.address(iri) && m.address(iri) in nodes && nodes[m.address(iri)] == spec[iri])
    && (forall id | id in nodes :: exists iri :: iri in spec && m.address(iri) == id)
  }

  ghost predicate HoldsEdges(spec: set<Edge>, edges: map<EdgeId, Edge>) {
    && (forall e | e in spec :: e == Between(e.source, e.relation, e.target) && e.id in edges && edges[e.id] == e)
    && (forall id | id in edges :: edges[id] in spec && edges[id].id == id)
  }

  lemma HoldsUpsert(m: Mapping, spec: map<string, Node>, nodes: map<NodeId, Node>, iri: string, node: Node)
    requires Addressable(m) && HoldsNodes(m, spec, nodes) && node.id == m.address(iri)
    ensures HoldsNodes(m, spec[iri := node], nodes[node.id := node])
  {
    var next, stored := spec[iri := node], nodes[node.id := node];
    forall id | id in stored ensures exists x :: x in next && m.address(x) == id {
      if id == node.id {
        assert iri in next && m.address(iri) == id;
      } else {
        var x :| x in spec && m.address(x) == id;
        assert x in next;
      }
    }
  }

  class Projection {
    const m: Mapping
    const ontology: Ontology

    constructor (m: Mapping, ontology: Ontology)
      ensures this.m == m && this.ontology == ontology
    {
      this.m, this.ontology := m, ontology;
    }

    method CollectTypes(ts: seq<Triple>) returns (ls: Labels)
      ensures ls == LabelsOf(m, ts)
    {
      ls := map[];
      for i := 0 to |ts|
        invariant ls == LabelsOf(m, ts[..i])
      {
        assert ts[..i + 1][..i] == ts[..i];
        var t := ts[i];
        if t.subj.IriSubject? && t.obj.IriObject? {
          var found := ClassOf(m.classes, t.obj.iri);
          if found.Some? {
            var entry := if t.subj.iri in ls then ls[t.subj.iri] else [];
            if found.value !in entry {
              entry := entry + [found.value];
            }
            ls := ls[t.subj.iri := entry];
          }
        }
      }
      assert ts[..|ts|] == ts;
    }

    method MergeTypes(types: seq<string>, more: seq<string>) returns (r: seq<string>)
      ensures r == Merged(types, more)
    {
      r := types;
      for i := 0 to |more|
        invariant r == Merged(types, more[..i])
      {
        assert more[..i + 1][..i] == more[..i];
        if more[i] !in r {
          r := r + [more[i]];
        }
      }
      assert more[..|more|] == more;
    }

    // `ensure_node`
    method EnsureNode(ls: Labels, iri: string, fallback: Option<string>, ghost spec: map<string, Node>)
      returns (id: Option<NodeId>)
      requires Addressable(m) && HoldsNodes(m, spec, ontology.nodes)
      modifies ontology`nodes
      ensures var types := TypesFor(ls, iri, fallback);
              if types.None? then id == None && ontology.nodes == old(ontology.nodes)
              else id == Some(m.address(iri)) && HoldsNodes(m, Ensured(m, spec, iri, types.value), ontology.nodes)
    {
      hide HoldsNodes, Merged;
      var types := if iri in ls && ls[iri] != [] then ls[iri] else if fallback.Some? then [fallback.value] else [];
      if types == [] {
        return None;
      }
      var node := Node(m.address(iri), Some(iri), types, map[]);
      NodeHeld(m, spec, ontology.nodes, iri);
      if node.id in ontology.nodes {
        var merged := ontology.nodes[node.id];
        var all := MergeTypes(merged.types, types);
        node := merged.(types := all);
      }
      HoldsUpsert(m, spec, ontology.nodes, iri, node);
      var stored := ontology.UpsertNode(node);
      id := Some(stored);
    }

    // One triple of the second pass.
    method Perform(ls: Labels, act: Action, ghost a: Abox)
      requires Addressable(m) && Holds(m, a, ontology.nodes, ontology.edges)
      modifies ontology`nodes, ontology`edges
      ensures Holds(m, Performed(m, ls, a, act), ontology.nodes, ontology.edges)
    {
      hide HoldsNodes, HoldsEdges, Merged;
      match act {
        case Skip =>
        case SetProperty(s, local, value) =>
          var id := EnsureNode(ls, s, None, a.nodes);
          if id.Some? {
            ghost var spec := Ensured(m, a.nodes, s, TypesFor(ls, s, None).value);
            NodeHeld(m, spec, ontology.nodes, s);
            var node := ontology.nodes[id.value];
            var updated := node.(properties := node.properties[local := value]);
            HoldsUpsert(m, spec, ontology.nodes, s, updated);
            var _ := ontology.UpsertNode(updated);
          }
        case Link(s, local, o) =>
          var source := EnsureNode(ls, s, None, a.nodes);
          if source.Some? {
            ghost var spec := Ensured(m, a.nodes, s, TypesFor(ls, s, None).value);
            var target := EnsureNode(ls, o, m.fallback, spec);
            if target.Some? {
              var e := Between(source.value, local, target.value);
              HoldsEdge(a.edges, ontology.edges, e);
              var _ := ontology.UpsertEdge(e);
            }
          }
      }
    }

    // `project`, on an ontology without nodes and edges
    method Project(ts: seq<Triple>)
      requires Addressable(m) && ontology.nodes == map[] && ontology.edges == map[]
      modifies ontology`nodes, ontology`edges
      ensures Holds(m, Projected(m, LabelsOf(m, ts), ts), ontology.nodes, ontology.edges)
    {
      hide HoldsNodes, HoldsEdges, LabelsOf, Performed, ActionOf;
      var ls := CollectTypes(ts);
      CreateTyped(ls, ts);
      NoEdges(ontology.edges);
      for i := 0 to |ts|
        invariant Holds(m, Projected(m, ls, ts[..i]), ontology.nodes, ontology.edges)
      {
        assert ts[..i + 1][..i] == ts[..i];
        Perform(ls, ActionOf(m, ts[i]), Projected(m, ls, ts[..i]));
      }
      assert ts[..|ts|] == ts;
    }

    // The typed subjects, in some order.
    method CreateTyped(ls: Labels, ghost ts: seq<Triple>)
      requires Addressable(m) && ontology.nodes == map[] && ls == LabelsOf(m, ts)
      modifies ontology`nodes
      ensures HoldsNodes(m, TypedNodes(m, ls), ontology.nodes)
    {
      hide LabelsOf, Ensured;
      var left := ls.Keys;
      ghost var spec: map<string, Node> := map[];
      while left != {}
        invariant left <= ls.Keys && spec == map iri | iri in ls && iri !in left :: TypedNodes(m, ls)[iri]
        invariant HoldsNodes(m, spec, ontology.nodes)
        decreases left
      {
        hide HoldsNodes;
        var iri :| iri in left;
        LabelsExact(m, ts, iri);
        ghost var next := Ensured(m, spec, iri, ls[iri]);
        FreshEnsured(m, spec, iri, ls[iri]);
        var _ := EnsureNode(ls, iri, None, spec);
        spec := next;
        left := left - {iri};
      }
      assert spec == TypedNodes(m, ls);
    }
  }

  lemma FreshEnsured(m: Mapping, nodes: map<string, Node>, iri: string, types: seq<string>)
    requires iri !in nodes
    ensures Ensured(m, nodes, iri, types) == nodes[iri := Node(m.address(iri), Some(iri), types, map[])]
  {
  }

  lemma NoEdges(edges: map<EdgeId, Edge>)
    requires edges == map[]
    ensures HoldsEdges({}, edges)
  {
  }

  lemma NodeHeld(m: Mapping, spec: map<string, Node>, nodes: map<NodeId, Node>, iri: string)
    requires Addressable(m) && HoldsNodes(m, spec, nodes)
    ensures m.address(iri) in nodes <==> iri in spec
    ensures iri in spec ==> nodes[m.address(iri)] == spec[iri] && spec[iri].id == m.address(iri)
  {
  }

  lemma HoldsEdge(spec: set<Edge>, edges: map<EdgeId, Edge>, e: Edge)
    requires HoldsEdges(spec, edges) && e == Between(e.source, e.relation, e.target)
    ensures HoldsEdges(spec + {e}, edges[e.id := e])
  {
  }

  // ----- What the projection is -----

  predicate IsLink(m: Mapping, ls: Labels, t: Triple) {
    var act := ActionOf(m, t);
    act.Link? && TypesFor(ls, act.subj, None).Some? && TypesFor(ls, act.obj, m.fallback).Some?
  }

  // The stored IRIs: typed subjects, and targets of recognised object properties of typed subjects.
  ghost predicate IsStored(m: Mapping, ls: Labels, ts: seq<Triple>, iri: string) {
    iri in ls || exists i | 0 <= i < |ts| :: IsLink(m, ls, ts[i]) && ActionOf(m, ts[i]).obj == iri
  }

  ghost predicate IsEdge(m: Mapping, ls: Labels, ts: seq<Triple>, e: Edge) {
    exists i | 0 <= i < |ts| ::
      IsLink(m, ls, ts[i])
      && var act := ActionOf(m, ts[i]); e == Between(m.address(act.subj), act.local, m.address(act.obj))
  }

  lemma StoredStep(m: Mapping, ls: Labels, ts: seq<Triple>, iri: string)
    requires ts != []
    ensures IsStored(m, ls, ts, iri)
            <==> IsStored(m, ls, ts[..|ts| - 1], iri)
                 || (IsLink(m, ls, ts[|ts| - 1]) && ActionOf(m, ts[|ts| - 1]).obj == iri)
  {
    hide IsLink, ActionOf;
    var before := ts[..|ts| - 1];
    assert forall i | 0 <= i < |before| :: before[i] == ts[i];
  }

  lemma EdgeStep(m: Mapping, ls: Labels, ts: seq<Triple>, e: Edge)
    requires ts != []
    ensures IsEdge(m, ls, ts, e)
            <==> || IsEdge(m, ls, ts[..|ts| - 1], e)
                 || (IsLink(m, ls, ts[|ts| - 1])
                     && var act := ActionOf(m, ts[|ts| - 1]);
                        e == Between(m.address(act.subj), act.local, m.address(act.obj)))
  {
    hide IsLink, ActionOf;
    var before := ts[..|ts| - 1];
    assert forall i | 0 <= i < |before| :: before[i] == ts[i];
  }

  // The node IRIs and the edges are exactly these comprehensions over the triples.
  lemma {:induction false} ProjectedExact(m: Mapping, ls: Labels, ts: seq<Triple>)
    ensures forall iri :: iri in Projected(m, ls, ts).nodes <==> IsStored(m, ls, ts, iri)
    ensures forall e :: e in Projected(m, ls, ts).edges <==> IsEdge(m, ls, ts, e)
    decreases |ts|
  {
    hide ActionOf, IsStored, IsEdge, Merged, IsLink;
    if ts == [] {
      NothingStored(m, ls);
    } else {
      var before, act := ts[..|ts| - 1], ActionOf(m, ts[|ts| - 1]);
      ProjectedExact(m, ls, before);
      LinkMeans(m, ls, ts[|ts| - 1]);
      forall iri ensures iri in Projected(m, ls, ts).nodes <==> IsStored(m, ls, ts, iri) {
        StoredStep(m, ls, ts, iri);
        TypedIsStored(m, ls, before);
      }
      forall e ensures e in Projected(m, ls, ts).edges <==> IsEdge(m, ls, ts, e) {
        EdgeStep(m, ls, ts, e);
      }
    }
  }

  lemma LinkMeans(m: Mapping, ls: Labels, t: Triple)
    ensures IsLink(m, ls, t)
            <==> var act := ActionOf(m, t);
                 act.Link? && TypesFor(ls, act.subj, None).Some? && TypesFor(ls, act.obj, m.fallback).Some?
  {
  }

  lemma TypedIsStored(m: Mapping, ls: Labels, ts: seq<Triple>)
    ensures forall iri | iri in ls :: IsStored(m, ls, ts, iri)
  {
  }

  lemma NothingStored(m: Mapping, ls: Labels)
    ensures forall iri :: IsStored(m, ls, [], iri) <==> iri in ls
    ensures forall e :: !IsEdge(m, ls, [], e)
  {
  }

  // Every edge joins two stored nodes.
  lemma EndpointsStored(m: Mapping, ts: seq<Triple>, e: Edge)
    requires e in Projected(m, LabelsOf(m, ts), ts).edges
    ensures exists s, o :: s in Projected(m, LabelsOf(m, ts), ts).nodes && o in Projected(m, LabelsOf(m, ts), ts).nodes
                           && e.source == m.address(s) && e.target == m.address(o)
  {
    hide ActionOf, Projected;
    var ls := LabelsOf(m, ts);
    ProjectedExact(m, ls, ts);
    var i :| 0 <= i < |ts| && IsLink(m, ls, ts[i])
             && var act := ActionOf(m, ts[i]); e == Between(m.address(act.subj), act.local, m.address(act.obj));
    var act := ActionOf(m, ts[i]);
    assert IsStored(m, ls, ts, act.subj) && IsStored(m, ls, ts, act.obj);
  }

  ghost predicate SameTriples(ts: seq<Triple>, us: seq<Triple>) {
    forall t :: t in ts <==> t in us
  }

  // Which subjects are typed, and with which labels, depends on the set of triples alone.
  lemma LabelsIgnoreOrder(m: Mapping, ts: seq<Triple>, us: seq<Triple>)
    requires SameTriples(ts, us)
    ensures LabelsOf(m, ts).Keys == LabelsOf(m, us).Keys
    ensures forall iri | iri in LabelsOf(m, ts) :: forall l :: l in LabelsOf(m, ts)[iri] <==> l in LabelsOf(m, us)[iri]
  {
    hide Typing, LabelsOf;
    forall iri ensures iri in LabelsOf(m, ts) <==> iri in LabelsOf(m, us)
      ensures iri in LabelsOf(m, ts) ==> forall l :: l in LabelsOf(m, ts)[iri] <==> l in LabelsOf(m, us)[iri]
    {
      LabelsExact(m, ts, iri);
      LabelsExact(m, us, iri);
      TypingMoves(m, ts, us, iri);
      TypingMoves(m, us, ts, iri);
    }
  }

  lemma TypingMoves(m: Mapping, ts: seq<Triple>, us: seq<Triple>, iri: string)
    requires SameTriples(ts, us)
    ensures forall i, l | 0 <= i < |ts| && Typing(m, ts[i]) == Some((iri, l)) ::
              exists j | 0 <= j < |us| :: Typing(m, us[j]) == Some((iri, l))
  {
    hide Typing;
    forall i, l | 0 <= i < |ts| && Typing(m, ts[i]) == Some((iri, l))
      ensures exists j | 0 <= j < |us| :: Typing(m, us[j]) == Some((iri, l))
    {
      assert ts[i] in us;
      var j :| 0 <= j < |us| && us[j] == ts[i];
    }
  }

  // Node IRIs and edges depend on the set of triples alone, not on order or repetition.
  lemma OrderDoesNotMatter(m: Mapping, ts: seq<Triple>, us: seq<Triple>)
    requires SameTriples(ts, us)
    ensures Projected(m, LabelsOf(m, ts), ts).nodes.Keys == Projected(m, LabelsOf(m, us), us).nodes.Keys
    ensures Projected(m, LabelsOf(m, ts), ts).edges == Projected(m, LabelsOf(m, us), us).edges
  {
    hide ActionOf, Projected, LabelsOf, IsStored, IsEdge;
    ProjectedExact(m, LabelsOf(m, ts), ts);
    ProjectedExact(m, LabelsOf(m, us), us);
    OneWay(m, ts, us);
    OneWay(m, us, ts);
  }

  lemma OneWay(m: Mapping, ts: seq<Triple>, us: seq<Triple>)
    requires SameTriples(ts, us)
    ensures forall iri | IsStored(m, LabelsOf(m, ts), ts, iri) :: IsStored(m, LabelsOf(m, us), us, iri)
    ensures forall e | IsEdge(m, LabelsOf(m, ts), ts, e) :: IsEdge(m, LabelsOf(m, us), us, e)
  {
    hide ActionOf, LabelsOf;
    var ls, ks := LabelsOf(m, ts), LabelsOf(m, us);
    LabelsIgnoreOrder(m, ts, us);
    forall i | 0 <= i < |ts| && IsLink(m, ls, ts[i])
      ensures exists j | 0 <= j < |us| :: us[j] == ts[i] && IsLink(m, ks, us[j])
    {
      assert ts[i] in us;
      var j :| 0 <= j < |us| && us[j] == ts[i];
      TypesMove(m, ts, us, ActionOf(m, ts[i]).subj, None);
      TypesMove(m, ts, us, ActionOf(m, ts[i]).obj, m.fallback);
      assert IsLink(m, ks, us[j]);
    }
  }

  lemma TypesMove(m: Mapping, ts: seq<Triple>, us: seq<Triple>, iri: string, fallback: Option<string>)
    requires SameTriples(ts, us)
    ensures TypesFor(LabelsOf(m, ts), iri, fallback).Some? <==> TypesFor(LabelsOf(m, us), iri, fallback).Some?
  {
    hide LabelsOf, Typing;
    LabelsIgnoreOrder(m, ts, us);
    LabelsExact(m, ts, iri);
    LabelsExact(m, us, iri);
  }

  // ----- Types -----

  lemma {:induction false} MergedKnown(types: seq<string>, more: seq<string>)
    requires forall l | l in more :: l in types
    ensures Merged(types, more) == types
    decreases |more|
  {
    if more != [] {
      MergedKnown(types, more[..|more| - 1]);
      assert more[|more| - 1] in more;
    }
  }

  // A typed node has its labels in the order of their first triples, any other the fallback label.
  lemma {:induction false} TypesExact(m: Mapping, ls: Labels, ts: seq<Triple>, iri: string)
    requires forall x | x in ls :: ls[x] != []
    requires iri in Projected(m, ls, ts).nodes
    ensures TypesFor(ls, iri, m.fallback) == Some(Projected(m, ls, ts).nodes[iri].types)
    decreases |ts|
  {
    hide ActionOf, Performed, TypesFor;
    if ts == [] {
      TypedTypes(m, ls, iri);
    } else {
      var before := ts[..|ts| - 1];
      forall x: string | x in Projected(m, ls, before).nodes
        ensures TypesFor(ls, x, m.fallback) == Some(Projected(m, ls, before).nodes[x].types)
      {
        TypesExact(m, ls, before, x);
      }
      PerformedTypes(m, ls, Projected(m, ls, before), ActionOf(m, ts[|ts| - 1]));
    }
  }

  lemma TypedTypes(m: Mapping, ls: Labels, iri: string)
    requires iri in ls && ls[iri] != []
    ensures TypesFor(ls, iri, m.fallback) == Some(TypedNodes(m, ls)[iri].types)
  {
  }

  // Every node has the types its IRI calls for.
  ghost predicate WellTyped(m: Mapping, ls: Labels, nodes: map<string, Node>) {
    forall x | x in nodes :: TypesFor(ls, x, m.fallback) == Some(nodes[x].types)
  }

  lemma EnsuredTypes(m: Mapping, ls: Labels, nodes: map<string, Node>, iri: string, types: seq<string>)
    requires WellTyped(m, ls, nodes) && TypesFor(ls, iri, m.fallback) == Some(types)
    ensures WellTyped(m, ls, Ensured(m, nodes, iri, types)) && iri in Ensured(m, nodes, iri, types)
  {
    hide TypesFor, Merged;
    MergedKnown(types, types);
  }

  lemma PropertyTypes(m: Mapping, ls: Labels, nodes: map<string, Node>, iri: string, local: string,
                      value: PropertyValue)
    requires WellTyped(m, ls, nodes) && iri in nodes
    ensures WellTyped(m, ls, WithProperty(nodes, iri, local, value))
  {
    hide TypesFor;
  }

  lemma PerformedTypes(m: Mapping, ls: Labels, a: Abox, act: Action)
    requires WellTyped(m, ls, a.nodes)
    ensures WellTyped(m, ls, Performed(m, ls, a, act).nodes)
  {
    hide Ensured, TypesFor;
    TypedAnyway(m, ls);
    match act {
      case Skip =>
      case SetProperty(s, local, value) =>
        var types := TypesFor(ls, s, None);
        if types.Some? {
          EnsuredTypes(m, ls, a.nodes, s, types.value);
          PropertyTypes(m, ls, Ensured(m, a.nodes, s, types.value), s, local, value);
        }
      case Link(s, local, o) =>
        var types, target := TypesFor(ls, s, None), TypesFor(ls, o, m.fallback);
        if types.Some? {
          EnsuredTypes(m, ls, a.nodes, s, types.value);
          if target.Some? {
            EnsuredTypes(m, ls, Ensured(m, a.nodes, s, types.value), o, target.value);
          }
        }
    }
  }

  lemma TypedAnyway(m: Mapping, ls: Labels)
    ensures forall iri | TypesFor(ls, iri, None).Some? :: TypesFor(ls, iri, m.fallback) == TypesFor(ls, iri, None)
  {
  }

  // ----- Data values -----

  predicate Sets(m: Mapping, ls: Labels, t: Triple, iri: string, local: string) {
    var act := ActionOf(m, t);
    act.SetProperty? && act.subj == iri && act.local == local && TypesFor(ls, iri, None).Some?
  }

  // The value of a property of a node, if it has one.
  function ValueIn(nodes: map<string, Node>, iri: string, local: string): Option<PropertyValue> {
    if iri in nodes && local in nodes[iri].properties then Some(nodes[iri].properties[local]) else None
  }

  lemma PerformedValue(m: Mapping, ls: Labels, a: Abox, t: Triple, iri: string, local: string)
    ensures ValueIn(Performed(m, ls, a, ActionOf(m, t)).nodes, iri, local)
            == if Sets(m, ls, t, iri, local) then Some(ActionOf(m, t).value) else ValueIn(a.nodes, iri, local)
  {
    hide ActionOf, TypesFor, Merged;
  }

  // A property of a node holds the value of the last triple that sets it; without one it is absent.
  lemma {:induction false} LastValueWins(m: Mapping, ls: Labels, ts: seq<Triple>, iri: string, local: string)
    ensures var value := ValueIn(Projected(m, ls, ts).nodes, iri, local);
            && (value.Some? <==> exists i | 0 <= i < |ts| :: Sets(m, ls, ts[i], iri, local))
            && forall i | 0 <= i < |ts| && Sets(m, ls, ts[i], iri, local)
                          && (forall j | i < j < |ts| :: !Sets(m, ls, ts[j], iri, local)) ::
                 value == Some(ActionOf(m, ts[i]).value)
    decreases |ts|
  {
    hide ActionOf, Sets, Performed, ValueIn;
    if ts == [] {
      NoValues(m, ls, iri, local);
    } else {
      var before, t := ts[..|ts| - 1], ts[|ts| - 1];
      assert forall i | 0 <= i < |before| :: before[i] == ts[i];
      LastValueWins(m, ls, before, iri, local);
      PerformedValue(m, ls, Projected(m, ls, before), t, iri, local);
    }
  }

  lemma NoValues(m: Mapping, ls: Labels, iri: string, local: string)
    ensures ValueIn(TypedNodes(m, ls), iri, local) == None
  {
  }
}
