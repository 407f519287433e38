// The import projection as comprehensions over the triples and the tables of the mapping.

module ImportReading {
  import opened Wrappers
  import opened Core
  import opened Rdf
  import opened SchemaTypes
  import opened Importer

  // ----- The tables -----

  // The first entry for an IRI counts.

  predicate FirstClass(m: Mapping, iri: string, k: nat) {
    k < |m.classes| && m.classes[k].iri == iri && forall j | 0 <= j < k :: m.classes[j].iri != iri
  }

  predicate FirstData(m: Mapping, iri: string, k: nat) {
    k < |m.data| && m.data[k].iri == iri && forall j | 0 <= j < k :: m.data[j].iri != iri
  }

  predicate FirstObject(m: Mapping, iri: string, k: nat) {
    k < |m.objects| && m.objects[k].iri == iri && forall j | 0 <= j < k :: m.objects[j].iri != iri
  }

  lemma {:induction false} ClassFound(classes: seq<ClassSpec>, iri: string) returns (k: nat)
    ensures k <= |classes| && forall j | 0 <= j < k :: classes[j].iri != iri
    ensures ClassOf(classes, iri) == if k < |classes| then Some(classes[k].local) else None
    ensures k < |classes| ==> classes[k].iri == iri
  {
    if classes == [] || classes[0].iri == iri {
      k := 0;
    } else {
      var rest := ClassFound(classes[1..], iri);
      k := rest + 1;
      assert forall j | 0 < j < |classes| :: classes[j] == classes[1..][j - 1];
    }
  }

  lemma {:induction false} DataFound(specs: seq<DataSpec>, iri: string) returns (k: nat)
    ensures k <= |specs| && forall j | 0 <= j < k :: specs[j].iri != iri
    ensures DataOf(specs, iri) == if k < |specs| then Some(specs[k]) else None
    ensures k < |specs| ==> specs[k].iri == iri
  {
    if specs == [] || specs[0].iri == iri {
      k := 0;
    } else {
      var rest := DataFound(specs[1..], iri);
      k := rest + 1;
      assert forall j | 0 < j < |specs| :: specs[j] == specs[1..][j - 1];
    }
  }

  lemma {:induction false} ObjectFound(specs: seq<ObjectSpec>, iri: string) returns (k: nat)
    ensures k <= |specs| && forall j | 0 <= j < k :: specs[j].iri != iri
    ensures ObjectOf(specs, iri) == if k < |specs| then Some(specs[k]) else None
    ensures k < |specs| ==> specs[k].iri == iri
  {
    if specs == [] || specs[0].iri == iri {
      k := 0;
    } else {
      var rest := ObjectFound(specs[1..], iri);
      k := rest + 1;
      assert forall j | 0 < j < |specs| :: specs[j] == specs[1..][j - 1];
    }
  }

  lemma TheClass(m: Mapping, iri: string) returns (k: nat)
    ensures ClassOf(m.classes, iri) == if k < |m.classes| then Some(m.classes[k].local) else None
    ensures forall j: nat :: FirstClass(m, iri, j) <==> j == k < |m.classes|
    ensures k < |m.classes| || forall j | 0 <= j < |m.classes| :: m.classes[j].iri != iri
  {
    k := ClassFound(m.classes, iri);
    forall j: nat ensures FirstClass(m, iri, j) <==> j == k < |m.classes| {
      if FirstClass(m, iri, j) {
        assert !(j < k) && !(k < j);
      }
    }
  }

  lemma TheData(m: Mapping, iri: string) returns (k: nat)
    ensures DataOf(m.data, iri) == if k < |m.data| then Some(m.data[k]) else None
    ensures forall j: nat :: FirstData(m, iri, j) <==> j == k < |m.data|
    ensures if k < |m.data| then m.data[k].iri == iri else forall j | 0 <= j < |m.data| :: m.data[j].iri != iri
  {
    k := DataFound(m.data, iri);
    forall j: nat ensures FirstData(m, iri, j) <==> j == k < |m.data| {
      if FirstData(m, iri, j) {
        assert !(j < k) && !(k < j);
      }
    }
  }

  lemma TheObject(m: Mapping, iri: string) returns (k: nat)
    ensures ObjectOf(m.objects, iri) == if k < |m.objects| then Some(m.objects[k]) else None
    ensures forall j: nat :: FirstObject(m, iri, j) <==> j == k < |m.objects|
    ensures k < |m.objects| || forall j | 0 <= j < |m.objects| :: m.objects[j].iri != iri
  {
    k := ObjectFound(m.objects, iri);
    forall j: nat ensures FirstObject(m, iri, j) <==> j == k < |m.objects| {
      if FirstObject(m, iri, j) {
        assert !(j < k) && !(k < j);
      }
    }
  }

  // ----- What one triple says -----

  // The object is a recognised class, whatever the predicate.
  ghost predicate GivesLabel(m: Mapping, t: Triple, iri: string, l: string) {
    && t.subj == IriSubject(iri) && t.obj.IriObject?
    && exists k: nat :: FirstClass(m, t.obj.iri, k) && m.classes[k].local == l
  }

  // The predicate is no `rdf:type` and no data property, and a recognised object property.
  ghost predicate Joins(m: Mapping, t: Triple, a: string, l: string, b: string) {
    && t.subj == IriSubject(a) && t.obj == IriObject(b)
    && t.pred != "http://www.w3.org/1999/02/22-rdf-syntax-ns#type"
    && (forall j | 0 <= j < |m.data| :: m.data[j].iri != t.pred)
    && exists k: nat :: FirstObject(m, t.pred, k) && m.objects[k].local == l
  }

  // The predicate is a recognised data property, and the object a literal, or an IRI where the property
  // holds IRIs.
  ghost predicate GivesValue(m: Mapping, t: Triple, iri: string, local: string, value: PropertyValue) {
    && t.subj == IriSubject(iri) && t.pred != "http://www.w3.org/1999/02/22-rdf-syntax-ns#type"
    && exists k: nat :: FirstData(m, t.pred, k) && m.data[k].local == local
                   && ReadsAs(m, m.data[k].datatyp, t.obj, value)
  }

  predicate ReadsAs(m: Mapping, datatyp: Datatype, o: Object, value: PropertyValue) {
    match o
    case Literal(lexical, _, _) => value == m.literal(datatyp, lexical)
    case IriObject(iri) => datatyp == AnyUri && value == IriValue(iri)
    case BlankObject(_) => false
  }

  lemma TypingReads(m: Mapping, t: Triple, iri: string, l: string)
    ensures Typing(m, t) == Some((iri, l)) <==> GivesLabel(m, t, iri, l)
  {
    hide ClassOf, FirstClass;
    if t.subj.IriSubject? && t.obj.IriObject? {
      var k := TheClass(m, t.obj.iri);
    }
  }

  lemma LinkReads(m: Mapping, t: Triple, a: string, l: string, b: string)
    ensures ActionOf(m, t) == Link(a, l, b) <==> Joins(m, t, a, l, b)
  {
    hide DataOf, ObjectOf, FirstData, FirstObject;
    var d := TheData(m, t.pred);
    var k := TheObject(m, t.pred);
  }

  lemma ValueReads(m: Mapping, t: Triple, iri: string, local: string, value: PropertyValue)
    ensures ActionOf(m, t) == SetProperty(iri, local, value) <==> GivesValue(m, t, iri, local, value)
  {
    hide DataOf, ObjectOf, FirstData, FirstObject;
    var d := TheData(m, t.pred);
  }

  // ----- What the triples say together -----

  ghost predicate Typed(m: Mapping, ts: seq<Triple>, iri: string) {
    exists i, l | 0 <= i < |ts| :: GivesLabel(m, ts[i], iri, l)
  }

  // Some triple joins a typed subject to an object that is typed or may take the fallback.
  ghost predicate Joined(m: Mapping, ts: seq<Triple>, a: string, l: string, b: string) {
    && Typed(m, ts, a) && (Typed(m, ts, b) || m.fallback.Some?)
    && exists i | 0 <= i < |ts| :: Joins(m, ts[i], a, l, b)
  }

  ghost predicate Stored(m: Mapping, ts: seq<Triple>, iri: string) {
    Typed(m, ts, iri) || exists a, l :: Joined(m, ts, a, l, iri)
  }

  lemma TypedReads(m: Mapping, ts: seq<Triple>, iri: string, fallback: Option<string>)
    ensures iri in LabelsOf(m, ts) <==> Typed(m, ts, iri)
    ensures TypesFor(LabelsOf(m, ts), iri, fallback).Some? <==> Typed(m, ts, iri) || fallback.Some?
  {
    hide Typing, GivesLabel, LabelsOf;
    LabelsExact(m, ts, iri);
    if i, l :| 0 <= i < |ts| && Typing(m, ts[i]) == Some((iri, l)) {
      TypingReads(m, ts[i], iri, l);
    }
    if i, l :| 0 <= i < |ts| && GivesLabel(m, ts[i], iri, l) {
      TypingReads(m, ts[i], iri, l);
      assert Typing(m, ts[i]) == Some((iri, l));
    }
  }

  // ----- Edges -----

  lemma LinkIsJoin(m: Mapping, ts: seq<Triple>, t: Triple, a: string, l: string, b: string)
    ensures IsLink(m, LabelsOf(m, ts), t) && ActionOf(m, t) == Link(a, l, b)
            <==> Joins(m, t, a, l, b) && Typed(m, ts, a) && (Typed(m, ts, b) || m.fallback.Some?)
  {
    hide ActionOf, Joins, Typed, TypesFor, LabelsOf;
    LinkReads(m, t, a, l, b);
    TypedReads(m, ts, a, None);
    TypedReads(m, ts, b, m.fallback);
  }

  // The stored edges, under their ids: one for each way triples join two IRIs, from the subject to the object.
  lemma EdgesRead(m: Mapping, ts: seq<Triple>, nodes: map<NodeId, Node>, edges: map<EdgeId, Edge>, id: EdgeId)
    requires Holds(m, Projected(m, LabelsOf(m, ts), ts), nodes, edges)
    ensures id in edges
            <==> exists a, l, b :: Joined(m, ts, a, l, b) && id == ContentId(m.address(a), l, m.address(b))
    ensures id in edges ==> id.ContentId? && edges[id] == Edge(id, id.relation, id.source, id.target, map[])
  {
    hide Projected, LabelsOf, ActionOf, IsLink, Typed, Joins, HoldsNodes;
    var ls := LabelsOf(m, ts);
    var spec := Projected(m, ls, ts).edges;
    ProjectedExact(m, ls, ts);
    if id in edges {
      var e := edges[id];
      assert e in spec && IsEdge(m, ls, ts, e);
      var i := EdgeFrom(m, ls, ts, e);
      var act := ActionOf(m, ts[i]);
      LinkIsJoin(m, ts, ts[i], act.subj, act.local, act.obj);
      assert Joined(m, ts, act.subj, act.local, act.obj);
    }
    if a, l, b :| Joined(m, ts, a, l, b) && id == ContentId(m.address(a), l, m.address(b)) {
      var i :| 0 <= i < |ts| && Joins(m, ts[i], a, l, b);
      LinkIsJoin(m, ts, ts[i], a, l, b);
      var e := Between(m.address(a), l, m.address(b));
      assert IsEdge(m, ls, ts, e);
      assert e in spec;
    }
  }

  lemma EdgeFrom(m: Mapping, ls: Labels, ts: seq<Triple>, e: Edge) returns (i: nat)
    requires IsEdge(m, ls, ts, e)
    ensures i < |ts| && IsLink(m, ls, ts[i]) && ActionOf(m, ts[i]).Link?
    ensures var act := ActionOf(m, ts[i]); e == Between(m.address(act.subj), act.local, m.address(act.obj))
  {
    hide ActionOf;
    i :| 0 <= i < |ts| && IsLink(m, ls, ts[i])
         && var act := ActionOf(m, ts[i]); e == Between(m.address(act.subj), act.local, m.address(act.obj));
  }

  lemma StoredFrom(m: Mapping, ls: Labels, ts: seq<Triple>, iri: string) returns (i: nat)
    requires IsStored(m, ls, ts, iri) && iri !in ls
    ensures i < |ts| && IsLink(m, ls, ts[i]) && ActionOf(m, ts[i]).Link? && ActionOf(m, ts[i]).obj == iri
  {
    hide ActionOf;
    i :| 0 <= i < |ts| && IsLink(m, ls, ts[i]) && ActionOf(m, ts[i]).obj == iri;
  }

  // ----- Nodes -----

  lemma StoredReads(m: Mapping, ts: seq<Triple>, iri: string)
    ensures iri in Projected(m, LabelsOf(m, ts), ts).nodes <==> Stored(m, ts, iri)
  {
    hide Projected, LabelsOf, ActionOf, IsLink, Typed, Joins;
    var ls := LabelsOf(m, ts);
    ProjectedExact(m, ls, ts);
    TypedReads(m, ts, iri, None);
    if IsStored(m, ls, ts, iri) && iri !in ls {
      var i := StoredFrom(m, ls, ts, iri);
      var act := ActionOf(m, ts[i]);
      LinkIsJoin(m, ts, ts[i], act.subj, act.local, iri);
      assert Joined(m, ts, act.subj, act.local, iri);
    }
    if a, l :| Joined(m, ts, a, l, iri) {
      var i :| 0 <= i < |ts| && Joins(m, ts[i], a, l, iri);
      LinkIsJoin(m, ts, ts[i], a, l, iri);
    }
  }

  ghost predicate Named(m: Mapping, nodes: map<string, Node>) {
    forall iri | iri in nodes :: nodes[iri].id == m.address(iri) && nodes[iri].iri == Some(iri)
  }

  lemma EnsuredNamed(m: Mapping, nodes: map<string, Node>, iri: string, types: seq<string>)
    requires Named(m, nodes)
    ensures Named(m, Ensured(m, nodes, iri, types)) && iri in Ensured(m, nodes, iri, types)
  {
    hide Merged;
  }

  lemma PerformedNamed(m: Mapping, ls: Labels, a: Abox, act: Action)
    requires Named(m, a.nodes)
    ensures Named(m, Performed(m, ls, a, act).nodes)
  {
    hide Named, Ensured, TypesFor;
    match act {
      case Skip =>
      case SetProperty(s, local, value) =>
        var types := TypesFor(ls, s, None);
        if types.Some? {
          EnsuredNamed(m, a.nodes, s, types.value);
          PropertyNamed(m, Ensured(m, a.nodes, s, types.value), s, local, value);
        }
      case Link(s, local, o) =>
        var types, target := TypesFor(ls, s, None), TypesFor(ls, o, m.fallback);
        if types.Some? {
          EnsuredNamed(m, a.nodes, s, types.value);
          if target.Some? {
            EnsuredNamed(m, Ensured(m, a.nodes, s, types.value), o, target.value);
          }
        }
    }
  }

  lemma PropertyNamed(m: Mapping, nodes: map<string, Node>, iri: string, local: string, value: PropertyValue)
    requires Named(m, nodes) && iri in nodes
    ensures Named(m, WithProperty(nodes, iri, local, value))
  {
  }

  lemma {:induction false} ProjectedNamed(m: Mapping, ls: Labels, ts: seq<Triple>)
    ensures Named(m, Projected(m, ls, ts).nodes)
    decreases |ts|
  {
    hide ActionOf, Performed;
    if ts != [] {
      ProjectedNamed(m, ls, ts[..|ts| - 1]);
      PerformedNamed(m, ls, Projected(m, ls, ts[..|ts| - 1]), ActionOf(m, ts[|ts| - 1]));
    }
  }

  // The stored nodes, under the addresses of their IRIs.
  lemma NodesRead(m: Mapping, ts: seq<Triple>, nodes: map<NodeId, Node>, edges: map<EdgeId, Edge>, id: NodeId)
    requires Holds(m, Projected(m, LabelsOf(m, ts), ts), nodes, edges)
    ensures id in nodes <==> exists iri :: Stored(m, ts, iri) && m.address(iri) == id
    ensures id in nodes ==> nodes[id].id == id && nodes[id].iri.Some? && m.address(nodes[id].iri.value) == id
  {
    hide Projected, LabelsOf, Stored, HoldsEdges;
    var spec := Projected(m, LabelsOf(m, ts), ts).nodes;
    ProjectedNamed(m, LabelsOf(m, ts), ts);
    if id in nodes {
      var iri :| iri in spec && m.address(iri) == id;
      StoredReads(m, ts, iri);
    }
    if iri :| Stored(m, ts, iri) && m.address(iri) == id {
      StoredReads(m, ts, iri);
    }
  }

  // Some triple gives `first` before any gives `second`.
  ghost predicate GivenBefore(m: Mapping, ts: seq<Triple>, iri: string, first: string, second: string) {
    exists i | 0 <= i < |ts| :: GivesLabel(m, ts[i], iri, first)
                                && forall j | 0 <= j <= i :: !GivesLabel(m, ts[j], iri, second)
  }

  lemma {:induction false} LabelsInOrder(m: Mapping, ts: seq<Triple>, iri: string, p: nat, q: nat)
    requires iri in LabelsOf(m, ts) && p < q < |LabelsOf(m, ts)[iri]|
    ensures GivenBefore(m, ts, iri, LabelsOf(m, ts)[iri][p], LabelsOf(m, ts)[iri][q])
    decreases |ts|
  {
    hide Typing, GivesLabel;
    var before, last := ts[..|ts| - 1], ts[|ts| - 1];
    var now := LabelsOf(m, ts)[iri];
    var first, second := now[p], now[q];
    assert forall i | 0 <= i < |before| :: before[i] == ts[i];
    forall i, l | 0 <= i < |ts| ensures Typing(m, ts[i]) == Some((iri, l)) <==> GivesLabel(m, ts[i], iri, l) {
      TypingReads(m, ts[i], iri, l);
    }
    LabelsExact(m, before, iri);
    assert iri in LabelsOf(m, before);
    if q < |LabelsOf(m, before)[iri]| {
      LabelsInOrder(m, before, iri, p, q);
      var i :| 0 <= i < |before| && GivesLabel(m, before[i], iri, first)
               && forall j | 0 <= j <= i :: !GivesLabel(m, before[j], iri, second);
      assert GivesLabel(m, ts[i], iri, first) && forall j | 0 <= j <= i :: !GivesLabel(m, ts[j], iri, second);
    } else {
      assert first in LabelsOf(m, before)[iri] && second !in LabelsOf(m, before)[iri];
      var i :| 0 <= i < |before| && Typing(m, before[i]) == Some((iri, first));
      forall j | 0 <= j <= i ensures !GivesLabel(m, ts[j], iri, second) {
        assert before[j] == ts[j];
      }
      assert GivesLabel(m, ts[i], iri, first);
    }
  }

  // A typed node has the labels given to it, each once, by their first triples; any other has the fallback.
  lemma TypesRead(m: Mapping, ts: seq<Triple>, nodes: map<NodeId, Node>, edges: map<EdgeId, Edge>, iri: string)
    requires Holds(m, Projected(m, LabelsOf(m, ts), ts), nodes, edges) && Stored(m, ts, iri)
    ensures m.address(iri) in nodes
    ensures var types := nodes[m.address(iri)].types;
            if Typed(m, ts, iri) then
              && (forall l :: l in types <==> exists i | 0 <= i < |ts| :: GivesLabel(m, ts[i], iri, l))
              && (forall p, q | 0 <= p < q < |types| ::
                    types[p] != types[q] && GivenBefore(m, ts, iri, types[p], types[q]))
            else m.fallback.Some? && types == [m.fallback.value]
  {
    hide Projected, LabelsOf, Stored, Typed, HoldsEdges, Typing, GivesLabel, GivenBefore;
    var ls := LabelsOf(m, ts);
    StoredReads(m, ts, iri);
    TypedReads(m, ts, iri, None);
    LabelsExact(m, ts, iri);
    forall x | x in ls ensures ls[x] != [] {
      LabelsExact(m, ts, x);
    }
    TypesExact(m, ls, ts, iri);
    if iri in ls {
      LabelsOnce(m, ts, iri);
      forall i, l | 0 <= i < |ts| ensures Typing(m, ts[i]) == Some((iri, l)) <==> GivesLabel(m, ts[i], iri, l) {
        TypingReads(m, ts[i], iri, l);
      }
      forall p, q | 0 <= p < q < |ls[iri]| ensures GivenBefore(m, ts, iri, ls[iri][p], ls[iri][q]) {
        LabelsInOrder(m, ts, iri, p, q);
      }
    }
  }

  // ----- Values -----

  // The last triple that gives a value for the property of a typed subject.
  ghost predicate LastValue(m: Mapping, ts: seq<Triple>, iri: string, local: string, value: PropertyValue) {
    && Typed(m, ts, iri)
    && exists i | 0 <= i < |ts| :: GivesValue(m, ts[i], iri, local, value)
                                   && forall j, other | i < j < |ts| :: !GivesValue(m, ts[j], iri, local, other)
  }

  lemma SetsReads(m: Mapping, ts: seq<Triple>, t: Triple, iri: string, local: string)
    ensures Sets(m, LabelsOf(m, ts), t, iri, local)
            <==> Typed(m, ts, iri) && exists value :: GivesValue(m, t, iri, local, value)
    ensures Sets(m, LabelsOf(m, ts), t, iri, local) ==>
              ActionOf(m, t).SetProperty? && GivesValue(m, t, iri, local, ActionOf(m, t).value)
    ensures forall value | GivesValue(m, t, iri, local, value) ::
              ActionOf(m, t).SetProperty? && value == ActionOf(m, t).value
  {
    hide LabelsOf, Typed, GivesValue, ActionOf;
    TypedReads(m, ts, iri, None);
    forall value ensures ActionOf(m, t) == SetProperty(iri, local, value) <==> GivesValue(m, t, iri, local, value) {
      ValueReads(m, t, iri, local, value);
    }
  }

  lemma ValueInReads(m: Mapping, ts: seq<Triple>, iri: string, local: string, value: PropertyValue)
    ensures ValueIn(Projected(m, LabelsOf(m, ts), ts).nodes, iri, local) == Some(value)
            <==> LastValue(m, ts, iri, local, value)
  {
    hide Projected, LabelsOf, Sets, Typed, GivesValue, ValueIn, ActionOf;
    var ls := LabelsOf(m, ts);
    LastValueWins(m, ls, ts, iri, local);
    forall i | 0 <= i < |ts|
      ensures Sets(m, ls, ts[i], iri, local)
              <==> Typed(m, ts, iri) && exists v :: GivesValue(m, ts[i], iri, local, v)
      ensures Sets(m, ls, ts[i], iri, local) ==>
                ActionOf(m, ts[i]).SetProperty? && GivesValue(m, ts[i], iri, local, ActionOf(m, ts[i]).value)
      ensures forall v | GivesValue(m, ts[i], iri, local, v) ::
                ActionOf(m, ts[i]).SetProperty? && v == ActionOf(m, ts[i]).value
    {
      SetsReads(m, ts, ts[i], iri, local);
    }
    if ValueIn(Projected(m, ls, ts).nodes, iri, local) == Some(value) {
      var i :| 0 <= i < |ts| && Sets(m, ls, ts[i], iri, local);
      var last := LastSets(m, ls, ts, iri, local, i);
      assert GivesValue(m, ts[last], iri, local, value);
      forall j, other | last < j < |ts| ensures !GivesValue(m, ts[j], iri, local, other) {
        assert !Sets(m, ls, ts[j], iri, local);
      }
    }
    if LastValue(m, ts, iri, local, value) {
      var i :| 0 <= i < |ts| && GivesValue(m, ts[i], iri, local, value)
               && forall j, other | i < j < |ts| :: !GivesValue(m, ts[j], iri, local, other);
      assert Sets(m, ls, ts[i], iri, local);
    }
  }

  lemma {:induction false} LastSets(m: Mapping, ls: Labels, ts: seq<Triple>, iri: string, local: string, i: nat)
    returns (last: nat)
    requires i < |ts| && Sets(m, ls, ts[i], iri, local)
    ensures last < |ts| && Sets(m, ls, ts[last], iri, local)
    ensures forall j | last < j < |ts| :: !Sets(m, ls, ts[j], iri, local)
    decreases |ts| - i
  {
    hide Sets;
    if j :| i < j < |ts| && Sets(m, ls, ts[j], iri, local) {
      last := LastSets(m, ls, ts, iri, local, j);
    } else {
      last := i;
    }
  }

  // A node's properties are the last values given to its IRI, and nothing else.
  lemma ValuesRead(m: Mapping, ts: seq<Triple>, nodes: map<NodeId, Node>, edges: map<EdgeId, Edge>, iri: string,
                   local: string, value: PropertyValue)
    requires Holds(m, Projected(m, LabelsOf(m, ts), ts), nodes, edges) && Stored(m, ts, iri)
    ensures m.address(iri) in nodes
    ensures var properties := nodes[m.address(iri)].properties;
            local in properties && properties[local] == value <==> LastValue(m, ts, iri, local, value)
  {
    hide Projected, LabelsOf, Stored, LastValue, HoldsEdges;
    StoredReads(m, ts, iri);
    ValueInReads(m, ts, iri, local, value);
  }
}
