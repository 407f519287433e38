// The persistent store and its checkpointers: what one commit and one save do.

module Persistence {
  import opened Wrappers
  import opened Core

  const I64_MAX: nat := 0x7FFF_FFFF_FFFF_FFFF
  const U64_MAX: nat := 0xFFFF_FFFF_FFFF_FFFF

  datatype Activity = Activity(id: ProvenanceId, kind: string)

  datatype Delta = Delta(nodes: seq<Node>, edges: seq<Edge>, axioms: seq<Axiom>)

  // The data of an ontology together with the activities of its provenance log.
  datatype Contents = Contents(
    nodes: map<NodeId, Node>, edges: map<EdgeId, Edge>, axioms: map<AxiomId, Axiom>,
    activities: map<ProvenanceId, Activity>)

  datatype Snapshot = Snapshot(contents: Contents, version: nat)

  datatype CheckpointerError = Io | Serialize | Other

  // ----- A commit -----

  // The upserts of a list, one after the other.
  function Put<K, V>(m: map<K, V>, key: V -> K, vs: seq<V>): map<K, V> {
    if vs == [] then m
    else
      var last := vs[|vs| - 1];
      Put(m, key, vs[..|vs| - 1])[key(last) := last]
  }

  // An upserted key holds its last value in the list; the others are untouched.
  lemma {:induction false} PutExact<K, V>(m: map<K, V>, key: V -> K, vs: seq<V>, k: K)
    ensures k in Put(m, key, vs) <==> k in m || exists i | 0 <= i < |vs| :: key(vs[i]) == k
    ensures (forall i | 0 <= i < |vs| :: key(vs[i]) != k) && k in m ==> Put(m, key, vs)[k] == m[k]
    ensures forall i | 0 <= i < |vs| && key(vs[i]) == k && (forall j | i < j < |vs| :: key(vs[j]) != k) ::
              Put(m, key, vs)[k] == vs[i]
  {
    if vs != [] {
      var before, last := vs[..|vs| - 1], vs[|vs| - 1];
      PutExact(m, key, before, k);
      assert forall i | 0 <= i < |vs| - 1 :: before[i] == vs[i];
      if key(last) != k {
        assert (exists i | 0 <= i < |vs| :: key(vs[i]) == k) ==> exists i | 0 <= i < |before| :: key(before[i]) == k;
      }
    }
  }

  function Stamped(a: Axiom, pid: ProvenanceId): Axiom {
    if a.provenance.None? then a.(provenance := Some(pid)) else a
  }

  function StampedAll(axs: seq<Axiom>, pid: ProvenanceId): (r: seq<Axiom>)
    ensures |r| == |axs| && forall i | 0 <= i < |r| :: r[i] == Stamped(axs[i], pid)
  {
    seq(|axs|, i requires 0 <= i < |axs| => Stamped(axs[i], pid))
  }

  function NodeKey(n: Node): NodeId { n.id }

  function EdgeKey(e: Edge): EdgeId { e.id }

  function AxiomKey(a: Axiom): AxiomId { a.id }

  // The memory after the locked block of a commit.
  function Applied(c: Contents, delta: Delta, activity: Activity): Contents {
    Contents(
      Put(c.nodes, NodeKey, delta.nodes),
      Put(c.edges, EdgeKey, delta.edges),
      Put(c.axioms, AxiomKey, StampedAll(delta.axioms, activity.id)),
      c.activities[activity.id := activity])
  }

  // Entry `id` is the last one committed under it, if there is one, and otherwise what it was.
  ghost predicate Upserted<K(!new), V>(before: map<K, V>, ids: seq<K>, vs: seq<V>, after: map<K, V>)
    requires |ids| == |vs|
  {
    && (forall id :: id in after <==> id in before || id in ids)
    && (forall id | id in before && id !in ids :: after[id] == before[id])
    && forall i | 0 <= i < |ids| && ids[i] !in ids[i + 1..] :: after[ids[i]] == vs[i]
  }

  // What a commit makes of the contents: the nodes and edges as given, the axioms with the provenance they
  // have or else the activity's id, and the activity under its id.
  ghost predicate Committed(before: Contents, delta: Delta, activity: Activity, after: Contents) {
    && Upserted(before.nodes, seq(|delta.nodes|, i requires 0 <= i < |delta.nodes| => delta.nodes[i].id), delta.nodes,
                after.nodes)
    && Upserted(before.edges, seq(|delta.edges|, i requires 0 <= i < |delta.edges| => delta.edges[i].id), delta.edges,
                after.edges)
    && Upserted(before.axioms, seq(|delta.axioms|, i requires 0 <= i < |delta.axioms| => delta.axioms[i].id),
                seq(|delta.axioms|, i requires 0 <= i < |delta.axioms| =>
                  Axiom(delta.axioms[i].id, delta.axioms[i].kind,
                        if delta.axioms[i].provenance == None then Some(activity.id) else delta.axioms[i].provenance)),
                after.axioms)
    && Upserted(before.activities, [activity.id], [activity], after.activities)
  }

  lemma PutUpserts<K(!new), V>(m: map<K, V>, key: V -> K, vs: seq<V>, ids: seq<K>)
    requires |ids| == |vs| && forall i | 0 <= i < |vs| :: ids[i] == key(vs[i])
    ensures Upserted(m, ids, vs, Put(m, key, vs))
  {
    hide Put;
    var after := Put(m, key, vs);
    forall id ensures id in after <==> id in m || id in ids
      ensures id in m && id !in ids ==> id in after && after[id] == m[id]
    {
      PutExact(m, key, vs, id);
      assert forall i | 0 <= i < |vs| :: ids[i] in ids;
    }
    forall i | 0 <= i < |ids| && ids[i] !in ids[i + 1..] ensures ids[i] in after && after[ids[i]] == vs[i] {
      PutExact(m, key, vs, ids[i]);
      assert forall j | i < j < |vs| :: ids[j] == ids[i + 1..][j - i - 1];
    }
  }

  lemma OneUpserted<K(!new), V>(m: map<K, V>, id: K, v: V)
    ensures Upserted(m, [id], [v], m[id := v])
  {
  }

  lemma AppliedCommits(c: Contents, delta: Delta, activity: Activity)
    ensures Committed(c, delta, activity, Applied(c, delta, activity))
  {
    hide Put, Upserted, StampedAll;
    PutUpserts(c.nodes, NodeKey, delta.nodes,
               seq(|delta.nodes|, i requires 0 <= i < |delta.nodes| => delta.nodes[i].id));
    PutUpserts(c.edges, EdgeKey, delta.edges,
               seq(|delta.edges|, i requires 0 <= i < |delta.edges| => delta.edges[i].id));
    var ids := seq(|delta.axioms|, i requires 0 <= i < |delta.axioms| => delta.axioms[i].id);
    PutUpserts(c.axioms, AxiomKey, StampedAll(delta.axioms, activity.id), ids);
    assert StampedAll(delta.axioms, activity.id)
           == seq(|delta.axioms|, i requires 0 <= i < |delta.axioms| =>
                Axiom(delta.axioms[i].id, delta.axioms[i].kind,
                      if delta.axioms[i].provenance == None then Some(activity.id) else delta.axioms[i].provenance));
    OneUpserted(c.activities, activity.id, activity);
  }

  // `saturating_add(1)` on a 64-bit counter
  function Bumped(version: nat): nat {
    if version >= U64_MAX then U64_MAX else version + 1
  }

  // ----- The SQLite table -----

  datatype Row = Row(version: int, snapshot: Snapshot)

  // `version as i64`
  function Wrapped(version: nat): int {
    var low := version % (U64_MAX + 1);
    if low <= I64_MAX then low else low - (U64_MAX + 1)
  }

  function RowOf(snapshot: Snapshot): Row { Row(Wrapped(snapshot.version), snapshot) }

  // The cast keeps the number modulo 2^64 and lands between -2^63 and 2^63 - 1.
  lemma WrappedExact(version: nat)
    ensures -0x8000_0000_0000_0000 <= Wrapped(version) < 0x8000_0000_0000_0000
    ensures exists k: int :: version == Wrapped(version) + k * 0x1_0000_0000_0000_0000
  {
    var m: int := 0x1_0000_0000_0000_0000;
    var k := version / m;
    assert version == version % m + k * m;
    if Wrapped(version) < 0 {
      assert version == Wrapped(version) + (k + 1) * m;
    } else {
      assert version == Wrapped(version) + k * m;
    }
  }

  // The first row in the order "version descending, id descending"; ids grow with insertion.
  function Latest(rows: seq<Row>): Option<Row> {
    if rows == [] then None
    else
      var before, last := Latest(rows[..|rows| - 1]), rows[|rows| - 1];
      if before.Some? && before.value.version > last.version then before else Some(last)
  }

  // A row of the highest version, and the last of that version.
  ghost predicate TopAt(rows: seq<Row>, row: Row, i: nat)
    requires i < |rows|
  {
    && row == rows[i]
    && (forall j | 0 <= j < |rows| :: rows[j].version <= row.version)
    && (forall j | i < j < |rows| :: rows[j].version < row.version)
  }

  lemma {:induction false} LatestIsMaximum(rows: seq<Row>)
    ensures rows == [] <==> Latest(rows).None?
    ensures rows != [] ==> exists i | 0 <= i < |rows| :: TopAt(rows, Latest(rows).value, i)
  {
    if rows != [] {
      var before, n := rows[..|rows| - 1], |rows| - 1;
      LatestIsMaximum(before);
      if n == 0 {
        assert TopAt(rows, rows[0], 0);
      } else {
        var i :| 0 <= i < |before| && TopAt(before, Latest(before).value, i);
        if before[i].version > rows[n].version {
          TopKept(rows, i);
        } else {
          TopMoves(rows, i);
        }
      }
    }
  }

  lemma TopKept(rows: seq<Row>, i: nat)
    requires rows != [] && i < |rows| - 1 && rows[i].version > rows[|rows| - 1].version
    requires TopAt(rows[..|rows| - 1], rows[i], i)
    ensures TopAt(rows, rows[i], i)
  {
    var before := rows[..|rows| - 1];
    assert forall j | 0 <= j < |before| :: before[j] == rows[j];
  }

  lemma TopMoves(rows: seq<Row>, i: nat)
    requires rows != [] && i < |rows| - 1 && rows[i].version <= rows[|rows| - 1].version
    requires TopAt(rows[..|rows| - 1], rows[i], i)
    ensures TopAt(rows, rows[|rows| - 1], |rows| - 1)
  {
    var before := rows[..|rows| - 1];
    assert forall j | 0 <= j < |before| :: before[j] == rows[j];
  }

  function Loaded(rows: seq<Row>): Option<Snapshot> {
    match Latest(rows)
    case Some(row) => Some(row.snapshot)
    case None => None
  }

  // A saved snapshot is what the next load returns exactly when no row has a higher stored version.
  lemma SaveIsLoaded(rows: seq<Row>, snapshot: Snapshot)
    ensures Latest(rows + [RowOf(snapshot)]) == Some(RowOf(snapshot))
            <==> forall i | 0 <= i < |rows| :: rows[i].version <= Wrapped(snapshot.version)
  {
    var all := rows + [RowOf(snapshot)];
    assert all[..|all| - 1] == rows;
    LatestIsMaximum(rows);
  }

  // Past the range of `i64` the newest commit sinks below the ones before it.
  lemma WrapLosesCommit(c: Contents, d: Contents)
    ensures var before, after := Snapshot(c, I64_MAX), Snapshot(d, Bumped(I64_MAX));
            Loaded([RowOf(before), RowOf(after)]) == Some(before)
  {
    var before, after := Snapshot(c, I64_MAX), Snapshot(d, I64_MAX + 1);
    var rows := [RowOf(before), RowOf(after)];
    assert Wrapped(I64_MAX + 1) == -(I64_MAX as int) - 1 && Wrapped(I64_MAX) == I64_MAX;
    assert rows[..|rows| - 1] == [] + [RowOf(before)];
    SaveIsLoaded([], before);
  }

  // A store that ignores an existing table commits version 1 first, which the table shows as the
  // latest exactly when it holds nothing newer.
  lemma FirstCommitOverwrites(rows: seq<Row>, c: Contents)
    ensures var first := RowOf(Snapshot(c, Bumped(0)));
            Latest(rows + [first]) == Some(first) <==> forall i | 0 <= i < |rows| :: rows[i].version <= 1
  {
    hide Latest, RowOf;
    assert Bumped(0) == 1 && Wrapped(1) == 1;
    SaveIsLoaded(rows, Snapshot(c, 1));
  }

  // How a save can go: it succeeds, or it fails before or after the row was inserted.
  datatype Outcome = Success | FailsUnwritten(error: CheckpointerError) | FailsWritten(error: CheckpointerError)

  function Reply(outcome: Outcome): Result<(), CheckpointerError> {
    if outcome.Success? then Ok(()) else Err(outcome.error)
  }

  class SqliteCheckpointer {
    var rows: seq<Row>

    constructor ()
      ensures rows == []
    {
      rows := [];
    }

    method Save(snapshot: Snapshot, outcome: Outcome) returns (r: Result<(), CheckpointerError>)
      modifies this
      ensures r == Reply(outcome)
      ensures rows == if outcome.FailsUnwritten? then old(rows) else old(rows) + [RowOf(snapshot)]
    {
      var version := Wrapped(snapshot.version);
      if !outcome.FailsUnwritten? {
        rows := rows + [Row(version, snapshot)];
      }
      r := Reply(outcome);
    }

    // `failure` is what goes wrong while reading the table, if anything does.
    method Load(failure: Option<CheckpointerError>) returns (r: Result<Option<Snapshot>, CheckpointerError>)
      ensures r == if failure.Some? then Err(failure.value) else Ok(Loaded(rows))
    {
      if failure.Some? {
        return Err(failure.value);
      }
      var first := Latest(rows);
      r := Ok(if first.Some? then Some(first.value.snapshot) else None);
    }
  }

  class MemCheckpointer {
    var slot: Option<Snapshot>

    constructor ()
      ensures slot == None
    {
      slot := None;
    }

    method Save(snapshot: Snapshot)
      modifies this
      ensures slot == Some(snapshot)
    {
      slot := Some(snapshot);
    }

    method Load() returns (r: Option<Snapshot>)
      ensures r == slot
    {
      r := slot;
    }
  }

  // No row has a higher version, and no later one the same.
  ghost predicate Newest(rows: seq<Row>, i: nat)
    requires i < |rows|
  {
    forall j | 0 <= j < |rows| && j != i :: rows[j].version < rows[i].version
                                            || (rows[j].version == rows[i].version && j < i)
  }

  lemma TopIsNewest(rows: seq<Row>, row: Row, i: nat)
    requires i < |rows| && TopAt(rows, row, i)
    ensures Newest(rows, i)
  {
  }

  const EMPTY: Contents := Contents(map[], map[], map[], map[])

  // What `new` puts in memory.
  function Opened(loaded: Option<Snapshot>): Snapshot {
    if loaded.Some? then loaded.value else Snapshot(EMPTY, 0)
  }

  class PersistentStore {
    const ontology: Ontology
    const checkpointer: SqliteCheckpointer
    var activities: map<ProvenanceId, Activity>
    var version: nat

    ghost function Memory(): Contents
      reads this, ontology
    {
      Contents(ontology.nodes, ontology.edges, ontology.axioms, activities)
    }

    // The store that holds what a load returned.
    constructor Holding(checkpointer: SqliteCheckpointer, loaded: Option<Snapshot>)
      ensures this.checkpointer == checkpointer && fresh(ontology)
      ensures Snapshot(Memory(), version) == Opened(loaded)
    {
      var o := new Ontology();
      ontology, this.checkpointer := o, checkpointer;
      activities := if loaded.Some? then loaded.value.contents.activities else map[];
      version := if loaded.Some? then loaded.value.version else 0;
      new;
      if loaded.Some? {
        ontology.nodes := loaded.value.contents.nodes;
        ontology.edges := loaded.value.contents.edges;
        ontology.axioms := loaded.value.contents.axioms;
      }
    }

    // `new`
    static method New(checkpointer: SqliteCheckpointer, failure: Option<CheckpointerError>)
      returns (r: Result<PersistentStore, CheckpointerError>)
      ensures failure.Some? ==> r == Err(failure.value)
      ensures failure.None? ==>
                && r.Ok? && fresh(r.value) && fresh(r.value.ontology) && r.value.checkpointer == checkpointer
                && Snapshot(r.value.Memory(), r.value.version) == Opened(Loaded(checkpointer.rows))
                && (checkpointer.rows == [] ==>
                      r.value.Memory() == Contents(map[], map[], map[], map[]) && r.value.version == 0)
                && (checkpointer.rows != [] ==>
                      exists i | 0 <= i < |checkpointer.rows| ::
                        Newest(checkpointer.rows, i)
                        && checkpointer.rows[i].snapshot == Snapshot(r.value.Memory(), r.value.version))
    {
      LatestIsMaximum(checkpointer.rows);
      var loaded := checkpointer.Load(failure);
      if loaded.Err? {
        return Err(loaded.error);
      }
      if checkpointer.rows != [] {
        ghost var i :| 0 <= i < |checkpointer.rows| && TopAt(checkpointer.rows, Latest(checkpointer.rows).value, i);
        TopIsNewest(checkpointer.rows, Latest(checkpointer.rows).value, i);
      }
      var store := new PersistentStore.Holding(checkpointer, loaded.value);
      r := Ok(store);
    }

    // `from_memory`
    constructor FromMemory(checkpointer: SqliteCheckpointer)
      ensures this.checkpointer == checkpointer && fresh(ontology)
      ensures Memory() == EMPTY && version == 0
    {
      var o := new Ontology();
      ontology, this.checkpointer := o, checkpointer;
      activities, version := map[], 0;
    }

    method PutNodes(nodes: seq<Node>)
      modifies ontology`nodes
      ensures ontology.nodes == Put(old(ontology.nodes), NodeKey, nodes)
    {
      for i := 0 to |nodes|
        invariant ontology.nodes == Put(old(ontology.nodes), NodeKey, nodes[..i])
      {
        var _ := ontology.UpsertNode(nodes[i]);
        assert nodes[..i + 1][..i] == nodes[..i];
      }
      assert nodes[..|nodes|] == nodes;
    }

    method PutEdges(edges: seq<Edge>)
      modifies ontology`edges
      ensures ontology.edges == Put(old(ontology.edges), EdgeKey, edges)
    {
      for i := 0 to |edges|
        invariant ontology.edges == Put(old(ontology.edges), EdgeKey, edges[..i])
      {
        var _ := ontology.UpsertEdge(edges[i]);
        assert edges[..i + 1][..i] == edges[..i];
      }
      assert edges[..|edges|] == edges;
    }

    method PutAxioms(axioms: seq<Axiom>, pid: ProvenanceId)
      modifies ontology`axioms
      ensures ontology.axioms == Put(old(ontology.axioms), AxiomKey, StampedAll(axioms, pid))
    {
      ghost var all := StampedAll(axioms, pid);
      for i := 0 to |axioms|
        invariant ontology.axioms == Put(old(ontology.axioms), AxiomKey, all[..i])
      {
        var a := axioms[i];
        if a.provenance.None? {
          a := a.(provenance := Some(pid));
        }
        var _ := ontology.UpsertAxiom(a);
        assert all[..i + 1][..i] == all[..i];
      }
      assert all[..|axioms|] == all;
    }

    // The block of `commit_with_provenance` that runs under the write lock.
    method Begin(delta: Delta, activity: Activity) returns (snapshot: Snapshot)
      modifies this, ontology
      ensures Memory() == Applied(old(Memory()), delta, activity)
      ensures Committed(old(Memory()), delta, activity, Memory())
      ensures version == Bumped(old(version))
      ensures version == if old(version) < 0xFFFF_FFFF_FFFF_FFFF then old(version) + 1 else 0xFFFF_FFFF_FFFF_FFFF
      ensures snapshot == Snapshot(Memory(), version)
    {
      AppliedCommits(Memory(), delta, activity);
      PutNodes(delta.nodes);
      PutEdges(delta.edges);
      PutAxioms(delta.axioms, activity.id);
      activities := activities[activity.id := activity];
      version := if version < U64_MAX then version + 1 else U64_MAX;
      snapshot := Snapshot(Contents(ontology.nodes, ontology.edges, ontology.axioms, activities), version);
    }

    // `commit_with_provenance` with no other commit in between
    method Commit(delta: Delta, activity: Activity, outcome: Outcome)
      returns (r: Result<ProvenanceId, CheckpointerError>)
      modifies this, ontology, checkpointer
      ensures Memory() == Applied(old(Memory()), delta, activity) && version == Bumped(old(version))
      ensures Committed(old(Memory()), delta, activity, Memory())
      ensures r == if outcome.Success? then Ok(activity.id) else Err(outcome.error)
      ensures checkpointer.rows
              == if outcome.FailsUnwritten? then old(checkpointer.rows)
                 else old(checkpointer.rows) + [RowOf(Snapshot(Memory(), version))]
    {
      var snapshot := Begin(delta, activity);
      var saved := checkpointer.Save(snapshot, outcome);
      r := if saved.Ok? then Ok(activity.id) else Err(saved.error);
    }
  }
}
