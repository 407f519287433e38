// Many commits at once: each changes memory under the lock, then saves its snapshot without it, so
// saves land in any order, fail, or never finish; the process may also stop and open the store again.

module CommitProtocol {
  import opened Wrappers
  import opened Core
  import opened Persistence

  datatype Status = Saving | Acknowledged | Failed(written: bool)

  datatype CommitCall = CommitCall(snapshot: Snapshot, status: Status)

  datatype Backend = Table(rows: seq<Row>) | Slot(slot: Option<Snapshot>)

  function Stored(b: Backend, snapshot: Snapshot): Backend {
    match b
    case Table(rows) => Table(rows + [RowOf(snapshot)])
    case Slot(_) => Slot(Some(snapshot))
  }

  function Fetched(b: Backend): Option<Snapshot> {
    match b
    case Table(rows) => Loaded(rows)
    case Slot(slot) => slot
  }

  // `calls` are the commits of the running process in the order of their locked blocks; `points` is
  // the memory at the commit point of each version.
  datatype System = System(
    memory: Contents, version: nat, calls: seq<CommitCall>, backend: Backend, points: map<nat, Contents>)

  datatype Event =
    | Edit(memory: Contents)                        // upserts outside a commit
    | Commit(delta: Delta, activity: Activity)      // the locked block of a commit
    | Land(call: nat)                               // its save returns, and the commit with it
    | Lose(call: nat, written: bool)                // its save fails, before or after storing
    | Reopen                                        // the process stops; `new` on the same backend

  predicate Enabled(s: System, e: Event) {
    match e
    case Land(i) => i < |s.calls| && s.calls[i].status.Saving?
    case Lose(i, _) => i < |s.calls| && s.calls[i].status.Saving?
    case _ => true
  }

  function Marked(calls: seq<CommitCall>, i: nat, status: Status): seq<CommitCall>
    requires i < |calls|
  {
    calls[i := calls[i].(status := status)]
  }

  function Next(s: System, e: Event): System
    requires Enabled(s, e)
  {
    match e
    case Edit(memory) => s.(memory := memory)
    case Commit(delta, activity) =>
      var memory, version := Applied(s.memory, delta, activity), Bumped(s.version);
      s.(memory := memory, version := version, calls := s.calls + [CommitCall(Snapshot(memory, version), Saving)],
         points := s.points[version := memory])
    case Land(i) =>
      s.(calls := Marked(s.calls, i, Acknowledged), backend := Stored(s.backend, s.calls[i].snapshot))
    case Lose(i, written) =>
      s.(calls := Marked(s.calls, i, Failed(written)),
         backend := if written then Stored(s.backend, s.calls[i].snapshot) else s.backend)
    case Reopen =>
      var start := Opened(Fetched(s.backend));
      s.(memory := start.contents, version := start.version, calls := [])
  }

  // A store freshly opened on a backend.
  function Fresh(b: Backend): System {
    var start := Opened(Fetched(b));
    System(start.contents, start.version, [], b, map[])
  }

  ghost predicate Runs(s: System, es: seq<Event>, t: System)
    decreases |es|
  {
    if es == [] then s == t else Enabled(s, es[0]) && Runs(Next(s, es[0]), es[1..], t)
  }

  predicate Written(c: CommitCall) { c.status.Acknowledged? || (c.status.Failed? && c.status.written) }

  // ----- The highest-version-wins table -----

  // Rows carry their own version, and one that was not there at the start is the memory at its
  // commit point.
  ghost predicate HonestRow(s: System, first: seq<Row>, r: Row) {
    && r.version == r.snapshot.version <= s.version
    && (r in first || (r.snapshot.version in s.points && s.points[r.snapshot.version] == r.snapshot.contents))
  }

  ghost predicate HonestCall(s: System, rows: seq<Row>, i: nat)
    requires i < |s.calls|
  {
    var c := s.calls[i].snapshot;
    && c.version == s.version - |s.calls| + 1 + i
    && c.version in s.points && s.points[c.version] == c.contents
    && (Written(s.calls[i]) ==> RowOf(c) in rows)
  }

  // A version of this process is in the table only by the commit of that version.
  ghost predicate Claimed(s: System, r: Row) {
    var i := r.version - (s.version - |s.calls| + 1);
    0 <= i < |s.calls| ==> Written(s.calls[i]) && r == RowOf(s.calls[i].snapshot)
  }

  ghost predicate Safe(s: System, first: seq<Row>) {
    && s.backend.Table? && |s.calls| <= s.version <= I64_MAX
    && (forall r | r in s.backend.rows :: HonestRow(s, first, r) && Claimed(s, r))
    && (forall i | 0 <= i < |s.calls| :: HonestCall(s, s.backend.rows, i))
  }

  // The versions found in the table at the start are within `i64` and stored as they are.
  ghost predicate PlainRows(rows: seq<Row>) {
    forall r | r in rows :: r == RowOf(r.snapshot) && r.snapshot.version <= I64_MAX
  }

  lemma WrappedPlain(v: nat)
    requires v <= I64_MAX
    ensures Wrapped(v) == v
  {
  }

  // The version of the latest row bounds every row.
  lemma LatestBounds(rows: seq<Row>)
    ensures rows == [] <==> Latest(rows).None?
    ensures forall r | r in rows :: Latest(rows).Some? && r.version <= Latest(rows).value.version
    ensures Latest(rows).Some? ==> Latest(rows).value in rows
  {
    hide Latest;
    LatestIsMaximum(rows);
  }

  lemma FreshIsSafe(rows: seq<Row>)
    requires PlainRows(rows)
    ensures Safe(Fresh(Table(rows)), rows)
  {
    hide Latest;
    LatestBounds(rows);
    forall r | r in rows ensures r.version == r.snapshot.version {
      WrappedPlain(r.snapshot.version);
    }
  }

  lemma CommitIsSafe(s: System, e: Event, first: seq<Row>)
    requires Safe(s, first) && e.Commit? && s.version < I64_MAX
    ensures Safe(Next(s, e), first)
  {
    hide Applied, RowOf, Latest;
    var t := Next(s, e);
    assert t.calls[..|s.calls|] == s.calls;
    forall r | r in t.backend.rows ensures HonestRow(t, first, r) && Claimed(t, r) {
      assert HonestRow(s, first, r) && Claimed(s, r);
    }
    forall i | 0 <= i < |t.calls| ensures HonestCall(t, t.backend.rows, i) {
      if i < |s.calls| {
        assert HonestCall(s, s.backend.rows, i);
        assert t.calls[i] == s.calls[i];
      }
    }
  }

  lemma SaveIsSafe(s: System, i: nat, status: Status, first: seq<Row>)
    requires Safe(s, first) && i < |s.calls| && s.calls[i].status.Saving? && Written(s.calls[i].(status := status))
    ensures Safe(s.(calls := Marked(s.calls, i, status), backend := Stored(s.backend, s.calls[i].snapshot)), first)
  {
    hide Latest;
    var c := s.calls[i].snapshot;
    var t := s.(calls := Marked(s.calls, i, status), backend := Stored(s.backend, c));
    assert HonestCall(s, s.backend.rows, i);
    WrappedPlain(c.version);
    forall r | r in t.backend.rows ensures HonestRow(t, first, r) && Claimed(t, r) {
      if r in s.backend.rows {
        assert HonestRow(s, first, r) && Claimed(s, r);
      }
    }
    forall k | 0 <= k < |t.calls| ensures HonestCall(t, t.backend.rows, k) {
      assert HonestCall(s, s.backend.rows, k);
    }
  }

  lemma LossIsSafe(s: System, i: nat, first: seq<Row>)
    requires Safe(s, first) && i < |s.calls| && s.calls[i].status.Saving?
    ensures Safe(s.(calls := Marked(s.calls, i, Failed(false))), first)
  {
    hide RowOf;
    var t := s.(calls := Marked(s.calls, i, Failed(false)));
    forall r | r in t.backend.rows ensures HonestRow(t, first, r) && Claimed(t, r) {
      assert HonestRow(s, first, r) && Claimed(s, r);
    }
    forall k | 0 <= k < |t.calls| ensures HonestCall(t, t.backend.rows, k) {
      assert HonestCall(s, s.backend.rows, k);
    }
  }

  lemma ReopenIsSafe(s: System, first: seq<Row>)
    requires Safe(s, first)
    ensures Safe(Next(s, Reopen), first) && Next(s, Reopen).version <= s.version
  {
    hide Latest, RowOf;
    var t := Next(s, Reopen);
    LatestBounds(s.backend.rows);
    forall r | r in t.backend.rows ensures HonestRow(t, first, r) && Claimed(t, r) {
      assert HonestRow(s, first, r);
      assert HonestRow(s, first, Latest(s.backend.rows).value);
    }
    if s.backend.rows != [] {
      assert HonestRow(s, first, Latest(s.backend.rows).value);
    }
  }

  // Every event keeps the table honest.
  lemma StepIsSafe(s: System, e: Event, first: seq<Row>)
    requires Safe(s, first) && Enabled(s, e) && s.version < I64_MAX
    ensures Safe(Next(s, e), first) && s.backend.rows <= Next(s, e).backend.rows
    ensures Next(s, e).version <= s.version + 1
  {
    hide Applied, HonestRow, HonestCall, Claimed, Safe, Latest, Fetched;
    assert Safe(s, first) ==> s.backend.Table? by {
      SafeMeans(s, first);
    }
    match e {
      case Edit(memory) => EditIsSafe(s, memory, first);
      case Commit(_, _) => CommitIsSafe(s, e, first);
      case Land(i) => SaveIsSafe(s, i, Acknowledged, first);
      case Lose(i, written) =>
        if written {
          SaveIsSafe(s, i, Failed(true), first);
        } else {
          LossIsSafe(s, i, first);
        }
      case Reopen => ReopenIsSafe(s, first);
    }
  }

  lemma SafeMeans(s: System, first: seq<Row>)
    requires Safe(s, first)
    ensures s.backend.Table? && |s.calls| <= s.version <= I64_MAX
  {
  }

  lemma EditIsSafe(s: System, memory: Contents, first: seq<Row>)
    requires Safe(s, first)
    ensures Safe(s.(memory := memory), first)
  {
    var t := s.(memory := memory);
    forall r | r in t.backend.rows ensures HonestRow(t, first, r) && Claimed(t, r) {
      assert HonestRow(s, first, r) && Claimed(s, r);
    }
    forall k | 0 <= k < |t.calls| ensures HonestCall(t, t.backend.rows, k) {
      assert HonestCall(s, s.backend.rows, k);
    }
  }

  // Over every run whose length keeps the counter within `i64`.
  lemma {:induction false} RunIsSafe(s: System, es: seq<Event>, t: System, first: seq<Row>)
    requires Safe(s, first) && Runs(s, es, t) && s.version + |es| <= I64_MAX
    ensures Safe(t, first) && s.backend.rows <= t.backend.rows && t.version <= s.version + |es|
    decreases |es|
  {
    hide Safe, Next, Enabled;
    SafeMeans(s, first);
    if es != [] {
      StepIsSafe(s, es[0], first);
      SafeMeans(Next(s, es[0]), first);
      RunIsSafe(Next(s, es[0]), es[1..], t, first);
      SafeMeans(t, first);
    }
  }

  // Whatever a load returns was there at the start or is the memory at the commit point of its version.
  lemma LoadIsCommitPoint(rows: seq<Row>, es: seq<Event>, t: System)
    requires PlainRows(rows) && Runs(Fresh(Table(rows)), es, t) && Fresh(Table(rows)).version + |es| <= I64_MAX
    ensures var x := Fetched(t.backend);
            x.Some? ==>
              || (exists r | r in rows :: r.snapshot == x.value)
              || (x.value.version in t.points && t.points[x.value.version] == x.value.contents)
  {
    hide Latest, Runs;
    FreshIsSafe(rows);
    RunIsSafe(Fresh(Table(rows)), es, t, rows);
    LatestBounds(t.backend.rows);
    if t.backend.rows != [] {
      assert HonestRow(t, rows, Latest(t.backend.rows).value);
    }
  }

  // Durability: after a commit has returned Ok no later load, in this process or after a restart,
  // returns an older version.
  lemma Durable(rows: seq<Row>, before: seq<Event>, s: System, i: nat, after: seq<Event>, t: System)
    requires PlainRows(rows) && Runs(Fresh(Table(rows)), before, s) && Runs(s, after, t)
    requires Fresh(Table(rows)).version + |before| + |after| <= I64_MAX
    requires i < |s.calls| && s.calls[i].status.Acknowledged?
    ensures Fetched(t.backend).Some? && Fetched(t.backend).value.version >= s.calls[i].snapshot.version
  {
    hide Latest, Runs;
    FreshIsSafe(rows);
    RunIsSafe(Fresh(Table(rows)), before, s, rows);
    RunIsSafe(s, after, t, rows);
    var row := RowOf(s.calls[i].snapshot);
    assert HonestCall(s, s.backend.rows, i);
    assert row in t.backend.rows;
    LatestBounds(t.backend.rows);
    assert HonestRow(s, rows, row);
    assert HonestRow(t, rows, Latest(t.backend.rows).value);
  }

  // The newest commit is what a load returns exactly when its snapshot was written, whatever the
  // others did; in particular whenever no save is pending or failed.
  lemma LastCommitLoads(rows: seq<Row>, es: seq<Event>, s: System)
    requires PlainRows(rows) && Runs(Fresh(Table(rows)), es, s) && Fresh(Table(rows)).version + |es| <= I64_MAX
    requires s.calls != []
    ensures var last := s.calls[|s.calls| - 1];
            Fetched(s.backend) == Some(last.snapshot) <==> Written(last)
  {
    hide Latest, Runs;
    FreshIsSafe(rows);
    RunIsSafe(Fresh(Table(rows)), es, s, rows);
    var n := |s.calls| - 1;
    var last, now := s.calls[n], s.backend.rows;
    LatestBounds(now);
    assert HonestCall(s, now, n);
    if Written(last) {
      WrappedPlain(last.snapshot.version);
      var top := Latest(now).value;
      assert HonestRow(s, rows, top) && Claimed(s, top);
      assert top.version == s.version;
    } else {
      forall r | r in now ensures r.snapshot != last.snapshot {
        assert HonestRow(s, rows, r) && Claimed(s, r);
      }
    }
  }

  // ----- The overwriting slot -----

  // Some commit took this snapshot.
  ghost predicate PointOf(s: System, x: Snapshot) {
    x.version <= s.version && x.version in s.points && s.points[x.version] == x.contents
  }

  ghost predicate SlotHonest(s: System, first: Option<Snapshot>) {
    && s.backend.Slot?
    && (s.backend.slot.Some? ==> s.backend.slot.value.version <= s.version)
    && (s.backend.slot == first || (s.backend.slot.Some? && PointOf(s, s.backend.slot.value)))
    && forall i | 0 <= i < |s.calls| :: PointOf(s, s.calls[i].snapshot)
  }

  lemma SlotStep(s: System, e: Event, first: Option<Snapshot>)
    requires SlotHonest(s, first) && Enabled(s, e) && s.version < U64_MAX
    ensures SlotHonest(Next(s, e), first) && Next(s, e).version <= s.version + 1
  {
    hide Applied;
    var t := Next(s, e);
    forall i | 0 <= i < |t.calls| ensures PointOf(t, t.calls[i].snapshot) {
      if i < |s.calls| {
        assert PointOf(s, s.calls[i].snapshot);
      }
    }
  }

  // All that the overwriting slot gives for every run: its content was there at the start or is the
  // memory at the commit point of its version.
  lemma {:induction false} SlotIsCommitPoint(s: System, es: seq<Event>, t: System, first: Option<Snapshot>)
    requires SlotHonest(s, first) && Runs(s, es, t) && s.version + |es| <= U64_MAX
    ensures SlotHonest(t, first)
    decreases |es|
  {
    hide SlotHonest, Next, Enabled;
    if es != [] {
      SlotStep(s, es[0], first);
      SlotIsCommitPoint(Next(s, es[0]), es[1..], t, first);
    }
  }

  // A run in which no commit begins while the save of another is under way.
  ghost predicate OneAtATime(s: System, es: seq<Event>)
    decreases |es|
  {
    if es == [] then true
    else
      && Enabled(s, es[0])
      && (es[0].Commit? ==> forall i | 0 <= i < |s.calls| :: !s.calls[i].status.Saving?)
      && OneAtATime(Next(s, es[0]), es[1..])
  }

  ghost predicate NoneAfter(calls: seq<CommitCall>, i: int)
    requires -1 <= i
  {
    forall j | i < j < |calls| :: !Written(calls[j])
  }

  // A load returns the newest commit of this process that was written.
  ghost predicate LoadsNewest(s: System) {
    forall i | 0 <= i < |s.calls| && Written(s.calls[i]) && NoneAfter(s.calls, i) ::
      Fetched(s.backend) == Some(s.calls[i].snapshot)
  }

  // No save is under way once a later commit was written or is being written.
  ghost predicate Clear(s: System) {
    forall i, j | 0 <= i < j < |s.calls| && s.calls[i].status.Saving? :: s.calls[j].status == Failed(false)
  }

  // What every run on a slot keeps: commits are numbered in order, and until one is written the slot
  // holds something older than all of them.
  ghost predicate Numbered(s: System) {
    && s.backend.Slot? && |s.calls| <= s.version
    && (forall i | 0 <= i < |s.calls| :: s.calls[i].snapshot.version == s.version - |s.calls| + 1 + i)
    && (s.backend.slot.Some? ==> s.backend.slot.value.version <= s.version)
    && (NoneAfter(s.calls, -1) ==> s.backend.slot.None? || s.backend.slot.value.version <= s.version - |s.calls|)
  }

  lemma NumberedStep(s: System, e: Event)
    requires Numbered(s) && Enabled(s, e) && s.version < U64_MAX
    ensures Numbered(Next(s, e)) && Next(s, e).version <= s.version + 1
  {
    hide Applied;
    var t := Next(s, e);
    match e {
      case Edit(_) =>
      case Commit(_, _) =>
        assert NoneAfter(t.calls, -1) ==> NoneAfter(s.calls, -1) by {
          assert forall j | 0 <= j < |s.calls| :: t.calls[j] == s.calls[j];
        }
      case Land(i) =>
        assert Written(t.calls[i]);
      case Lose(i, written) =>
        if written {
          assert Written(t.calls[i]);
        } else {
          assert forall j | 0 <= j < |s.calls| :: Written(t.calls[j]) == Written(s.calls[j]);
        }
      case Reopen =>
    }
  }

  lemma {:induction false} NumberedRun(s: System, es: seq<Event>, t: System)
    requires Numbered(s) && Runs(s, es, t) && s.version + |es| <= U64_MAX
    ensures Numbered(t) && t.version <= s.version + |es|
    decreases |es|
  {
    hide Numbered, Next, Enabled;
    if es != [] {
      NumberedStep(s, es[0]);
      NumberedRun(Next(s, es[0]), es[1..], t);
    }
  }

  lemma FreshNumbered(b: Backend)
    requires b.Slot?
    ensures Numbered(Fresh(b)) && LoadsNewest(Fresh(b)) && Clear(Fresh(b))
  {
  }

  lemma NewestStep(s: System, e: Event)
    requires Numbered(s) && LoadsNewest(s) && Clear(s) && Enabled(s, e)
    requires e.Commit? ==> forall i | 0 <= i < |s.calls| :: !s.calls[i].status.Saving?
    ensures LoadsNewest(Next(s, e)) && Clear(Next(s, e))
  {
    hide Applied;
    var t := Next(s, e);
    match e {
      case Edit(_) =>
      case Commit(_, _) =>
        forall i | 0 <= i < |s.calls| && NoneAfter(t.calls, i) ensures NoneAfter(s.calls, i) {
          assert forall j | i < j < |s.calls| :: t.calls[j] == s.calls[j];
        }
        assert !Written(t.calls[|s.calls|]);
      case Land(i) => SaveIsNewest(s, i, Acknowledged);
      case Lose(i, written) =>
        if written {
          SaveIsNewest(s, i, Failed(true));
        } else {
          LossKeepsNewest(s, i);
        }
      case Reopen =>
    }
  }

  lemma SaveIsNewest(s: System, i: nat, status: Status)
    requires Numbered(s) && Clear(s)
    requires i < |s.calls| && s.calls[i].status.Saving? && Written(s.calls[i].(status := status))
    ensures var t := s.(calls := Marked(s.calls, i, status), backend := Stored(s.backend, s.calls[i].snapshot));
            LoadsNewest(t) && Clear(t)
  {
    var calls := Marked(s.calls, i, status);
    assert Written(calls[i]);
    assert forall k | 0 <= k < i :: !NoneAfter(calls, k);
    assert forall j | i < j < |calls| :: !Written(calls[j]);
  }

  lemma LossKeepsNewest(s: System, i: nat)
    requires LoadsNewest(s) && Clear(s) && i < |s.calls| && s.calls[i].status.Saving?
    ensures var t := s.(calls := Marked(s.calls, i, Failed(false)));
            LoadsNewest(t) && Clear(t)
  {
    var calls := Marked(s.calls, i, Failed(false));
    assert forall j | 0 <= j < |s.calls| :: Written(calls[j]) == Written(s.calls[j]);
    assert forall k | 0 <= k < |s.calls| :: NoneAfter(calls, k) == NoneAfter(s.calls, k);
    assert forall k | 0 <= k < |s.calls| && Written(calls[k]) :: calls[k] == s.calls[k];
  }

  lemma {:induction false} NewestRun(s: System, es: seq<Event>, t: System)
    requires Numbered(s) && LoadsNewest(s) && Clear(s)
    requires OneAtATime(s, es) && Runs(s, es, t) && s.version + |es| <= U64_MAX
    ensures LoadsNewest(t) && Clear(t)
    decreases |es|
  {
    hide Numbered, LoadsNewest, Clear, Next, Enabled;
    if es != [] {
      NumberedStep(s, es[0]);
      NewestStep(s, es[0]);
      NewestRun(Next(s, es[0]), es[1..], t);
    }
  }

  lemma Extend(s: System, e: Event, es: seq<Event>, t: System)
    requires Enabled(s, e) && Runs(Next(s, e), es, t)
    ensures Runs(s, [e] + es, t)
  {
    hide Next;
    assert ([e] + es)[1..] == es;
  }

  // A save that lands after a later commit was written leaves the slot on the older one.
  lemma LateSave(s: System, i: nat, j: nat)
    requires Numbered(s) && i < j < |s.calls| && s.calls[i].status.Saving? && Written(s.calls[j])
    ensures Runs(s, [Land(i)], Next(s, Land(i))) && OneAtATime(s, [Land(i)])
    ensures Fetched(Next(s, Land(i)).backend) == Some(s.calls[i].snapshot) && !LoadsNewest(Next(s, Land(i)))
  {
    var t := Next(s, Land(i));
    Extend(s, Land(i), [], t);
    assert [Land(i)][1..] == [] && OneAtATime(t, []);
    assert Written(t.calls[j]);
    var k := LastWritten(t.calls, j);
    assert t.calls[k].snapshot.version > t.calls[i].snapshot.version;
  }

  lemma {:induction false} LastWritten(calls: seq<CommitCall>, j: nat) returns (k: nat)
    requires j < |calls| && Written(calls[j])
    ensures j <= k < |calls| && Written(calls[k]) && NoneAfter(calls, k)
    decreases |calls| - j
  {
    if n :| j < n < |calls| && Written(calls[n]) {
      k := LastWritten(calls, n);
    } else {
      k := j;
    }
  }

  // Of two saves under way together the older can land last: both commits are acknowledged, and the
  // slot holds the older one.
  lemma OverlapBreaks(s: System, i: nat, j: nat) returns (t: System)
    requires Numbered(s) && i < j < |s.calls| && s.calls[i].status.Saving? && s.calls[j].status.Saving?
    requires s.version < U64_MAX
    ensures Runs(s, [Land(j), Land(i)], t) && OneAtATime(s, [Land(j), Land(i)])
    ensures |t.calls| == |s.calls| && t.calls[i].status.Acknowledged? && t.calls[j].status.Acknowledged?
    ensures Fetched(t.backend) == Some(t.calls[i].snapshot) && t.calls[i].snapshot.version < t.calls[j].snapshot.version
    ensures !LoadsNewest(t)
  {
    hide LoadsNewest;
    var one := Next(s, Land(j));
    NumberedStep(s, Land(j));
    LateSave(one, i, j);
    t := Next(one, Land(i));
    Extend(s, Land(j), [Land(i)], t);
    assert [Land(j), Land(i)][1..] == [Land(i)];
  }

  // From every state of every run in which a load returns the newest written commit, it goes on doing
  // so in every continuation that begins no commit during the save of another, exactly when no save
  // is under way once a later commit was written or is being written.
  lemma SlotExactly(b: Backend, before: seq<Event>, s: System)
    requires b.Slot? && Runs(Fresh(b), before, s) && Fresh(b).version + |before| + 2 <= U64_MAX && LoadsNewest(s)
    ensures (forall es, t | Runs(s, es, t) && OneAtATime(s, es) && s.version + |es| <= U64_MAX :: LoadsNewest(t))
            <==> Clear(s)
  {
    hide Runs, OneAtATime, LoadsNewest, Numbered;
    FreshNumbered(b);
    NumberedRun(Fresh(b), before, s);
    if Clear(s) {
      forall es, t | Runs(s, es, t) && OneAtATime(s, es) && s.version + |es| <= U64_MAX ensures LoadsNewest(t) {
        NewestRun(s, es, t);
      }
    } else {
      var i, j :| 0 <= i < j < |s.calls| && s.calls[i].status.Saving? && s.calls[j].status != Failed(false);
      if s.calls[j].status.Saving? {
        var t := OverlapBreaks(s, i, j);
      } else {
        LateSave(s, i, j);
      }
    }
  }

  // Without overlapping commits the slot gives what the table always gives.
  lemma SlotInOrder(b: Backend, es: seq<Event>, t: System)
    requires b.Slot? && Runs(Fresh(b), es, t) && OneAtATime(Fresh(b), es) && Fresh(b).version + |es| <= U64_MAX
    requires t.calls != []
    ensures var last := t.calls[|t.calls| - 1];
            Fetched(t.backend) == Some(last.snapshot) <==> Written(last)
  {
    hide Runs, OneAtATime;
    FreshNumbered(b);
    NumberedRun(Fresh(b), es, t);
    NewestRun(Fresh(b), es, t);
    var n := |t.calls| - 1;
    if Written(t.calls[n]) {
      assert NoneAfter(t.calls, n);
    } else {
      OlderSlot(t, n);
    }
  }

  // The slot holds the newest written commit or something from before this process.
  lemma {:induction false} OlderSlot(t: System, n: nat)
    requires Numbered(t) && LoadsNewest(t) && n <= |t.calls| && NoneAfter(t.calls, n - 1)
    ensures t.backend.slot.None? || t.backend.slot.value.version <= t.version - |t.calls| + n
  {
    if n > 0 && !Written(t.calls[n - 1]) {
      assert NoneAfter(t.calls, n - 2);
      OlderSlot(t, n - 1);
    }
  }

  // Two commits that overlap: the older save lands last. Both have returned Ok.
  function Overlap(d1: Delta, a1: Activity, d2: Delta, a2: Activity): seq<Event> {
    [Commit(d1, a1), Commit(d2, a2), Land(1), Land(0)]
  }

  function AfterOverlap(b: Backend, d1: Delta, a1: Activity, d2: Delta, a2: Activity): System {
    var s := Fresh(b);
    var one := Next(s, Commit(d1, a1));
    var two := Next(one, Commit(d2, a2));
    Next(Next(two, Land(1)), Land(0))
  }

  // The slot then holds the older commit, where the table still returns the newer one.
  lemma OverlapLosesSlot(d1: Delta, a1: Activity, d2: Delta, a2: Activity)
    ensures Runs(Fresh(Slot(None)), Overlap(d1, a1, d2, a2), AfterOverlap(Slot(None), d1, a1, d2, a2))
    ensures var t := AfterOverlap(Slot(None), d1, a1, d2, a2);
            && t.calls[0].status.Acknowledged? && t.calls[1].status.Acknowledged?
            && Fetched(t.backend) == Some(t.calls[0].snapshot)
            && t.calls[0].snapshot.version < t.calls[1].snapshot.version
    ensures var t := AfterOverlap(Table([]), d1, a1, d2, a2);
            Fetched(t.backend) == Some(t.calls[1].snapshot)
  {
    hide Applied;
    OverlapRuns(d1, a1, d2, a2);
    var t := AfterOverlap(Table([]), d1, a1, d2, a2);
    var older, newer := t.calls[0].snapshot, t.calls[1].snapshot;
    assert older.version == 1 && newer.version == 2;
    assert t.backend.rows == [RowOf(newer), RowOf(older)];
    assert t.backend.rows[..1] == [] + [RowOf(newer)];
    SaveIsLoaded([], newer);
  }

  lemma OverlapRuns(d1: Delta, a1: Activity, d2: Delta, a2: Activity)
    ensures Runs(Fresh(Slot(None)), Overlap(d1, a1, d2, a2), AfterOverlap(Slot(None), d1, a1, d2, a2))
  {
    hide Applied;
    var s0 := Fresh(Slot(None));
    var s1 := Next(s0, Commit(d1, a1));
    var s2 := Next(s1, Commit(d2, a2));
    var s3 := Next(s2, Land(1));
    var t := Next(s3, Land(0));
    Extend(s3, Land(0), [], t);
    Extend(s2, Land(1), [Land(0)], t);
    Extend(s1, Commit(d2, a2), [Land(1), Land(0)], t);
    Extend(s0, Commit(d1, a1), [Commit(d2, a2), Land(1), Land(0)], t);
  }
}
