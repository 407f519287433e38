// Which entry leaves the cache: the one inserted first, which is one used least recently only while
// there is a choice of one.

module CacheEviction {
  import opened Wrappers
  import opened Collections
  import opened Cache

  // The calls of one run, from an empty cache.
  function Filled(inner: Inner, cap: nat, ps: seq<Prompt>): Store { After(inner, Lru(cap), EMPTY, ps) }

  // The number of the last call with this key, zero without one.
  function LastUse(inner: Inner, ps: seq<Prompt>, k: nat): (n: nat)
    ensures n <= |ps|
    decreases |ps|
  {
    if ps == [] then 0 else if inner.key(ps[|ps| - 1]) == k then |ps| else LastUse(inner, ps[..|ps| - 1], k)
  }

  // The number of the last call that put the key into the cache.
  function InsertedAt(inner: Inner, cap: nat, ps: seq<Prompt>, k: nat): (n: nat)
    ensures n <= |ps|
    decreases |ps|
  {
    if ps == [] then 0
    else if k in Filled(inner, cap, ps).cache && k !in Filled(inner, cap, ps[..|ps| - 1]).cache then |ps|
    else InsertedAt(inner, cap, ps[..|ps| - 1], k)
  }

  // The call `p` after the calls `ps` drives out the key `k`.
  ghost predicate Evicts(inner: Inner, cap: nat, ps: seq<Prompt>, p: Prompt, k: nat) {
    k in Filled(inner, cap, ps).cache && k !in Served(inner, Lru(cap), Filled(inner, cap, ps), p).cache
  }

  ghost predicate LeastRecent(inner: Inner, cap: nat, ps: seq<Prompt>, k: nat) {
    forall j | j in Filled(inner, cap, ps).cache :: LastUse(inner, ps, k) <= LastUse(inner, ps, j)
  }

  // In every run the entry that leaves is one of those used least recently.
  ghost predicate EvictsLeastRecent(inner: Inner, cap: nat) {
    forall ps, p, k | Evicts(inner, cap, ps, p, k) :: LeastRecent(inner, cap, ps, k)
  }

  // What an eviction tells: the cache was full, and its first key left.
  lemma EvictedIsFirst(inner: Inner, cap: nat, ps: seq<Prompt>, p: Prompt, k: nat)
    requires Evicts(inner, cap, ps, p, k)
    ensures var st := Filled(inner, cap, ps);
            && Lists(st) && st.order != [] && k == st.order[0] && cap <= |st.cache| <= Bound(cap)
            && inner.key(p) !in st.cache && inner.complete(p).Ok?
  {
    hide NoRepeats, After;
    FilledListed(inner, cap, ps);
  }

  // ----- The order of insertion -----

  ghost predicate Rising(keys: seq<nat>, time: nat -> nat) {
    forall i, j | 0 <= i < j < |keys| :: time(keys[i]) < time(keys[j])
  }

  ghost function Times(inner: Inner, cap: nat, ps: seq<Prompt>): nat -> nat {
    k => InsertedAt(inner, cap, ps, k)
  }

  lemma FilledListed(inner: Inner, cap: nat, ps: seq<Prompt>)
    ensures Lists(Filled(inner, cap, ps)) && |Filled(inner, cap, ps).cache| <= Bound(cap)
  {
    AfterListed(inner, Lru(cap), EMPTY, ps);
  }

  // The order is that of insertion.
  lemma {:induction false} OrderRises(inner: Inner, cap: nat, ps: seq<Prompt>)
    ensures Rising(Filled(inner, cap, ps).order, Times(inner, cap, ps))
    decreases |ps|
  {
    hide Served, Rising, InsertedAt;
    if ps == [] {
      NoneRise(Times(inner, cap, ps));
    } else {
      var init, p := ps[..|ps| - 1], ps[|ps| - 1];
      OrderRises(inner, cap, init);
      FilledListed(inner, cap, init);
      var before, now := Filled(inner, cap, init), Filled(inner, cap, ps);
      if inner.key(p) in before.cache || inner.complete(p).Err? {
        UnservedStays(inner, cap, before, p);
        forall k | k in before.order ensures InsertedAt(inner, cap, ps, k) == InsertedAt(inner, cap, init, k) {
          KeptTime(inner, cap, ps, k);
        }
        SameTimesRise(before.order, Times(inner, cap, init), Times(inner, cap, ps));
      } else {
        MissRises(inner, cap, ps);
      }
    }
  }

  lemma NoneRise(time: nat -> nat)
    ensures Rising([], time)
  {
  }

  lemma SameTimesRise(keys: seq<nat>, was: nat -> nat, now: nat -> nat)
    requires Rising(keys, was) && forall k | k in keys :: now(k) == was(k)
    ensures Rising(keys, now)
  {
  }

  lemma TailRises(keys: seq<nat>, time: nat -> nat)
    requires Rising(keys, time) && keys != []
    ensures Rising(keys[1..], time)
  {
    assert forall i | 0 <= i < |keys[1..]| :: keys[1..][i] == keys[i + 1];
  }

  lemma LastRises(keys: seq<nat>, key: nat, time: nat -> nat)
    requires Rising(keys, time) && forall k | k in keys :: time(k) < time(key)
    ensures Rising(keys + [key], time)
  {
  }

  lemma UnservedStays(inner: Inner, cap: nat, st: Store, p: Prompt)
    requires inner.key(p) in st.cache || inner.complete(p).Err?
    ensures Served(inner, Lru(cap), st, p) == st
  {
  }

  lemma KeptTime(inner: Inner, cap: nat, ps: seq<Prompt>, k: nat)
    requires ps != [] && (k in Filled(inner, cap, ps[..|ps| - 1]).cache || k !in Filled(inner, cap, ps).cache)
    ensures InsertedAt(inner, cap, ps, k) == InsertedAt(inner, cap, ps[..|ps| - 1], k) <= |ps| - 1
  {
    hide Filled;
  }

  // The key of a miss comes last, and later than all the others.
  lemma MissRises(inner: Inner, cap: nat, ps: seq<Prompt>)
    requires ps != [] && Lists(Filled(inner, cap, ps[..|ps| - 1]))
    requires Rising(Filled(inner, cap, ps[..|ps| - 1]).order, Times(inner, cap, ps[..|ps| - 1]))
    requires inner.key(ps[|ps| - 1]) !in Filled(inner, cap, ps[..|ps| - 1]).cache && inner.complete(ps[|ps| - 1]).Ok?
    ensures Rising(Filled(inner, cap, ps).order, Times(inner, cap, ps))
  {
    hide Filled, Rising, NoRepeats, InsertedAt;
    var init, key := ps[..|ps| - 1], inner.key(ps[|ps| - 1]);
    var before, now := Filled(inner, cap, init), Filled(inner, cap, ps);
    var kept := Room(cap, before);
    AfterStep(inner, cap, ps);
    assert now.order == kept.order + [key];
    RoomLists(cap, before);
    if kept.order != before.order {
      TailRises(before.order, Times(inner, cap, init));
    }
    forall k | k in kept.order ensures InsertedAt(inner, cap, ps, k) == InsertedAt(inner, cap, init, k) <= |ps| - 1 {
      assert k in kept.cache && k in before.cache;
      KeptTime(inner, cap, ps, k);
    }
    SameTimesRise(kept.order, Times(inner, cap, init), Times(inner, cap, ps));
    MissTime(inner, cap, ps);
    LastRises(kept.order, key, Times(inner, cap, ps));
  }

  lemma MissTime(inner: Inner, cap: nat, ps: seq<Prompt>)
    requires ps != [] && inner.key(ps[|ps| - 1]) !in Filled(inner, cap, ps[..|ps| - 1]).cache
    requires inner.complete(ps[|ps| - 1]).Ok?
    ensures InsertedAt(inner, cap, ps, inner.key(ps[|ps| - 1])) == |ps|
  {
    hide Filled;
    AfterStep(inner, cap, ps);
  }

  lemma AfterStep(inner: Inner, cap: nat, ps: seq<Prompt>)
    requires ps != []
    ensures Filled(inner, cap, ps) == Served(inner, Lru(cap), Filled(inner, cap, ps[..|ps| - 1]), ps[|ps| - 1])
  {
  }

  // Whatever leaves the cache was inserted before everything else in it.
  lemma EvictsByInsertion(inner: Inner, cap: nat, ps: seq<Prompt>, p: Prompt, k: nat)
    requires Evicts(inner, cap, ps, p, k)
    ensures forall j | j in Filled(inner, cap, ps).cache && j != k ::
              InsertedAt(inner, cap, ps, k) < InsertedAt(inner, cap, ps, j)
  {
    hide After, InsertedAt;
    EvictedIsFirst(inner, cap, ps, p, k);
    OrderRises(inner, cap, ps);
    var order := Filled(inner, cap, ps).order;
    forall j | j in Filled(inner, cap, ps).cache && j != k
      ensures InsertedAt(inner, cap, ps, k) < InsertedAt(inner, cap, ps, j)
    {
      var i :| 0 <= i < |order| && order[i] == j;
    }
  }

  // ----- The order of use -----

  // As many calls as the cache holds, all with different keys, fill it.
  lemma {:induction false} Fills(inner: Inner, cap: nat, ps: seq<Prompt>, n: nat)
    requires Apart(inner, ps) && n <= |ps| && n <= cap
    ensures Lists(Filled(inner, cap, ps[..n])) && Filled(inner, cap, ps[..n]).order == Keys(inner, ps[..n])
    decreases n
  {
    hide Filled, NoRepeats, Room, Keys, Apart;
    FilledListed(inner, cap, ps[..n]);
    if n == 0 {
      FilledStart(inner, cap);
      assert ps[..n] == [];
    } else {
      assert ps[..n][..n - 1] == ps[..n - 1];
      Fills(inner, cap, ps, n - 1);
      AfterStep(inner, cap, ps[..n]);
      var before := Filled(inner, cap, ps[..n - 1]);
      ListedSize(before);
      RoomSpare(cap, before);
      NewKey(inner, ps, n - 1);
    }
  }

  lemma NewKey(inner: Inner, ps: seq<Prompt>, n: nat)
    requires Apart(inner, ps) && n < |ps|
    ensures inner.complete(ps[n]).Ok? && inner.key(ps[n]) !in Keys(inner, ps[..n])
    ensures Keys(inner, ps[..n + 1]) == Keys(inner, ps[..n]) + [inner.key(ps[n])]
  {
  }

  lemma FilledStart(inner: Inner, cap: nat)
    ensures Filled(inner, cap, []) == EMPTY
  {
  }

  // Filled, the oldest key used again, and one more: the key used last leaves.
  lemma UsedLastLeaves(inner: Inner, cap: nat, ps: seq<Prompt>)
    requires cap >= 2 && |ps| == cap + 1 && Apart(inner, ps)
    ensures var run := ps[..cap] + [ps[0]];
            Evicts(inner, cap, run, ps[cap], inner.key(ps[0])) && !LeastRecent(inner, cap, run, inner.key(ps[0]))
  {
    hide After, NoRepeats;
    var full, run := ps[..cap], ps[..cap] + [ps[0]];
    Fills(inner, cap, ps, cap);
    var st := Filled(inner, cap, full);
    ListedSize(st);
    assert run[..|run| - 1] == full && run[|run| - 1] == ps[0];
    AfterStep(inner, cap, run);
    assert st.order[0] == inner.key(ps[0]) && st.order[1] == inner.key(ps[1]);
    assert Filled(inner, cap, run) == st;
    assert forall i | 0 <= i < |st.order| :: st.order[i] != inner.key(ps[cap]);
    assert LastUse(inner, run, inner.key(ps[0])) == cap + 1;
    assert LastUse(inner, run, inner.key(ps[1])) == LastUse(inner, full, inner.key(ps[1]));
  }

  // An eviction from a cache of two or more shows more answered keys than it holds.
  lemma EvictionOverflows(inner: Inner, cap: nat, ps: seq<Prompt>, p: Prompt, k: nat)
    requires cap >= 2 && Evicts(inner, cap, ps, p, k)
    ensures Overflows(inner, cap)
  {
    hide After, NoRepeats, Sourced;
    EvictedIsFirst(inner, cap, ps, p, k);
    var st := Filled(inner, cap, ps);
    ListedSize(st);
    EmptySourced(inner, Elements(ps));
    AfterSourced(inner, Lru(cap), Elements(ps), EMPTY, ps);
    var qs := Askers(inner, Elements(ps), st.cache, st.order);
    var all := qs + [p];
    forall i, j | 0 <= i < j < |all| ensures inner.key(all[i]) != inner.key(all[j]) {
      assert st.order[i] in st.order;
    }
    assert Apart(inner, all);
  }

  lemma EmptySourced(inner: Inner, asked: set<Prompt>)
    ensures Sourced(inner, asked, EMPTY.cache)
  {
  }

  // In every run each eviction takes a least recently used key, exactly when the cache holds at most
  // one entry or the backend answers no more keys than it holds.
  lemma LeastRecentExactly(inner: Inner, cap: nat)
    ensures EvictsLeastRecent(inner, cap) <==> cap <= 1 || !Overflows(inner, cap)
  {
    hide Evicts, LeastRecent, Apart;
    if cap >= 2 && Overflows(inner, cap) {
      var ps: seq<Prompt> :| |ps| == cap + 1 && Apart(inner, ps);
      UsedLastLeaves(inner, cap, ps);
    } else {
      forall ps, p, k | Evicts(inner, cap, ps, p, k) ensures LeastRecent(inner, cap, ps, k) {
        if cap >= 2 {
          EvictionOverflows(inner, cap, ps, p, k);
        } else {
          OneEntry(inner, cap, ps, p, k);
        }
      }
    }
  }

  lemma OneEntry(inner: Inner, cap: nat, ps: seq<Prompt>, p: Prompt, k: nat)
    requires cap <= 1 && Evicts(inner, cap, ps, p, k)
    ensures LeastRecent(inner, cap, ps, k)
  {
    hide After, LastUse, NoRepeats;
    EvictedIsFirst(inner, cap, ps, p, k);
    var st := Filled(inner, cap, ps);
    ListedSize(st);
    assert st.order == [k];
  }

  // Whatever the backend, exactly the capacities up to one evict least recently used keys.
  lemma LeastRecentCapacities(cap: nat)
    ensures (forall inner: Inner :: EvictsLeastRecent(inner, cap)) <==> cap <= 1
  {
    hide EvictsLeastRecent, Overflows;
    forall inner: Inner ensures cap <= 1 ==> EvictsLeastRecent(inner, cap) {
      LeastRecentExactly(inner, cap);
    }
    LeastRecentExactly(ECHO, cap);
    EchoOverflows(cap);
  }

  // Answers every prompt, and keys it by its length.
  const ECHO := Inner((p: Prompt) => Ok(p.user), (p: Prompt) => |p.user|)

  lemma EchoOverflows(cap: nat)
    ensures Overflows(ECHO, cap)
  {
    var ps := seq(cap + 1, i requires 0 <= i <= cap => Prompt(None, seq(i, _ => 'x'), None));
    assert forall i | 0 <= i < |ps| :: ECHO.key(ps[i]) == i;
    assert Apart(ECHO, ps);
  }
}
