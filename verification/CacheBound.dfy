// How far overlapping calls can drive the cache past its capacity.

module CacheBound {
  import opened Wrappers
  import opened Collections
  import opened Cache
  import opened CacheOverlap

  // Every cached key is in the order, as it is in every state of every run.
  ghost predicate Covered(st: Store) {
    forall k | k in st.cache :: k in st.order
  }

  lemma InsertedCovered(cap: nat, st: Store, key: nat, x: string)
    requires Covered(st)
    ensures Covered(Inserted(Lru(cap), st, key, x))
  {
    var next, room := Inserted(Lru(cap), st, key, x), Room(cap, st);
    forall k | k in next.cache ensures k in next.order {
      if k != key {
        assert k in room.cache && k in st.order;
        assert k in room.order by {
          var i :| 0 <= i < |st.order| && st.order[i] == k;
          assert room.order != st.order ==> room.order[i - 1] == k;
        }
      }
    }
  }

  lemma StepCovered(inner: Inner, cap: nat, c: Calls, e: Event)
    requires Covered(c.st) && Enabled(c, e)
    ensures Covered(Next(inner, Lru(cap), c, e).st)
  {
    hide Inserted, Covered;
    if e.Return? && inner.complete(c.waiting[e.waiter]).Ok? {
      var p := c.waiting[e.waiter];
      InsertedCovered(cap, c.st, inner.key(p), inner.complete(p).value);
    }
  }

  lemma {:induction false} RunCovered(inner: Inner, cap: nat, c: Calls, es: seq<Event>, d: Calls)
    requires Covered(c.st) && Runs(inner, Lru(cap), c, es, d)
    ensures Covered(d.st)
    decreases |es|
  {
    hide Covered, Next;
    if es != [] {
      StepCovered(inner, cap, c, es[0]);
      RunCovered(inner, cap, Next(inner, Lru(cap), c, es[0]), es[1..], d);
    }
  }

  // ----- A repeated key -----

  // From position `b` on the order holds cached keys, none of which occurs before.
  ghost predicate Sound(st: Store, b: nat) {
    && b <= |st.order| && Covered(st)
    && forall j | b <= j < |st.order| :: st.order[j] in st.cache && forall i | 0 <= i < j :: st.order[i] != st.order[j]
  }

  // The order is longer than it should be.
  predicate Long(cap: nat, st: Store) { |st.order| > cap || |st.order| > |st.cache| }

  lemma UnlistedIsLong(cap: nat, st: Store)
    requires Covered(st) && !Lists(st)
    ensures Long(cap, st) && Sound(st, |st.order|)
  {
    hide NoRepeats;
    ElementsCard(st.order);
    assert st.cache.Keys <= Elements(st.order);
    SubsetCard(st.cache.Keys, Elements(st.order));
  }

  lemma SoundIsLarge(cap: nat, st: Store)
    requires Sound(st, 0) && Long(cap, st)
    ensures |st.cache| > cap
  {
    ElementsCard(st.order);
    assert Elements(st.order) == st.cache.Keys;
  }

  // A key that is neither cached nor left in the order once room is made.
  predicate New(cap: nat, st: Store, key: nat) { key !in st.cache && key !in Room(cap, st).order }

  lemma NewGrows(cap: nat, st: Store, b: nat, key: nat, x: string)
    requires Sound(st, b) && Long(cap, st) && New(cap, st, key) && |st.cache| < cap
    ensures var next := Inserted(Lru(cap), st, key, x);
            Sound(next, b) && Long(cap, next) && |next.cache| == |st.cache| + 1
  {
    hide Covered, Room;
    RoomSpare(cap, st);
    InsertedCovered(cap, st, key, x);
    Grown(st.cache, key, x);
    SoundAppend(st, b, key, x);
  }

  lemma SoundAppend(st: Store, b: nat, key: nat, x: string)
    requires Sound(st, b) && key !in st.order && Covered(Store(st.cache[key := x], st.order + [key]))
    ensures Sound(Store(st.cache[key := x], st.order + [key]), b)
  {
    hide Covered;
    var more := st.order + [key];
    forall j | b <= j < |more| ensures forall i | 0 <= i < j :: more[i] != more[j] {
      assert forall i | 0 <= i < |st.order| :: more[i] == st.order[i];
    }
  }

  lemma NewReplaces(cap: nat, st: Store, b: nat, key: nat, x: string)
    requires Sound(st, b) && Long(cap, st) && New(cap, st, key) && |st.cache| >= cap && b > 0
    ensures var next := Inserted(Lru(cap), st, key, x);
            Sound(next, b - 1) && Long(cap, next) && |next.cache| >= |st.cache|
  {
    hide Covered, Room, Sound;
    SoundCovered(st, b);
    RoomFull(cap, st);
    var room := Room(cap, st);
    InsertedCovered(cap, st, key, x);
    SoundTail(st, b);
    SoundAppend(room, b - 1, key, x);
    ReplacedSize(st.cache, st.order[0], key, x);
  }

  lemma ReplacedSize(cache: map<nat, string>, first: nat, key: nat, x: string)
    requires key !in cache
    ensures |(cache - {first})[key := x]| >= |cache|
  {
    Dropped(cache, first);
    Grown(cache - {first}, key, x);
  }

  lemma SoundCovered(st: Store, b: nat)
    requires Sound(st, b)
    ensures Covered(st) && b <= |st.order|
  {
  }

  lemma SoundTail(st: Store, b: nat)
    requires Sound(st, b) && b > 0
    ensures Sound(Store(st.cache - {st.order[0]}, st.order[1..]), b - 1)
  {
    var tail := st.order[1..];
    assert st.order == [st.order[0]] + tail;
    assert forall i | 0 <= i < |tail| :: tail[i] == st.order[i + 1];
    forall j | b - 1 <= j < |tail|
      ensures tail[j] in st.cache - {st.order[0]} && forall i | 0 <= i < j :: tail[i] != tail[j]
    {
      assert st.order[j + 1] in st.cache && st.order[0] != st.order[j + 1];
    }
  }

  // Each call of the sequence brings a new key.
  ghost predicate AllNew(inner: Inner, cap: nat, st: Store, ps: seq<Prompt>) {
    forall n | 0 <= n < |ps| ::
        inner.complete(ps[n]).Ok? && New(cap, After(inner, Lru(cap), st, ps[..n]), inner.key(ps[n]))
  }

  function Missing(cap: nat, st: Store): nat { if |st.cache| < cap then cap - |st.cache| else 0 }

  // One call for each missing entry, and one for each doubtful place of the order.
  lemma {:induction false} Drives(inner: Inner, cap: nat, st: Store, b: nat, ps: seq<Prompt>, n: nat)
    returns (left: nat)
    requires Sound(st, b) && Long(cap, st) && AllNew(inner, cap, st, ps)
    requires n <= |ps| == b + Missing(cap, st)
    ensures var now := After(inner, Lru(cap), st, ps[..n]);
            Sound(now, left) && Long(cap, now) && left + Missing(cap, now) == |ps| - n
    decreases n
  {
    hide After, Sound, Long, Inserted;
    if n == 0 {
      left := b;
      assert After(inner, Lru(cap), st, ps[..0]) == st by {
        AfterNone(inner, cap, st);
      }
    } else {
      var before := After(inner, Lru(cap), st, ps[..n - 1]);
      left := Drives(inner, cap, st, b, ps, n - 1);
      var p := ps[n - 1];
      assert inner.complete(p).Ok? && New(cap, before, inner.key(p));
      AfterMiss(inner, cap, st, ps, n);
      if |before.cache| < cap {
        NewGrows(cap, before, left, inner.key(p), inner.complete(p).value);
      } else {
        NewReplaces(cap, before, left, inner.key(p), inner.complete(p).value);
        left := left - 1;
      }
    }
  }

  lemma AfterNone(inner: Inner, cap: nat, st: Store)
    ensures After(inner, Lru(cap), st, []) == st
  {
  }

  lemma AfterMiss(inner: Inner, cap: nat, st: Store, ps: seq<Prompt>, n: nat)
    requires 0 < n <= |ps| && inner.complete(ps[n - 1]).Ok?
    requires inner.key(ps[n - 1]) !in After(inner, Lru(cap), st, ps[..n - 1]).cache
    ensures After(inner, Lru(cap), st, ps[..n])
            == Inserted(Lru(cap), After(inner, Lru(cap), st, ps[..n - 1]), inner.key(ps[n - 1]),
                        inner.complete(ps[n - 1]).value)
  {
    hide Inserted;
    assert ps[..n][..n - 1] == ps[..n - 1];
  }

  // Different keys that the order does not hold are new one after the other.
  lemma FreshAreNew(inner: Inner, cap: nat, st: Store, ps: seq<Prompt>)
    requires Covered(st) && Apart(inner, ps) && forall i | 0 <= i < |ps| :: inner.key(ps[i]) !in st.order
    ensures AllNew(inner, cap, st, ps)
  {
    hide After, Covered;
    forall n | 0 <= n < |ps| ensures New(cap, After(inner, Lru(cap), st, ps[..n]), inner.key(ps[n])) {
      AfterCovered(inner, cap, st, ps[..n]);
      var now := After(inner, Lru(cap), st, ps[..n]);
      assert inner.key(ps[n]) !in now.order;
      assert inner.key(ps[n]) !in now.cache by {
        if inner.key(ps[n]) in now.cache {
          CoveredKey(now, inner.key(ps[n]));
        }
      }
    }
  }

  lemma CoveredKey(st: Store, k: nat)
    requires Covered(st) && k in st.cache
    ensures k in st.order
  {
  }

  lemma {:induction false} AfterCovered(inner: Inner, cap: nat, st: Store, ps: seq<Prompt>)
    requires Covered(st)
    ensures var now := After(inner, Lru(cap), st, ps);
            && Covered(now)
            && forall k | k in now.order :: k in st.order || exists i | 0 <= i < |ps| :: inner.key(ps[i]) == k
    decreases |ps|
  {
    hide Covered, Room;
    if ps != [] {
      var init, p := ps[..|ps| - 1], ps[|ps| - 1];
      AfterCovered(inner, cap, st, init);
      var before, now := After(inner, Lru(cap), st, init), After(inner, Lru(cap), st, ps);
      if inner.complete(p).Ok? {
        InsertedCovered(cap, before, inner.key(p), inner.complete(p).value);
      }
      RoomOrder(cap, before);
      forall k | k in now.order ensures k in st.order || exists i | 0 <= i < |ps| :: inner.key(ps[i]) == k {
        if k in before.order {
          if i :| 0 <= i < |init| && inner.key(init[i]) == k {
            assert inner.key(ps[i]) == k;
          }
        } else {
          assert inner.key(ps[|ps| - 1]) == k;
        }
      }
    }
  }

  lemma RoomOrder(cap: nat, st: Store)
    ensures forall k | k in Room(cap, st).order :: k in st.order
  {
  }

  // From every state of every run whose order is not a listing, enough calls with keys the order does
  // not hold drive the cache past its capacity.
  lemma RepeatOverflows(inner: Inner, cap: nat, before: seq<Event>, c: Calls, ps: seq<Prompt>)
    returns (es: seq<Event>, d: Calls)
    requires Runs(inner, Lru(cap), START, before, c) && !Lists(c.st)
    requires Apart(inner, ps) && forall i | 0 <= i < |ps| :: inner.key(ps[i]) !in c.st.order
    requires |ps| == |c.st.order| + Missing(cap, c.st)
    ensures Runs(inner, Lru(cap), START, before + es, d) && |d.st.cache| > cap
  {
    hide After, Sound, Lists, Long, AllNew, Apart, Runs, Covered;
    EmptyCovered();
    RunCovered(inner, cap, START, before, c);
    UnlistedIsLong(cap, c.st);
    FreshAreNew(inner, cap, c.st, ps);
    var left := Drives(inner, cap, c.st, |c.st.order|, ps, |ps|);
    assert ps[..|ps|] == ps;
    es, d := Sequential(inner, Lru(cap), c, ps);
    Join(inner, Lru(cap), START, before, c, es, d);
    SoundIsLarge(cap, d.st);
  }

  lemma EmptyCovered()
    ensures Covered(EMPTY)
  {
  }

  // ----- Which backends can be driven past the bound -----

  // Two calls for one prompt that overlap.
  lemma Doubled(inner: Inner, cap: nat, p: Prompt) returns (es: seq<Event>, d: Calls)
    requires cap >= 2 && inner.complete(p).Ok?
    ensures Runs(inner, Lru(cap), START, es, d)
    ensures d.st == Store(map[inner.key(p) := inner.complete(p).value], [inner.key(p), inner.key(p)])
  {
    hide Inserted;
    var key, x := inner.key(p), inner.complete(p).value;
    var one := Next(inner, Lru(cap), START, Call(p));
    var two := Next(inner, Lru(cap), one, Call(p));
    var three := Next(inner, Lru(cap), two, Return(0));
    d := Next(inner, Lru(cap), three, Return(0));
    Extend(inner, Lru(cap), three, Return(0), [], d);
    Extend(inner, Lru(cap), two, Return(0), [Return(0)], d);
    Extend(inner, Lru(cap), one, Call(p), [Return(0), Return(0)], d);
    Extend(inner, Lru(cap), START, Call(p), [Call(p), Return(0), Return(0)], d);
    es := [Call(p)] + [Call(p), Return(0), Return(0)];
    DoubledStore(cap, key, x);
  }

  lemma DoubledStore(cap: nat, key: nat, x: string)
    requires cap >= 2
    ensures Inserted(Lru(cap), Inserted(Lru(cap), EMPTY, key, x), key, x) == Store(map[key := x], [key, key])
  {
    var one := Inserted(Lru(cap), EMPTY, key, x);
    assert one == Store(map[key := x], [key]);
    assert one.cache.Keys == {key};
  }

  // The other keys fill the cache behind the repeated one.
  lemma {:induction false} FillsBehind(inner: Inner, cap: nat, st: Store, ps: seq<Prompt>, n: nat)
    requires cap >= 2 && |ps| == cap + 1 && Apart(inner, ps) && n < cap
    requires st.order == [inner.key(ps[0]), inner.key(ps[0])] && st.cache.Keys == {inner.key(ps[0])}
    ensures var now := After(inner, Lru(cap), st, ps[1..][..n]);
            && now.order == [inner.key(ps[0])] + Keys(inner, ps[..n + 1])
            && now.cache.Keys == Elements(Keys(inner, ps[..n + 1]))
    decreases n
  {
    hide After, Room, Keys;
    var keys := Keys(inner, ps[..n + 1]);
    if n == 0 {
      AfterNone(inner, cap, st);
      assert ps[1..][..0] == [];
      assert keys == [inner.key(ps[0])];
    } else {
      FillsBehind(inner, cap, st, ps, n - 1);
      var before := After(inner, Lru(cap), st, ps[1..][..n - 1]);
      var init := Keys(inner, ps[..n]);
      KeysApart(inner, ps, n);
      assert ps[1..][n - 1] == ps[n] && ps[..n + 1][..n] == ps[..n];
      AfterMiss(inner, cap, st, ps[1..], n);
      assert |before.cache| == |before.cache.Keys| == n;
      assert Room(cap, before) == before by {
        RoomSpare(cap, before);
      }
      assert keys == init + [inner.key(ps[n])];
    }
  }

  lemma KeysApart(inner: Inner, ps: seq<Prompt>, n: nat)
    requires Apart(inner, ps) && n <= |ps|
    ensures NoRepeats(Keys(inner, ps[..n])) && |Elements(Keys(inner, ps[..n]))| == n
    ensures forall i | n <= i < |ps| :: inner.key(ps[i]) !in Keys(inner, ps[..n])
  {
    ElementsCard(Keys(inner, ps[..n]));
  }

  // One more drives out the first copy of the repeated key, which is then new again.
  lemma RepeatedIsNew(inner: Inner, cap: nat, st: Store, ps: seq<Prompt>)
    requires cap >= 2 && |ps| == cap + 1 && Apart(inner, ps)
    requires st.order == [inner.key(ps[0]), inner.key(ps[0])] && st.cache.Keys == {inner.key(ps[0])}
    ensures New(cap, After(inner, Lru(cap), st, ps[1..]), inner.key(ps[0]))
  {
    hide After, Keys, NoRepeats;
    FillsBehind(inner, cap, st, ps, cap - 1);
    KeysApart(inner, ps, cap);
    var before, key := After(inner, Lru(cap), st, ps[1..][..cap - 1]), inner.key(ps[0]);
    var keys := Keys(inner, ps[..cap]);
    assert ps[1..][..cap] == ps[1..] && ps[1..][cap - 1] == ps[cap] && ps[..cap - 1 + 1] == ps[..cap];
    AfterMiss(inner, cap, st, ps[1..], cap);
    assert keys[0] in keys && |before.cache| == |before.cache.Keys|;
    Rotated(cap, before, keys, inner.key(ps[cap]), inner.complete(ps[cap]).value);
  }

  lemma Rotated(cap: nat, st: Store, keys: seq<nat>, last: nat, x: string)
    requires |keys| == |st.cache| == cap >= 2 && NoRepeats(keys) && st.order == [keys[0]] + keys
    requires keys[0] in st.cache && last !in st.cache && last !in keys
    ensures New(cap, Inserted(Lru(cap), st, last, x), keys[0])
  {
    hide Inserted, NoRepeats, Room;
    var key, next := keys[0], Inserted(Lru(cap), st, last, x);
    FullInsertion(cap, st, last, x);
    assert st.order[1..] == keys;
    assert next.order == keys + [last];
    RoomFull(cap, next);
    assert (keys + [last])[1..] == keys[1..] + [last];
    RepeatFree(keys);
  }

  lemma FullInsertion(cap: nat, st: Store, key: nat, x: string)
    requires |st.cache| >= cap && st.order != [] && st.order[0] in st.cache && key !in st.cache
    ensures var next := Inserted(Lru(cap), st, key, x);
            && next.order == st.order[1..] + [key] && |next.cache| == |st.cache|
            && next.cache.Keys == st.cache.Keys - {st.order[0]} + {key}
  {
    Dropped(st.cache, st.order[0]);
    Grown(st.cache - {st.order[0]}, key, x);
  }

  // More answered keys than fit, and a capacity of two: the bound breaks in some run.
  lemma BoundBreaks(inner: Inner, cap: nat, ps: seq<Prompt>) returns (es: seq<Event>, d: Calls)
    requires cap >= 2 && |ps| == cap + 1 && Apart(inner, ps)
    ensures Runs(inner, Lru(cap), START, es, d) && |d.st.cache| > cap
  {
    hide After, Runs, Sound, Long, New, AllNew;
    var fs, c := Doubled(inner, cap, ps[0]);
    var key := inner.key(ps[0]);
    assert c.st.cache.Keys == {key} && |c.st.cache.Keys| == 1;
    var later := ps[1..] + [ps[0]];
    AgainAllNew(inner, cap, c.st, ps);
    assert Sound(c.st, 2) && Long(cap, c.st) by {
      TwiceSound(cap, c.st, key);
    }
    var left := Drives(inner, cap, c.st, 2, later, |later|);
    assert later[..|later|] == later;
    var gs, e := Sequential(inner, Lru(cap), c, later);
    Join(inner, Lru(cap), START, fs, c, gs, e);
    es, d := fs + gs, e;
    SoundIsLarge(cap, d.st);
  }

  lemma TwiceSound(cap: nat, st: Store, key: nat)
    requires st.order == [key, key] && st.cache.Keys == {key}
    ensures Sound(st, 2) && Long(cap, st)
  {
    assert |st.cache.Keys| == 1;
  }

  lemma AgainAllNew(inner: Inner, cap: nat, st: Store, ps: seq<Prompt>)
    requires cap >= 2 && |ps| == cap + 1 && Apart(inner, ps)
    requires st.order == [inner.key(ps[0]), inner.key(ps[0])] && st.cache.Keys == {inner.key(ps[0])}
    ensures AllNew(inner, cap, st, ps[1..] + [ps[0]])
  {
    hide After, New;
    var rest, all := ps[1..], ps[1..] + [ps[0]];
    assert Apart(inner, rest) by {
      assert forall i | 0 <= i < |rest| :: rest[i] == ps[i + 1];
    }
    FreshAreNew(inner, cap, st, rest);
    RepeatedIsNew(inner, cap, st, ps);
    forall n | 0 <= n < |all|
      ensures inner.complete(all[n]).Ok? && New(cap, After(inner, Lru(cap), st, all[..n]), inner.key(all[n]))
    {
      if n < |rest| {
        assert all[..n] == rest[..n] && all[n] == rest[n];
      } else {
        assert all[..n] == rest;
      }
    }
  }

  // With room for one entry, each insertion replaces what was there.
  lemma {:induction false} OneAtMost(inner: Inner, cap: nat, c: Calls, es: seq<Event>, d: Calls)
    requires cap <= 1 && Lists(c.st) && |c.st.cache| <= 1 && Runs(inner, Lru(cap), c, es, d)
    ensures |d.st.cache| <= 1
    decreases |es|
  {
    hide Lists, Next;
    if es != [] {
      OneStep(inner, cap, c, es[0]);
      OneAtMost(inner, cap, Next(inner, Lru(cap), c, es[0]), es[1..], d);
    }
  }

  lemma OneStep(inner: Inner, cap: nat, c: Calls, e: Event)
    requires cap <= 1 && Lists(c.st) && |c.st.cache| <= 1 && Enabled(c, e)
    ensures var st := Next(inner, Lru(cap), c, e).st; Lists(st) && |st.cache| <= 1
  {
    hide Lists, Inserted;
    if e.Return? && inner.complete(c.waiting[e.waiter]).Ok? {
      var p := c.waiting[e.waiter];
      RoomLists(cap, c.st);
      assert |Room(cap, c.st).cache| == 0;
      InsertedLists(cap, c.st, inner.key(p), inner.complete(p).value);
    }
  }

  // A cache past its capacity shows more answered keys than it holds.
  lemma LargeOverflows(inner: Inner, cap: nat, es: seq<Event>, d: Calls)
    requires Runs(inner, Lru(cap), START, es, d) && |d.st.cache| > cap
    ensures Overflows(inner, cap)
  {
    hide Runs, Asked, Sourced, NoRepeats;
    StartKnown(inner, Asked(es));
    RunKnown(inner, Lru(cap), Asked(es), START, es, d);
    var keys := Listing(d.st.cache.Keys);
    var ps := Askers(inner, Asked(es), d.st.cache, keys[..cap + 1]) by {
      PrefixFree(keys, cap + 1);
    }
    assert Apart(inner, ps);
  }

  lemma PrefixFree(keys: seq<nat>, n: nat)
    requires NoRepeats(keys) && n <= |keys|
    ensures NoRepeats(keys[..n])
  {
  }

  // The elements of a set, each once.
  lemma {:induction false} Listing(ks: set<nat>) returns (keys: seq<nat>)
    ensures NoRepeats(keys) && |keys| == |ks| && forall k :: k in keys <==> k in ks
    decreases |ks|
  {
    keys := [];
    if ks != {} {
      var k :| k in ks;
      var later := Listing(ks - {k});
      RepeatFreeAppend(later, k);
      keys := later + [k];
    }
  }

  // The cache stays within its bound in every state of every run, exactly when it holds at most one
  // entry or the backend answers no more keys than it holds.
  lemma BoundExactly(inner: Inner, cap: nat)
    ensures (forall es, d | Runs(inner, Lru(cap), START, es, d) :: |d.st.cache| <= Bound(cap))
            <==> cap <= 1 || !Overflows(inner, cap)
  {
    hide Runs, Apart;
    if cap >= 2 && Overflows(inner, cap) {
      var ps: seq<Prompt> :| |ps| == cap + 1 && Apart(inner, ps);
      var es, d := BoundBreaks(inner, cap, ps);
    } else {
      forall es, d | Runs(inner, Lru(cap), START, es, d) ensures |d.st.cache| <= Bound(cap) {
        if cap <= 1 {
          OneAtMost(inner, cap, START, es, d);
        } else if |d.st.cache| > cap {
          LargeOverflows(inner, cap, es, d);
        }
      }
    }
  }
}
