// The reply cache around a model backend.

module Cache {
  import opened Wrappers
  import opened Collections

  datatype Prompt = Prompt(system: Option<string>, user: string, maxTokens: Option<nat>)

  datatype BackendError = BackendError(message: string)

  type Reply = Result<string, BackendError>

  datatype Policy = Uncached | ContentAddressed | Lru(cap: nat)

  // A deterministic backend, and the hash of prompts, which need not tell them apart.
  datatype Inner = Inner(complete: Prompt -> Reply, key: Prompt -> nat)

  datatype Store = Store(cache: map<nat, string>, order: seq<nat>)

  const EMPTY := Store(map[], [])

  // The store with room made for one more entry.
  function Room(cap: nat, st: Store): Store {
    if |st.cache| >= cap && st.order != [] then Store(st.cache - {st.order[0]}, st.order[1..]) else st
  }

  // The store after a miss has been answered.
  function Inserted(policy: Policy, st: Store, key: nat, response: string): Store {
    match policy
    case Lru(cap) =>
      var room := Room(cap, st);
      Store(room.cache[key := response], room.order + [key])
    case _ => st.(cache := st.cache[key := response])
  }

  // The reply to a call with no other call in between.
  function Answer(inner: Inner, policy: Policy, st: Store, p: Prompt): Reply {
    if !policy.Uncached? && inner.key(p) in st.cache then Ok(st.cache[inner.key(p)]) else inner.complete(p)
  }

  // The store after that call.
  function Served(inner: Inner, policy: Policy, st: Store, p: Prompt): Store {
    if policy.Uncached? || inner.key(p) in st.cache || inner.complete(p).Err? then st
    else Inserted(policy, st, inner.key(p), inner.complete(p).value)
  }

  // ----- What the cached texts are -----

  // Prompts that share a key get one reply.
  ghost predicate KeysAgree(inner: Inner, asked: set<Prompt>) {
    forall p, q | p in asked && q in asked && inner.key(p) == inner.key(q) && inner.complete(p).Ok? ::
      inner.complete(q) == inner.complete(p)
  }

  ghost predicate Gave(inner: Inner, p: Prompt, key: nat, text: string) {
    inner.key(p) == key && inner.complete(p) == Ok(text)
  }

  // Every cached text is the backend's reply to some prompt that was asked.
  ghost predicate Sourced(inner: Inner, asked: set<Prompt>, cache: map<nat, string>) {
    forall k | k in cache :: exists p | p in asked :: Gave(inner, p, k, cache[k])
  }

  lemma AnswerIsInner(inner: Inner, policy: Policy, asked: set<Prompt>, st: Store, p: Prompt)
    requires Sourced(inner, asked, st.cache) && KeysAgree(inner, asked + {p})
    ensures Answer(inner, policy, st, p) == inner.complete(p)
  {
    if inner.key(p) in st.cache {
      var q :| q in asked && Gave(inner, q, inner.key(p), st.cache[inner.key(p)]);
      assert q in asked + {p} && p in asked + {p};
    }
  }

  lemma InsertedSourced(inner: Inner, policy: Policy, asked: set<Prompt>, st: Store, p: Prompt, text: string)
    requires Sourced(inner, asked, st.cache) && p in asked && inner.complete(p) == Ok(text)
    ensures Sourced(inner, asked, Inserted(policy, st, inner.key(p), text).cache)
  {
    var next := Inserted(policy, st, inner.key(p), text).cache;
    forall k | k in next ensures exists q | q in asked :: Gave(inner, q, k, next[k]) {
      if k == inner.key(p) {
        assert Gave(inner, p, k, next[k]);
      } else {
        assert k in st.cache && next[k] == st.cache[k];
      }
    }
  }

  lemma SourcedMore(inner: Inner, asked: set<Prompt>, more: set<Prompt>, cache: map<nat, string>)
    requires Sourced(inner, asked, cache) && asked <= more
    ensures Sourced(inner, more, cache)
  {
    forall k | k in cache ensures exists p | p in more :: Gave(inner, p, k, cache[k]) {
      var p :| p in asked && Gave(inner, p, k, cache[k]);
      assert p in more;
    }
  }

  // ----- The order and the size under `Lru` -----

  function Bound(cap: nat): nat { if cap == 0 then 1 else cap }

  // The order lists each cached key once.
  ghost predicate Lists(st: Store) {
    NoRepeats(st.order) && forall k :: k in st.order <==> k in st.cache
  }

  ghost predicate Listed(policy: Policy, st: Store) {
    policy.Lru? ==> Lists(st) && |st.cache| <= Bound(policy.cap)
  }

  lemma ListedSize(st: Store)
    requires Lists(st)
    ensures |st.order| == |st.cache|
  {
    ElementsCard(st.order);
    assert Elements(st.order) == st.cache.Keys;
  }

  lemma Dropped(cache: map<nat, string>, k: nat)
    ensures k in cache ==> |cache - {k}| == |cache| - 1
    ensures k !in cache ==> cache - {k} == cache
  {
    assert (cache - {k}).Keys == cache.Keys - {k};
  }

  lemma Grown(cache: map<nat, string>, k: nat, x: string)
    ensures cache[k := x].Keys == cache.Keys + {k}
    ensures |cache[k := x]| == if k in cache then |cache| else |cache| + 1
  {
    assert cache[k := x].Keys == cache.Keys + {k};
    assert k in cache ==> cache.Keys + {k} == cache.Keys;
  }

  lemma RoomSpare(cap: nat, st: Store)
    requires |st.cache| < cap
    ensures Room(cap, st) == st
  {
  }

  lemma RoomFull(cap: nat, st: Store)
    requires |st.cache| >= cap && st.order != []
    ensures Room(cap, st) == Store(st.cache - {st.order[0]}, st.order[1..])
  {
  }

  lemma RoomLists(cap: nat, st: Store)
    requires Lists(st)
    ensures Lists(Room(cap, st)) && (|st.cache| <= Bound(cap) ==> |Room(cap, st).cache| < Bound(cap))
  {
    hide Lists, Room;
    if |st.cache| < cap {
      RoomSpare(cap, st);
    } else if st.order == [] {
      RoomNone(cap, st);
    } else {
      RoomFull(cap, st);
      ListsTail(st);
      Dropped(st.cache, st.order[0]);
    }
  }

  lemma ListsTail(st: Store)
    requires Lists(st) && st.order != []
    ensures st.order[0] in st.cache && Lists(Store(st.cache - {st.order[0]}, st.order[1..]))
  {
    hide NoRepeats;
    RepeatFree(st.order);
  }

  lemma RoomNone(cap: nat, st: Store)
    requires Lists(st) && st.order == []
    ensures Room(cap, st) == st && |st.cache| == 0
  {
    assert st.cache.Keys == {};
  }

  // An insertion keeps the listing exactly when its key is not among those there is still room for;
  // with the listing it keeps the bound.
  lemma InsertedLists(cap: nat, st: Store, key: nat, x: string)
    requires Lists(st)
    ensures Lists(Inserted(Lru(cap), st, key, x)) <==> key !in Room(cap, st).cache
    ensures key !in Room(cap, st).cache && |st.cache| <= Bound(cap) ==>
              |Inserted(Lru(cap), st, key, x).cache| <= Bound(cap)
  {
    hide Room, NoRepeats;
    RoomLists(cap, st);
    var room := Room(cap, st);
    Grown(room.cache, key, x);
    RepeatFreeAppend(room.order, key);
  }

  lemma RoomKeepsOut(cap: nat, st: Store, key: nat)
    requires key !in st.cache
    ensures key !in Room(cap, st).cache
  {
  }

  lemma InsertedListed(policy: Policy, st: Store, key: nat, x: string)
    requires Listed(policy, st) && key !in st.cache
    ensures Listed(policy, Inserted(policy, st, key, x))
  {
    hide Inserted, Lists, Room;
    if policy.Lru? {
      RoomKeepsOut(policy.cap, st, key);
      InsertedLists(policy.cap, st, key, x);
    }
  }

  lemma ServedListed(inner: Inner, policy: Policy, st: Store, p: Prompt)
    requires Listed(policy, st)
    ensures Listed(policy, Served(inner, policy, st, p))
  {
    hide Listed, Inserted;
    if !policy.Uncached? && inner.key(p) !in st.cache && inner.complete(p).Ok? {
      InsertedListed(policy, st, inner.key(p), inner.complete(p).value);
    }
  }

  class CachedBackend {
    const inner: Inner
    const policy: Policy
    var cache: map<nat, string>
    var order: seq<nat>
    ghost var asked: set<Prompt>

    ghost function State(): Store
      reads this
    {
      Store(cache, order)
    }

    ghost predicate Valid()
      reads this
    {
      Sourced(inner, asked, cache) && Listed(policy, State())
    }

    constructor (inner: Inner, policy: Policy)
      ensures this.inner == inner && this.policy == policy && State() == EMPTY && asked == {} && Valid()
    {
      this.inner, this.policy := inner, policy;
      cache, order, asked := map[], [], {};
    }

    // `complete`
    method Complete(prompt: Prompt) returns (r: Reply)
      requires Valid()
      modifies this
      ensures Valid() && asked == old(asked) + {prompt}
      ensures r == Answer(inner, policy, old(State()), prompt)
      ensures State() == Served(inner, policy, old(State()), prompt)
      ensures KeysAgree(inner, asked) ==> r == inner.complete(prompt)
    {
      hide Listed, Sourced, KeysAgree;
      ghost var before := asked;
      asked := asked + {prompt};
      SourcedMore(inner, before, asked, cache);
      if KeysAgree(inner, asked) {
        AnswerIsInner(inner, policy, before, State(), prompt);
      }
      ServedListed(inner, policy, State(), prompt);
      if policy.Uncached? {
        return inner.complete(prompt);
      }
      var key := inner.key(prompt);
      if key in cache {
        return Ok(cache[key]);
      }
      var response := inner.complete(prompt);
      if response.Err? {
        return response;
      }
      InsertedSourced(inner, policy, asked, State(), prompt, response.value);
      if policy.Lru? {
        if |cache| >= policy.cap {
          if order != [] {
            cache := cache - {order[0]};
            order := order[1..];
          }
        }
        order := order + [key];
      }
      cache := cache[key := response.value];
      r := response;
    }
  }

  // ----- Sequences of calls -----

  // The store after some calls, one at a time.
  function After(inner: Inner, policy: Policy, st: Store, ps: seq<Prompt>): Store {
    if ps == [] then st else Served(inner, policy, After(inner, policy, st, ps[..|ps| - 1]), ps[|ps| - 1])
  }

  lemma {:induction false} AfterListed(inner: Inner, policy: Policy, st: Store, ps: seq<Prompt>)
    requires Listed(policy, st)
    ensures Listed(policy, After(inner, policy, st, ps))
    decreases |ps|
  {
    hide Listed, Served;
    if ps != [] {
      AfterListed(inner, policy, st, ps[..|ps| - 1]);
      ServedListed(inner, policy, After(inner, policy, st, ps[..|ps| - 1]), ps[|ps| - 1]);
    }
  }

  function Keys(inner: Inner, ps: seq<Prompt>): (ks: seq<nat>)
    ensures |ks| == |ps| && forall i | 0 <= i < |ks| :: ks[i] == inner.key(ps[i])
  {
    seq(|ps|, i requires 0 <= i < |ps| => inner.key(ps[i]))
  }

  // Prompts with different keys, all of which the backend answers.
  ghost predicate Apart(inner: Inner, ps: seq<Prompt>) {
    && (forall i | 0 <= i < |ps| :: inner.complete(ps[i]).Ok?)
    && forall i, j | 0 <= i < j < |ps| :: inner.key(ps[i]) != inner.key(ps[j])
  }

  // The backend answers more keys than a cache of this capacity holds.
  ghost predicate Overflows(inner: Inner, cap: nat) {
    exists ps: seq<Prompt> :: |ps| == cap + 1 && Apart(inner, ps)
  }

  lemma {:induction false} AfterSourced(inner: Inner, policy: Policy, asked: set<Prompt>, st: Store, ps: seq<Prompt>)
    requires Sourced(inner, asked, st.cache) && Elements(ps) <= asked
    ensures Sourced(inner, asked, After(inner, policy, st, ps).cache)
    decreases |ps|
  {
    hide Sourced, Inserted;
    if ps != [] {
      var init, p := ps[..|ps| - 1], ps[|ps| - 1];
      assert p in Elements(ps) && Elements(init) <= Elements(ps);
      AfterSourced(inner, policy, asked, st, init);
      var before := After(inner, policy, st, init);
      if !policy.Uncached? && inner.key(p) !in before.cache && inner.complete(p).Ok? {
        InsertedSourced(inner, policy, asked, before, p, inner.complete(p).value);
      }
    }
  }

  lemma Asker(inner: Inner, asked: set<Prompt>, cache: map<nat, string>, k: nat) returns (p: Prompt)
    requires Sourced(inner, asked, cache) && k in cache
    ensures p in asked && Gave(inner, p, k, cache[k])
  {
    p :| p in asked && Gave(inner, p, k, cache[k]);
  }

  // Prompts for the given cached keys.
  lemma {:induction false} Askers(inner: Inner, asked: set<Prompt>, cache: map<nat, string>, keys: seq<nat>)
    returns (ps: seq<Prompt>)
    requires Sourced(inner, asked, cache) && NoRepeats(keys) && forall k | k in keys :: k in cache
    ensures |ps| == |keys| && Apart(inner, ps) && forall i | 0 <= i < |ps| :: inner.key(ps[i]) == keys[i]
    decreases |keys|
  {
    hide Sourced;
    ps := [];
    if keys != [] {
      RepeatFree(keys);
      var later := Askers(inner, asked, cache, keys[1..]);
      var p := Asker(inner, asked, cache, keys[0]);
      ps := [p] + later;
      assert forall i | 1 <= i < |ps| :: ps[i] == later[i - 1] && keys[i] == keys[1..][i - 1];
    }
  }
}
