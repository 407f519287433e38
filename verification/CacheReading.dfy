// What each policy of the reply cache keeps after a sequence of calls.

module CacheReading {
  import opened Wrappers
  import opened Collections
  import opened Cache

  // The first of the calls that the backend answers under the key.
  ghost predicate FirstAnswered(inner: Inner, ps: seq<Prompt>, key: nat, i: nat) {
    && i < |ps| && inner.key(ps[i]) == key && inner.complete(ps[i]).Ok?
    && forall j | 0 <= j < i :: !(inner.key(ps[j]) == key && inner.complete(ps[j]).Ok?)
  }

  // Without a policy nothing is kept, and every reply is the backend's.
  lemma {:induction false} UncachedKeepsNothing(inner: Inner, ps: seq<Prompt>, p: Prompt)
    ensures After(inner, Uncached, EMPTY, ps) == Store(map[], [])
    ensures Answer(inner, Uncached, After(inner, Uncached, EMPTY, ps), p) == inner.complete(p)
  {
    if ps != [] {
      UncachedKeepsNothing(inner, ps[..|ps| - 1], p);
    }
  }

  // By content, the first answer under each key is kept for good; errors are not.
  lemma {:induction false} ContentKeepsFirst(inner: Inner, ps: seq<Prompt>, key: nat)
    ensures var cache := After(inner, ContentAddressed, EMPTY, ps).cache;
            && (key in cache <==> exists i: nat :: FirstAnswered(inner, ps, key, i))
            && forall i: nat | FirstAnswered(inner, ps, key, i) ::
                 key in cache && inner.complete(ps[i]) == Ok(cache[key])
    decreases |ps|
  {
    hide FirstAnswered;
    if ps == [] {
      NothingAnswered(inner, key);
    } else {
      var init, n := ps[..|ps| - 1], |ps| - 1;
      ContentKeepsFirst(inner, init, key);
      forall i: nat
        ensures FirstAnswered(inner, ps, key, i)
                <==> || FirstAnswered(inner, init, key, i)
                     || (i == n && inner.key(ps[n]) == key && inner.complete(ps[n]).Ok?
                         && !(exists j: nat :: FirstAnswered(inner, init, key, j)))
      {
        FirstMore(inner, ps, key, i);
      }
      forall i: nat | FirstAnswered(inner, init, key, i) ensures i < n && init[i] == ps[i] {
        AnsweredInside(inner, ps, key, i);
      }
    }
  }

  lemma NothingAnswered(inner: Inner, key: nat)
    ensures forall i: nat :: !FirstAnswered(inner, [], key, i)
  {
  }

  lemma AnsweredInside(inner: Inner, ps: seq<Prompt>, key: nat, i: nat)
    requires ps != [] && FirstAnswered(inner, ps[..|ps| - 1], key, i)
    ensures i < |ps| - 1 && ps[..|ps| - 1][i] == ps[i]
  {
  }

  lemma FirstMore(inner: Inner, ps: seq<Prompt>, key: nat, i: nat)
    requires ps != []
    ensures var init, n := ps[..|ps| - 1], |ps| - 1;
            FirstAnswered(inner, ps, key, i)
            <==> || FirstAnswered(inner, init, key, i)
                 || (i == n && inner.key(ps[n]) == key && inner.complete(ps[n]).Ok?
                     && !(exists j: nat :: FirstAnswered(inner, init, key, j)))
  {
    var init := ps[..|ps| - 1];
    assert forall j | 0 <= j < |init| :: init[j] == ps[j];
    if !(exists j: nat :: FirstAnswered(inner, init, key, j)) {
      NoneAnswered(inner, init, key);
    }
  }

  lemma NoneAnswered(inner: Inner, ps: seq<Prompt>, key: nat)
    requires !(exists i: nat :: FirstAnswered(inner, ps, key, i))
    ensures forall j | 0 <= j < |ps| :: !(inner.key(ps[j]) == key && inner.complete(ps[j]).Ok?)
  {
    if j :| 0 <= j < |ps| && inner.key(ps[j]) == key && inner.complete(ps[j]).Ok? {
      var i := LeastAnswered(inner, ps, key, j);
    }
  }

  lemma {:induction false} LeastAnswered(inner: Inner, ps: seq<Prompt>, key: nat, j: nat) returns (i: nat)
    requires j < |ps| && inner.key(ps[j]) == key && inner.complete(ps[j]).Ok?
    ensures FirstAnswered(inner, ps, key, i)
    decreases j
  {
    if k: nat :| k < j && inner.key(ps[k]) == key && inner.complete(ps[k]).Ok? {
      i := LeastAnswered(inner, ps, key, k);
    } else {
      i := j;
    }
  }

  // ----- First in, first out -----

  function Newest<T>(s: seq<T>, n: nat): seq<T> {
    if |s| <= n then s else s[|s| - n..]
  }

  // The calls that fill the cache: answered ones whose key is none of the newest, as many as there is room for.
  ghost function Fills(inner: Inner, cap: nat, ps: seq<Prompt>): seq<Prompt> {
    if ps == [] then []
    else
      var before, p := Fills(inner, cap, ps[..|ps| - 1]), ps[|ps| - 1];
      if inner.complete(p).Ok?
         && forall q | q in Newest(before, if cap > 1 then cap else 1) :: inner.key(q) != inner.key(p)
      then before + [p] else before
  }

  // The cache holds the answers to these prompts, in their order.
  ghost predicate HoldsAnswers(inner: Inner, st: Store, ps: seq<Prompt>) {
    && |st.order| == |ps| && NoRepeats(st.order)
    && (forall i | 0 <= i < |ps| ::
          && st.order[i] == inner.key(ps[i]) && st.order[i] in st.cache
          && inner.complete(ps[i]) == Ok(st.cache[st.order[i]]))
    && forall k | k in st.cache :: k in st.order
  }

  lemma HoldsSize(inner: Inner, st: Store, ps: seq<Prompt>)
    requires HoldsAnswers(inner, st, ps)
    ensures Lists(st) && |st.cache| == |ps|
  {
    assert Lists(st) by {
      forall k ensures k in st.order <==> k in st.cache {
        if k in st.order {
          var i :| 0 <= i < |st.order| && st.order[i] == k;
        }
      }
    }
    ListedSize(st);
  }

  lemma HoldsRest(inner: Inner, st: Store, ps: seq<Prompt>)
    requires HoldsAnswers(inner, st, ps) && ps != []
    ensures HoldsAnswers(inner, Store(st.cache - {st.order[0]}, st.order[1..]), ps[1..])
  {
    hide NoRepeats;
    RepeatFree(st.order);
    var next := Store(st.cache - {st.order[0]}, st.order[1..]);
    forall i | 0 <= i < |ps[1..]|
      ensures next.order[i] == inner.key(ps[1..][i]) && next.order[i] in next.cache
      ensures inner.complete(ps[1..][i]) == Ok(next.cache[next.order[i]])
    {
      assert st.order[1..][i] == st.order[i + 1] && ps[1..][i] == ps[i + 1];
      assert st.order[i + 1] in st.order[1..];
    }
    forall k | k in next.cache ensures k in next.order {
      assert k in st.order && k != st.order[0];
      assert st.order == [st.order[0]] + st.order[1..];
    }
  }

  lemma HoldsOneMore(inner: Inner, st: Store, ps: seq<Prompt>, p: Prompt)
    requires HoldsAnswers(inner, st, ps) && inner.key(p) !in st.cache && inner.complete(p).Ok?
    ensures HoldsAnswers(inner, Store(st.cache[inner.key(p) := inner.complete(p).value], st.order + [inner.key(p)]),
                         ps + [p])
  {
    hide NoRepeats;
    RepeatFreeAppend(st.order, inner.key(p));
    forall i | 0 <= i < |ps| ensures st.order[i] != inner.key(p) {
      assert st.order[i] in st.cache;
    }
  }

  lemma Untouched(inner: Inner, st: Store, ps: seq<Prompt>, p: Prompt)
    requires HoldsAnswers(inner, st, ps)
    ensures inner.key(p) in st.cache <==> exists q | q in ps :: inner.key(q) == inner.key(p)
  {
    if inner.key(p) in st.cache {
      var i :| 0 <= i < |st.order| && st.order[i] == inner.key(p);
      assert ps[i] in ps;
    }
    if q :| q in ps && inner.key(q) == inner.key(p) {
      var i :| 0 <= i < |ps| && ps[i] == q;
    }
  }

  // One call on a bounded cache that holds the newest fills.
  lemma LruStep(inner: Inner, cap: nat, st: Store, fills: seq<Prompt>, p: Prompt)
    requires HoldsAnswers(inner, st, Newest(fills, if cap > 1 then cap else 1))
    ensures var bound := if cap > 1 then cap else 1;
            HoldsAnswers(
              inner, Served(inner, Lru(cap), st, p),
              Newest(if inner.complete(p).Ok? && forall q | q in Newest(fills, bound) :: inner.key(q) != inner.key(p)
                     then fills + [p] else fills, bound))
  {
    hide HoldsAnswers;
    var bound := if cap > 1 then cap else 1;
    var held := Newest(fills, bound);
    Untouched(inner, st, held, p);
    if inner.complete(p).Ok? && inner.key(p) !in st.cache {
      HoldsSize(inner, st, held);
      HoldsOrder(inner, st, held);
      if |held| >= cap && held != [] {
        HoldsRest(inner, st, held);
        HoldsOneMore(inner, Store(st.cache - {st.order[0]}, st.order[1..]), held[1..], p);
        assert Newest(fills + [p], bound) == held[1..] + [p];
      } else {
        HoldsOneMore(inner, st, held, p);
        assert Newest(fills + [p], bound) == held + [p];
      }
    }
  }

  lemma HoldsOrder(inner: Inner, st: Store, ps: seq<Prompt>)
    requires HoldsAnswers(inner, st, ps)
    ensures |st.order| == |ps|
  {
  }

  lemma NothingHeld(inner: Inner, bound: nat)
    ensures HoldsAnswers(inner, EMPTY, Newest([], bound))
  {
  }

  // A bounded cache holds exactly the answers of the newest fills, as many as its capacity and at least one.
  lemma {:induction false} LruKeepsNewest(inner: Inner, cap: nat, ps: seq<Prompt>)
    ensures HoldsAnswers(inner, After(inner, Lru(cap), EMPTY, ps),
                         Newest(Fills(inner, cap, ps), if cap > 1 then cap else 1))
    decreases |ps|
  {
    hide HoldsAnswers, Served, Newest;
    if ps == [] {
      NothingHeld(inner, if cap > 1 then cap else 1);
    } else {
      var init := ps[..|ps| - 1];
      LruKeepsNewest(inner, cap, init);
      LruStep(inner, cap, After(inner, Lru(cap), EMPTY, init), Fills(inner, cap, init), ps[|ps| - 1]);
    }
  }
}
