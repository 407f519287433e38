// Calls of the cached backend that overlap: a call looks its key up, and after a miss waits for the
// backend and inserts the reply later.

module CacheOverlap {
  import opened Wrappers
  import opened Cache

  datatype Calls = Calls(st: Store, waiting: seq<Prompt>, replies: seq<(Prompt, Reply)>)

  const START := Calls(EMPTY, [], [])

  datatype Event = Call(prompt: Prompt) | Return(waiter: nat)

  predicate Enabled(c: Calls, e: Event) {
    e.Return? ==> e.waiter < |c.waiting|
  }

  function Without(ps: seq<Prompt>, i: nat): (r: seq<Prompt>)
    requires i < |ps|
    ensures |r| == |ps| - 1 && forall j | 0 <= j < |r| :: r[j] == ps[if j < i then j else j + 1]
  {
    ps[..i] + ps[i + 1..]
  }

  function Next(inner: Inner, policy: Policy, c: Calls, e: Event): Calls
    requires Enabled(c, e)
  {
    match e
    case Call(p) =>
      if !policy.Uncached? && inner.key(p) in c.st.cache
      then c.(replies := c.replies + [(p, Ok(c.st.cache[inner.key(p)]))])
      else c.(waiting := c.waiting + [p])
    case Return(i) =>
      var p := c.waiting[i];
      var r := inner.complete(p);
      Calls(if policy.Uncached? || r.Err? then c.st else Inserted(policy, c.st, inner.key(p), r.value),
            Without(c.waiting, i), c.replies + [(p, r)])
  }

  ghost predicate Runs(inner: Inner, policy: Policy, c: Calls, es: seq<Event>, d: Calls)
    decreases |es|
  {
    if es == [] then c == d else Enabled(c, es[0]) && Runs(inner, policy, Next(inner, policy, c, es[0]), es[1..], d)
  }

  lemma Extend(inner: Inner, policy: Policy, c: Calls, e: Event, es: seq<Event>, d: Calls)
    requires Enabled(c, e) && Runs(inner, policy, Next(inner, policy, c, e), es, d)
    ensures Runs(inner, policy, c, [e] + es, d)
  {
    hide Next;
    assert ([e] + es)[1..] == es;
  }

  lemma {:induction false} Join(inner: Inner, policy: Policy, c: Calls, es: seq<Event>, d: Calls, fs: seq<Event>,
                                e: Calls)
    requires Runs(inner, policy, c, es, d) && Runs(inner, policy, d, fs, e)
    ensures Runs(inner, policy, c, es + fs, e)
    decreases |es|
  {
    hide Next, Enabled;
    if es == [] {
      assert [] + fs == fs;
    } else {
      Join(inner, policy, Next(inner, policy, c, es[0]), es[1..], d, fs, e);
      assert (es + fs)[0] == es[0] && (es + fs)[1..] == es[1..] + fs;
    }
  }

  // One call and nothing else: a hit, or a miss that returns at once.
  lemma Alone(inner: Inner, policy: Policy, c: Calls, p: Prompt) returns (es: seq<Event>, d: Calls)
    ensures Runs(inner, policy, c, es, d) && d.st == Served(inner, policy, c.st, p) && d.waiting == c.waiting
  {
    hide Inserted;
    var one := Next(inner, policy, c, Call(p));
    if !policy.Uncached? && inner.key(p) in c.st.cache {
      es, d := [Call(p)], one;
    } else {
      es, d := [Call(p), Return(|c.waiting|)], Next(inner, policy, one, Return(|c.waiting|));
      assert d.waiting == c.waiting;
      Extend(inner, policy, one, Return(|c.waiting|), [], d);
    }
    Extend(inner, policy, c, Call(p), es[1..], d);
    assert [Call(p)] + es[1..] == es;
  }

  // Calls one after the other are a run.
  lemma {:induction false} Sequential(inner: Inner, policy: Policy, c: Calls, ps: seq<Prompt>)
    returns (es: seq<Event>, d: Calls)
    ensures Runs(inner, policy, c, es, d) && d.st == After(inner, policy, c.st, ps)
    decreases |ps|
  {
    hide Runs, Served;
    if ps == [] {
      es, d := [], c;
      assert Runs(inner, policy, c, es, d) by {
        NoEvents(inner, policy, c);
      }
    } else {
      var fs, b := Sequential(inner, policy, c, ps[..|ps| - 1]);
      var gs, e := Alone(inner, policy, b, ps[|ps| - 1]);
      Join(inner, policy, c, fs, b, gs, e);
      es, d := fs + gs, e;
    }
  }

  lemma NoEvents(inner: Inner, policy: Policy, c: Calls)
    ensures Runs(inner, policy, c, [], c)
  {
  }

  // ----- The replies -----

  function Asked(es: seq<Event>): set<Prompt> {
    if es == [] then {} else (if es[0].Call? then {es[0].prompt} else {}) + Asked(es[1..])
  }

  ghost predicate Truthful(inner: Inner, c: Calls) {
    forall i | 0 <= i < |c.replies| :: c.replies[i].1 == inner.complete(c.replies[i].0)
  }

  // Where the texts and the waiting calls come from.
  ghost predicate Known(inner: Inner, asked: set<Prompt>, c: Calls) {
    Sourced(inner, asked, c.st.cache) && forall p | p in c.waiting :: p in asked
  }

  lemma StepKnown(inner: Inner, policy: Policy, asked: set<Prompt>, c: Calls, e: Event)
    requires Known(inner, asked, c) && Enabled(c, e) && (e.Call? ==> e.prompt in asked)
    ensures Known(inner, asked, Next(inner, policy, c, e))
    ensures KeysAgree(inner, asked) && Truthful(inner, c) ==> Truthful(inner, Next(inner, policy, c, e))
  {
    hide Inserted, Sourced, KeysAgree;
    match e {
      case Call(p) =>
        assert asked + {p} == asked;
        if KeysAgree(inner, asked) {
          AnswerIsInner(inner, policy, asked, c.st, p);
        }
      case Return(i) =>
        var p := c.waiting[i];
        assert p in asked;
        if inner.complete(p).Ok? {
          InsertedSourced(inner, policy, asked, c.st, p, inner.complete(p).value);
        }
    }
  }

  lemma {:induction false} RunKnown(inner: Inner, policy: Policy, asked: set<Prompt>, c: Calls, es: seq<Event>,
                                    d: Calls)
    requires Known(inner, asked, c) && Runs(inner, policy, c, es, d) && Asked(es) <= asked
    ensures Known(inner, asked, d)
    ensures KeysAgree(inner, asked) && Truthful(inner, c) ==> Truthful(inner, d)
    decreases |es|
  {
    hide Truthful, Next, Known, KeysAgree;
    if es != [] {
      StepKnown(inner, policy, asked, c, es[0]);
      RunKnown(inner, policy, asked, Next(inner, policy, c, es[0]), es[1..], d);
    }
  }

  lemma StartKnown(inner: Inner, asked: set<Prompt>)
    ensures Known(inner, asked, START) && Truthful(inner, START)
  {
  }

  // Under a caching policy every reply of every run over some prompts is the backend's own, exactly
  // when those of the prompts that share a key get one reply.
  lemma RepliesAreInner(inner: Inner, policy: Policy, asked: set<Prompt>)
    requires !policy.Uncached?
    ensures (forall es, d | Runs(inner, policy, START, es, d) && Asked(es) <= asked :: Truthful(inner, d))
            <==> KeysAgree(inner, asked)
  {
    hide Truthful, Known, Runs, Asked;
    StartKnown(inner, asked);
    if KeysAgree(inner, asked) {
      forall es, d | Runs(inner, policy, START, es, d) && Asked(es) <= asked ensures Truthful(inner, d) {
        RunKnown(inner, policy, asked, START, es, d);
      }
    } else {
      var p, q :| p in asked && q in asked && inner.key(p) == inner.key(q) && inner.complete(p).Ok?
                  && inner.complete(q) != inner.complete(p);
      var es, d := Mistaken(inner, policy, p, q);
    }
  }

  // After `p` was answered, `q` gets the same text.
  lemma Mistaken(inner: Inner, policy: Policy, p: Prompt, q: Prompt) returns (es: seq<Event>, d: Calls)
    requires !policy.Uncached? && inner.key(p) == inner.key(q) && inner.complete(p).Ok?
    requires inner.complete(q) != inner.complete(p)
    ensures Runs(inner, policy, START, es, d) && Asked(es) <= {p, q} && !Truthful(inner, d)
  {
    hide Inserted;
    es := [Call(p), Return(0), Call(q)];
    var one := Next(inner, policy, START, Call(p));
    var two := Next(inner, policy, one, Return(0));
    KeyInserted(policy, EMPTY, inner.key(p), inner.complete(p).value);
    d := Next(inner, policy, two, Call(q));
    Extend(inner, policy, two, Call(q), [], d);
    Extend(inner, policy, one, Return(0), [Call(q)], d);
    Extend(inner, policy, START, Call(p), [Return(0), Call(q)], d);
    assert d.replies[1] == (q, inner.complete(p));
    assert Asked([]) == {} && Asked([Call(q)]) == {q} by {
      assert [Call(q)][1..] == [];
    }
    assert es[1..] == [Return(0), Call(q)] && es[1..][1..] == [Call(q)];
  }

  lemma KeyInserted(policy: Policy, st: Store, key: nat, x: string)
    ensures key in Inserted(policy, st, key, x).cache && Inserted(policy, st, key, x).cache[key] == x
  {
  }

  // ----- The listing -----

  // No two waiting calls that the backend will answer have one key.
  ghost predicate AnsweredApart(inner: Inner, c: Calls) {
    forall i, j | 0 <= i < j < |c.waiting| && inner.complete(c.waiting[i]).Ok? && inner.complete(c.waiting[j]).Ok? ::
      inner.key(c.waiting[i]) != inner.key(c.waiting[j])
  }

  // The order lists the cached keys within the bound, and no waiting call that will be answered has
  // its key among them.
  ghost predicate Orderly(inner: Inner, cap: nat, c: Calls) {
    && Listed(Lru(cap), c.st)
    && forall p | p in c.waiting && inner.complete(p).Ok? :: inner.key(p) !in c.st.cache
  }

  // A run in which no call comes for a key that another call waits for.
  ghost predicate NoDouble(inner: Inner, policy: Policy, c: Calls, es: seq<Event>)
    decreases |es|
  {
    if es == [] then true
    else
      && Enabled(c, es[0])
      && (es[0].Call? ==> forall p | p in c.waiting :: inner.key(p) != inner.key(es[0].prompt))
      && NoDouble(inner, policy, Next(inner, policy, c, es[0]), es[1..])
  }

  lemma CallOrderly(inner: Inner, cap: nat, c: Calls, p: Prompt)
    requires Orderly(inner, cap, c) && AnsweredApart(inner, c)
    requires forall q | q in c.waiting :: inner.key(q) != inner.key(p)
    ensures Orderly(inner, cap, Next(inner, Lru(cap), c, Call(p)))
    ensures AnsweredApart(inner, Next(inner, Lru(cap), c, Call(p)))
  {
    hide Listed;
  }

  lemma ReturnOrderly(inner: Inner, cap: nat, c: Calls, i: nat)
    requires Orderly(inner, cap, c) && AnsweredApart(inner, c) && i < |c.waiting|
    ensures Orderly(inner, cap, Next(inner, Lru(cap), c, Return(i)))
    ensures AnsweredApart(inner, Next(inner, Lru(cap), c, Return(i)))
  {
    hide Listed, Inserted;
    var p, d := c.waiting[i], Next(inner, Lru(cap), c, Return(i));
    if inner.complete(p).Ok? {
      assert p in c.waiting;
      InsertedListed(Lru(cap), c.st, inner.key(p), inner.complete(p).value);
      InsertedKeys(cap, c.st, inner.key(p), inner.complete(p).value);
    }
    forall q | q in d.waiting && inner.complete(q).Ok? ensures inner.key(q) !in d.st.cache {
      var j :| 0 <= j < |d.waiting| && d.waiting[j] == q;
      assert q == c.waiting[if j < i then j else j + 1];
    }
  }

  lemma InsertedKeys(cap: nat, st: Store, key: nat, x: string)
    ensures forall k | k in Inserted(Lru(cap), st, key, x).cache :: k == key || k in st.cache
  {
  }

  lemma {:induction false} RunOrderly(inner: Inner, cap: nat, c: Calls, es: seq<Event>, d: Calls)
    requires Orderly(inner, cap, c) && AnsweredApart(inner, c)
    requires NoDouble(inner, Lru(cap), c, es) && Runs(inner, Lru(cap), c, es, d)
    ensures Orderly(inner, cap, d) && AnsweredApart(inner, d)
    decreases |es|
  {
    hide Orderly, AnsweredApart, Next;
    if es != [] {
      match es[0] {
        case Call(p) => CallOrderly(inner, cap, c, p);
        case Return(i) => ReturnOrderly(inner, cap, c, i);
      }
      RunOrderly(inner, cap, Next(inner, Lru(cap), c, es[0]), es[1..], d);
    }
  }

  // Two answered calls for one key that return one after the other put it in the order twice.
  lemma DoubleReturn(inner: Inner, cap: nat, c: Calls, i: nat, j: nat) returns (es: seq<Event>, d: Calls)
    requires cap >= 2 && Orderly(inner, cap, c) && i < j < |c.waiting|
    requires inner.complete(c.waiting[i]).Ok? && inner.complete(c.waiting[j]).Ok?
    requires inner.key(c.waiting[i]) == inner.key(c.waiting[j])
    ensures NoDouble(inner, Lru(cap), c, es) && Runs(inner, Lru(cap), c, es, d) && !Lists(d.st)
  {
    hide Inserted, Lists;
    var p, q := c.waiting[j], c.waiting[i];
    assert p in c.waiting;
    es := [Return(j), Return(i)];
    var one := Next(inner, Lru(cap), c, Return(j));
    assert one.waiting[i] == q;
    d := Next(inner, Lru(cap), one, Return(i));
    Extend(inner, Lru(cap), one, Return(i), [], d);
    Extend(inner, Lru(cap), c, Return(j), [Return(i)], d);
    assert es[1..] == [Return(i)] && [Return(i)][1..] == [];
    assert NoDouble(inner, Lru(cap), d, []) && NoDouble(inner, Lru(cap), one, [Return(i)]);
    InsertedTwice(cap, c.st, inner.key(p), inner.complete(p).value, inner.complete(q).value);
  }

  lemma InsertedTwice(cap: nat, st: Store, key: nat, x: string, y: string)
    requires cap >= 2 && Listed(Lru(cap), st) && key !in st.cache
    ensures !Lists(Inserted(Lru(cap), Inserted(Lru(cap), st, key, x), key, y))
  {
    hide Lists;
    var one := Inserted(Lru(cap), st, key, x);
    InsertedListed(Lru(cap), st, key, x);
    assert Lists(one) && one.order[|one.order| - 1] == key;
    ListedSize(one);
    assert key in Room(cap, one).cache by {
      if |one.cache| >= cap {
        FirstIsNotLast(one);
      }
    }
    InsertedLists(cap, one, key, y);
  }

  lemma FirstIsNotLast(st: Store)
    requires Lists(st) && |st.order| >= 2
    ensures st.order[0] != st.order[|st.order| - 1]
  {
  }

  // From an orderly state the listing and the bound hold in every continuation in which no call comes
  // for a key that is waited for, exactly when no two calls that wait for an answer share a key.
  lemma ListedExactly(inner: Inner, cap: nat, c: Calls)
    requires cap >= 2 && Orderly(inner, cap, c)
    ensures (forall es, d | Runs(inner, Lru(cap), c, es, d) && NoDouble(inner, Lru(cap), c, es) ::
               Listed(Lru(cap), d.st))
            <==> AnsweredApart(inner, c)
  {
    hide Runs, NoDouble, Lists;
    if AnsweredApart(inner, c) {
      forall es, d | Runs(inner, Lru(cap), c, es, d) && NoDouble(inner, Lru(cap), c, es)
        ensures Listed(Lru(cap), d.st)
      {
        RunOrderly(inner, cap, c, es, d);
      }
    } else {
      var i, j :| 0 <= i < j < |c.waiting| && inner.complete(c.waiting[i]).Ok? && inner.complete(c.waiting[j]).Ok?
                  && inner.key(c.waiting[i]) == inner.key(c.waiting[j]);
      var es, d := DoubleReturn(inner, cap, c, i, j);
      assert !Listed(Lru(cap), d.st);
    }
  }
}
