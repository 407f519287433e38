// The walk over the supertypes of a node type.

module Hierarchy {
  import opened Collections
  import opened SchemaTypes
  import opened Walks

  function Declared(types: map<string, NodeType>): Links {
    map t | t in types :: types[t].supertypes
  }

  // ----- The depth-first preorder, by recursion over the parents -----

  // Every name a walk from `ns` can meet.
  ghost function Reach(g: Links, ns: seq<string>): set<string> {
    Elements(ns) + (set t, n | t in g.Keys && n in g[t] :: n)
  }

  ghost predicate Inside(g: Links, ns: seq<string>, u: set<string>) {
    && (forall n | n in ns :: n in u)
    && (forall t | t in g :: forall n | n in g[t] :: n in u)
  }

  // Visits the names in turn; the visit of a new name puts it down, then visits its parents.
  ghost function Preorder(g: Links, ns: seq<string>, out: seq<string>, u: set<string>): (r: seq<string>)
    requires Inside(g, ns, u)
    ensures out <= r
    decreases |u - Elements(out)|, |ns|
  {
    if ns == [] then out
    else if ns[0] in out then Preorder(g, ns[1..], out, u)
    else
      FewerLeft(u, out, ns[0]);
      var deeper := Preorder(g, Parents(g, ns[0]), out + [ns[0]], u);
      NoMoreLeft(u, out, deeper);
      Preorder(g, ns[1..], deeper, u)
  }

  lemma FewerLeft(u: set<string>, out: seq<string>, n: string)
    requires n in u && n !in out
    ensures |u - Elements(out + [n])| < |u - Elements(out)|
  {
    assert u - Elements(out) == (u - Elements(out + [n])) + {n};
  }

  lemma NoMoreLeft(u: set<string>, out: seq<string>, more: seq<string>)
    requires out <= more
    ensures |u - Elements(more)| <= |u - Elements(out)|
  {
    SubsetCard(u - Elements(more), u - Elements(out));
  }

  lemma {:induction false} PreorderAppend(g: Links, xs: seq<string>, ys: seq<string>, out: seq<string>, u: set<string>)
    requires Inside(g, xs, u) && Inside(g, ys, u)
    ensures Inside(g, xs + ys, u)
    ensures Preorder(g, xs + ys, out, u) == Preorder(g, ys, Preorder(g, xs, out, u), u)
    decreases |u - Elements(out)|, |xs|
  {
    if xs == [] {
      assert xs + ys == ys;
    } else {
      assert (xs + ys)[1..] == xs[1..] + ys;
      if xs[0] in out {
        PreorderAppend(g, xs[1..], ys, out, u);
      } else {
        FewerLeft(u, out, xs[0]);
        var deeper := Preorder(g, Parents(g, xs[0]), out + [xs[0]], u);
        NoMoreLeft(u, out, deeper);
        PreorderAppend(g, xs[1..], ys, deeper, u);
      }
    }
  }

  // What a visit adds: the given names and all parents of what it added, only what is reachable, no repeats.
  ghost predicate Adds(g: Links, root: string, ns: seq<string>, out: seq<string>, r: seq<string>) {
    && out <= r && NoRepeats(r)
    && (forall n | n in ns :: n in r)
    && (forall n | n in r :: Reaches(g, root, n))
    && (forall n | n in r && n !in out :: forall c | c in Parents(g, n) :: c in r)
  }

  lemma AddsNone(g: Links, root: string, out: seq<string>)
    requires NoRepeats(out) && forall n | n in out :: Reaches(g, root, n)
    ensures Adds(g, root, [], out, out)
  {
  }

  lemma AddsKnown(g: Links, root: string, ns: seq<string>, out: seq<string>, r: seq<string>)
    requires ns != [] && ns[0] in out && Adds(g, root, ns[1..], out, r)
    ensures Adds(g, root, ns, out, r)
  {
    hide Reaches;
    assert ns == [ns[0]] + ns[1..];
  }

  lemma AddsNew(g: Links, root: string, ns: seq<string>, out: seq<string>, deeper: seq<string>, r: seq<string>)
    requires ns != [] && Adds(g, root, Parents(g, ns[0]), out + [ns[0]], deeper) && Adds(g, root, ns[1..], deeper, r)
    ensures Adds(g, root, ns, out, r)
  {
    hide Reaches, NoRepeats;
    assert ns == [ns[0]] + ns[1..];
    assert ns[0] in out + [ns[0]];
  }

  lemma {:induction false} PreorderAdds(g: Links, ns: seq<string>, out: seq<string>, u: set<string>, root: string)
    requires Inside(g, ns, u) && NoRepeats(out)
    requires forall n | n in ns || n in out :: Reaches(g, root, n)
    ensures Adds(g, root, ns, out, Preorder(g, ns, out, u))
    decreases |u - Elements(out)|, |ns|
  {
    hide Reaches, Adds;
    if ns == [] {
      AddsNone(g, root, out);
    } else if ns[0] in out {
      PreorderAdds(g, ns[1..], out, u, root);
      AddsKnown(g, root, ns, out, Preorder(g, ns, out, u));
    } else {
      var n := ns[0];
      FewerLeft(u, out, n);
      forall c | c in Parents(g, n) ensures Reaches(g, root, c) {
        ReachesFurther(g, root, n, c);
      }
      PreorderAdds(g, Parents(g, n), out + [n], u, root);
      var deeper := Preorder(g, Parents(g, n), out + [n], u);
      AddsMeans(g, root, Parents(g, n), out + [n], deeper);
      NoMoreLeft(u, out, deeper);
      PreorderAdds(g, ns[1..], deeper, u, root);
      AddsNew(g, root, ns, out, deeper, Preorder(g, ns, out, u));
    }
  }

  lemma AddsMeans(g: Links, root: string, ns: seq<string>, out: seq<string>, r: seq<string>)
    requires Adds(g, root, ns, out, r)
    ensures out <= r && NoRepeats(r) && forall n | n in r :: Reaches(g, root, n)
  {
  }

  // Names put down first are kept first.
  lemma PreorderStarts(g: Links, name: string, u: set<string>)
    requires Inside(g, [name], u)
    ensures [name] <= Preorder(g, [name], [], u)
  {
    FewerLeft(u, [], name);
  }

  // The walk from a name: the name first, each reachable name once, nothing else.
  ghost function SupertypesOf(g: Links, name: string): seq<string> {
    Preorder(g, [name], [], Reach(g, [name]))
  }

  lemma SupertypesExact(g: Links, name: string)
    ensures var r := SupertypesOf(g, name);
            && r != [] && r[0] == name && NoRepeats(r)
            && forall n :: n in r <==> Reaches(g, name, n)
  {
    hide Preorder, Reaches, Reach, LinkPath;
    var u := Reach(g, [name]);
    ReachInside(g, name);
    ReachesSelf(g, name);
    PreorderAdds(g, [name], [], u, name);
    PreorderStarts(g, name, u);
    var r := Preorder(g, [name], [], u);
    forall n | Reaches(g, name, n) ensures n in r {
      ReachedIsIn(g, name, n, r);
    }
  }

  lemma ReachedIsIn(g: Links, name: string, n: string, r: seq<string>)
    requires Reaches(g, name, n) && name in r && ParentClosed(g, r)
    ensures n in r
  {
    var p :| LinkPath(g, p) && p[0] == name && p[|p| - 1] == n;
    ChainStays(g, p, r);
  }

  lemma ReachInside(g: Links, name: string)
    ensures Inside(g, [name], Reach(g, [name]))
  {
  }

  // ----- The order of the walk -----

  // The supertypes a type is declared with, in the order of its declaration.
  function Above(types: map<string, NodeType>, name: string): seq<string> {
    if name in types then types[name].supertypes else []
  }

  predicate AllListed(types: map<string, NodeType>, name: string, listed: seq<string>) {
    forall c | c in Above(types, name) :: c in listed
  }

  // Entry `k` is the first declared supertype not listed before it, of the last name listed that has one.
  ghost predicate NextInOrder(types: map<string, NodeType>, r: seq<string>, k: nat)
    requires k < |r|
  {
    exists p, j ::
      && 0 <= p < k && 0 <= j < |Above(types, r[p])| && Above(types, r[p])[j] == r[k]
      && (forall i | 0 <= i < j :: Above(types, r[p])[i] in r[..k])
      && forall q | p < q < k :: AllListed(types, r[q], r[..k])
  }

  lemma NextStays(types: map<string, NodeType>, r: seq<string>, more: seq<string>, k: nat)
    requires k < |r| && r <= more && NextInOrder(types, r, k)
    ensures NextInOrder(types, more, k)
  {
    hide AllListed, Above;
    assert more[..k] == r[..k];
    var p, j :| && 0 <= p < k && 0 <= j < |Above(types, r[p])| && Above(types, r[p])[j] == r[k]
                && (forall i | 0 <= i < j :: Above(types, r[p])[i] in r[..k])
                && forall q | p < q < k :: AllListed(types, r[q], r[..k]);
    assert Above(types, more[p])[j] == more[k];
  }

  // The names still to visit are the last of those above entry `p`, and what was listed after it is done.
  ghost predicate Pending(types: map<string, NodeType>, p: nat, ns: seq<string>, out: seq<string>) {
    && p < |out| && |ns| <= |Above(types, out[p])|
    && ns == Above(types, out[p])[|Above(types, out[p])| - |ns|..]
    && (forall i | 0 <= i < |Above(types, out[p])| - |ns| :: Above(types, out[p])[i] in out)
    && forall q | p < q < |out| :: AllListed(types, out[q], out)
  }

  ghost predicate Continues(types: map<string, NodeType>, p: nat, out: seq<string>, r: seq<string>) {
    && out <= r
    && (forall k | |out| <= k < |r| :: NextInOrder(types, r, k))
    && forall q | p <= q < |r| :: AllListed(types, r[q], r)
  }

  lemma {:induction false} PreorderContinues(types: map<string, NodeType>, p: nat, ns: seq<string>, out: seq<string>,
                                             u: set<string>)
    requires Inside(Declared(types), ns, u) && Pending(types, p, ns, out)
    ensures Continues(types, p, out, Preorder(Declared(types), ns, out, u))
    decreases |u - Elements(out)|, |ns|
  {
    hide Above, AllListed, NextInOrder, Inside, Pending, Continues;
    var g := Declared(types);
    ListUnfolds(g, ns, out, u);
    if ns == [] {
      NothingPending(types, p, out);
    } else if ns[0] in out {
      PendingKnown(types, p, ns, out);
      PreorderContinues(types, p, ns[1..], out, u);
    } else {
      FewerLeft(u, out, ns[0]);
      var deeper := Preorder(g, Parents(g, ns[0]), out + [ns[0]], u);
      NoMoreLeft(u, out, deeper);
      ParentsAbove(types, ns[0]);
      PendingAll(types, ns[0], out);
      PreorderContinues(types, |out|, Parents(g, ns[0]), out + [ns[0]], u);
      PendingNext(types, p, ns, out, deeper);
      PreorderContinues(types, p, ns[1..], deeper, u);
      ContinuesOn(types, p, ns, out, deeper, Preorder(g, ns, out, u));
    }
  }

  lemma ListUnfolds(g: Links, ns: seq<string>, out: seq<string>, u: set<string>)
    requires Inside(g, ns, u)
    ensures ns != [] ==> Inside(g, ns[1..], u) && Inside(g, Parents(g, ns[0]), u) && ns[0] in u
  {
  }

  lemma ParentsAbove(types: map<string, NodeType>, name: string)
    ensures Parents(Declared(types), name) == Above(types, name)
  {
  }

  lemma NothingPending(types: map<string, NodeType>, p: nat, out: seq<string>)
    requires Pending(types, p, [], out)
    ensures Continues(types, p, out, out)
  {
    hide Above, NextInOrder;
  }

  lemma PendingKnown(types: map<string, NodeType>, p: nat, ns: seq<string>, out: seq<string>)
    requires ns != [] && ns[0] in out && Pending(types, p, ns, out)
    ensures Pending(types, p, ns[1..], out)
  {
    hide Above, AllListed;
  }

  lemma PendingAll(types: map<string, NodeType>, name: string, out: seq<string>)
    ensures Pending(types, |out|, Above(types, name), out + [name])
  {
    hide Above, AllListed;
    assert (out + [name])[|out|] == name;
  }

  lemma StaysListed(types: map<string, NodeType>, name: string, out: seq<string>, more: seq<string>)
    requires AllListed(types, name, out) && out <= more
    ensures AllListed(types, name, more)
  {
    hide Above;
    assert forall c | c in out :: c in more;
  }

  lemma PendingNext(types: map<string, NodeType>, p: nat, ns: seq<string>, out: seq<string>, deeper: seq<string>)
    requires ns != [] && Pending(types, p, ns, out) && Continues(types, |out|, out + [ns[0]], deeper)
    ensures Pending(types, p, ns[1..], deeper) && out <= deeper && deeper[|out|] == ns[0]
  {
    hide Above, AllListed, NextInOrder;
    assert deeper[|out|] == (out + [ns[0]])[|out|] && forall i | 0 <= i < |out| :: deeper[i] == out[i];
    forall q | p < q < |deeper| ensures AllListed(types, deeper[q], deeper) {
      if q < |out| {
        StaysListed(types, out[q], out, deeper);
      }
    }
  }

  lemma ContinuesOn(types: map<string, NodeType>, p: nat, ns: seq<string>, out: seq<string>, deeper: seq<string>,
                    r: seq<string>)
    requires ns != [] && Pending(types, p, ns, out) && Continues(types, |out|, out + [ns[0]], deeper)
    requires out <= deeper && Continues(types, p, deeper, r)
    ensures Continues(types, p, out, r)
  {
    hide Above, AllListed, NextInOrder;
    var n := |out|;
    assert deeper[n] == (out + [ns[0]])[n] && r[n] == deeper[n] && r[..n] == out && r[p] == out[p];
    FirstNext(types, p, ns, out, r);
    forall k | n <= k < |r| ensures NextInOrder(types, r, k) {
      if n < k < |deeper| {
        NextStays(types, deeper, r, k);
      }
    }
  }

  lemma FirstNext(types: map<string, NodeType>, p: nat, ns: seq<string>, out: seq<string>, r: seq<string>)
    requires ns != [] && Pending(types, p, ns, out) && |out| < |r| && out <= r && r[|out|] == ns[0]
    ensures NextInOrder(types, r, |out|)
  {
    hide Above, AllListed;
    var all, j := Above(types, out[p]), |Above(types, out[p])| - |ns|;
    assert r[..|out|] == out && r[p] == out[p] && all[j] == ns[0];
    assert forall q | p < q < |out| :: r[q] == out[q];
  }

  // The walk lists the declared supertypes depth first: every entry but the first is the next of the last
  // name above it that is not done.
  lemma SupertypesInOrder(types: map<string, NodeType>, name: string)
    ensures var r := SupertypesOf(Declared(types), name);
            && r != [] && r[0] == name && NoRepeats(r)
            && (forall k | 0 < k < |r| :: NextInOrder(types, r, k))
            && forall n | n in r :: AllListed(types, n, r)
  {
    hide NextInOrder, Inside, Preorder, Above, AllListed, Reach, NoRepeats;
    var g := Declared(types);
    var u := Reach(g, [name]);
    ReachInside(g, name);
    SupertypesExact(g, name);
    VisitOne(g, name, u);
    ParentsAbove(types, name);
    PendingAll(types, name, []);
    assert [] + [name] == [name];
    PreorderContinues(types, 0, Parents(g, name), [name], u);
  }

  lemma VisitOne(g: Links, name: string, u: set<string>)
    requires Inside(g, [name], u)
    ensures Inside(g, Parents(g, name), u)
    ensures Preorder(g, [name], [], u) == Preorder(g, Parents(g, name), [name], u)
  {
    assert [name][1..] == [] && [] + [name] == [name];
    FewerLeft(u, [], name);
  }

  // ----- The walk as it runs -----

  // The names on the stack, next one first.
  function Reversed(s: seq<string>): (r: seq<string>)
    ensures |r| == |s| && forall i | 0 <= i < |s| :: r[i] == s[|s| - 1 - i]
  {
    if s == [] then [] else [s[|s| - 1]] + Reversed(s[..|s| - 1])
  }

  lemma ReversedPush(s: seq<string>, n: string)
    ensures Reversed(s + [n]) == [n] + Reversed(s)
  {
    assert (s + [n])[..|s|] == s;
  }

  class Schema {
    var nodeTypes: map<string, NodeType>

    constructor ()
      ensures nodeTypes == map[]
    {
      nodeTypes := map[];
    }

    // The inner loop of `supertypes_of`: the parents pushed last to first.
    method PushParents(start: seq<string>, parents: seq<string>) returns (stack: seq<string>)
      ensures Reversed(stack) == parents + Reversed(start)
    {
      stack := start;
      assert parents[|parents|..] == [];
      for i := |parents| downto 0
        invariant Reversed(stack) == parents[i..] + Reversed(start)
      {
        ReversedPush(stack, parents[i]);
        assert parents[i..] == [parents[i]] + parents[i + 1..];
        stack := stack + [parents[i]];
      }
    }

    // `supertypes_of`; it ends on cyclic declarations too.
    method SupertypesWalk(name: string) returns (out: seq<string>)
      ensures out == SupertypesOf(Declared(nodeTypes), name)
    {
      hide Preorder, Reach;
      ghost var g := Declared(nodeTypes);
      ghost var u := Reach(g, [name]);
      ReachInside(g, name);
      out := [];
      var stack := [name];
      assert Reversed(stack) == [name];
      while stack != []
        invariant Inside(g, Reversed(stack), u)
        invariant Preorder(g, Reversed(stack), out, u) == SupertypesOf(g, name)
        decreases |u - Elements(out)|, |stack|
      {
        var n := stack[|stack| - 1];
        stack := stack[..|stack| - 1];
        assert [n] + Reversed(stack) == Reversed(stack + [n]);
        StepUnfolds(g, n, Reversed(stack), out, u);
        if n in out {
          continue;
        }
        FewerLeft(u, out, n);
        out := out + [n];
        assert [] + Reversed(stack) == Reversed(stack);
        if n in nodeTypes {
          stack := PushParents(stack, nodeTypes[n].supertypes);
        }
      }
      NothingLeft(g, out, u);
    }
  }

  lemma NothingLeft(g: Links, out: seq<string>, u: set<string>)
    requires Inside(g, [], u)
    ensures Preorder(g, [], out, u) == out
  {
  }

  // One turn of the loop: the popped name is skipped, or put down with its parents before the rest.
  lemma StepUnfolds(g: Links, n: string, rest: seq<string>, out: seq<string>, u: set<string>)
    requires Inside(g, [n] + rest, u)
    ensures n in u && Inside(g, rest, u) && Inside(g, Parents(g, n) + rest, u)
    ensures n in out ==> Preorder(g, [n] + rest, out, u) == Preorder(g, rest, out, u)
    ensures n !in out ==> Preorder(g, [n] + rest, out, u) == Preorder(g, Parents(g, n) + rest, out + [n], u)
  {
    var ns := [n] + rest;
    assert ns[0] == n && ns[1..] == rest;
    assert Inside(g, rest, u) && Inside(g, Parents(g, n), u);
    if n !in out {
      PreorderAppend(g, Parents(g, n), rest, out + [n], u);
    }
  }
}
