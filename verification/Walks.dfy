// Walks along named links, such as the supertypes of a type or the superclasses of a class.

module Walks {
  type Links = map<string, seq<string>>

  function Parents(g: Links, n: string): seq<string> {
    if n in g then g[n] else []
  }

  // ----- Reachability -----

  ghost predicate LinkPath(g: Links, p: seq<string>) {
    p != [] && forall i | 0 <= i < |p| - 1 :: p[i + 1] in Parents(g, p[i])
  }

  ghost predicate Reaches(g: Links, a: string, b: string) {
    exists p | LinkPath(g, p) :: p[0] == a && p[|p| - 1] == b
  }

  lemma ReachesSelf(g: Links, a: string)
    ensures Reaches(g, a, a)
  {
    assert LinkPath(g, [a]);
  }

  lemma ReachesFurther(g: Links, a: string, b: string, c: string)
    requires Reaches(g, a, b) && c in Parents(g, b)
    ensures Reaches(g, a, c)
  {
    var p :| LinkPath(g, p) && p[0] == a && p[|p| - 1] == b;
    var q := p + [c];
    forall i | 0 <= i < |q| - 1 ensures q[i + 1] in Parents(g, q[i]) {
      assert i < |p| - 1 ==> q[i + 1] == p[i + 1];
    }
    assert LinkPath(g, q);
  }

  // A set closed under parents keeps every chain that starts in it.
  lemma {:induction false} ChainStays(g: Links, p: seq<string>, out: seq<string>)
    requires LinkPath(g, p) && p[0] in out && ParentClosed(g, out)
    ensures p[|p| - 1] in out
    decreases |p|
  {
    if |p| > 1 {
      var q := p[..|p| - 1];
      assert forall i | 0 <= i < |q| :: q[i] == p[i];
      ChainStays(g, q, out);
      assert p[|p| - 2 + 1] in Parents(g, q[|q| - 1]);
    }
  }

  predicate ParentClosed(g: Links, out: seq<string>) {
    forall n | n in out :: forall c | c in Parents(g, n) :: c in out
  }
}
