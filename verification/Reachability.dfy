/** Directed graphs over package names, and reachability in them. */
module Reachability {

  type Graph = map<string, set<string>>

  /** The targets of `v`; a node the graph does not list has none. */
  function Succ(g: Graph, v: string): set<string> {
    if v in g then g[v] else {}
  }

  /** Every node the graph mentions, as a source or as a target. */
  function Nodes(g: Graph): set<string> {
    g.Keys + set v, w | v in g && w in g[v] :: w
  }

  /** `p` lists the nodes after `a` on a way from `a` to `b`. */
  ghost predicate IsPath(g: Graph, p: seq<string>, a: string, b: string) {
    if p == [] then a == b
    else p[0] in Succ(g, a) && IsPath(g, p[1..], p[0], b)
  }

  ghost predicate Reach(g: Graph, a: string, b: string) {
    exists p :: IsPath(g, p, a, b)
  }

  /** A strongly connected component: mutually reachable, and as large as it can be. */
  ghost predicate IsScc(g: Graph, c: set<string>) {
    && c != {}
    && (forall a, b :: a in c && b in c ==> Reach(g, a, b))
    && (forall a, z :: a in c && Reach(g, a, z) && Reach(g, z, a) ==> z in c)
  }

  lemma ReachSelf(g: Graph, a: string)
    ensures Reach(g, a, a)
  {
    assert IsPath(g, [], a, a);
  }

  lemma {:induction false} PathJoin(g: Graph, p: seq<string>, q: seq<string>, a: string, b: string, c: string)
    requires IsPath(g, p, a, b) && IsPath(g, q, b, c)
    ensures IsPath(g, p + q, a, c)
  {
    if p == [] {
      assert p + q == q;
    } else {
      PathJoin(g, p[1..], q, p[0], b, c);
      assert (p + q)[1..] == p[1..] + q;
    }
  }

  lemma ReachTrans(g: Graph, a: string, b: string, c: string)
    requires Reach(g, a, b) && Reach(g, b, c)
    ensures Reach(g, a, c)
  {
    var p :| IsPath(g, p, a, b);
    var q :| IsPath(g, q, b, c);
    PathJoin(g, p, q, a, b, c);
  }

  lemma ReachStep(g: Graph, a: string, b: string, c: string)
    requires Reach(g, a, b) && c in Succ(g, b)
    ensures Reach(g, a, c)
  {
    assert IsPath(g, [c], b, c);
    ReachTrans(g, a, b, c);
  }

  lemma ReachEdge(g: Graph, a: string, b: string)
    requires b in Succ(g, a)
    ensures Reach(g, a, b)
  {
    ReachSelf(g, a);
    ReachStep(g, a, a, b);
  }

  /** A path leaving a set crosses an edge out of it. */
  lemma {:induction false} PathExit(g: Graph, p: seq<string>, a: string, b: string, s: set<string>)
    returns (x: string, y: string)
    requires IsPath(g, p, a, b) && a in s && b !in s
    ensures x in s && y !in s && y in Succ(g, x) && Reach(g, a, x) && Reach(g, y, b)
  {
    if p[0] !in s {
      x, y := a, p[0];
      ReachSelf(g, a);
    } else {
      x, y := PathExit(g, p[1..], p[0], b, s);
      ReachEdge(g, a, p[0]);
      ReachTrans(g, a, p[0], x);
    }
  }

  lemma ReachExit(g: Graph, a: string, b: string, s: set<string>) returns (x: string, y: string)
    requires Reach(g, a, b) && a in s && b !in s
    ensures x in s && y !in s && y in Succ(g, x) && Reach(g, a, x) && Reach(g, y, b)
  {
    var p :| IsPath(g, p, a, b);
    x, y := PathExit(g, p, a, b, s);
  }

  /** Two distinct strongly connected components share no node. */
  lemma SccsDisjoint(g: Graph, c: set<string>, d: set<string>, v: string)
    requires IsScc(g, c) && IsScc(g, d) && v in c && v in d
    ensures c == d
  {
    forall z
      ensures z in c <==> z in d
    {
    }
  }
}
