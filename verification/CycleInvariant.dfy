/**
 The invariants of the cycle search (Tarjan's algorithm), stated on snapshots of its
 variables, and one lemma for each thing the search does to them.
 */
module CycleInvariant {
  import opened Reachability

  /** The variables of one search. `gray` and `sccs` exist only for the proof: the
      nodes whose call has not returned, and every component popped so far, the
      single nodes included. */
  datatype Search = Search(
    index: map<string, nat>, low: map<string, nat>,
    stack: seq<string>, onStack: set<string>,
    gray: set<string>, sccs: set<set<string>>)

  ghost predicate Numbered(index: map<string, nat>, low: map<string, nat>) {
    && low.Keys == index.Keys
    && forall v :: v in index ==> index[v] < |index|
  }

  /** The stack lists `onStack` in the order its nodes were numbered. */
  ghost predicate Stacked(index: map<string, nat>, stack: seq<string>, onStack: set<string>) {
    && (forall v :: v in onStack ==> v in index)
    && (forall i :: 0 <= i < |stack| ==> stack[i] in onStack)
    && (forall v {:trigger v in stack} :: v in onStack ==> v in stack)
    && (forall i, j :: 0 <= i < j < |stack| ==> index[stack[i]] < index[stack[j]])
  }

  ghost predicate Shape(s: Search) {
    && Numbered(s.index, s.low)
    && Stacked(s.index, s.stack, s.onStack)
    && (forall v :: v in s.gray ==> v in s.onStack)
  }

  ghost predicate InPopped(sccs: set<set<string>>, v: string) {
    exists c :: c in sccs && v in c
  }

  /** What has been popped is whole components, and nothing else. */
  ghost predicate Popped(g: Graph, index: map<string, nat>, onStack: set<string>, sccs: set<set<string>>) {
    && (forall v {:trigger InPopped(sccs, v)} :: v in index && v !in onStack ==> InPopped(sccs, v))
    && (forall c, v :: c in sccs && v in c ==> v in index && v !in onStack)
    && (forall c {:trigger IsScc(g, c)} :: c in sccs ==> IsScc(g, c))
  }

  ghost predicate Closed(g: Graph, index: map<string, nat>, gray: set<string>) {
    forall v, w :: w in Succ(g, v) && v in index && v !in gray ==> w in index
  }

  /** A node of the stack reaches every node above it. */
  ghost predicate Chain(g: Graph, stack: seq<string>) {
    forall i, j :: 0 <= i <= j < |stack| ==> Reach(g, stack[i], stack[j])
  }

  ghost predicate RootedAt(g: Graph, index: map<string, nat>, gray: set<string>, v: string, u: string)
  {
    u in gray && u in index && v in index && index[u] <= index[v] && Reach(g, v, u)
  }

  ghost predicate HasRoot(g: Graph, index: map<string, nat>, gray: set<string>, v: string) {
    exists u :: RootedAt(g, index, gray, v, u)
  }

  /** A node of the stack reaches an unfinished node no newer than itself. */
  ghost predicate Rooted(g: Graph, index: map<string, nat>, onStack: set<string>, gray: set<string>) {
    forall v {:trigger HasRoot(g, index, gray, v)} :: v in onStack ==> HasRoot(g, index, gray, v)
  }

  ghost predicate Inv(g: Graph, s: Search) {
    && Shape(s)
    && Popped(g, s.index, s.onStack, s.sccs)
    && Closed(g, s.index, s.gray)
    && Chain(g, s.stack)
    && Rooted(g, s.index, s.onStack, s.gray)
  }

  /** `t` continues `s`: what `s` had numbered, stacked, or popped is as it was. */
  ghost predicate Extends(s: Search, t: Search) {
    && (forall v :: v in s.index ==> v in t.index && t.index[v] == s.index[v])
    && (forall v :: v in s.low ==> v in t.low && t.low[v] == s.low[v])
    && s.stack <= t.stack
    && (forall v :: v in s.onStack ==> v in t.onStack)
    && (forall c :: c in s.sccs ==> c in t.sccs)
  }

  /** `low` of `node` is the number of a node of the stack that `node` reaches. */
  ghost predicate LowWitness(g: Graph, s: Search, node: string)
    requires Shape(s) && node in s.index
  {
    exists y :: y in s.onStack && s.index[y] == s.low[node] && Reach(g, node, y)
  }

  /** No edge from what `s1` stacked above `s0` leads lower on the stack than `low`
      says; of `node`'s own edges, those in `seen` have been looked at. */
  ghost predicate EdgesSeen(g: Graph, s0: Search, s1: Search, node: string, seen: set<string>)
    requires Shape(s0) && Shape(s1) && Extends(s0, s1) && node in s1.index
  {
    forall i, y | |s0.stack| <= i < |s1.stack| && y in s0.onStack && y in Succ(g, s1.stack[i])
                  && (s1.stack[i] != node || y in seen)
      :: s1.low[node] <= s1.index[y]
  }

  /** Between two of `node`'s edges: `s0` is the search as `node` was reached. */
  ghost predicate Visiting(g: Graph, s0: Search, s: Search, node: string, seen: set<string>) {
    && Inv(g, s0) && Inv(g, s)
    && node !in s0.index
    && Extends(s0, s)
    && s.gray == s0.gray + {node}
    && s0.stack + [node] <= s.stack
    && s.index[node] == |s0.index|
    && s.low[node] <= s.index[node]
    && (forall v :: v in seen ==> v in s.index)
    && LowWitness(g, s, node)
    && EdgesSeen(g, s0, s, node, seen)
  }

  /** What a call for `node` promises of the search `t` it leaves. */
  ghost predicate Visited(g: Graph, s: Search, t: Search, node: string) {
    && Inv(g, s) && Inv(g, t)
    && Extends(s, t)
    && t.gray == s.gray
    && node in t.index
    && t.index[node] == |s.index|
    && t.low[node] <= t.index[node]
    && (node !in t.onStack ==> t.stack == s.stack && t.low[node] == t.index[node])
    && (node in t.onStack ==> LowWitness(g, t, node) && t.low[node] < t.index[node])
    && EdgesSeen(g, s, t, node, Succ(g, node))
  }

  ghost predicate ReachedFromGray(g: Graph, s: Search, node: string) {
    forall u :: u in s.gray ==> Reach(g, u, node)
  }

  // ---- Numbering and stacking a node -------------------------------------

  function Pushed(s: Search, node: string): Search {
    Search(s.index[node := |s.index|], s.low[node := |s.index|],
           s.stack + [node], s.onStack + {node}, s.gray + {node}, s.sccs)
  }

  lemma StackReaches(g: Graph, s: Search, node: string, v: string)
    requires Inv(g, s) && ReachedFromGray(g, s, node) && v in s.onStack
    ensures Reach(g, v, node)
  {
    assert HasRoot(g, s.index, s.gray, v);
    var u :| RootedAt(g, s.index, s.gray, v, u);
    ReachTrans(g, v, u, node);
  }

  lemma PushNumbered(index: map<string, nat>, low: map<string, nat>, node: string)
    requires Numbered(index, low) && node !in index
    ensures Numbered(index[node := |index|], low[node := |index|])
  {
    var t := index[node := |index|];
    assert t.Keys == index.Keys + {node};
    assert |t| == |index| + 1;
  }

  lemma PushStacked(index: map<string, nat>, stack: seq<string>, onStack: set<string>, node: string)
    requires Stacked(index, stack, onStack) && node !in index
    requires forall v :: v in index ==> index[v] < |index|
    ensures Stacked(index[node := |index|], stack + [node], onStack + {node})
  {
    var t := stack + [node];
    forall v | v in onStack + {node}
      ensures v in t
    {
      if v == node {
        assert t[|stack|] == v;
      } else {
        assert v in stack;
      }
    }
  }

  lemma PushChain(g: Graph, s: Search, node: string)
    requires Inv(g, s) && ReachedFromGray(g, s, node)
    ensures Chain(g, s.stack + [node])
  {
    var stack := s.stack + [node];
    forall i, j | 0 <= i <= j < |stack|
      ensures Reach(g, stack[i], stack[j])
    {
      if i == |s.stack| {
        ReachSelf(g, node);
      } else if j == |s.stack| {
        StackReaches(g, s, node, s.stack[i]);
      }
    }
  }

  lemma PushRooted(g: Graph, index: map<string, nat>, onStack: set<string>, gray: set<string>, node: string)
    requires Rooted(g, index, onStack, gray) && node !in index
    ensures Rooted(g, index[node := |index|], onStack + {node}, gray + {node})
  {
    var t := index[node := |index|];
    forall v | v in onStack + {node}
      ensures HasRoot(g, t, gray + {node}, v)
    {
      if v == node {
        ReachSelf(g, node);
        assert RootedAt(g, t, gray + {node}, v, node);
      } else {
        assert HasRoot(g, index, gray, v);
        var u :| RootedAt(g, index, gray, v, u);
        assert RootedAt(g, t, gray + {node}, v, u);
      }
    }
  }

  lemma PushPopped(g: Graph, index: map<string, nat>, onStack: set<string>, sccs: set<set<string>>, node: string)
    requires Popped(g, index, onStack, sccs) && node !in index
    ensures Popped(g, index[node := |index|], onStack + {node}, sccs)
  {
  }

  lemma PushInv(g: Graph, s: Search, node: string)
    requires Inv(g, s) && node !in s.index && ReachedFromGray(g, s, node)
    ensures Inv(g, Pushed(s, node))
  {
    PushNumbered(s.index, s.low, node);
    PushStacked(s.index, s.stack, s.onStack, node);
    PushChain(g, s, node);
    PushRooted(g, s.index, s.onStack, s.gray, node);
    PushPopped(g, s.index, s.onStack, s.sccs, node);
  }

  lemma PushVisiting(g: Graph, s: Search, node: string)
    requires Inv(g, s) && node !in s.index && ReachedFromGray(g, s, node)
    ensures Visiting(g, s, Pushed(s, node), node, {})
  {
    PushInv(g, s, node);
    var t := Pushed(s, node);
    ReachSelf(g, node);
    assert node in t.onStack && t.index[node] == t.low[node];
  }

  // ---- Lowering a node past one of its edges -----------------------------

  function Lowered(s: Search, node: string, value: nat): Search
    requires node in s.low
  {
    s.(low := s.low[node := if value < s.low[node] then value else s.low[node]])
  }

  lemma LoweredInv(g: Graph, s: Search, node: string, value: nat)
    requires Inv(g, s) && node in s.low
    ensures Inv(g, Lowered(s, node, value))
  {
    assert Lowered(s, node, value).low.Keys == s.low.Keys;
  }

  /** The edge leads to a node that is on the stack. */
  lemma SeeStacked(g: Graph, s0: Search, s: Search, node: string, seen: set<string>, nxt: string)
    requires Visiting(g, s0, s, node, seen) && nxt in Succ(g, node) && nxt in s.onStack
    ensures Visiting(g, s0, Lowered(s, node, s.index[nxt]), node, seen + {nxt})
  {
    var t := Lowered(s, node, s.index[nxt]);
    LoweredInv(g, s, node, s.index[nxt]);
    ReachEdge(g, node, nxt);
    var y :| y in s.onStack && s.index[y] == s.low[node] && Reach(g, node, y);
    assert nxt in t.onStack && y in t.onStack;
    assert LowWitness(g, t, node);
    assert t.low[node] <= s.low[node] && t.low[node] <= s.index[nxt];
  }

  /** The edge leads into a component popped before. */
  lemma SeePopped(g: Graph, s0: Search, s: Search, node: string, seen: set<string>, nxt: string)
    requires Visiting(g, s0, s, node, seen) && nxt in s.index && nxt !in s.onStack
    ensures Visiting(g, s0, s, node, seen + {nxt})
  {
    assert nxt !in s0.onStack;
  }

  /** The edge led to a node not seen before, whose call has returned. */
  lemma SeeVisited(g: Graph, s0: Search, s: Search, t: Search, node: string, seen: set<string>, nxt: string)
    requires Visiting(g, s0, s, node, seen) && nxt in Succ(g, node) && nxt !in s.index
    requires Visited(g, s, t, nxt)
    ensures Visiting(g, s0, Lowered(t, node, t.low[nxt]), node, seen + {nxt})
  {
    var r := Lowered(t, node, t.low[nxt]);
    LoweredInv(g, t, node, t.low[nxt]);
    assert t.low[node] == s.low[node] && t.index[node] == s.index[node];
    assert Extends(s0, r);
    VisitedWitness(g, s0, s, t, node, seen, nxt);
    VisitedEdges(g, s0, s, t, node, seen, nxt);
  }

  lemma VisitedWitness(g: Graph, s0: Search, s: Search, t: Search, node: string, seen: set<string>, nxt: string)
    requires Visiting(g, s0, s, node, seen) && nxt in Succ(g, node) && nxt !in s.index
    requires Visited(g, s, t, nxt)
    requires Shape(Lowered(t, node, t.low[nxt]))
    ensures LowWitness(g, Lowered(t, node, t.low[nxt]), node)
  {
    var r := Lowered(t, node, t.low[nxt]);
    if r.low[node] == t.low[node] {
      var y :| y in s.onStack && s.index[y] == s.low[node] && Reach(g, node, y);
      assert y in r.onStack && r.index[y] == r.low[node];
    } else {
      assert t.low[nxt] < t.index[node] < t.index[nxt] by {
        assert s.index[node] < |s.index|;
      }
      var y :| y in t.onStack && t.index[y] == t.low[nxt] && Reach(g, nxt, y);
      ReachEdge(g, node, nxt);
      ReachTrans(g, node, nxt, y);
      assert y in r.onStack && r.index[y] == r.low[node];
    }
  }

  lemma VisitedEdges(g: Graph, s0: Search, s: Search, t: Search, node: string, seen: set<string>, nxt: string)
    requires Shape(s0) && Shape(s) && Shape(t) && Extends(s0, s) && Extends(s, t) && Extends(s0, t)
    requires node in s.index && nxt in t.index && nxt !in s.index
    requires EdgesSeen(g, s0, s, node, seen) && EdgesSeen(g, s, t, nxt, Succ(g, nxt))
    requires Shape(Lowered(t, node, t.low[nxt])) && Extends(s0, Lowered(t, node, t.low[nxt]))
    ensures EdgesSeen(g, s0, Lowered(t, node, t.low[nxt]), node, seen + {nxt})
  {
    var r := Lowered(t, node, t.low[nxt]);
    forall i, y | |s0.stack| <= i < |r.stack| && y in s0.onStack && y in Succ(g, r.stack[i])
      && (r.stack[i] != node || y in seen + {nxt})
      ensures r.low[node] <= r.index[y]
    {
      if i < |s.stack| {
        assert r.stack[i] == s.stack[i];
      } else {
        assert r.stack[i] == t.stack[i] && y in s.onStack;
      }
    }
  }

  // ---- Finishing a node ---------------------------------------------------

  function Finished(s: Search, node: string): Search {
    s.(gray := s.gray - {node})
  }

  /** The search once the component `node` roots is popped. */
  function WithPopped(s0: Search, s: Search, node: string, c: set<string>): Search {
    s.(gray := s.gray - {node}, stack := s0.stack, onStack := s.onStack - c, sccs := s.sccs + {c})
  }

  /** What `s` has stacked since `s0`. */
  ghost function Above(s0: Search, s: Search): set<string> {
    set i | |s0.stack| <= i < |s.stack| :: s.stack[i]
  }

  ghost predicate AllSeen(g: Graph, s0: Search, s: Search, node: string) {
    Visiting(g, s0, s, node, Succ(g, node))
  }

  lemma FinishRooted(g: Graph, s0: Search, s: Search, node: string, y: string)
    requires AllSeen(g, s0, s, node)
    requires y in s.onStack && s.index[y] < s.index[node] && Reach(g, node, y)
    ensures Rooted(g, s.index, s.onStack, s.gray - {node})
  {
    assert HasRoot(g, s.index, s.gray, y);
    var w :| RootedAt(g, s.index, s.gray, y, w);
    ReachTrans(g, node, y, w);
    forall v | v in s.onStack
      ensures HasRoot(g, s.index, s.gray - {node}, v)
    {
      assert HasRoot(g, s.index, s.gray, v);
      var u :| RootedAt(g, s.index, s.gray, v, u);
      if u == node {
        ReachTrans(g, v, node, w);
        assert RootedAt(g, s.index, s.gray - {node}, v, w);
      } else {
        assert RootedAt(g, s.index, s.gray - {node}, v, u);
      }
    }
  }

  /** `node` reaches lower on the stack, so it stays there. */
  lemma FinishStacked(g: Graph, s0: Search, s: Search, node: string)
    requires AllSeen(g, s0, s, node) && s.low[node] < s.index[node]
    ensures Visited(g, s0, Finished(s, node), node)
  {
    var t := Finished(s, node);
    var y :| y in s.onStack && s.index[y] == s.low[node] && Reach(g, node, y);
    FinishRooted(g, s0, s, node, y);
    assert s.stack[|s0.stack|] == node;
    assert t.gray == s0.gray;
    assert y in t.onStack && t.index[y] == t.low[node];
  }

  lemma AboveSplits(s0: Search, s: Search, node: string)
    requires Shape(s0) && Shape(s) && s0.stack + [node] <= s.stack
    requires forall v :: v in s0.onStack ==> v in s.onStack
    ensures s.onStack == s0.onStack + Above(s0, s)
    ensures node in Above(s0, s)
  {
    assert s.stack[|s0.stack|] == node;
    forall v | v in s.onStack
      ensures v in s0.onStack + Above(s0, s)
    {
      assert v in s.stack;
      var i :| 0 <= i < |s.stack| && s.stack[i] == v;
      if i < |s0.stack| {
        assert s0.stack[i] == v;
      }
    }
  }

  lemma AboveFacts(g: Graph, s0: Search, s: Search, node: string)
    requires AllSeen(g, s0, s, node)
    ensures s.onStack == s0.onStack + Above(s0, s) && s0.onStack !! Above(s0, s)
    ensures node in Above(s0, s)
    ensures forall v :: v in Above(s0, s) ==> s.index[v] >= s.index[node]
    ensures forall v :: v in s0.onStack ==> s.index[v] < s.index[node]
  {
    AboveSplits(s0, s, node);
    assert s.stack[|s0.stack|] == node;
  }

  lemma AboveClosed(g: Graph, s0: Search, s: Search, node: string, x: string, y: string)
    requires AllSeen(g, s0, s, node) && x in Above(s0, s) && y in Succ(g, x)
    ensures y in s.index
  {
    AboveFacts(g, s0, s, node);
    assert x == node || x !in s.gray;
  }

  /** When `low` says nothing lower is reached, a path leaving what is above `node`
      leaves it into a popped component. */
  lemma ExitsToPopped(g: Graph, s0: Search, s: Search, node: string, x: string, y: string)
    requires AllSeen(g, s0, s, node) && s.low[node] == s.index[node]
    requires x in Above(s0, s) && y in Succ(g, x) && y !in Above(s0, s)
    ensures y in s.index && y !in s.onStack
  {
    AboveFacts(g, s0, s, node);
    AboveClosed(g, s0, s, node, x, y);
  }

  /** Nothing popped can reach the stack from within the component of a stack node. */
  lemma PoppedApart(g: Graph, s: Search, y: string, u: string)
    requires Inv(g, s) && y in s.index && y !in s.onStack && u in s.onStack
    ensures !Reach(g, y, u) || !Reach(g, u, y)
  {
    assert InPopped(s.sccs, y);
    var c :| c in s.sccs && y in c;
    assert IsScc(g, c);
  }

  lemma LowerReachesUpper(g: Graph, s0: Search, s: Search, u: string, x: string)
    requires Chain(g, s.stack) && s0.stack <= s.stack
    requires u in s0.stack && x in Above(s0, s)
    ensures Reach(g, u, x)
  {
    var i :| 0 <= i < |s0.stack| && s0.stack[i] == u;
    var j :| |s0.stack| <= j < |s.stack| && s.stack[j] == x;
    assert Reach(g, s.stack[i], s.stack[j]);
  }

  /** No node above `node` reaches a node below it. */
  lemma AboveStaysAbove(g: Graph, s0: Search, s: Search, node: string, v: string, u: string)
    requires AllSeen(g, s0, s, node) && s.low[node] == s.index[node]
    requires v in Above(s0, s) && u in s0.onStack
    ensures !Reach(g, v, u)
  {
    if Reach(g, v, u) {
      AboveFacts(g, s0, s, node);
      var x, y := ReachExit(g, v, u, Above(s0, s));
      ExitsToPopped(g, s0, s, node, x, y);
      LowerReachesUpper(g, s0, s, u, x);
      ReachStep(g, u, x, y);
      PoppedApart(g, s, y, u);
    }
  }

  lemma AboveReachesRoot(g: Graph, s0: Search, s: Search, node: string, v: string)
    requires AllSeen(g, s0, s, node) && s.low[node] == s.index[node] && v in Above(s0, s)
    ensures Reach(g, v, node) && Reach(g, node, v)
  {
    var k :| |s0.stack| <= k < |s.stack| && s.stack[k] == v;
    assert Reach(g, s.stack[|s0.stack|], s.stack[k]);
    assert HasRoot(g, s.index, s.gray, v);
    var u :| RootedAt(g, s.index, s.gray, v, u);
    if u != node {
      assert u in s0.gray;
      AboveStaysAbove(g, s0, s, node, v, u);
    }
  }

  lemma AboveIsScc(g: Graph, s0: Search, s: Search, node: string)
    requires AllSeen(g, s0, s, node) && s.low[node] == s.index[node]
    ensures IsScc(g, Above(s0, s))
  {
    var c := Above(s0, s);
    AboveFacts(g, s0, s, node);
    forall a, b | a in c && b in c
      ensures Reach(g, a, b)
    {
      AboveReachesRoot(g, s0, s, node, a);
      AboveReachesRoot(g, s0, s, node, b);
      ReachTrans(g, a, node, b);
    }
    forall a, z | a in c && Reach(g, a, z) && Reach(g, z, a)
      ensures z in c
    {
      if z !in c {
        var x, y := ReachExit(g, a, z, c);
        ExitsToPopped(g, s0, s, node, x, y);
        ReachTrans(g, y, z, a);
        ReachStep(g, a, x, y);
        PoppedApart(g, s, y, a);
      }
    }
  }

  lemma PopStacked(g: Graph, s0: Search, s: Search, node: string)
    requires AllSeen(g, s0, s, node)
    ensures s.onStack - Above(s0, s) == s0.onStack
    ensures Stacked(s.index, s0.stack, s0.onStack)
    ensures Rooted(g, s.index, s0.onStack, s0.gray)
  {
    AboveFacts(g, s0, s, node);
    forall v | v in s0.onStack
      ensures HasRoot(g, s.index, s0.gray, v)
    {
      assert HasRoot(g, s0.index, s0.gray, v);
      var u :| RootedAt(g, s0.index, s0.gray, v, u);
      assert RootedAt(g, s.index, s0.gray, v, u);
    }
  }

  lemma PopPopped(g: Graph, index: map<string, nat>, onStack: set<string>, sccs: set<set<string>>, c: set<string>)
    requires Popped(g, index, onStack, sccs) && IsScc(g, c)
    requires forall v :: v in onStack ==> v in index
    requires c <= onStack
    ensures Popped(g, index, onStack - c, sccs + {c})
  {
    forall v | v in index && v !in onStack - c
      ensures InPopped(sccs + {c}, v)
    {
      if v !in c {
        assert InPopped(sccs, v);
      } else {
        assert c in sccs + {c};
      }
    }
  }

  /** `node` roots a component: what is above it on the stack is popped. */
  lemma FinishPopped(g: Graph, s0: Search, s: Search, node: string)
    requires AllSeen(g, s0, s, node) && s.low[node] == s.index[node]
    ensures Visited(g, s0, WithPopped(s0, s, node, Above(s0, s)), node)
    ensures IsScc(g, Above(s0, s))
  {
    AboveFacts(g, s0, s, node);
    AboveIsScc(g, s0, s, node);
    PopStacked(g, s0, s, node);
    PopPopped(g, s.index, s.onStack, s.sccs, Above(s0, s));
    assert s.gray - {node} == s0.gray;
    FinishClosed(g, s0, s, node);
  }

  lemma FinishClosed(g: Graph, s0: Search, s: Search, node: string)
    requires AllSeen(g, s0, s, node)
    ensures Closed(g, s.index, s.gray - {node})
  {
  }

  // ---- The whole search ---------------------------------------------------

  /** With no call running, every numbered node is in a popped component. */
  lemma NothingStacked(g: Graph, s: Search)
    requires Inv(g, s) && s.gray == {}
    ensures s.stack == [] && s.onStack == {}
  {
    assert |s.stack| > 0 ==> s.stack[0] in s.onStack;
    forall v
      ensures v !in s.onStack
    {
      assert v in s.onStack ==> HasRoot(g, s.index, s.gray, v);
    }
  }

  /** A component of two nodes or more has an edge out of each of its nodes. */
  lemma SccHasEdges(g: Graph, c: set<string>, a: string)
    requires IsScc(g, c) && a in c && |c| > 1
    ensures a in g
  {
    assert c != {a};
    var b :| b in c && b != a;
    assert Reach(g, a, b);
  }

  /** Once every node with an edge is numbered, the popped components of two nodes or
      more are all there are. */
  lemma AllComponentsFound(g: Graph, s: Search)
    requires Inv(g, s) && s.gray == {} && g.Keys <= s.index.Keys
    ensures forall c :: c in s.sccs && |c| > 1 <==> IsScc(g, c) && |c| > 1
  {
    NothingStacked(g, s);
    forall c | IsScc(g, c) && |c| > 1
      ensures c in s.sccs
    {
      var a :| a in c;
      SccHasEdges(g, c, a);
      assert InPopped(s.sccs, a);
      var d :| d in s.sccs && a in d;
      assert IsScc(g, d);
      SccsDisjoint(g, c, d, a);
    }
  }
}
