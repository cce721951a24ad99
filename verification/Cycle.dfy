/**
 The search for dependency cycles between packages of one layer, with the variables
 `architecture.cycle` keeps across its calls. It visits a node's successors in sorted order;
 here the order is left open, so what is proved holds for that order and any other.
 */
module Cycle {
  import opened Reachability
  import opened CycleInvariant

  /** What a search reports so far: the popped components of two nodes or more, each
      once, and nothing else. */
  ghost predicate Reported(components: seq<set<string>>, sccs: set<set<string>>) {
    && (forall c :: c in sccs && |c| > 1 ==> c in components)
    && (forall i :: 0 <= i < |components| ==> components[i] in sccs && |components[i]| > 1)
    && (forall i, j :: 0 <= i < j < |components| ==> components[i] != components[j])
  }

  lemma ReportedMore(components: seq<set<string>>, sccs: set<set<string>>, c: set<string>)
    requires Reported(components, sccs) && c !in sccs
    ensures Reported(if |c| > 1 then components + [c] else components, sccs + {c})
  {
    if |c| > 1 {
      var all := components + [c];
      assert all[|components|] == c;
      forall d | d in sccs && |d| > 1
        ensures d in all
      {
        assert d in components;
      }
    }
  }

  class CycleSearch {
    const graph: Graph
    var index: map<string, nat>
    var low: map<string, nat>
    var stack: seq<string>
    var onStack: set<string>
    var components: seq<set<string>>
    ghost var gray: set<string>
    ghost var sccs: set<set<string>>

    ghost function Snapshot(): Search
      reads this
    {
      Search(index, low, stack, onStack, gray, sccs)
    }

    /** The report matches what was popped, and only the graph's nodes are numbered. */
    ghost predicate Fits()
      reads this
    {
      Reported(components, sccs) && index.Keys <= Nodes(graph)
    }

    ghost predicate Valid()
      reads this
    {
      Inv(graph, Snapshot()) && Fits()
    }

    constructor (graph: Graph)
      ensures this.graph == graph && Valid() && gray == {} && index == map[]
    {
      this.graph := graph;
      index, low, stack, onStack, components := map[], map[], [], {}, [];
      gray, sccs := {}, {};
    }

    method Connect(node: string)
      requires Valid() && node in Nodes(graph) && node !in index
      requires ReachedFromGray(graph, Snapshot(), node)
      modifies this
      ensures Valid() && Visited(graph, old(Snapshot()), Snapshot(), node)
      decreases Nodes(graph) - index.Keys, 1
    {
      hide Visiting, Inv;
      ghost var s0 := Snapshot();
      Push(node);
      FollowEdges(s0, node);
      VisitingShape(graph, s0, Snapshot(), node, Succ(graph, node));
      if low[node] == index[node] {
        PopComponent(s0, node);
      } else {
        FinishStacked(graph, s0, Snapshot(), node);
        gray := gray - {node};
      }
    }

    /** Numbers `node` and stacks it. */
    method Push(node: string)
      requires Valid() && node in Nodes(graph) && node !in index
      requires ReachedFromGray(graph, Snapshot(), node)
      modifies this
      ensures Fits() && Visiting(graph, old(Snapshot()), Snapshot(), node, {})
      ensures index == old(index)[node := |old(index)|]
    {
      PushVisiting(graph, Snapshot(), node);
      index, low := index[node := |index|], low[node := |index|];
      stack := stack + [node];
      onStack := onStack + {node};
      gray := gray + {node};
    }

    /** Looks at every edge of `node`. */
    method FollowEdges(ghost s0: Search, node: string)
      requires Fits() && Visiting(graph, s0, Snapshot(), node, {})
      modifies this
      ensures Fits() && Visiting(graph, s0, Snapshot(), node, Succ(graph, node))
      decreases Nodes(graph) - index.Keys, 3
    {
      hide *;
      var todo := Succ(graph, node);
      ghost var seen: set<string> := {};
      while todo != {}
        invariant seen + todo == Succ(graph, node)
        invariant Fits() && Visiting(graph, s0, Snapshot(), node, seen)
        invariant old(index.Keys) <= index.Keys
        decreases todo
      {
        var nxt :| nxt in todo;
        FollowEdge(s0, node, seen, nxt);
        todo := todo - {nxt};
        seen := seen + {nxt};
      }
      assert seen == Succ(graph, node);
    }

    /** Looks at the edge from `node` to `nxt`, calling on `nxt` if it is new. */
    method FollowEdge(ghost s0: Search, node: string, ghost seen: set<string>, nxt: string)
      requires Fits() && Visiting(graph, s0, Snapshot(), node, seen) && nxt in Succ(graph, node)
      modifies this
      ensures Fits() && Visiting(graph, s0, Snapshot(), node, seen + {nxt})
      ensures old(index.Keys) <= index.Keys
      decreases Nodes(graph) - index.Keys, 2
    {
      hide Visiting, Visited, Inv;
      ghost var s := Snapshot();
      VisitingShape(graph, s0, s, node, seen);
      if nxt !in index {
        VisitingReaches(graph, s0, s, node, seen, nxt);
        SuccIsNode(graph, node, nxt);
        Connect(nxt);
        VisitedShape(graph, s, Snapshot(), nxt);
        SeeVisited(graph, s0, s, Snapshot(), node, seen, nxt);
        low := low[node := if low[nxt] < low[node] then low[nxt] else low[node]];
      } else if nxt in onStack {
        SeeStacked(graph, s0, s, node, seen, nxt);
        low := low[node := if index[nxt] < low[node] then index[nxt] else low[node]];
      } else {
        SeePopped(graph, s0, s, node, seen, nxt);
      }
    }

    /** Pops the component `node` roots, and reports it unless it is `node` alone. */
    method PopComponent(ghost s0: Search, node: string)
      requires Fits() && AllSeen(graph, s0, Snapshot(), node) && low[node] == index[node]
      modifies this
      ensures Fits() && Visited(graph, s0, Snapshot(), node)
    {
      hide Visiting, Visited, Inv, IsScc;
      ghost var s := Snapshot();
      PopFacts(graph, s0, s, node);
      var component := PopThrough(node, |s0.stack|);
      ReportedMore(components, sccs, component);
      if |component| > 1 {
        components := components + [component];
      }
      gray, sccs := gray - {node}, sccs + {component};
      assert Snapshot() == WithPopped(s0, s, node, Above(s0, s));
    }

    /** Pops the stack down to and including `node`, which stands at `k`. */
    method PopThrough(node: string, ghost k: nat) returns (component: set<string>)
      requires k < |stack| && stack[k] == node
      requires forall i :: k < i < |stack| ==> stack[i] != node
      modifies this`stack, this`onStack
      ensures stack == old(stack)[..k]
      ensures component == set i | k <= i < |old(stack)| :: old(stack)[i]
      ensures onStack == old(onStack) - component
    {
      component := {};
      var popping := true;
      while popping
        invariant k <= |stack| <= |old(stack)| && stack == old(stack)[..|stack|]
        invariant popping <==> |stack| > k
        invariant component == set i | |stack| <= i < |old(stack)| :: old(stack)[i]
        invariant onStack == old(onStack) - component
        decreases |stack|
      {
        var member := stack[|stack| - 1];
        stack := stack[..|stack| - 1];
        onStack := onStack - {member};
        component := component + {member};
        popping := member != node;
      }
    }

    /** Searches from every node that has an edge. */
    method Run()
      requires Valid() && gray == {} && index == map[]
      modifies this
      ensures forall c :: c in components <==> IsScc(graph, c) && |c| > 1
      ensures forall i, j :: 0 <= i < j < |components| ==> components[i] !! components[j]
    {
      var todo := graph.Keys;
      while todo != {}
        invariant Valid() && gray == {}
        invariant graph.Keys <= todo + index.Keys
      {
        var node :| node in todo;
        if node !in index {
          Connect(node);
        }
        todo := todo - {node};
      }
      AllComponentsFound(graph, Snapshot());
      forall i, j | 0 <= i < j < |components|
        ensures components[i] !! components[j]
      {
        if v :| v in components[i] && v in components[j] {
          SccsDisjoint(graph, components[i], components[j], v);
        }
      }
    }
  }

  lemma SuccIsNode(g: Graph, v: string, w: string)
    requires w in Succ(g, v)
    ensures w in Nodes(g)
  {
  }

  lemma VisitingShape(g: Graph, s0: Search, s: Search, node: string, seen: set<string>)
    requires Visiting(g, s0, s, node, seen)
    ensures Inv(g, s) && node in s.index && s.low.Keys == s.index.Keys
    ensures s.low[node] <= s.index[node]
    ensures forall v :: v in s.onStack ==> v in s.index
  {
  }

  lemma VisitedShape(g: Graph, s: Search, t: Search, nxt: string)
    requires Visited(g, s, t, nxt)
    ensures Inv(g, t) && s.index.Keys <= t.index.Keys && nxt in t.index && t.low.Keys == t.index.Keys
  {
  }

  /** Every unfinished node reaches the next one the search goes to. */
  lemma VisitingReaches(g: Graph, s0: Search, s: Search, node: string, seen: set<string>, nxt: string)
    requires Visiting(g, s0, s, node, seen) && nxt in Succ(g, node)
    ensures ReachedFromGray(g, s, nxt)
  {
    assert s.stack[|s0.stack|] == node;
    forall u | u in s.gray
      ensures Reach(g, u, nxt)
    {
      if u != node {
        assert u in s0.stack;
        var i :| 0 <= i < |s0.stack| && s0.stack[i] == u;
        assert Reach(g, s.stack[i], s.stack[|s0.stack|]);
      } else {
        ReachSelf(g, node);
      }
      ReachStep(g, u, node, nxt);
    }
  }

  /** What popping through `node` takes: a component not popped before. */
  lemma PopFacts(g: Graph, s0: Search, s: Search, node: string)
    requires AllSeen(g, s0, s, node) && s.low[node] == s.index[node]
    ensures |s0.stack| < |s.stack| && s.stack[|s0.stack|] == node
    ensures s.stack[..|s0.stack|] == s0.stack
    ensures forall i :: |s0.stack| < i < |s.stack| ==> s.stack[i] != node
    ensures Above(s0, s) !in s.sccs
    ensures Visited(g, s0, WithPopped(s0, s, node, Above(s0, s)), node)
  {
    AboveFacts(g, s0, s, node);
    assert s.stack[|s0.stack|] == node;
    FinishPopped(g, s0, s, node);
  }
}
