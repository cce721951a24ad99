/**
 What the architecture's rules report of a classified tree, and what a tree they
 report nothing of is then known to be.
 */
module ArchitectureRules {
  import opened Options
  import opened Reachability
  import opened Architecture
  import opened Cycle

  datatype Package = Package(layer: string, scope: set<string>, own: set<string>)

  /** A classified tree. */
  datatype Model = Model(rules: Rules, packages: map<string, Package>, edges: set<Edge>)

  /** Every edge joins two packages, and no package depends on itself. */
  ghost predicate Formed(m: Model) {
    forall e :: e in m.edges ==> e.source in m.packages && e.target in m.packages && e.source != e.target
  }

  // ---- Findings ------------------------------------------------------------

  function Unclassified(m: Model): set<string> {
    set n | n in m.packages && m.packages[n].layer == ""
  }

  /** The rank of a layer; a layer listed twice has its last rank. */
  function Rank(layers: seq<string>, l: string): (r: Option<nat>)
    ensures r.Some? ==> r.value < |layers| && layers[r.value] == l
    ensures r.None? <==> l !in layers
  {
    if layers == [] then None
    else if layers[|layers| - 1] == l then Some(|layers| - 1)
    else Rank(layers[..|layers| - 1], l)
  }

  /** The layer's place in the table; of two, the last. */
  predicate PlacedAt(layers: seq<string>, l: string, i: nat) {
    i < |layers| && layers[i] == l && forall k :: i < k < |layers| ==> layers[k] != l
  }

  lemma {:induction false} RankIsPlace(layers: seq<string>, l: string, i: nat)
    ensures Rank(layers, l) == Some(i) <==> PlacedAt(layers, l, i)
  {
    if layers != [] && layers[|layers| - 1] != l {
      RankIsPlace(layers[..|layers| - 1], l, i);
    }
  }

  /** The edge leads from one layer to one placed after it. */
  ghost predicate Upward(m: Model, e: Edge)
    requires Formed(m) && e in m.edges
  {
    var s, t := m.packages[e.source].layer, m.packages[e.target].layer;
    s != "" && t != ""
    && exists i: nat, j: nat :: PlacedAt(m.rules.layers, s, i) && PlacedAt(m.rules.layers, t, j) && i < j
  }

  lemma UpwardLeadsUp(m: Model, e: Edge)
    requires Formed(m) && e in m.edges
    ensures Upward(m, e) <==> BothLayered(m, e) && LeadsUp(m, e)
  {
    var s, t := m.packages[e.source].layer, m.packages[e.target].layer;
    forall i: nat
      ensures Rank(m.rules.layers, s) == Some(i) <==> PlacedAt(m.rules.layers, s, i)
      ensures Rank(m.rules.layers, t) == Some(i) <==> PlacedAt(m.rules.layers, t, i)
    {
      RankIsPlace(m.rules.layers, s, i);
      RankIsPlace(m.rules.layers, t, i);
    }
  }

  /** The edge joins two packages with layers, one of which the table does not have. */
  ghost predicate Unlisted(m: Model, e: Edge)
    requires Formed(m) && e in m.edges
  {
    var s, t := m.packages[e.source].layer, m.packages[e.target].layer;
    s != "" && t != "" && (s !in m.rules.layers || t !in m.rules.layers)
  }

  predicate BothLayered(m: Model, e: Edge)
    requires Formed(m) && e in m.edges
  {
    m.packages[e.source].layer != "" && m.packages[e.target].layer != ""
  }

  /** The edges that lead up; none when a layer they join is not in the table, whose
      lookup then fails. */
  method LayerFindings(m: Model) returns (findings: Option<set<Edge>>)
    requires Formed(m)
    ensures findings.None? <==> exists e :: e in m.edges && Unlisted(m, e)
    ensures findings.Some? ==> forall e :: e in findings.value <==> e in m.edges && Upward(m, e)
  {
    forall e | e in m.edges
      ensures Upward(m, e) <==> BothLayered(m, e) && LeadsUp(m, e)
    {
      UpwardLeadsUp(m, e);
    }
    hide Upward;
    var found: set<Edge> := {};
    var todo := m.edges;
    while todo != {}
      invariant todo <= m.edges
      invariant forall e :: e in m.edges - todo ==> BothLayered(m, e) ==> Ranked(m, e)
      invariant forall e :: e in found <==> e in m.edges - todo && BothLayered(m, e) && LeadsUp(m, e)
    {
      var e :| e in todo;
      var s, t := m.packages[e.source].layer, m.packages[e.target].layer;
      if s != "" && t != "" {
        var target := Rank(m.rules.layers, t);
        if target.None? {
          return None;
        }
        var source := Rank(m.rules.layers, s);
        if source.None? {
          return None;
        }
        if target.value > source.value {
          found := found + {e};
        }
      }
      todo := todo - {e};
    }
    return Some(found);
  }

  predicate Ranked(m: Model, e: Edge)
    requires Formed(m) && e in m.edges
  {
    m.packages[e.source].layer in m.rules.layers && m.packages[e.target].layer in m.rules.layers
  }

  predicate LeadsUp(m: Model, e: Edge)
    requires Formed(m) && e in m.edges
  {
    var s, t := Rank(m.rules.layers, m.packages[e.source].layer), Rank(m.rules.layers, m.packages[e.target].layer);
    s.Some? && t.Some? && t.value > s.value
  }

  /** What the target of an edge knows outside the scope of its source. */
  function OutsideScope(m: Model, e: Edge): (missing: set<string>)
    requires Formed(m) && e in m.edges
    ensures forall x :: x in missing <==>
      && m.packages[e.source].layer != "" && m.packages[e.target].layer != ""
      && x in m.packages[e.target].own && x !in m.packages[e.source].scope
  {
    if BothLayered(m, e) then m.packages[e.target].own - m.packages[e.source].scope else {}
  }

  /** The edges of one layer: the graph searched for cycles. */
  function SameLayer(m: Model): Graph
    requires Formed(m)
  {
    Targets(SameLayerEdges(m))
  }

  function SameLayerEdges(m: Model): set<Edge>
    requires Formed(m)
  {
    set e | e in m.edges && m.packages[e.source].layer != ""
            && m.packages[e.source].layer == m.packages[e.target].layer
  }

  lemma SameLayerIs(m: Model, s: string, t: string)
    requires Formed(m)
    ensures t in Succ(SameLayer(m), s) <==>
      Edge(s, t) in m.edges && m.packages[s].layer != "" && m.packages[s].layer == m.packages[t].layer
  {
    TargetsAreEdges(SameLayerEdges(m), s, t);
  }

  lemma {:induction false} PathInLayer(m: Model, p: seq<string>, a: string, b: string)
    requires Formed(m) && IsPath(SameLayer(m), p, a, b) && p != []
    ensures a in m.packages && b in m.packages && m.packages[a].layer == m.packages[b].layer != ""
  {
    SameLayerIs(m, a, p[0]);
    if |p| > 1 {
      PathInLayer(m, p[1..], p[0], b);
    }
  }

  /** The packages all have the layer. */
  ghost predicate InLayer(m: Model, c: set<string>, l: string) {
    forall n :: n in c ==> n in m.packages && m.packages[n].layer == l
  }

  lemma ReachInLayer(m: Model, a: string, b: string)
    requires Formed(m) && Reach(SameLayer(m), a, b) && a != b
    ensures a in m.packages && b in m.packages && m.packages[a].layer == m.packages[b].layer != ""
  {
    var p :| IsPath(SameLayer(m), p, a, b);
    PathInLayer(m, p, a, b);
  }

  lemma ComponentInLayer(m: Model, c: set<string>)
    requires Formed(m) && IsScc(SameLayer(m), c) && |c| > 1
    ensures exists l :: l != "" && InLayer(m, c, l)
  {
    var a :| a in c;
    assert |c - {a}| > 0;
    var b :| b in c - {a};
    hide Formed, SameLayer, Reach;
    forall n | n in c
      ensures n in m.packages && a in m.packages && m.packages[n].layer == m.packages[a].layer != ""
    {
      ReachInLayer(m, a, if n == a then b else n);
    }
    assert InLayer(m, c, m.packages[a].layer);
  }

  /** The components of two or more of the same-layer graph, each of one layer. */
  method CycleFindings(m: Model) returns (components: seq<set<string>>)
    requires Formed(m)
    ensures forall c :: c in components <==> IsScc(SameLayer(m), c) && |c| > 1
    ensures forall i, j :: 0 <= i < j < |components| ==> components[i] !! components[j]
    ensures forall c :: c in components ==> exists l :: l != "" && InLayer(m, c, l)
  {
    var search := new CycleSearch(SameLayer(m));
    search.Run();
    components := search.components;
    forall c | c in components
      ensures exists l :: l != "" && InLayer(m, c, l)
    {
      ComponentInLayer(m, c);
    }
  }

  // ---- A clean tree has a topological order --------------------------------

  /** The layer rule ran and reported nothing. */
  ghost predicate LayerClean(m: Model)
    requires Formed(m)
  {
    forall e :: e in m.edges && BothLayered(m, e) ==> Ranked(m, e) && !LeadsUp(m, e)
  }

  ghost predicate CycleClean(m: Model)
    requires Formed(m)
  {
    forall c :: IsScc(SameLayer(m), c) ==> |c| <= 1
  }

  /** No node reaches itself through another. */
  ghost predicate Acyclic(g: Graph) {
    forall v, w :: w in Succ(g, v) ==> !Reach(g, w, v)
  }

  /** `order` lists `nodes` once each, every target before its sources. */
  ghost predicate Ordered(g: Graph, nodes: set<string>, order: seq<string>) {
    && (forall v :: v in nodes <==> v in order)
    && (forall i, j :: 0 <= i < j < |order| ==> order[i] != order[j])
    && (forall i, j :: 0 <= i <= j < |order| ==> order[j] !in Succ(g, order[i]))
  }

  /** Two distinct nodes that reach each other lie in a component of two or more. */
  lemma MutualMeansComponent(g: Graph, a: string, b: string)
    requires a != b && Reach(g, a, b) && Reach(g, b, a)
    ensures exists c :: IsScc(g, c) && |c| > 1
  {
    MutualNodes(g, a);
    var c := set z | z in Nodes(g) + {a} && Reach(g, a, z) && Reach(g, z, a);
    ReachSelf(g, a);
    forall x, y | x in c && y in c
      ensures Reach(g, x, y)
    {
      ReachTrans(g, x, a, y);
    }
    forall x, z | x in c && Reach(g, x, z) && Reach(g, z, x)
      ensures z in c
    {
      ReachTrans(g, a, x, z);
      ReachTrans(g, z, x, a);
    }
    assert {a, b} <= c;
    assert |c| > 1 by {
      assert |c - {a}| == |c| - 1 && b in c - {a};
    }
  }

  lemma {:induction false} PathInNodes(g: Graph, p: seq<string>, a: string, z: string)
    requires IsPath(g, p, a, z)
    ensures z == a || z in Nodes(g)
  {
    if p != [] {
      PathInNodes(g, p[1..], p[0], z);
    }
  }

  lemma MutualNodes(g: Graph, a: string)
    ensures forall z | Reach(g, a, z) :: z in Nodes(g) + {a}
  {
    forall z | Reach(g, a, z)
      ensures z in Nodes(g) + {a}
    {
      var p :| IsPath(g, p, a, z);
      PathInNodes(g, p, a, z);
    }
  }

  /** Along clean edges the rank never rises; where it stays, the layer is the same. */
  lemma {:induction false} RankFalls(m: Model, p: seq<string>, a: string, b: string)
    requires Formed(m) && Unclassified(m) == {} && LayerClean(m)
    requires IsPath(Targets(m.edges), p, a, b) && a in m.packages && m.packages[a].layer in m.rules.layers
    ensures b in m.packages && m.packages[b].layer in m.rules.layers
    ensures Rank(m.rules.layers, m.packages[b].layer).value <= Rank(m.rules.layers, m.packages[a].layer).value
    ensures Rank(m.rules.layers, m.packages[b].layer) == Rank(m.rules.layers, m.packages[a].layer)
            ==> IsPath(SameLayer(m), p, a, b)
  {
    if p != [] {
      TargetsAreEdges(m.edges, a, p[0]);
      var e := Edge(a, p[0]);
      assert BothLayered(m, e) by {
        assert a !in Unclassified(m) && p[0] !in Unclassified(m);
      }
      RankFalls(m, p[1..], p[0], b);
      if Rank(m.rules.layers, m.packages[b].layer) == Rank(m.rules.layers, m.packages[a].layer) {
        TargetsAreEdges(SameLayerEdges(m), a, p[0]);
      }
    }
  }

  lemma CleanIsAcyclic(m: Model)
    requires Formed(m) && Unclassified(m) == {} && LayerClean(m) && CycleClean(m)
    ensures Acyclic(Targets(m.edges))
  {
    var g := Targets(m.edges);
    forall v, w | w in Succ(g, v) && Reach(g, w, v)
      ensures false
    {
      TargetsAreEdges(m.edges, v, w);
      assert v !in Unclassified(m) && w !in Unclassified(m);
      assert BothLayered(m, Edge(v, w));
      var p :| IsPath(g, p, w, v);
      assert IsPath(g, [w], v, w);
      RankFalls(m, [w], v, w);
      RankFalls(m, p, w, v);
      assert Reach(SameLayer(m), v, w) && Reach(SameLayer(m), w, v);
      MutualMeansComponent(SameLayer(m), v, w);
    }
  }

  /** What `v` reaches among `nodes`. */
  ghost function ReachedIn(g: Graph, nodes: set<string>, v: string): set<string> {
    set x | x in nodes && Reach(g, v, x)
  }

  /** Following edges inside a set of nodes of an acyclic graph ends. */
  lemma {:induction false} SinkFrom(g: Graph, nodes: set<string>, v: string) returns (sink: string)
    requires Acyclic(g) && v in nodes
    ensures sink in nodes && Succ(g, sink) !! nodes
    decreases |ReachedIn(g, nodes, v)|
  {
    if w :| w in Succ(g, v) && w in nodes {
      ReachSelf(g, v);
      forall x | x in ReachedIn(g, nodes, w)
        ensures x in ReachedIn(g, nodes, v)
      {
        ReachEdge(g, v, w);
        ReachTrans(g, v, w, x);
      }
      assert v in ReachedIn(g, nodes, v) && v !in ReachedIn(g, nodes, w);
      SubsetSmaller(ReachedIn(g, nodes, w), ReachedIn(g, nodes, v), v);
      sink := SinkFrom(g, nodes, w);
    } else {
      sink := v;
    }
  }

  lemma SubsetSmaller(a: set<string>, b: set<string>, v: string)
    requires a <= b && v in b && v !in a
    ensures |a| < |b|
  {
    assert a <= b - {v};
    SubsetNoLarger(a, b - {v});
  }

  lemma {:induction false} SubsetNoLarger(a: set<string>, b: set<string>)
    requires a <= b
    ensures |a| <= |b|
  {
    if a != {} {
      var v :| v in a;
      SubsetNoLarger(a - {v}, b - {v});
    }
  }

  lemma {:induction false} AcyclicOrders(g: Graph, nodes: set<string>) returns (order: seq<string>)
    requires Acyclic(g)
    ensures Ordered(g, nodes, order)
  {
    if v :| v in nodes {
      var sink := SinkFrom(g, nodes, v);
      var rest := AcyclicOrders(g, nodes - {sink});
      order := [sink] + rest;
      assert forall x :: x in order <==> x == sink || x in rest;
      forall i, j | 0 <= i <= j < |order|
        ensures order[j] !in Succ(g, order[i])
      {
        if i == 0 {
          assert order[j] in nodes;
        }
      }
    } else {
      order := [];
    }
  }

  /** With every package classified and neither an upward edge nor a cycle inside a
      layer reported, all the packages together have a topological order. */
  lemma CleanTreeIsOrdered(m: Model)
    requires Formed(m) && Unclassified(m) == {} && LayerClean(m) && CycleClean(m)
    ensures exists order :: Ordered(Targets(m.edges), m.packages.Keys, order)
  {
    CleanIsAcyclic(m);
    var order := AcyclicOrders(Targets(m.edges), m.packages.Keys);
  }

  /** The edges a tree is built with join its own packages, none to itself. */
  lemma BuiltIsFormed(sources: seq<Source>, standard: set<string>, m: Model)
    requires m.edges == BuildEdges(sources, standard) && m.packages.Keys == Names(sources)
    ensures Formed(m)
  {
    EdgesJoinDistinctProjects(sources, standard);
  }

  /** Runs the three rules; a tree of which they report nothing has a topological order. */
  method OrderRules(m: Model) returns (unclassified: set<string>, upward: Option<set<Edge>>, cycles: seq<set<string>>)
    requires Formed(m)
    ensures forall n :: n in unclassified <==> n in m.packages && m.packages[n].layer == ""
    ensures upward == Some({}) <==> LayerClean(m)
    ensures cycles == [] <==> CycleClean(m)
    ensures unclassified == {} && upward == Some({}) && cycles == [] ==>
      exists order :: Ordered(Targets(m.edges), m.packages.Keys, order)
  {
    unclassified := Unclassified(m);
    upward := LayerFindings(m);
    cycles := CycleFindings(m);
    NoUpwardIsClean(m, upward);
    NoCycleIsClean(m, cycles);
    if unclassified == {} && upward == Some({}) && cycles == [] {
      CleanTreeIsOrdered(m);
    }
  }

  lemma NoUpwardIsClean(m: Model, findings: Option<set<Edge>>)
    requires Formed(m)
    requires findings.None? <==> exists e :: e in m.edges && Unlisted(m, e)
    requires findings.Some? ==> forall e :: e in findings.value <==> e in m.edges && Upward(m, e)
    ensures findings == Some({}) <==> LayerClean(m)
  {
    forall e | e in m.edges
      ensures Upward(m, e) <==> BothLayered(m, e) && LeadsUp(m, e)
    {
      UpwardLeadsUp(m, e);
    }
    hide Upward, LeadsUp;
    if LayerClean(m) && findings.Some? {
      assert findings.value == {};
    }
  }

  lemma NoCycleIsClean(m: Model, components: seq<set<string>>)
    requires Formed(m) && forall c :: c in components <==> IsScc(SameLayer(m), c) && |c| > 1
    ensures components == [] <==> CycleClean(m)
  {
    if components != [] {
      assert components[0] in components;
    }
  }

  // ---- Scope -----------------------------------------------------------------

  /** The packages are as classification leaves them. */
  ghost predicate Classified(m: Model, base: map<string, set<string>>) {
    && Formed(m)
    && base.Keys == m.packages.Keys
    && forall n :: n in m.packages ==>
      && m.packages[n].own <= base[n]
      && (m.packages[n].layer != COMPOSITION ==> base[n] == m.packages[n].own)
      && m.packages[n].scope == Known(ChainsOf(m), base, Shared(m.rules), n)
  }

  ghost function ChainsOf(m: Model): Graph {
    Chains(Targets(m.edges), set n | n in m.packages && m.packages[n].layer == COMPOSITION)
  }

  /** The tree a classified set of projects makes. */
  ghost function ModelOf(rules: Rules, projects: Projects, edges: set<Edge>): Model
    reads projects.Values
  {
    Model(rules, map n | n in projects :: Package(projects[n].layer, projects[n].scope, projects[n].ownScope), edges)
  }

  /** What `Classify` ensures is what the scope results below ask for. */
  lemma ClassifyGivesClassified(rules: Rules, projects: Projects, edges: set<Edge>)
    requires Read(rules, projects) && Scopes(projects) == AllKnown(rules, projects, edges)
    requires forall e :: e in edges ==> e.source in projects && e.target in projects && e.source != e.target
    ensures Classified(ModelOf(rules, projects, edges), Bases(rules, projects))
  {
    var m := ModelOf(rules, projects, edges);
    assert (set n | n in m.packages && m.packages[n].layer == COMPOSITION) == Compositions(rules, projects);
    forall n | n in projects
      ensures m.packages[n].scope == Known(ChainsOf(m), Bases(rules, projects), Shared(rules), n)
    {
      assert Scopes(projects)[n] == projects[n].scope;
    }
  }

  /** A package that is no composition keeps the scope it was given. */
  lemma PlainScopeIsOwn(m: Model, base: map<string, set<string>>, n: string)
    requires Classified(m, base) && n in m.packages && m.packages[n].layer != COMPOSITION
    ensures m.packages[n].scope == m.packages[n].own
  {
    assert n !in ChainsOf(m);
  }

  /** The scope rule ran and reported nothing. */
  ghost predicate ScopeClean(m: Model)
    requires Formed(m)
  {
    forall e :: e in m.edges ==> OutsideScope(m, e) == {}
  }

  /** Composition is the last of the layers, and listed. */
  ghost predicate CompositionOnTop(layers: seq<string>) {
    |layers| > 0 && layers[|layers| - 1] == COMPOSITION
  }

  lemma NothingOutside(a: set<string>, b: set<string>)
    requires a - b == {}
    ensures a <= b
  {
    assert forall x :: x in a ==> x in a - b || x in b;
  }

  lemma {:induction false} ReachedWithinScope(m: Model, base: map<string, set<string>>,
                                              p: seq<string>, a: string, b: string)
    requires Classified(m, base) && Unclassified(m) == {} && CompositionOnTop(m.rules.layers)
    requires LayerClean(m) && ScopeClean(m)
    requires a in m.packages && m.packages[a].layer != COMPOSITION
    requires IsPath(Targets(m.edges), p, a, b)
    ensures b in m.packages && m.packages[b].layer != COMPOSITION
    ensures m.packages[b].own <= m.packages[a].own
  {
    if p != [] {
      TargetsAreEdges(m.edges, a, p[0]);
      var e := Edge(a, p[0]);
      assert a !in Unclassified(m) && p[0] !in Unclassified(m);
      assert BothLayered(m, e) && Ranked(m, e) && !LeadsUp(m, e);
      PlainScopeIsOwn(m, base, a);
      assert OutsideScope(m, e) == {};
      NothingOutside(m.packages[p[0]].own, m.packages[a].scope);
      ReachedWithinScope(m, base, p[1..], p[0], b);
    }
  }

  /** In a clean tree, whatever a package that is no composition reaches, through any
      number of edges, knows nothing outside that package's scope. */
  lemma ScopeBoundsEverythingReached(m: Model, base: map<string, set<string>>, a: string, b: string)
    requires Classified(m, base) && Unclassified(m) == {} && CompositionOnTop(m.rules.layers)
    requires LayerClean(m) && ScopeClean(m)
    requires a in m.packages && m.packages[a].layer != COMPOSITION && Reach(Targets(m.edges), a, b)
    ensures b in m.packages && m.packages[b].own <= m.packages[a].scope
  {
    var p :| IsPath(Targets(m.edges), p, a, b);
    ReachedWithinScope(m, base, p, a, b);
    PlainScopeIsOwn(m, base, a);
  }

  /** What a scope finding on a composition names is never a mechanism or a dispute. */
  lemma CompositionNeverLacksShared(m: Model, base: map<string, set<string>>, e: Edge)
    requires Classified(m, base) && e in m.edges && m.packages[e.source].layer == COMPOSITION
    ensures OutsideScope(m, e) !! Shared(m.rules)
  {
    TargetsAreEdges(m.edges, e.source, e.target);
    assert e.target in ChainsOf(m)[e.source];
    KnownIsSaturated(ChainsOf(m), base, Shared(m.rules), e.source, e.target);
    assert m.packages[e.target].own <= m.packages[e.target].scope;
  }
}
