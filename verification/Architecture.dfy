/**
 The package architecture: how dependency edges are formed, how every package is
 given its layer and scope, and what the layer and scope rules report.
 */
module Architecture {
  import opened Options
  import opened Reachability

  datatype Reading = Reading(layer: string, scope: set<string>)

  datatype Edge = Edge(source: string, target: string)

  /** The tables the rules are evaluated against; a domain maps to its family. */
  datatype Rules = Rules(
    layers: seq<string>,
    families: set<string>,
    domains: map<string, Option<string>>,
    mechanisms: set<string>,
    disputes: set<string>,
    overrides: map<string, Reading>)

  const COMPOSITION := "composition"

  /** What a composition takes from the packages it composes. */
  function Shared(rules: Rules): (shared: set<string>)
    ensures forall x :: x in shared <==> x in rules.mechanisms || x in rules.disputes
  {
    rules.mechanisms + rules.disputes
  }

  // ---- Edges ---------------------------------------------------------------

  /** A project as the tree states it: what it ships, declares, and imports. */
  datatype Source = Source(name: string, package: string, malformed: bool,
                           declared: seq<string>, imports: seq<string>)

  function Names(sources: seq<Source>): set<string> {
    set s | s in sources :: s.name
  }

  /** Who ships `package`: the last project that does. */
  function Owner(sources: seq<Source>, package: string): (owner: Option<string>)
    ensures owner.Some? ==> owner.value in Names(sources)
  {
    if sources == [] then None
    else
      var last := sources[|sources| - 1];
      if last.package == package then Some(last.name)
      else Owner(sources[..|sources| - 1], package)
  }

  /** The project at `j` ships `package`, and none after it does. */
  predicate ShipsLast(sources: seq<Source>, package: string, j: nat) {
    j < |sources| && sources[j].package == package && forall k :: j < k < |sources| ==> sources[k].package != package
  }

  lemma {:induction false} OwnerShips(sources: seq<Source>, package: string, n: string)
    ensures Owner(sources, package) == Some(n) <==>
      exists j: nat :: ShipsLast(sources, package, j) && sources[j].name == n
  {
    if sources != [] {
      var init, last := sources[..|sources| - 1], |sources| - 1;
      if sources[last].package == package {
        assert ShipsLast(sources, package, last);
      } else {
        OwnerShips(init, package, n);
        assert forall j: nat :: ShipsLast(sources, package, j) <==> ShipsLast(init, package, j);
        assert forall j: nat :: ShipsLast(init, package, j) ==> init[j] == sources[j];
      }
    }
  }

  /** The edges of one project: its declarations of other projects, then, unless it
      cannot be read, its imports of packages that others ship. */
  function EdgesOf(sources: seq<Source>, standard: set<string>, s: Source): set<Edge> {
    (set d | d in s.declared && d in Names(sources) && d != s.name :: Edge(s.name, d))
    + (if s.malformed then {} else
         set top | top in s.imports && Owner(sources, top) != Some(s.name) && top !in standard
                   && Owner(sources, top).Some? :: Edge(s.name, Owner(sources, top).value))
  }

  function BuildEdges(sources: seq<Source>, standard: set<string>): set<Edge> {
    BuildUpTo(sources, standard, |sources|)
  }

  function BuildUpTo(sources: seq<Source>, standard: set<string>, n: nat): set<Edge>
    requires n <= |sources|
  {
    if n == 0 then {}
    else BuildUpTo(sources, standard, n - 1) + EdgesOf(sources, standard, sources[n - 1])
  }

  /** A project declares the edge: it is a declaration of another project there is. */
  predicate Declares(sources: seq<Source>, s: Source, e: Edge) {
    e.source == s.name && e.target in s.declared && e.target in Names(sources) && e.target != s.name
  }

  /** A project that can be read imports the edge: a package outside the standard library
      that another project ships, the last to ship it. */
  predicate Imports(sources: seq<Source>, standard: set<string>, s: Source, e: Edge) {
    && !s.malformed && e.source == s.name && e.target != s.name
    && exists j: nat :: j < |sources| && sources[j].package in s.imports && sources[j].package !in standard
         && ShipsLast(sources, sources[j].package, j) && sources[j].name == e.target
  }

  lemma EdgeOf(sources: seq<Source>, standard: set<string>, s: Source, e: Edge)
    ensures e in EdgesOf(sources, standard, s) <==> Declares(sources, s, e) || Imports(sources, standard, s, e)
  {
    forall top
      ensures Owner(sources, top) == Some(e.target) <==>
        exists j: nat :: ShipsLast(sources, top, j) && sources[j].name == e.target
    {
      OwnerShips(sources, top, e.target);
    }
    if Imports(sources, standard, s, e) {
      var j: nat :| j < |sources| && sources[j].package in s.imports && sources[j].package !in standard
                    && ShipsLast(sources, sources[j].package, j) && sources[j].name == e.target;
      assert Edge(s.name, Owner(sources, sources[j].package).value) == e;
    }
  }

  lemma {:induction false} BuiltUpTo(sources: seq<Source>, standard: set<string>, n: nat, e: Edge)
    requires n <= |sources|
    ensures e in BuildUpTo(sources, standard, n) <==>
      exists s :: s in sources[..n] && (Declares(sources, s, e) || Imports(sources, standard, s, e))
  {
    if n > 0 {
      BuiltUpTo(sources, standard, n - 1, e);
      EdgeOf(sources, standard, sources[n - 1], e);
      assert sources[..n] == sources[..n - 1] + [sources[n - 1]];
      hide Declares, Imports, EdgesOf;
    }
  }

  /** The edges are exactly those some project declares or imports. */
  lemma BuiltEdge(sources: seq<Source>, standard: set<string>, e: Edge)
    ensures e in BuildEdges(sources, standard) <==>
      exists s :: s in sources && (Declares(sources, s, e) || Imports(sources, standard, s, e))
  {
    BuiltUpTo(sources, standard, |sources|, e);
    assert sources[..|sources|] == sources;
  }

  /** No package depends on itself, and every edge joins two known projects. */
  lemma EdgesJoinDistinctProjects(sources: seq<Source>, standard: set<string>)
    ensures forall e | e in BuildEdges(sources, standard)
      :: e.source != e.target && e.source in Names(sources) && e.target in Names(sources)
  {
    forall e | e in BuildEdges(sources, standard)
      ensures e.source != e.target && e.source in Names(sources) && e.target in Names(sources)
    {
      BuiltEdge(sources, standard, e);
      var s :| s in sources && (Declares(sources, s, e) || Imports(sources, standard, s, e));
      assert s.name in Names(sources);
    }
  }

  function Sources(edges: set<Edge>): set<string> {
    set e | e in edges :: e.source
  }

  function TargetsOf(edges: set<Edge>, s: string): set<string> {
    set e | e in edges && e.source == s :: e.target
  }

  /** The targets of each source. */
  function Targets(edges: set<Edge>): Graph {
    map s | s in Sources(edges) :: TargetsOf(edges, s)
  }

  lemma TargetsAreEdges(edges: set<Edge>, s: string, t: string)
    ensures t in Succ(Targets(edges), s) <==> Edge(s, t) in edges
  {
    if Edge(s, t) in edges {
      assert Edge(s, t).source == s;
    }
  }

  // ---- Classification ------------------------------------------------------

  class Project {
    const name: string
    const malformed: bool
    const reading: Option<Reading>
    var layer: string
    var scope: set<string>
    var ownScope: set<string>

    constructor (name: string, malformed: bool, reading: Option<Reading>)
      ensures this.name == name && this.malformed == malformed && this.reading == reading
      ensures layer == "" && scope == {} && ownScope == {}
    {
      this.name, this.malformed, this.reading := name, malformed, reading;
      layer, scope, ownScope := "", {}, {};
    }
  }

  type Projects = map<string, Project>

  /** Projects as discovered: each under its own name, none classified yet. */
  ghost predicate Discovered(projects: Projects)
    reads projects.Values
  {
    forall n :: n in projects ==>
      projects[n].name == n && projects[n].layer == "" && projects[n].scope == {} && projects[n].ownScope == {}
  }

  /** What a project's path, or the override naming it, says of it. */
  function Stated(rules: Rules, name: string, malformed: bool, reading: Option<Reading>): Reading {
    if malformed then Reading("", {})
    else if name in rules.overrides then rules.overrides[name]
    else if reading.Some? then reading.value
    else Reading("", {})
  }

  ghost function StatedBy(rules: Rules, p: Project): Reading {
    Stated(rules, p.name, p.malformed, p.reading)
  }

  /** A composition that names no domain composes every domain of its families. */
  function Widened(rules: Rules, scope: set<string>): set<string> {
    if scope * rules.domains.Keys != {} then scope
    else scope + set d | d in rules.domains && rules.domains[d].Some?
                         && rules.domains[d].value in scope * rules.families :: d
  }

  ghost function Base(rules: Rules, p: Project): set<string> {
    var stated := StatedBy(rules, p);
    if stated.layer == COMPOSITION then Widened(rules, stated.scope) else stated.scope
  }

  ghost function Bases(rules: Rules, projects: Projects): map<string, set<string>> {
    map n | n in projects :: Base(rules, projects[n])
  }

  ghost function Compositions(rules: Rules, projects: Projects): set<string> {
    set n | n in projects && StatedBy(rules, projects[n]).layer == COMPOSITION
  }

  /** Only compositions lead on: a path here is a chain of compositions. */
  function Chains(targets: Graph, compositions: set<string>): Graph {
    map c | c in compositions && c in targets :: targets[c]
  }

  /** The scope a package ends with: its own, and what it shares of every package a
      chain of compositions leads it to. */
  ghost function Known(chains: Graph, base: map<string, set<string>>, shared: set<string>, n: string): set<string>
    requires n in base
  {
    base[n] + set t, e | t in base && e in base[t] && e in shared && n in chains && Reach(chains, n, t) :: e
  }

  /** No composition lacks what one of its targets shares. */
  ghost predicate Saturated(chains: Graph, shared: set<string>, scopes: map<string, set<string>>) {
    forall c, t :: c in chains && t in chains[c] && c in scopes && t in scopes
      ==> scopes[t] * shared <= scopes[c]
  }

  ghost predicate AtLeast(scopes: map<string, set<string>>, base: map<string, set<string>>) {
    scopes.Keys == base.Keys && forall n :: n in base ==> base[n] <= scopes[n]
  }

  /** A chain carries what is shared all the way along it. */
  lemma {:induction false} ChainCarries(chains: Graph, shared: set<string>, scopes: map<string, set<string>>,
                                        p: seq<string>, c: string, t: string)
    requires Saturated(chains, shared, scopes) && IsPath(chains, p, c, t)
    requires c in scopes && forall v, w :: v in chains && w in chains[v] ==> w in scopes
    ensures t in scopes && scopes[t] * shared <= scopes[c]
  {
    if p != [] {
      ChainCarries(chains, shared, scopes, p[1..], p[0], t);
    }
  }

  /** `Known` is below every saturated assignment of scopes at least the base. */
  lemma KnownIsLeast(chains: Graph, base: map<string, set<string>>, shared: set<string>,
                     scopes: map<string, set<string>>, n: string)
    requires AtLeast(scopes, base) && Saturated(chains, shared, scopes) && n in base
    requires forall v, w :: v in chains && w in chains[v] ==> w in base
    ensures Known(chains, base, shared, n) <= scopes[n]
  {
    forall e | e in Known(chains, base, shared, n)
      ensures e in scopes[n]
    {
      if e !in base[n] {
        var t :| t in base && e in base[t] && e in shared && n in chains && Reach(chains, n, t);
        var p :| IsPath(chains, p, n, t);
        ChainCarries(chains, shared, scopes, p, n, t);
      }
    }
  }

  /** `Known` is itself saturated. */
  lemma KnownIsSaturated(chains: Graph, base: map<string, set<string>>, shared: set<string>, c: string, t: string)
    requires c in chains && t in chains[c] && c in base && t in base
    ensures Known(chains, base, shared, t) * shared <= Known(chains, base, shared, c)
  {
    ReachEdge(chains, c, t);
    forall e | e in Known(chains, base, shared, t) * shared
      ensures e in Known(chains, base, shared, c)
    {
      if e in base[t] {
      } else {
        var u :| u in base && e in base[u] && e in shared && t in chains && Reach(chains, t, u);
        ReachTrans(chains, c, t, u);
      }
    }
  }

  function Scopes(projects: Projects): map<string, set<string>>
    reads projects.Values
  {
    map n | n in projects :: projects[n].scope
  }

  /** What is still to be added, composition by composition. */
  ghost function Missing(scopes: map<string, set<string>>, known: map<string, set<string>>): set<(string, string)> {
    set n, e | n in scopes && n in known && e in known[n] && e !in scopes[n] :: (n, e)
  }

  ghost function AllKnown(rules: Rules, projects: Projects, edges: set<Edge>): map<string, set<string>> {
    var chains := Chains(Targets(edges), Compositions(rules, projects));
    var base := Bases(rules, projects);
    map n | n in projects :: Known(chains, base, Shared(rules), n)
  }

  /** Every project has the layer and own scope stated of it. */
  ghost predicate Read(rules: Rules, projects: Projects)
    reads projects.Values
  {
    forall n :: n in projects ==>
      && projects[n].name == n
      && projects[n].layer == StatedBy(rules, projects[n]).layer
      && projects[n].ownScope == StatedBy(rules, projects[n]).scope
  }

  /** Gives each project the layer and scope stated of it. */
  method ReadAll(projects: Projects, rules: Rules)
    requires Discovered(projects)
    modifies projects.Values
    ensures Read(rules, projects)
    ensures forall n :: n in projects ==> projects[n].scope == StatedBy(rules, projects[n]).scope
  {
    var todo := projects.Keys;
    while todo != {}
      invariant todo <= projects.Keys
      invariant forall n :: n in projects ==> projects[n].name == n
      invariant forall n :: n in todo ==>
        projects[n].layer == "" && projects[n].scope == {} && projects[n].ownScope == {}
      invariant forall n :: n in projects && n !in todo ==>
        && projects[n].layer == StatedBy(rules, projects[n]).layer
        && projects[n].scope == projects[n].ownScope == StatedBy(rules, projects[n]).scope
    {
      var name :| name in todo;
      var p := projects[name];
      if !p.malformed {
        if name in rules.overrides {
          p.layer, p.scope := rules.overrides[name].layer, rules.overrides[name].scope;
        } else if p.reading.Some? {
          p.layer, p.scope := p.reading.value.layer, p.reading.value.scope;
        }
        p.ownScope := p.scope;
      }
      todo := todo - {name};
    }
  }

  /** Adds to one composition the domains of the families it lives at. */
  method WidenOne(p: Project, rules: Rules)
    modifies p`scope
    ensures p.scope == Widened(rules, old(p.scope))
  {
    if p.scope * rules.domains.Keys == {} {
      var families := p.scope * rules.families;
      var done: set<string> := {};
      while families != {}
        invariant done + families == old(p.scope) * rules.families
        invariant p.scope == old(p.scope)
          + set d | d in rules.domains && rules.domains[d].Some? && rules.domains[d].value in done :: d
      {
        var family :| family in families;
        p.scope := p.scope + set d | d in rules.domains && rules.domains[d] == Some(family) :: d;
        families, done := families - {family}, done + {family};
      }
    }
  }

  /** Adds to each composition the domains of the families it lives at. */
  method WidenFamilies(projects: Projects, rules: Rules, compositions: set<string>)
    requires compositions == Compositions(rules, projects)
    requires Read(rules, projects)
    requires forall n :: n in projects ==> projects[n].scope == StatedBy(rules, projects[n]).scope
    modifies projects.Values
    ensures Read(rules, projects)
    ensures Scopes(projects) == Bases(rules, projects)
  {
    var todo := compositions;
    while todo != {}
      invariant todo <= compositions && Read(rules, projects)
      invariant forall n :: n in projects ==>
        projects[n].scope == if n in todo then StatedBy(rules, projects[n]).scope else Base(rules, projects[n])
    {
      var name :| name in todo;
      WidenOne(projects[name], rules);
      todo := todo - {name};
    }
  }

  ghost predicate Within(scopes: map<string, set<string>>, known: map<string, set<string>>) {
    scopes.Keys == known.Keys && forall n :: n in known ==> scopes[n] <= known[n]
  }

  lemma SaturatedBetween(rules: Rules, projects: Projects, edges: set<Edge>, scopes: map<string, set<string>>)
    requires forall e :: e in edges ==> e.target in projects
    requires AtLeast(scopes, Bases(rules, projects)) && Within(scopes, AllKnown(rules, projects, edges))
    requires Saturated(Chains(Targets(edges), Compositions(rules, projects)), Shared(rules), scopes)
    ensures scopes == AllKnown(rules, projects, edges)
  {
    var chains := Chains(Targets(edges), Compositions(rules, projects));
    forall n | n in projects
      ensures scopes[n] == AllKnown(rules, projects, edges)[n]
    {
      KnownIsLeast(chains, Bases(rules, projects), Shared(rules), scopes, n);
    }
  }

  lemma SharedIsKnown(rules: Rules, projects: Projects, edges: set<Edge>, scopes: map<string, set<string>>,
                      c: string, t: string, e: string)
    requires c in Compositions(rules, projects) && Edge(c, t) in edges && t in projects
    requires Within(scopes, AllKnown(rules, projects, edges))
    requires e in scopes[t] && e in Shared(rules)
    ensures e in AllKnown(rules, projects, edges)[c]
  {
    var chains := Chains(Targets(edges), Compositions(rules, projects));
    TargetsAreEdges(edges, c, t);
    KnownIsSaturated(chains, Bases(rules, projects), Shared(rules), c, t);
  }

  /** Widens one composition by what its targets share; says whether it grew. */
  method ShareInto(projects: Projects, rules: Rules, targets: set<string>, name: string) returns (grew: bool)
    requires Read(rules, projects) && name in projects && targets <= projects.Keys
    modifies projects.Values
    ensures Read(rules, projects)
    ensures Scopes(projects) == old(Scopes(projects))[name :=
      old(projects[name].scope) + SharedOf(rules, old(Scopes(projects)), targets)]
    ensures grew <==> !(SharedOf(rules, old(Scopes(projects)), targets) <= old(projects[name].scope))
  {
    var shared := SharedOf(rules, Scopes(projects), targets);
    grew := !(shared <= projects[name].scope);
    assert !grew ==> projects[name].scope + shared == projects[name].scope;
    if grew {
      projects[name].scope := projects[name].scope + shared;
    }
  }

  /** What `targets` share of their scopes. */
  function SharedOf(rules: Rules, scopes: map<string, set<string>>, targets: set<string>): set<string> {
    set t, e | t in targets && t in scopes && e in scopes[t] && e in Shared(rules) :: e
  }

  /** Sharing into a composition goes no further than what it is to know. */
  lemma SharingStaysKnown(rules: Rules, projects: Projects, edges: set<Edge>,
                          scopes: map<string, set<string>>, c: string)
    requires forall e :: e in edges ==> e.target in projects
    requires c in Compositions(rules, projects)
    requires AtLeast(scopes, Bases(rules, projects)) && Within(scopes, AllKnown(rules, projects, edges))
    ensures var more := scopes[c := scopes[c] + SharedOf(rules, scopes, Succ(Targets(edges), c))];
      AtLeast(more, Bases(rules, projects)) && Within(more, AllKnown(rules, projects, edges))
  {
    var shared := SharedOf(rules, scopes, Succ(Targets(edges), c));
    forall e | e in shared
      ensures e in AllKnown(rules, projects, edges)[c]
    {
      var t :| t in Succ(Targets(edges), c) && t in scopes && e in scopes[t];
      TargetsAreEdges(edges, c, t);
      SharedIsKnown(rules, projects, edges, scopes, c, t, e);
    }
  }

  lemma MissingShrinks(scopes: map<string, set<string>>, known: map<string, set<string>>, c: string, more: set<string>)
    requires c in scopes && Within(scopes[c := scopes[c] + more], known)
    ensures Missing(scopes[c := scopes[c] + more], known) <= Missing(scopes, known)
    ensures !(more <= scopes[c]) ==> Missing(scopes[c := scopes[c] + more], known) < Missing(scopes, known)
  {
    if !(more <= scopes[c]) {
      var e :| e in more && e !in scopes[c];
      assert (c, e) in Missing(scopes, known);
      assert (c, e) !in Missing(scopes[c := scopes[c] + more], known);
    }
  }

  /** Widens every composition by what its targets share until nothing changes. */
  method ShareAlongCompositions(projects: Projects, rules: Rules, edges: set<Edge>, compositions: set<string>)
    requires compositions == Compositions(rules, projects)
    requires forall e :: e in edges ==> e.source in projects && e.target in projects
    requires Read(rules, projects) && Scopes(projects) == Bases(rules, projects)
    modifies projects.Values
    ensures Read(rules, projects)
    ensures Scopes(projects) == AllKnown(rules, projects, edges)
  {
    ghost var known := AllKnown(rules, projects, edges);
    ghost var chains := Chains(Targets(edges), compositions);
    var targets := Targets(edges);
    var changed := true;
    while changed
      invariant Read(rules, projects)
      invariant AtLeast(Scopes(projects), Bases(rules, projects)) && Within(Scopes(projects), known)
      invariant !changed ==> Saturated(chains, Shared(rules), Scopes(projects))
      decreases Missing(Scopes(projects), known), changed
    {
      changed := Pass(projects, rules, edges, compositions);
    }
    SaturatedBetween(rules, projects, edges, Scopes(projects));
  }

  /** One pass over the compositions, in any order. */
  method Pass(projects: Projects, rules: Rules, edges: set<Edge>, compositions: set<string>) returns (changed: bool)
    requires compositions == Compositions(rules, projects)
    requires forall e :: e in edges ==> e.source in projects && e.target in projects
    requires Read(rules, projects)
    requires AtLeast(Scopes(projects), Bases(rules, projects))
    requires Within(Scopes(projects), AllKnown(rules, projects, edges))
    modifies projects.Values
    ensures Read(rules, projects)
    ensures AtLeast(Scopes(projects), Bases(rules, projects))
    ensures Within(Scopes(projects), AllKnown(rules, projects, edges))
    ensures !changed ==> Scopes(projects) == old(Scopes(projects))
    ensures !changed ==> Saturated(Chains(Targets(edges), compositions), Shared(rules), Scopes(projects))
    ensures changed ==> Missing(Scopes(projects), AllKnown(rules, projects, edges))
                        < Missing(old(Scopes(projects)), AllKnown(rules, projects, edges))
  {
    hide Read, AtLeast, Within, Missing, SharedOf, AllKnown, Bases;
    ghost var base, known := Bases(rules, projects), AllKnown(rules, projects, edges);
    ghost var before := Scopes(projects);
    var targets := Targets(edges);
    changed := false;
    var todo := compositions;
    while todo != {}
      invariant todo <= compositions && Read(rules, projects)
      invariant AtLeast(Scopes(projects), base) && Within(Scopes(projects), known)
      invariant !changed ==> Scopes(projects) == before
      invariant !changed ==>
        forall c | c in compositions && c !in todo :: SharedOf(rules, before, Succ(targets, c)) <= before[c]
      invariant changed ==> Missing(Scopes(projects), known) < Missing(before, known)
    {
      var name :| name in todo;
      ghost var scopes := Scopes(projects);
      ghost var more := SharedOf(rules, scopes, Succ(targets, name));
      TargetsKnown(edges, projects.Keys, name);
      SharingStaysKnown(rules, projects, edges, scopes, name);
      MissingShrinks(scopes, known, name, more);
      var grew := ShareInto(projects, rules, Succ(targets, name), name);
      changed := changed || grew;
      if !grew {
        assert scopes[name] + more == scopes[name];
        assert scopes[name := scopes[name] + more] == scopes;
      }
      todo := todo - {name};
    }
    if !changed {
      SaturatedWhenShared(rules, edges, compositions, before);
    }
  }

  lemma SaturatedWhenShared(rules: Rules, edges: set<Edge>, compositions: set<string>, scopes: map<string, set<string>>)
    requires compositions <= scopes.Keys
    requires forall c | c in compositions :: SharedOf(rules, scopes, Succ(Targets(edges), c)) <= scopes[c]
    ensures Saturated(Chains(Targets(edges), compositions), Shared(rules), scopes)
  {
    var chains := Chains(Targets(edges), compositions);
    forall c, t | c in chains && t in chains[c] && c in scopes && t in scopes
      ensures scopes[t] * Shared(rules) <= scopes[c]
    {
      assert t in Succ(Targets(edges), c);
      assert scopes[t] * Shared(rules) <= SharedOf(rules, scopes, Succ(Targets(edges), c));
    }
  }

  lemma TargetsKnown(edges: set<Edge>, names: set<string>, s: string)
    requires forall e :: e in edges ==> e.target in names
    ensures Succ(Targets(edges), s) <= names
  {
    forall t | t in Succ(Targets(edges), s)
      ensures t in names
    {
      TargetsAreEdges(edges, s, t);
    }
  }

  /** Classifies every project: its layer and own scope as stated, and its scope as
      what it is to know. */
  method Classify(projects: Projects, rules: Rules, edges: set<Edge>)
    requires Discovered(projects)
    requires forall e :: e in edges ==> e.source in projects && e.target in projects
    modifies projects.Values
    ensures Read(rules, projects)
    ensures Scopes(projects) == AllKnown(rules, projects, edges)
  {
    ReadAll(projects, rules);
    var compositions := set n | n in projects && projects[n].layer == COMPOSITION;
    WidenFamilies(projects, rules, compositions);
    ShareAlongCompositions(projects, rules, edges, compositions);
  }
}
