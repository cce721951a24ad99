/** Deleting tombstoned files and the directories left vacant (scripts/prune_tombstones.py). */
module Prune {
  type Path = seq<string>

  datatype Kind = File(tombstone: bool) | Dir

  type Nodes = map<Path, Kind>

  const SOURCE_ROOTS := {"compose", "core", "docs", "domains", "e2e-tests", "helm", "kit", "openspec", "provisioning"}

  const SKIP_DIRS := {".git", ".venv", ".ruff_cache", ".pytest_cache", "__pycache__", "node_modules", "build", "dist",
                      "htmlcov", ".mypy_cache"}

  /** Every path is inside directories. */
  ghost predicate Wf(nodes: Nodes) {
    forall p, n :: p in nodes && 0 < n < |p| ==> p[..n] in nodes && nodes[p[..n]].Dir?
  }

  predicate Skips(p: Path) {
    exists part :: part in p && part in SKIP_DIRS
  }

  /** A tombstone the search finds. */
  predicate Doomed(nodes: Nodes, p: Path) {
    p in nodes && nodes[p] == File(true) && !Skips(p)
  }

  /** `p` is `d` or below it. */
  predicate Under(d: Path, p: Path) {
    d <= p
  }

  lemma UnderBoth(d: Path, e: Path, p: Path)
    ensures Under(d, e) && Under(e, p) ==> Under(d, p)
    ensures Under(d, p) && Under(e, p) ==> Under(d, e) || Under(e, d)
  {
    if Under(d, p) && Under(e, p) {
      assert d == p[..|d|] && e == p[..|e|];
      assert |e| <= |d| ==> e == d[..|e|];
    }
  }

  predicate Child(d: Path, p: Path) {
    |p| == |d| + 1 && p[..|d|] == d
  }

  function Below(nodes: Nodes, d: Path): set<Path> {
    set p | p in nodes && Under(d, p) && p != d
  }

  /** Nothing but directories to skip, and vacant ones, is in the directory. */
  predicate IsVacant(nodes: Nodes, d: Path)
    decreases Below(nodes, d)
  {
    forall p :: p in nodes && Child(d, p) ==>
      nodes[p].Dir? && (p[|p| - 1] in SKIP_DIRS || (Fewer(nodes, d, p); IsVacant(nodes, p)))
  }

  lemma Fewer(nodes: Nodes, d: Path, p: Path)
    requires p in nodes && Child(d, p)
    ensures Below(nodes, p) < Below(nodes, d)
  {
    assert p in Below(nodes, d) && p !in Below(nodes, p);
    forall q | q in Below(nodes, p)
      ensures q in Below(nodes, d)
    {
      UnderBoth(d, p, q);
    }
  }

  /** Some directory on the way from `d` to `p` is one to skip. */
  predicate Hidden(d: Path, p: Path) {
    exists j :: |d| <= j < |p| - 1 && p[j] in SKIP_DIRS
  }

  ghost predicate NoFileShows(nodes: Nodes, d: Path) {
    forall p :: p in nodes && Under(d, p) && p != d && nodes[p].File? ==> Hidden(d, p)
  }

  lemma {:induction false} NoFileShowsBelow(nodes: Nodes, d: Path, p: Path)
    requires Wf(nodes) && IsVacant(nodes, d) && p in nodes && Under(d, p) && p != d && nodes[p].File?
    ensures Hidden(d, p)
    decreases Below(nodes, d)
  {
    var c := p[..|d| + 1];
    assert Child(d, c) && (|p| > |d| + 1 ==> c in nodes && nodes[c].Dir?);
    assert |p| == |d| + 1 ==> p == c;
    if c[|c| - 1] in SKIP_DIRS {
      assert p[|d|] in SKIP_DIRS;
    } else {
      Fewer(nodes, d, c);
      NoFileShowsBelow(nodes, c, p);
    }
  }

  lemma {:induction false} ShowsNoFile(nodes: Nodes, d: Path)
    requires Wf(nodes) && NoFileShows(nodes, d)
    ensures IsVacant(nodes, d)
    decreases Below(nodes, d)
  {
    forall c | c in nodes && Child(d, c)
      ensures nodes[c].Dir? && (c[|c| - 1] in SKIP_DIRS || IsVacant(nodes, c))
    {
      assert Under(d, c) && !Hidden(d, c);
      if c[|c| - 1] !in SKIP_DIRS {
        forall p | p in nodes && Under(c, p) && p != c && nodes[p].File?
          ensures Hidden(c, p)
        {
          assert d == c[..|d|] == p[..|c|][..|d|] == p[..|d|];
          var j :| |d| <= j < |p| - 1 && p[j] in SKIP_DIRS;
          assert p[|d|] == p[..|c|][|d|] == c[|d|];
        }
        Fewer(nodes, d, c);
        ShowsNoFile(nodes, c);
      }
    }
  }

  /** A directory is vacant exactly when every file below it is in a directory to skip. */
  lemma VacantMeans(nodes: Nodes, d: Path)
    requires Wf(nodes)
    ensures IsVacant(nodes, d) <==> NoFileShows(nodes, d)
  {
    if IsVacant(nodes, d) {
      forall p | p in nodes && Under(d, p) && p != d && nodes[p].File?
        ensures Hidden(d, p)
      {
        NoFileShowsBelow(nodes, d, p);
      }
    }
    if NoFileShows(nodes, d) {
      ShowsNoFile(nodes, d);
    }
  }

  // ---- What a sweep removes -----------------------------------------------------------

  predicate Candidate(nodes: Nodes, d: Path) {
    d in nodes && nodes[d].Dir? && |d| > 1 && d[0] in SOURCE_ROOTS
  }

  predicate Removable(nodes: Nodes, d: Path) {
    Candidate(nodes, d) && !Skips(d) && IsVacant(nodes, d)
  }

  predicate UnderOne(nodes: Nodes, done: set<Path>, p: Path) {
    exists d :: d in done && Removable(nodes, d) && Under(d, p)
  }

  /** The nodes with the removable directories among `done` removed whole. */
  function Without(nodes: Nodes, done: set<Path>): (left: Nodes)
    ensures forall p :: p in left <==> p in nodes && !UnderOne(nodes, done, p)
    ensures forall p :: p in left ==> left[p] == nodes[p]
  {
    map p | p in nodes && !UnderOne(nodes, done, p) :: nodes[p]
  }

  lemma UnderOneFurther(nodes: Nodes, done: set<Path>, p: Path, n: nat)
    requires n <= |p|
    ensures UnderOne(nodes, done, p[..n]) ==> UnderOne(nodes, done, p)
  {
    hide Removable;
    forall d
      ensures Under(d, p[..n]) ==> Under(d, p)
    {
      UnderBoth(d, p[..n], p);
    }
  }

  lemma WithoutIsWf(nodes: Nodes, done: set<Path>)
    requires Wf(nodes)
    ensures Wf(Without(nodes, done))
  {
    forall p, n | p in nodes && 0 < n < |p|
      ensures UnderOne(nodes, done, p[..n]) ==> UnderOne(nodes, done, p)
    {
      UnderOneFurther(nodes, done, p, n);
    }
    hide UnderOne;
  }

  lemma HiddenFurther(d: Path, e: Path, p: Path)
    requires Under(d, e) && Hidden(e, p)
    ensures Hidden(d, p)
  {
  }

  /** A file removed with a vacant directory never showed in a directory that stays. */
  lemma RemovedWasHidden(nodes: Nodes, e: Path, d: Path, p: Path)
    requires Wf(nodes) && Removable(nodes, e) && !Under(e, d)
    requires p in nodes && nodes[p].File? && Under(e, p) && Under(d, p)
    ensures Hidden(d, p)
  {
    UnderBoth(d, e, p);
    VacantMeans(nodes, e);
    assert e != p;
    HiddenFurther(d, e, p);
  }

  /** Removing vacant directories changes for none that is left whether it is vacant. */
  lemma RemovalKeepsVacancy(nodes: Nodes, done: set<Path>, d: Path)
    requires Wf(nodes) && d in Without(nodes, done)
    ensures IsVacant(Without(nodes, done), d) <==> IsVacant(nodes, d)
  {
    var left := Without(nodes, done);
    WithoutIsWf(nodes, done);
    VacantMeans(nodes, d);
    VacantMeans(left, d);
    hide Wf, IsVacant, Hidden, Under, Removable;
    if NoFileShows(left, d) {
      forall p | p in nodes && Under(d, p) && p != d && nodes[p].File?
        ensures Hidden(d, p)
      {
        if UnderOne(nodes, done, p) {
          var e :| e in done && Removable(nodes, e) && Under(e, p);
          assert !Under(e, d);
          RemovedWasHidden(nodes, e, d, p);
        }
      }
    }
  }

  /** The nodes with one directory removed whole. */
  function Less(nodes: Nodes, d: Path): (left: Nodes)
    ensures forall p :: p in left <==> p in nodes && !Under(d, p)
    ensures forall p :: p in left ==> left[p] == nodes[p]
  {
    map p | p in nodes && !Under(d, p) :: nodes[p]
  }

  /** The nodes once a directory has been visited. */
  function Swept(nodes: Nodes, d: Path): Nodes {
    if d in nodes && !Skips(d) && IsVacant(nodes, d) then Less(nodes, d) else nodes
  }

  /** The tree with its tombstones unlinked. */
  function Unlinked(nodes: Nodes): (left: Nodes)
    ensures forall p :: p in left <==> p in nodes && !Doomed(nodes, p)
    ensures forall p :: p in left ==> left[p] == nodes[p]
  {
    map p | p in nodes && !Doomed(nodes, p) :: nodes[p]
  }

  lemma UnlinkedIsWf(nodes: Nodes)
    requires Wf(nodes)
    ensures Wf(Unlinked(nodes))
  {
  }

  function Pruned(nodes: Nodes): Nodes {
    Without(Unlinked(nodes), nodes.Keys)
  }

  // ---- The run -------------------------------------------------------------------------

  class Tree {
    var nodes: Nodes

    constructor (nodes: Nodes)
      ensures this.nodes == nodes
    {
      this.nodes := nodes;
    }

    method Unlink(p: Path)
      requires p in nodes && nodes[p].File?
      modifies this
      ensures nodes == old(nodes) - {p}
    {
      nodes := nodes - {p};
    }

    method RemoveTree(d: Path)
      modifies this
      ensures nodes == Less(old(nodes), d)
    {
      nodes := Less(nodes, d);
    }

    method UnlinkTombstones()
      modifies this
      ensures nodes == Unlinked(old(nodes))
    {
      var doomed := set p | p in nodes && Doomed(nodes, p);
      var left := doomed;
      while left != {}
        invariant left <= doomed
        invariant nodes == map p | p in old(nodes) && !(p in doomed && p !in left) :: old(nodes)[p]
      {
        var p :| p in left;
        Unlink(p);
        left := left - {p};
      }
    }

    method RemoveIfVacant(d: Path)
      modifies this
      ensures nodes == Swept(old(nodes), d)
    {
      if d !in nodes || Skips(d) {
        return;
      }
      if IsVacant(nodes, d) {
        RemoveTree(d);
      }
    }

    /** Prunes the tree: the tombstones go, then, deepest first, each directory below a
        source root that is vacant. */
    method Run()
      requires Wf(nodes)
      modifies this
      ensures nodes == Pruned(old(nodes))
    {
      hide *;
      UnlinkTombstones();
      ghost var unlinked := nodes;
      UnlinkedIsWf(old(nodes));
      var candidates := CandidatesOf(nodes);
      var left := candidates;
      NothingRemoved(unlinked);
      assert candidates - left == {};
      while left != {}
        invariant left <= candidates
        invariant nodes == Without(unlinked, candidates - left)
      {
        var d := Deepest(left);
        ghost var done := candidates - left;
        left := left - {d};
        assert candidates - left == done + {d};
        OneMoreRemoved(unlinked, done, d);
        RemoveIfVacant(d);
      }
      assert candidates - {} == candidates;
      PrunedIs(old(nodes));
      AllCandidates(unlinked, old(nodes).Keys);
    }
  }

  function CandidatesOf(nodes: Nodes): (dirs: set<Path>)
    ensures forall d :: d in dirs <==> Candidate(nodes, d)
  {
    set d | d in nodes && Candidate(nodes, d)
  }

  lemma NothingRemoved(nodes: Nodes)
    ensures Without(nodes, {}) == nodes
  {
  }

  lemma PrunedIs(nodes: Nodes)
    ensures Pruned(nodes) == Without(Unlinked(nodes), nodes.Keys)
    ensures Unlinked(nodes).Keys <= nodes.Keys
  {
  }

  method Deepest(dirs: set<Path>) returns (d: Path)
    requires dirs != {}
    ensures d in dirs && forall e :: e in dirs ==> |e| <= |d|
  {
    var left := dirs;
    d :| d in left;
    left := left - {d};
    while left != {}
      invariant left < dirs && d in dirs && d !in left
      invariant forall e :: e in dirs && e !in left ==> |e| <= |d|
    {
      var e :| e in left;
      left := left - {e};
      if |e| > |d| {
        d := e;
      }
    }
  }

  lemma OneMoreUnder(nodes: Nodes, done: set<Path>, d: Path, p: Path)
    ensures UnderOne(nodes, done + {d}, p) <==> UnderOne(nodes, done, p) || (Removable(nodes, d) && Under(d, p))
  {
  }

  lemma RemovableStill(nodes: Nodes, done: set<Path>, d: Path)
    requires Wf(nodes) && Candidate(nodes, d) && d in Without(nodes, done)
    ensures Removable(nodes, d) <==> !Skips(d) && IsVacant(Without(nodes, done), d)
  {
    RemovalKeepsVacancy(nodes, done, d);
    hide Wf, IsVacant, Skips, Candidate;
  }

  lemma OneMoreRemoved(nodes: Nodes, done: set<Path>, d: Path)
    requires Wf(nodes) && Candidate(nodes, d)
    ensures Without(nodes, done + {d}) == Swept(Without(nodes, done), d)
  {
    assert Candidate(nodes, d) ==> d in nodes;
    hide IsVacant, Wf, Under, UnderOne, Candidate, Removable, Without, Less, Skips;
    var now, next := Without(nodes, done), Without(nodes, done + {d});
    if d in now {
      RemovableStill(nodes, done, d);
    } else {
      RemovedAlready(nodes, done, d);
    }
    forall p
      ensures p in next <==> p in Swept(now, d)
    {
      OneMoreUnder(nodes, done, d, p);
    }
  }

  lemma RemovedAlready(nodes: Nodes, done: set<Path>, d: Path)
    requires UnderOne(nodes, done, d)
    ensures forall p :: Under(d, p) ==> UnderOne(nodes, done, p)
  {
    var e :| e in done && Removable(nodes, e) && Under(e, d);
    forall p | Under(d, p)
      ensures UnderOne(nodes, done, p)
    {
      UnderBoth(e, d, p);
    }
  }

  lemma AllCandidates(nodes: Nodes, all: set<Path>)
    requires nodes.Keys <= all
    ensures Without(nodes, CandidatesOf(nodes)) == Without(nodes, all)
  {
    assert forall p :: UnderOne(nodes, CandidatesOf(nodes), p) <==> UnderOne(nodes, all, p);
  }

  // ---- What a run leaves --------------------------------------------------------------------

  /** No directory below a source root, outside those to skip, is left vacant. */
  lemma NoneLeftVacant(nodes: Nodes, d: Path)
    requires Wf(nodes) && Candidate(Pruned(nodes), d) && !Skips(d)
    ensures !IsVacant(Pruned(nodes), d)
  {
    UnlinkedIsWf(nodes);
    RemovalKeepsVacancy(Unlinked(nodes), nodes.Keys, d);
    assert d <= d;
  }

  /** A tombstone with no directory to skip, and no such name, on its path. */
  ghost predicate Found(nodes: Nodes, p: Path) {
    p in nodes && nodes[p] == File(true) && forall k :: 0 <= k < |p| ==> p[k] !in SKIP_DIRS
  }

  /** A directory below a source root, with no such name on its path, every file of which
      is a tombstone that goes or is inside a directory to skip. */
  ghost predicate Emptied(nodes: Nodes, d: Path) {
    && d in nodes && nodes[d].Dir? && |d| > 1 && d[0] in SOURCE_ROOTS
    && (forall k :: 0 <= k < |d| ==> d[k] !in SKIP_DIRS)
    && forall p :: p in nodes && d <= p && nodes[p].File? ==>
         Found(nodes, p) || exists k :: |d| <= k < |p| - 1 && p[k] in SKIP_DIRS
  }

  lemma RemovableIsEmptied(nodes: Nodes, d: Path)
    requires Wf(nodes)
    ensures Removable(Unlinked(nodes), d) <==> Emptied(nodes, d)
  {
    UnlinkedIsWf(nodes);
    var left := Unlinked(nodes);
    assert forall p :: Doomed(nodes, p) <==> Found(nodes, p);
    if Removable(left, d) {
      VacantMeans(left, d);
      forall p | p in nodes && d <= p && nodes[p].File?
        ensures Found(nodes, p) || Hidden(d, p)
      {
        assert !Found(nodes, p) ==> p in left && Under(d, p) && p != d;
      }
    }
    if Emptied(nodes, d) {
      forall p | p in left && Under(d, p) && p != d && left[p].File?
        ensures Hidden(d, p)
      {
        assert !Found(nodes, p) && d <= p;
      }
      VacantMeans(left, d);
    }
  }

  /** Exactly what goes: the tombstones, but for those in a directory to skip or named as
      one, and whole each directory that leaves empty. */
  lemma RunRemoves(nodes: Nodes, p: Path)
    requires Wf(nodes)
    ensures p in Pruned(nodes) <==> p in nodes && !Found(nodes, p) && forall d :: Emptied(nodes, d) ==> !(d <= p)
    ensures p in Pruned(nodes) ==> Pruned(nodes)[p] == nodes[p]
  {
    assert Doomed(nodes, p) <==> Found(nodes, p);
    forall d
      ensures Removable(Unlinked(nodes), d) <==> Emptied(nodes, d)
    {
      RemovableIsEmptied(nodes, d);
    }
    assert forall d :: Emptied(nodes, d) ==> d in nodes.Keys;
    hide Removable, Emptied, Found, Doomed;
  }

  /** Outside directories to skip, the files lost are exactly the tombstones, but for
      those whose own name is one to skip. */
  lemma OnlyTombstonesGo(nodes: Nodes, p: Path)
    requires Wf(nodes) && p in nodes && nodes[p].File? && p != [] && !Skips(p[..|p| - 1])
    ensures p in Pruned(nodes) <==> !(nodes[p] == File(true) && p[|p| - 1] !in SKIP_DIRS)
    ensures p in Pruned(nodes) ==> Pruned(nodes)[p] == nodes[p]
  {
    UnlinkedIsWf(nodes);
    var left := Unlinked(nodes);
    assert p == p[..|p| - 1] + [p[|p| - 1]];
    forall d | p in left && Removable(left, d) && Under(d, p)
      ensures p == d
    {
      VacantMeans(left, d);
      NotHidden(d, p);
    }
  }

  lemma NotHidden(d: Path, p: Path)
    requires p != [] && !Skips(p[..|p| - 1])
    ensures !Hidden(d, p)
  {
    assert forall j :: 0 <= j < |p| - 1 ==> p[j] == p[..|p| - 1][j];
  }

  /** A second run changes nothing. */
  lemma PruneTwice(nodes: Nodes)
    requires Wf(nodes)
    ensures Wf(Pruned(nodes)) && Pruned(Pruned(nodes)) == Pruned(nodes)
  {
    var once := Pruned(nodes);
    UnlinkedIsWf(nodes);
    WithoutIsWf(Unlinked(nodes), nodes.Keys);
    forall p
      ensures !Doomed(once, p)
    {
      assert Doomed(once, p) ==> Doomed(nodes, p);
    }
    forall d
      ensures !Removable(once, d)
    {
      if Candidate(once, d) && !Skips(d) {
        NoneLeftVacant(nodes, d);
      }
    }
    NothingToPrune(once);
  }

  lemma NothingToPrune(nodes: Nodes)
    requires forall p :: !Doomed(nodes, p)
    requires forall d :: !Removable(nodes, d)
    ensures Pruned(nodes) == nodes
  {
    PrunedIs(nodes);
    hide *;
    var unlinked := Unlinked(nodes);
    assert unlinked == nodes;
    NoneUnder(nodes);
    var without := Without(unlinked, nodes.Keys);
    assert without == nodes;
  }

  lemma NoneUnder(nodes: Nodes)
    requires forall d :: !Removable(nodes, d)
    ensures forall p :: !UnderOne(nodes, nodes.Keys, p)
  {
    hide Removable, Under;
  }
}
