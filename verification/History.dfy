/** Copying a change's history from its clone into the workspace (scripts/change_workflow/history.py). */
module History {
  import opened Options

  type Bytes = seq<bv8>

  /** What a path holds: a regular file's bytes, or something that is no regular file. */
  datatype Held = Regular(bytes: Bytes) | Irregular

  type Files = map<string, Held>

  datatype Verdict = Copy | Extend | Unchanged | Refuse

  function At(files: Files, p: string): Option<Held> {
    if p in files then Some(files[p]) else None
  }

  /** What a sync makes of a file of the clone, given the workspace's. */
  function Decide(ours: Held, theirs: Option<Held>): Verdict {
    if ours.Irregular? then Refuse
    else if theirs.None? then Copy
    else if theirs.value.Irregular? then Refuse
    else if ours.bytes == theirs.value.bytes then Unchanged
    else if theirs.value.bytes <= ours.bytes then Extend
    else Refuse
  }

  /** The workspace once a file of the clone has been synced, `missing` of its last bytes
      left unwritten by an interruption; one of a copy leaves none of it. */
  function Put(workspace: Files, p: string, ours: Held, missing: nat): (after: Files)
  {
    var theirs := At(workspace, p);
    match Decide(ours, theirs)
    case Copy => if missing == 0 then workspace[p := ours] else workspace
    case Extend =>
      var added := |ours.bytes| - |theirs.value.bytes|;
      workspace[p := Regular(ours.bytes[..|ours.bytes| - if missing < added then missing else added])]
    case _ => workspace
  }

  /** Everything the clone holds and the workspace does not hold the same, regular. */
  function Differences(clone: Files, workspace: Files): set<string> {
    set p | p in clone && (clone[p].Irregular? || At(workspace, p) != Some(clone[p]))
  }

  /** The later file is the earlier one, longer or the same. */
  predicate Longer(before: Held, after: Held) {
    match before
    case Irregular => after.Irregular?
    case Regular(bytes) => after.Regular? && bytes <= after.bytes
  }

  predicate Grown(before: Files, after: Files) {
    forall p :: p in before ==> p in after && Longer(before[p], after[p])
  }

  lemma PutGrows(workspace: Files, p: string, ours: Held, missing: nat)
    ensures Grown(workspace, Put(workspace, p, ours, missing))
    ensures forall q :: q != p ==> At(Put(workspace, p, ours, missing), q) == At(workspace, q)
  {
  }

  lemma PutWhole(workspace: Files, p: string, ours: Held)
    ensures At(Put(workspace, p, ours, 0), p) == Some(ours) && ours.Regular? <==> Decide(ours, At(workspace, p)) != Refuse
    ensures Decide(ours, At(workspace, p)) in {Refuse, Unchanged} ==> forall n :: Put(workspace, p, ours, n) == workspace
    ensures Decide(ours, At(workspace, p)) == Unchanged ==> At(workspace, p) == Some(ours) && ours.Regular?
  {
    if ours.Regular? {
      assert ours.bytes[..|ours.bytes|] == ours.bytes;
    }
  }

  /** A file the workspace holds the same, or is refused, is settled: syncing it again
      changes nothing, and it differs exactly if it is refused. */
  lemma Settled(clone: Files, workspace: Files, p: string)
    requires p in clone
    requires Decide(clone[p], At(workspace, p)) == Refuse || (At(workspace, p) == Some(clone[p]) && clone[p].Regular?)
    ensures p in Differences(clone, workspace) <==> Decide(clone[p], At(workspace, p)) == Refuse
    ensures p in Differences(clone, workspace) <==> !(At(workspace, p) == Some(clone[p]) && clone[p].Regular?)
    ensures Put(workspace, p, clone[p], 0) == workspace
  {
  }

  lemma NoDifferences(clone: Files, workspace: Files, refused: seq<string>)
    requires forall p :: p in clone && p !in refused ==> At(workspace, p) == Some(clone[p]) && clone[p].Regular?
    ensures refused == [] ==> Differences(clone, workspace) == {}
    ensures forall p :: p in Differences(clone, workspace) ==> p in refused
  {
  }

  lemma GrownTwice(a: Files, b: Files, c: Files)
    requires Grown(a, b) && Grown(b, c)
    ensures Grown(a, c)
  {
    forall p | p in a
      ensures p in c && Longer(a[p], c[p])
    {
      assert Longer(a[p], b[p]) && Longer(b[p], c[p]);
    }
  }

  /** What a sync reports, by what became of each file. */
  class Sync {
    const clone: Files
    var workspace: Files
    var copied: seq<string>
    var extended: seq<string>
    var kept: seq<string>
    var refused: seq<string>

    constructor (clone: Files, workspace: Files)
      ensures this.clone == clone && this.workspace == workspace
      ensures copied == [] && extended == [] && kept == [] && refused == []
    {
      this.clone, this.workspace := clone, workspace;
      copied, extended, kept, refused := [], [], [], [];
    }

    /** Syncs one file; `faults` says of a file whose writing fails how many bytes of it
        are then missing. */
    method One(p: string, faults: map<string, nat>)
      requires p in clone
      modifies this
      ensures workspace == Put(old(workspace), p, clone[p], if p in faults then faults[p] else 0)
      ensures var verdict := Decide(clone[p], At(old(workspace), p));
        var failed := p in faults && (verdict.Copy? || verdict.Extend?) && faults[p] > 0;
        && copied == old(copied) + (if verdict.Copy? && !failed then [p] else [])
        && extended == old(extended) + (if verdict.Extend? && !failed then [p] else [])
        && kept == old(kept) + (if verdict.Unchanged? then [p] else [])
        && refused == old(refused) + (if verdict.Refuse? || failed then [p] else [])
    {
      if clone[p].Irregular? {
        refused := refused + [p];
        return;
      }
      var missing := if p in faults then faults[p] else 0;
      if p !in workspace {
        if missing == 0 {
          workspace := workspace[p := clone[p]];
          copied := copied + [p];
        } else {
          refused := refused + [p];
        }
        return;
      }
      if workspace[p].Irregular? {
        refused := refused + [p];
        return;
      }
      var ours, theirs := clone[p].bytes, workspace[p].bytes;
      if ours == theirs {
        kept := kept + [p];
      } else if theirs <= ours {
        var rest := ours[|theirs|..];
        var written := |rest| - if missing < |rest| then missing else |rest|;
        assert theirs + rest[..written] == ours[..|theirs| + written];
        workspace := workspace[p := Regular(theirs + rest[..written])];
        if missing == 0 {
          extended := extended + [p];
        } else {
          refused := refused + [p];
        }
      } else {
        refused := refused + [p];
      }
    }

    /** Syncs every file of the clone. Every workspace file is kept or made longer. Where
        no write fails, the files refused are exactly those in which the two then differ,
        so a sync that refuses none leaves no difference; and syncing again changes
        nothing. */
    method Run(files: seq<string>, faults: map<string, nat>)
      requires forall p :: p in files <==> p in clone
      requires forall i, j :: 0 <= i < j < |files| ==> files[i] != files[j]
      requires refused == []
      modifies this
      ensures Grown(old(workspace), workspace)
      ensures forall q :: q !in clone ==> At(workspace, q) == At(old(workspace), q)
      ensures faults == map[] ==> forall p :: p in refused <==> p in Differences(clone, workspace)
      ensures faults == map[] ==> forall p :: p in refused <==> p in clone && Decide(clone[p], At(old(workspace), p)) == Refuse
      ensures faults == map[] ==> forall p :: p in clone ==> Put(workspace, p, clone[p], 0) == workspace
      ensures refused == [] ==> Differences(clone, workspace) == {}
    {
      assert Grown(workspace, workspace);
      hide Put, Differences, Grown, Longer, Decide;
      for i := 0 to |files|
        invariant Grown(old(workspace), workspace)
        invariant forall q :: q !in files[..i] ==> At(workspace, q) == At(old(workspace), q)
        invariant forall p :: p in files[..i] && p !in refused ==> At(workspace, p) == Some(clone[p]) && clone[p].Regular?
        invariant forall p :: p in refused ==> p in files[..i]
        invariant faults == map[] ==> forall p :: p in refused ==>
          Decide(clone[p], At(old(workspace), p)) == Refuse && At(workspace, p) == At(old(workspace), p)
        invariant faults == map[] ==> forall p :: p in files[..i] && p !in refused ==>
          Decide(clone[p], At(old(workspace), p)) != Refuse
      {
        var p := files[i];
        ghost var before := workspace;
        assert files[..i + 1] == files[..i] + [p];
        assert p !in files[..i];
        One(p, faults);
        PutGrows(before, p, clone[p], if p in faults then faults[p] else 0);
        PutWhole(before, p, clone[p]);
        GrownTwice(old(workspace), before, workspace);
      }
      assert files[..|files|] == files;
      if faults == map[] {
        forall p | p in clone
          ensures p in refused <==> p in Differences(clone, workspace)
          ensures Put(workspace, p, clone[p], 0) == workspace
        {
          Settled(clone, workspace, p);
        }
      }
      NoDifferences(clone, workspace, refused);
    }
  }

  // ---- Over any run of growth and syncs ---------------------------------------------------

  /** A file of the clone is added, or grows; or a sync comes to one, and is perhaps
      interrupted in it. Only the clone's own work changes the clone, and only one sync at
      a time the workspace. */
  datatype Event = Add(p: string, held: Held) | Grow(p: string, more: Bytes) | SyncFile(p: string, missing: nat)

  datatype Both = Both(clone: Files, workspace: Files)

  ghost predicate Happens(s: Both, e: Event, t: Both) {
    match e
    case Add(p, held) => p !in s.clone && t == s.(clone := s.clone[p := held])
    case Grow(p, more) =>
      p in s.clone && s.clone[p].Regular? && t == s.(clone := s.clone[p := Regular(s.clone[p].bytes + more)])
    case SyncFile(p, missing) =>
      p in s.clone && t == s.(workspace := Put(s.workspace, p, s.clone[p], missing))
  }

  ghost predicate IsRun(states: seq<Both>, events: seq<Event>) {
    && |states| == |events| + 1
    && forall k {:trigger events[k]} :: 0 <= k < |events| ==> Happens(states[k], events[k], states[k + 1])
  }

  /** Each file of the workspace is the beginning of the clone's. */
  ghost predicate Mirrors(s: Both) {
    forall p :: p in s.workspace ==>
      p in s.clone && s.workspace[p].Regular? && s.clone[p].Regular? && s.workspace[p].bytes <= s.clone[p].bytes
  }

  lemma StepGrows(s: Both, e: Event, t: Both)
    requires Happens(s, e, t)
    ensures Grown(s.workspace, t.workspace) && Grown(s.clone, t.clone)
  {
    if e.SyncFile? {
      PutGrows(s.workspace, e.p, s.clone[e.p], e.missing);
    }
  }

  /** In every run, whatever the workspace held at first, each of its files' earlier
      contents are a prefix of its later ones. */
  lemma {:induction false} WorkspaceOnlyGrows(states: seq<Both>, events: seq<Event>, a: nat, b: nat)
    requires IsRun(states, events) && a <= b < |states|
    ensures Grown(states[a].workspace, states[b].workspace)
  {
    if a < b {
      WorkspaceOnlyGrows(states, events, a, b - 1);
      StepGrows(states[b - 1], events[b - 1], states[b]);
      GrownTwice(states[a].workspace, states[b - 1].workspace, states[b].workspace);
    }
  }

  lemma StepMirrors(s: Both, e: Event, t: Both)
    requires Mirrors(s) && Happens(s, e, t)
    ensures Mirrors(t)
  {
    if e.SyncFile? {
      PutGrows(s.workspace, e.p, s.clone[e.p], e.missing);
      assert At(t.workspace, e.p).Some? && At(s.workspace, e.p).None? ==> t.workspace[e.p] == s.clone[e.p];
    }
  }

  lemma {:induction false} RunMirrors(states: seq<Both>, events: seq<Event>, k: nat)
    requires IsRun(states, events) && Mirrors(states[0]) && k < |states|
    ensures Mirrors(states[k])
  {
    if k > 0 {
      RunMirrors(states, events, k - 1);
      StepMirrors(states[k - 1], events[k - 1], states[k]);
    }
  }

  /** Where the workspace begins as syncs leave it, as an empty one does, none of the
      clone's files is ever refused but one that is not regular. */
  lemma NothingRefused(states: seq<Both>, events: seq<Event>, k: nat, p: string)
    requires IsRun(states, events) && Mirrors(states[0]) && k < |states| && p in states[k].clone
    ensures Decide(states[k].clone[p], At(states[k].workspace, p)) == Refuse <==> states[k].clone[p].Irregular?
  {
    RunMirrors(states, events, k);
  }
}
