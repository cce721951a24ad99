/** What every interleaving of the log's processes keeps. */
module LogProtocolProof {
  import opened Options
  import opened WorkflowLog
  import opened LogProtocol

  // ---- The invariant -------------------------------------------------------------

  /** Whether the process has found the name to hold the inode it locked, and not
      rebound the name since. */
  predicate Validated(pc: Pc, i: Inode) {
    match pc
    case Holding(_, _, j) => i == j
    case Writing(j, _) => i == j
    case Staged(_, j, _, _) => i == j
    case Failing(_, j, renamed) => i == j && !renamed
    case Unlinking(j) => i == j
    case _ => false
  }

  predicate Uses(pc: Pc, i: Inode) {
    (pc.Waiting? && pc.i == i) || Holds(pc, i)
  }

  ghost predicate PcOk(name: Option<Inode>, files: map<Inode, File>, pc: Pc) {
    && (forall i: Inode :: Uses(pc, i) ==> i in files)
    && (forall i: Inode :: Validated(pc, i) ==> name == Some(i))
    && (pc.Writing? ==> files[pc.i].torn && !files[pc.i].empty && pc.line.number == MaxSeq(files[pc.i].lines) + 1)
    && (pc.Staged? ==> pc.temp in files && pc.temp != pc.i && files[pc.temp] == File(pc.new_, false, pc.new_ == []))
    && (pc.Failing? && pc.renamed ==> name != Some(pc.i))
    && (pc.Unlinking? ==> files[pc.i].empty)
  }

  ghost predicate FilesOk(name: Option<Inode>, files: map<Inode, File>) {
    && (name.Some? ==> name.value in files)
    && forall i :: i in files && files[i].empty ==> files[i].lines == [] && !files[i].torn
  }

  ghost predicate PcsOk(s: State) {
    forall p :: p in s.processes ==> PcOk(s.name, s.files, s.processes[p])
  }

  /** Two processes hold a lock on one inode only if both locks are shared. */
  ghost predicate LocksOk(s: State) {
    forall p, q, i: Inode :: p in s.processes && q in s.processes && p != q
      && Holds(s.processes[p], i) && Holds(s.processes[q], i)
      ==> !Exclusive(s.processes[p]) && !Exclusive(s.processes[q])
  }

  /** A replacement's file is its own until it is renamed. */
  ghost predicate TempsOk(s: State) {
    forall p, q :: p in s.processes && q in s.processes && p != q && s.processes[p].Staged?
      ==> !Uses(s.processes[q], s.processes[p].temp)
          && (s.processes[q].Staged? ==> s.processes[q].temp != s.processes[p].temp)
  }

  /** The file under the name holds what the effects, replayed, leave. */
  ghost predicate Agrees(s: State) {
    Contents(s) == Replay(s.first, s.effects)
  }

  ghost predicate EffectOk(before: seq<Line>, e: Effect) {
    match e
    case Appended(line) => line.number == MaxSeq(before) + 1
    case Replaced(handed, _) => handed == before
  }

  /** Each append took the next number, and each replacement was handed the log as all
      the effects before it left it. */
  ghost predicate Lawful(first: seq<Line>, effects: seq<Effect>) {
    forall k {:trigger effects[k]} :: 0 <= k < |effects| ==> EffectOk(Replay(first, effects[..k]), effects[k])
  }

  ghost predicate Inv(s: State) {
    FilesOk(s.name, s.files) && PcsOk(s) && LocksOk(s) && TempsOk(s) && Agrees(s)
    && Lawful(s.first, s.effects)
  }

  // ---- Exclusion -------------------------------------------------------------------

  /** While one process holds the named file's lock exclusively, having checked the
      name, no other has checked it and holds a lock on it. */
  lemma ExclusiveIsAlone(s: State, p: Pid, i: Inode, q: Pid)
    requires PcsOk(s) && LocksOk(s) && p in s.processes && q in s.processes && p != q
    requires Validated(s.processes[p], i) && Exclusive(s.processes[p])
    ensures forall j: Inode :: !Validated(s.processes[q], j)
  {
    forall j: Inode
      ensures !Validated(s.processes[q], j)
    {
      if Validated(s.processes[q], j) {
        assert PcOk(s.name, s.files, s.processes[p]) && PcOk(s.name, s.files, s.processes[q]);
        assert Holds(s.processes[p], i) && Holds(s.processes[q], i);
      }
    }
  }

  // ---- Each step keeps the invariant -----------------------------------------------

  /** Of the processes, only `p` moved. */
  ghost predicate OthersSame(s: State, p: Pid, t: State) {
    && p in s.processes && t.processes.Keys == s.processes.Keys && t.first == s.first
    && forall q :: q in s.processes && q != p ==> t.processes[q] == s.processes[q]
  }

  /** The step changed nothing but where `p` stands. */
  ghost predicate OnlyMoves(s: State, p: Pid, t: State) {
    OthersSame(s, p, t) && t.name == s.name && t.files == s.files && t.effects == s.effects
  }

  /** `p` comes to use no inode it did not use but the one the name holds. */
  ghost predicate UsesKnown(s: State, p: Pid, t: State)
    requires p in s.processes && p in t.processes
  {
    forall i: Inode :: Uses(t.processes[p], i) ==>
      Uses(s.processes[p], i) || (i in s.files && s.name == Some(i))
  }

  /** `p` holds no lock it neither held before, in the same mode, nor was granted. */
  ghost predicate LocksGranted(s: State, p: Pid, t: State)
    requires p in s.processes && p in t.processes
  {
    forall i: Inode :: Holds(t.processes[p], i) ==>
      && Exclusive(t.processes[p]) == Exclusive(s.processes[p])
      && (Holds(s.processes[p], i)
          || (s.processes[p].Waiting? && s.processes[p].i == i && Grantable(s, p, s.processes[p])))
  }

  lemma MovesKeepLocks(s: State, p: Pid, t: State)
    requires LocksOk(s) && OthersSame(s, p, t) && LocksGranted(s, p, t)
    ensures LocksOk(t)
  {
  }

  lemma NameIsNoTemp(s: State, q: Pid)
    requires PcsOk(s) && q in s.processes && s.processes[q].Staged?
    ensures s.name != Some(s.processes[q].temp)
  {
    assert Validated(s.processes[q], s.processes[q].i);
  }

  lemma MovesKeepTemps(s: State, p: Pid, t: State)
    requires PcsOk(s) && TempsOk(s) && OnlyMoves(s, p, t)
    requires !t.processes[p].Staged?
    requires forall i :: Uses(t.processes[p], i) ==>
      Uses(s.processes[p], i) || (i in s.files && s.name == Some(i))
    ensures TempsOk(t)
  {
    forall q | q in s.processes && q != p && s.processes[q].Staged?
      ensures !Uses(t.processes[p], s.processes[q].temp)
    {
      NameIsNoTemp(s, q);
    }
  }

  lemma MovesKeepInv(s: State, p: Pid, t: State)
    requires Inv(s) && OnlyMoves(s, p, t) && UsesKnown(s, p, t) && LocksGranted(s, p, t)
    requires PcOk(t.name, t.files, t.processes[p])
    requires !t.processes[p].Staged?
    ensures Inv(t)
  {
    MovesKeepLocks(s, p, t);
    MovesKeepTemps(s, p, t);
    hide LocksOk, TempsOk, Lawful, PcOk, UsesKnown, LocksGranted;
  }

  /** A step that leaves the name, the files, and the effects as they are. */
  predicate PlainStep(s: State, p: Pid, step: Step)
    requires p in s.processes
  {
    || (step.Open? && s.processes[p].Opening? && (s.name.Some? || s.processes[p].request == Read))
    || step.Start? || step.Acquire? || step.Check? || step.ReadAll? || step.RefuseAppend? || step.FailReplace?
    || step.Stat? || step.Close? || step.Kill?
  }

  lemma PlainStepMoves(s: State, p: Pid, step: Step, t: State)
    requires Inv(s) && Next(s, p, step, t) && PlainStep(s, p, step)
    ensures OnlyMoves(s, p, t) && !t.processes[p].Staged?
  {
    hide Inv, Grantable, HasNewer;
  }

  lemma PlainStepUses(s: State, p: Pid, step: Step, t: State)
    requires Inv(s) && Next(s, p, step, t) && PlainStep(s, p, step)
    ensures p in t.processes && UsesKnown(s, p, t)
  {
    assert FilesOk(s.name, s.files);
    hide Inv, Grantable, HasNewer;
  }

  lemma PlainStepLocks(s: State, p: Pid, step: Step, t: State)
    requires Next(s, p, step, t) && PlainStep(s, p, step)
    ensures p in t.processes && LocksGranted(s, p, t)
  {
    hide Grantable, HasNewer;
  }

  lemma PlainStepPc(s: State, p: Pid, step: Step, t: State)
    requires Inv(s) && Next(s, p, step, t) && PlainStep(s, p, step)
    ensures PcOk(t.name, t.files, t.processes[p])
  {
    assert PcOk(s.name, s.files, s.processes[p]) && FilesOk(s.name, s.files);
    hide Inv, Grantable;
  }

  lemma PlainStepKeepsInv(s: State, p: Pid, step: Step, t: State)
    requires Inv(s) && Next(s, p, step, t) && PlainStep(s, p, step)
    ensures Inv(t)
  {
    hide *;
    PlainStepMoves(s, p, step, t);
    PlainStepUses(s, p, step, t);
    PlainStepLocks(s, p, step, t);
    PlainStepPc(s, p, step, t);
    MovesKeepInv(s, p, t);
  }

  // ---- The steps that change the files, the name, or the effects --------------------

  /** What the others need of a step by `p`: that nothing they use or checked changed. */
  lemma OthersKeepPcs(s: State, p: Pid, t: State)
    requires PcsOk(s) && OthersSame(s, p, t)
    requires PcOk(t.name, t.files, t.processes[p])
    requires forall q :: q in s.processes && q != p ==> PcOk(t.name, t.files, s.processes[q])
    ensures PcsOk(t)
  {
  }

  /** A process that has not checked the name needs only that what it uses stays. */
  lemma UncheckedPcOk(name: Option<Inode>, files: map<Inode, File>,
                      name': Option<Inode>, files': map<Inode, File>, pc: Pc)
    requires PcOk(name, files, pc) && files.Keys <= files'.Keys
    requires forall i: Inode :: !Validated(pc, i)
    requires pc.Failing? ==> name' != Some(pc.i)
    ensures PcOk(name', files', pc)
  {
    assert pc.Writing? || pc.Staged? || pc.Unlinking? ==> Validated(pc, pc.i);
    assert pc.Failing? && !pc.renamed ==> Validated(pc, pc.i);
  }

  /** A file nothing was made of yet changes nothing for those there before. */
  lemma NewFilePcOk(name: Option<Inode>, files: map<Inode, File>, inode: Inode, f: File, pc: Pc)
    requires PcOk(name, files, pc) && inode !in files
    ensures PcOk(name, files[inode := f], pc)
  {
  }

  lemma CreateKeepsPcs(s: State, p: Pid, inode: Inode, t: State)
    requires PcsOk(s) && Next(s, p, Open(inode), t) && s.name.None? && s.processes[p].request != Read
    ensures PcsOk(t)
  {
    forall q | q in s.processes && q != p
      ensures PcOk(t.name, t.files, s.processes[q])
    {
      assert PcOk(s.name, s.files, s.processes[q]);
      assert s.processes[q].Failing? ==> Uses(s.processes[q], s.processes[q].i);
      UncheckedPcOk(s.name, s.files, t.name, t.files, s.processes[q]);
    }
    OthersKeepPcs(s, p, t);
  }

  lemma CreateKeepsTemps(s: State, p: Pid, inode: Inode, t: State)
    requires PcsOk(s) && TempsOk(s) && Next(s, p, Open(inode), t) && s.name.None? && s.processes[p].request != Read
    ensures TempsOk(t)
  {
    forall q | q in s.processes && q != p && s.processes[q].Staged?
      ensures s.processes[q].temp != inode
    {
      assert PcOk(s.name, s.files, s.processes[q]);
    }
    hide PcsOk, PcOk;
  }

  lemma CreateKeepsInv(s: State, p: Pid, inode: Inode, t: State)
    requires Inv(s) && Next(s, p, Open(inode), t) && s.name.None? && s.processes[p].request != Read
    ensures Inv(t) && Contents(t) == Contents(s) == []
  {
    CreateKeepsPcs(s, p, inode, t);
    CreateKeepsTemps(s, p, inode, t);
    MovesKeepLocks(s, p, t);
    hide Lawful, LocksOk, TempsOk, PcsOk;
  }

  lemma WritePartKeepsInv(s: State, p: Pid, t: State)
    requires Inv(s) && Next(s, p, WritePart, t)
    ensures Inv(t) && Contents(t) == Contents(s)
  {
    assert PcOk(s.name, s.files, s.processes[p]);
    AloneKeepPcs(s, p, s.processes[p].i, t);
    MovesKeepLocks(s, p, t);
    AloneKeepTemps(s, p, s.processes[p].i, t);
    hide Lawful, LocksOk, TempsOk, PcsOk, HasNewer;
  }

  lemma FailingUnchecked(pc: Pc)
    requires forall i: Inode :: !Validated(pc, i)
    ensures pc.Failing? ==> pc.renamed
  {
    if pc.Failing? {
      assert Validated(pc, pc.i) <==> !pc.renamed;
    }
  }

  /** With `p` alone past its check, its step need only spare what it does not own. */
  lemma AloneKeepPcs(s: State, p: Pid, i: Inode, t: State)
    requires FilesOk(s.name, s.files) && PcsOk(s) && LocksOk(s) && TempsOk(s) && OthersSame(s, p, t)
    requires Validated(s.processes[p], i) && Exclusive(s.processes[p])
    requires s.files.Keys <= t.files.Keys
    requires t.name == s.name || t.name == None || (s.processes[p].Staged? && t.name == Some(s.processes[p].temp))
    requires PcOk(t.name, t.files, t.processes[p])
    ensures PcsOk(t)
  {
    forall q | q in s.processes && q != p
      ensures PcOk(t.name, t.files, s.processes[q])
    {
      assert PcOk(s.name, s.files, s.processes[q]);
      ExclusiveIsAlone(s, p, i, q);
      assert s.processes[q].Failing? ==> Uses(s.processes[q], s.processes[q].i);
      FailingUnchecked(s.processes[q]);
      UncheckedPcOk(s.name, s.files, t.name, t.files, s.processes[q]);
    }
    OthersKeepPcs(s, p, t);
  }

  lemma AloneKeepTemps(s: State, p: Pid, i: Inode, t: State)
    requires PcsOk(s) && LocksOk(s) && OthersSame(s, p, t)
    requires Validated(s.processes[p], i) && Exclusive(s.processes[p])
    requires !t.processes[p].Staged?
    ensures TempsOk(t)
  {
    forall q | q in s.processes && q != p
      ensures !s.processes[q].Staged?
    {
      ExclusiveIsAlone(s, p, i, q);
      assert s.processes[q].Staged? ==> Validated(s.processes[q], s.processes[q].i);
    }
  }

  lemma MoreEffects(s: State, p: Pid, e: Effect, t: State)
    requires Lawful(s.first, s.effects) && OthersSame(s, p, t)
    requires t.effects == s.effects + [e] && EffectOk(Replay(s.first, s.effects), e)
    ensures Lawful(t.first, t.effects)
    ensures Replay(t.first, t.effects) == Applied(Replay(s.first, s.effects), e)
  {
    assert t.effects[..|s.effects|] == s.effects;
    forall k {:trigger t.effects[k]} | 0 <= k < |t.effects|
      ensures EffectOk(Replay(t.first, t.effects[..k]), t.effects[k])
    {
      if k < |s.effects| {
        assert t.effects[..k] == s.effects[..k] && t.effects[k] == s.effects[k];
      }
    }
  }

  /** A step by which the one process past its check commits an effect. */
  ghost predicate Commits(s: State, p: Pid, i: Inode, e: Effect, t: State) {
    && OthersSame(s, p, t) && LocksGranted(s, p, t)
    && Validated(s.processes[p], i) && Exclusive(s.processes[p]) && !t.processes[p].Staged?
    && s.files.Keys <= t.files.Keys
    && (t.name == s.name || (s.processes[p].Staged? && t.name == Some(s.processes[p].temp)))
    && t.effects == s.effects + [e]
  }

  lemma CommitKeepsInv(s: State, p: Pid, i: Inode, e: Effect, t: State)
    requires Inv(s) && Commits(s, p, i, e, t)
    requires FilesOk(t.name, t.files) && PcOk(t.name, t.files, t.processes[p])
    requires EffectOk(Contents(s), e) && Contents(t) == Applied(Contents(s), e)
    ensures Inv(t)
  {
    hide PcOk, FilesOk, EffectOk, LocksOk, TempsOk, Lawful, PcsOk, Contents, Applied,
         Replay, OthersSame, LocksGranted;
    AloneKeepPcs(s, p, i, t);
    MovesKeepLocks(s, p, t);
    AloneKeepTemps(s, p, i, t);
    MoreEffects(s, p, e, t);
  }

  lemma WriteRestCommits(s: State, p: Pid, t: State)
    requires Inv(s) && Next(s, p, WriteRest, t)
    ensures Commits(s, p, s.processes[p].i, Appended(s.processes[p].line), t)
  {
    hide Inv, Holds;
    assert forall j: Inode :: Holds(s.processes[p], j) <==> Holds(t.processes[p], j) by { PcHolds(s.processes[p], t.processes[p]); }
  }

  lemma PcHolds(from: Pc, to: Pc)
    requires (from.Writing? || from.Staged?) && (to.Closing? || to.Failing?) && from.i == to.i
    ensures forall j: Inode :: Holds(from, j) <==> Holds(to, j)
  {
  }

  lemma WriteRestLocal(s: State, p: Pid, t: State)
    requires Inv(s) && Next(s, p, WriteRest, t)
    ensures FilesOk(t.name, t.files) && PcOk(t.name, t.files, t.processes[p])
    ensures EffectOk(Contents(s), Appended(s.processes[p].line))
    ensures Contents(t) == Contents(s) + [s.processes[p].line]
  {
    var pc := s.processes[p];
    assert PcOk(s.name, s.files, pc) && FilesOk(s.name, s.files);
    assert Validated(pc, pc.i);
    hide Inv;
  }

  lemma WriteRestKeepsInv(s: State, p: Pid, t: State)
    requires Inv(s) && Next(s, p, WriteRest, t)
    ensures Inv(t) && Contents(t) == Contents(s) + [s.processes[p].line]
  {
    var e := Appended(s.processes[p].line);
    hide Inv, EffectOk, Contents, FilesOk, PcOk, Commits;
    WriteRestLocal(s, p, t);
    WriteRestCommits(s, p, t);
    CommitKeepsInv(s, p, s.processes[p].i, e, t);
  }

  lemma RewriteKeepsTemps(s: State, p: Pid, temp: Inode, t: State)
    requires PcsOk(s) && TempsOk(s) && OthersSame(s, p, t) && temp !in s.files
    requires t.processes[p].Staged? && t.processes[p].temp == temp
    requires forall i: Inode :: Uses(t.processes[p], i) ==> Uses(s.processes[p], i)
    ensures TempsOk(t)
  {
    forall q | q in s.processes && q != p
      ensures !Uses(s.processes[q], temp) && (s.processes[q].Staged? ==> s.processes[q].temp != temp)
    {
      assert PcOk(s.name, s.files, s.processes[q]);
    }
  }

  lemma RewriteKeepsPcs(s: State, p: Pid, new_: seq<Line>, temp: Inode, t: State)
    requires PcsOk(s) && Next(s, p, Rewrite(new_, temp), t)
    ensures PcsOk(t)
  {
    assert PcOk(s.name, s.files, s.processes[p]);
    forall q | q in s.processes && q != p
      ensures PcOk(t.name, t.files, s.processes[q])
    {
      assert PcOk(s.name, s.files, s.processes[q]);
      NewFilePcOk(s.name, s.files, temp, t.files[temp], s.processes[q]);
    }
    OthersKeepPcs(s, p, t);
  }

  lemma RewriteKeepsInv(s: State, p: Pid, new_: seq<Line>, temp: Inode, t: State)
    requires Inv(s) && Next(s, p, Rewrite(new_, temp), t)
    ensures Inv(t) && Contents(t) == Contents(s)
  {
    RewriteKeepsPcs(s, p, new_, temp, t);
    assert PcOk(s.name, s.files, s.processes[p]);
    MovesKeepLocks(s, p, t);
    RewriteKeepsTemps(s, p, temp, t);
    hide Lawful, LocksOk, TempsOk, PcsOk;
  }

  lemma RenameCommits(s: State, p: Pid, t: State)
    requires Inv(s) && Next(s, p, Rename, t)
    ensures Commits(s, p, s.processes[p].i,
                    Replaced(s.files[s.processes[p].i].lines, s.processes[p].new_), t)
  {
    hide Inv, Holds;
    assert forall j: Inode :: Holds(s.processes[p], j) <==> Holds(t.processes[p], j) by { PcHolds(s.processes[p], t.processes[p]); }
  }

  lemma RenameLocal(s: State, p: Pid, t: State)
    requires Inv(s) && Next(s, p, Rename, t)
    ensures FilesOk(t.name, t.files) && PcOk(t.name, t.files, t.processes[p])
    ensures Contents(s) == s.files[s.processes[p].i].lines
    ensures Contents(t) == s.processes[p].new_
  {
    var pc := s.processes[p];
    assert PcOk(s.name, s.files, pc) && FilesOk(s.name, s.files);
    assert Validated(pc, pc.i);
    hide Inv;
  }

  lemma RenameKeepsInv(s: State, p: Pid, t: State)
    requires Inv(s) && Next(s, p, Rename, t)
    ensures Inv(t) && Contents(t) == s.processes[p].new_
    ensures t.effects == s.effects + [Replaced(Contents(s), s.processes[p].new_)]
  {
    var e := Replaced(s.files[s.processes[p].i].lines, s.processes[p].new_);
    hide Inv, Contents, FilesOk, PcOk, Commits;
    RenameLocal(s, p, t);
    RenameCommits(s, p, t);
    CommitKeepsInv(s, p, s.processes[p].i, e, t);
  }

  lemma UnlinkKeepsInv(s: State, p: Pid, t: State)
    requires Inv(s) && Next(s, p, Unlink, t)
    ensures Inv(t) && Contents(t) == Contents(s) == []
  {
    var pc := s.processes[p];
    assert PcOk(s.name, s.files, pc);
    assert Validated(pc, pc.i);
    AloneKeepPcs(s, p, pc.i, t);
    MovesKeepLocks(s, p, t);
    AloneKeepTemps(s, p, pc.i, t);
    hide Lawful, LocksOk, TempsOk, PcsOk;
  }

  lemma StepKeepsInv(s: State, p: Pid, step: Step, t: State)
    requires Inv(s) && Next(s, p, step, t)
    ensures Inv(t)
  {
    hide Inv;
    if PlainStep(s, p, step) {
      PlainStepKeepsInv(s, p, step, t);
    } else {
      match step
      case Open(inode) => CreateKeepsInv(s, p, inode, t);
      case WritePart => WritePartKeepsInv(s, p, t);
      case WriteRest => WriteRestKeepsInv(s, p, t);
      case Rewrite(new_, temp) => RewriteKeepsInv(s, p, new_, temp, t);
      case Rename => RenameKeepsInv(s, p, t);
      case Unlink => UnlinkKeepsInv(s, p, t);
    }
  }
}
