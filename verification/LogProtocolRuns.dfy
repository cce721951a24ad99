/** What holds over every run of the log's processes, however their steps interleave. */
module LogProtocolRuns {
  import opened Options
  import WorkflowGraph
  import opened WorkflowLog
  import opened LogProtocol
  import opened LogProtocolProof
  import LogConversion

  datatype Move = Move(who: Pid, step: Step)

  /** No process has begun; the log is whatever it is, perhaps none, perhaps with a
      line an earlier writer left torn. */
  ghost predicate Initial(s: State) {
    && s.effects == [] && s.first == Contents(s) && FilesOk(s.name, s.files)
    && forall p :: p in s.processes ==> s.processes[p] == Idle
  }

  ghost predicate IsRun(states: seq<State>, moves: seq<Move>) {
    && |states| == |moves| + 1 && Initial(states[0])
    && forall k {:trigger moves[k]} :: 0 <= k < |moves| ==> Next(states[k], moves[k].who, moves[k].step, states[k + 1])
  }

  lemma StepOf(states: seq<State>, moves: seq<Move>, k: nat)
    requires IsRun(states, moves) && k < |moves|
    ensures |states| == |moves| + 1 && Next(states[k], moves[k].who, moves[k].step, states[k + 1])
  {
    assert moves[k] == moves[k];
  }

  lemma {:induction false} RunKeepsInv(states: seq<State>, moves: seq<Move>, k: nat)
    requires IsRun(states, moves) && k < |states|
    ensures Inv(states[k])
  {
    if k == 0 {
    } else {
      RunKeepsInv(states, moves, k - 1);
      var move := moves[k - 1];
      assert Next(states[k - 1], move.who, move.step, states[k]);
      hide *;
      StepKeepsInv(states[k - 1], move.who, move.step, states[k]);
    }
  }

  // ---- Exclusion -------------------------------------------------------------------

  /** At no point of a run do two processes hold the lock of the file the name holds
      when one of them holds it exclusively. */
  lemma OneExclusiveHolder(states: seq<State>, moves: seq<Move>, k: nat, p: Pid, q: Pid, i: Inode)
    requires IsRun(states, moves) && k < |states| && states[k].name == Some(i)
    requires p in states[k].processes && q in states[k].processes
    requires Holds(states[k].processes[p], i) && Exclusive(states[k].processes[p])
    requires Holds(states[k].processes[q], i)
    ensures p == q
  {
    RunKeepsInv(states, moves, k);
  }

  lemma ValidatedNames(s: State, p: Pid, i: Inode)
    requires Inv(s) && p in s.processes && Validated(s.processes[p], i)
    ensures s.name == Some(i) && i in s.files
  {
    assert PcOk(s.name, s.files, s.processes[p]);
    assert Holds(s.processes[p], i);
  }

  /** While a process past its check holds the log exclusively, no step of another
      changes that file or rebinds the name. */
  lemma NobodyElseTouches(s: State, p: Pid, i: Inode, q: Pid, step: Step, t: State)
    requires Inv(s) && p in s.processes && q != p
    requires Validated(s.processes[p], i) && Exclusive(s.processes[p])
    requires Next(s, q, step, t)
    ensures s.name == t.name == Some(i)
    ensures i in s.files && i in t.files && t.files[i] == s.files[i]
    ensures t.effects == s.effects && t.processes[p] == s.processes[p]
  {
    ValidatedNames(s, p, i);
    ExclusiveIsAlone(s, p, i, q);
    assert step.WritePart? || step.WriteRest? || step.Rename? || step.Unlink? ==>
      Validated(s.processes[q], s.processes[q].i);
    hide Inv, PcOk, Grantable, HasNewer;
  }

  /** The log is a file of its own from a process's check to its rename: in every
      state of a run between two of its own steps, the log has not changed. */
  lemma {:induction false} HolderAlone(states: seq<State>, moves: seq<Move>, a: nat, b: nat, p: Pid, i: Inode)
    requires IsRun(states, moves) && a <= b < |states| && p in states[a].processes
    requires Validated(states[a].processes[p], i) && Exclusive(states[a].processes[p])
    requires forall k :: a <= k < b ==> moves[k].who != p
    ensures states[b].name == states[a].name == Some(i)
    ensures i in states[a].files && i in states[b].files && states[b].files[i] == states[a].files[i]
    ensures p in states[b].processes && states[b].processes[p] == states[a].processes[p]
  {
    assert |states| == |moves| + 1;
    hide *;
    if a < b {
      HolderAlone(states, moves, a, b - 1, p, i);
      RunKeepsInv(states, moves, b - 1);
      StepOf(states, moves, b - 1);
      NobodyElseTouches(states[b - 1], p, i, moves[b - 1].who, moves[b - 1].step, states[b]);
    } else {
      RunKeepsInv(states, moves, a);
      ValidatedNames(states[a], p, i);
    }
  }

  // ---- Every change of the log is one whole operation --------------------------------

  predicate Commit(step: Step) {
    step.WriteRest? || step.Rename?
  }

  /** The log changes only where an append ends, by exactly its numbered line, or where
      a replacement renames, to exactly its lines; no creation, partial write, failure,
      removal, or kill changes what the name shows. */
  lemma OnlyCommitsChange(s: State, p: Pid, step: Step, t: State)
    requires Inv(s) && Next(s, p, step, t)
    ensures !Commit(step) ==> Contents(t) == Contents(s) && t.effects == s.effects
    ensures step.WriteRest? ==>
      (&& s.processes[p].Writing?
       && Contents(t) == Contents(s) + [s.processes[p].line]
       && s.processes[p].line.number == MaxSeq(Contents(s)) + 1
       && t.effects == s.effects + [Appended(s.processes[p].line)])
    ensures step.Rename? ==>
      (&& s.processes[p].Staged?
       && Contents(t) == s.processes[p].new_
       && t.effects == s.effects + [Replaced(Contents(s), s.processes[p].new_)])
  {
    if step.Rename? {
      RenameKeepsInv(s, p, t);
    } else if step.WriteRest? {
      WriteRestLocal(s, p, t);
    } else if PlainStep(s, p, step) {
      PlainStepMoves(s, p, step, t);
      hide Next, Inv;
    } else {
      QuietStep(s, p, step, t);
    }
  }

  lemma QuietStep(s: State, p: Pid, step: Step, t: State)
    requires Inv(s) && Next(s, p, step, t) && !Commit(step) && !PlainStep(s, p, step)
    ensures Contents(t) == Contents(s) && t.effects == s.effects
  {
    match step
    case Open(inode) => CreateKeepsInv(s, p, inode, t);
    case WritePart => WritePartKeepsInv(s, p, t);
    case Rewrite(new_, temp) => RewriteKeepsInv(s, p, new_, temp, t);
    case Unlink => UnlinkKeepsInv(s, p, t);
  }

  /** Past the point where an operation may still take effect. */
  predicate Spent(pc: Pc) {
    pc.Closing? || pc.Failing? || pc.Unlinking? || pc.Done? || pc.Killed?
  }

  /** The step after which only one result is left to the operation. */
  predicate Decides(step: Step) {
    Commit(step) || step.ReadAll? || step.RefuseAppend? || step.FailReplace?
  }

  lemma SpentStays(s: State, p: Pid, step: Step, t: State, q: Pid)
    requires Next(s, q, step, t) && p in s.processes
    ensures p in t.processes
    ensures Decides(step) && p == q ==> !Spent(s.processes[p]) && Spent(t.processes[p])
    ensures Spent(s.processes[p]) && !(p == q && step.Start?) ==> Spent(t.processes[p])
    ensures step.Kill? && p == q ==> Spent(t.processes[p])
  {
    hide HasNewer, Grantable;
  }

  lemma {:induction false} SpentUntilStart(states: seq<State>, moves: seq<Move>, p: Pid, a: nat, b: nat)
    requires IsRun(states, moves) && a <= b < |states| && p in states[a].processes && Spent(states[a].processes[p])
    requires forall k :: a <= k < b ==> !(moves[k].who == p && moves[k].step.Start?)
    ensures p in states[b].processes && Spent(states[b].processes[p])
  {
    if a < b {
      SpentUntilStart(states, moves, p, a, b - 1);
      assert Next(states[b - 1], moves[b - 1].who, moves[b - 1].step, states[b]);
      SpentStays(states[b - 1], p, moves[b - 1].step, states[b], moves[b - 1].who);
    }
  }

  /** An operation takes effect or fails at most once, and none that has failed or was
      killed takes effect afterwards: between two such steps of one process it has begun
      again. */
  lemma OneEffectPerOperation(states: seq<State>, moves: seq<Move>, a: nat, b: nat)
    requires IsRun(states, moves) && a < b < |moves| && moves[a].who == moves[b].who
    requires (Decides(moves[a].step) || moves[a].step.Kill?) && Decides(moves[b].step)
    ensures exists k :: a < k < b && moves[k].who == moves[a].who && moves[k].step.Start?
  {
    var p := moves[a].who;
    assert Next(states[a], p, moves[a].step, states[a + 1]);
    assert Next(states[b], p, moves[b].step, states[b + 1]);
    SpentStays(states[a], p, moves[a].step, states[a + 1], p);
    SpentStays(states[b], p, moves[b].step, states[b + 1], p);
    if forall k :: a + 1 <= k < b ==> !(moves[k].who == p && moves[k].step.Start?) {
      SpentUntilStart(states, moves, p, a + 1, b);
    }
  }

  // ---- Nothing appended is lost, and seqs only grow ------------------------------------

  /** Every replacement so far gave increasing seqs to a log that had them. */
  ghost predicate ReplacementsIncrease(effects: seq<Effect>) {
    forall e :: e in effects && e.Replaced? && Increasing(e.handed) ==> Increasing(e.new_)
  }

  lemma {:induction false} ReplayIncreases(first: seq<Line>, effects: seq<Effect>)
    requires Lawful(first, effects) && Increasing(first) && ReplacementsIncrease(effects)
    ensures Increasing(Replay(first, effects))
  {
    if effects != [] {
      var n := |effects| - 1;
      LawfulPrefix(first, effects, n);
      ReplayIncreases(first, effects[..n]);
      assert EffectOk(Replay(first, effects[..n]), effects[n]);
      assert effects[n] in effects;
    }
  }

  lemma LawfulPrefix(first: seq<Line>, effects: seq<Effect>, n: nat)
    requires Lawful(first, effects) && n <= |effects|
    ensures Lawful(first, effects[..n])
  {
    forall k {:trigger effects[..n][k]} | 0 <= k < n
      ensures EffectOk(Replay(first, effects[..n][..k]), effects[..n][k])
    {
      assert effects[..n][..k] == effects[..k] && effects[..n][k] == effects[k];
    }
  }

  /** In every run whose replacements keep seqs increasing, they are so in every state:
      no two lines ever share one. */
  lemma SeqsIncrease(states: seq<State>, moves: seq<Move>, k: nat)
    requires IsRun(states, moves) && k < |states|
    requires Increasing(Contents(states[0])) && ReplacementsIncrease(states[k].effects)
    ensures Increasing(Contents(states[k]))
  {
    RunKeepsInv(states, moves, k);
    SameFirst(states, moves, k);
    ReplayIncreases(states[k].first, states[k].effects);
  }

  /** A replacement a conversion made: some reading, confirmation, and time of it. */
  ghost predicate IsConversion(handed: seq<Line>, new_: seq<Line>) {
    exists reading, standing, confirmed, message, at ::
      LogConversion.ConfirmedLog(handed, reading, standing, confirmed, message, at) == LogConversion.Lines(new_)
  }

  lemma ConversionIncreases(handed: seq<Line>, new_: seq<Line>)
    requires IsConversion(handed, new_) && Increasing(handed)
    ensures Increasing(new_)
  {
    var reading, standing, confirmed, message, at :|
      LogConversion.ConfirmedLog(handed, reading, standing, confirmed, message, at) == LogConversion.Lines(new_);
    LogConversion.ConversionKeepsLines(handed, reading, standing, confirmed, message, at);
  }

  /** Where the log is only ever replaced by conversions, as by this engine's commands,
      seqs are strictly increasing in every state of every run. */
  lemma SeqsIncreaseUnderConversions(states: seq<State>, moves: seq<Move>, k: nat)
    requires IsRun(states, moves) && k < |states| && Increasing(Contents(states[0]))
    requires forall e :: e in states[k].effects && e.Replaced? ==> IsConversion(e.handed, e.new_)
    ensures Increasing(Contents(states[k]))
  {
    forall e | e in states[k].effects && e.Replaced? && Increasing(e.handed)
      ensures Increasing(e.new_)
    {
      ConversionIncreases(e.handed, e.new_);
    }
    SeqsIncrease(states, moves, k);
  }

  lemma {:induction false} SameFirst(states: seq<State>, moves: seq<Move>, k: nat)
    requires IsRun(states, moves) && k < |states|
    ensures states[k].first == states[0].first
  {
    if k > 0 {
      SameFirst(states, moves, k - 1);
      assert Next(states[k - 1], moves[k - 1].who, moves[k - 1].step, states[k]);
      hide Grantable, HasNewer, IsRun;
    }
  }

  /** Every line of the log stays where it is until a replacement is renamed, whatever
      else happens, and is among the lines the replacement was handed. */
  lemma {:induction false} LinesStay(states: seq<State>, moves: seq<Move>, a: nat, b: nat)
    requires IsRun(states, moves) && a <= b < |states|
    requires forall k :: a <= k < b ==> !moves[k].step.Rename?
    ensures Contents(states[a]) <= Contents(states[b])
    ensures b < |moves| && moves[b].step.Rename? ==>
      states[b + 1].effects == states[b].effects + [Replaced(Contents(states[b]), Contents(states[b + 1]))]
  {
    RunKeepsInv(states, moves, b);
    if b < |moves| {
      assert Next(states[b], moves[b].who, moves[b].step, states[b + 1]);
      OnlyCommitsChange(states[b], moves[b].who, moves[b].step, states[b + 1]);
    }
    if a < b {
      LinesStay(states, moves, a, b - 1);
      var move := moves[b - 1];
      RunKeepsInv(states, moves, b - 1);
      assert Next(states[b - 1], move.who, move.step, states[b]);
      OnlyCommitsChange(states[b - 1], move.who, move.step, states[b]);
      hide Inv, Next, Contents;
    }
  }

  /** A conversion run under the lock keeps every line appended before it: the log it
      renames into place holds the same runs at the same seqs, then its own lines. */
  lemma ConversionKeepsAppends(states: seq<State>, moves: seq<Move>, a: nat, b: nat,
                               reading: LogConversion.Reading, standing: WorkflowGraph.Standing,
                               confirmed: LogConversion.Confirmation, message: string, at: string, i: nat)
    requires IsRun(states, moves) && a <= b < |moves| && moves[b].step.Rename?
    requires forall k :: a <= k < b ==> !moves[k].step.Rename?
    requires var made := LogConversion.ConfirmedLog(Contents(states[b]), reading, standing, confirmed, message, at);
      made.Lines? && Contents(states[b + 1]) == made.lines
    requires i < |Contents(states[a])|
    ensures i < |Contents(states[b + 1])|
    ensures LogConversion.SameRun(Contents(states[a])[i], Contents(states[b + 1])[i])
  {
    LinesStay(states, moves, a, b);
    var handed := Contents(states[b]);
    hide Contents, IsRun;
    LogConversion.ConversionKeepsLines(handed, reading, standing, confirmed, message, at);
    LogConversion.RewrittenIsSameRun(handed[i]);
    assert Contents(states[b + 1])[i] == Contents(states[b + 1])[..|handed|][i];
  }
}
