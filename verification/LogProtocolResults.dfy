/** What an operation on the log returns, and of which moment that is; and that no process
    is ever stuck. */
module LogProtocolResults {
  import opened Options
  import opened WorkflowLog
  import opened LogProtocol
  import opened LogProtocolProof
  import opened LogProtocolRuns

  /** The log is cut off within its last line. */
  predicate Torn(s: State) {
    s.name.Some? && s.name.value in s.files && s.files[s.name.value].torn
  }

  /** Some line's mark is a higher format, or no format number. */
  ghost predicate Unread(lines: seq<Line>) {
    exists line :: line in lines && (line.format == NoNumber || (line.format.Number? && line.format.n > 2))
  }

  lemma UnreadIsNewer(lines: seq<Line>)
    ensures Unread(lines) <==> HasNewer(lines)
  {
    assert forall line: Line :: !Readable(line.format) <==>
      line.format == NoNumber || (line.format.Number? && line.format.n > 2);
  }

  /** Process `p` began an operation by move `a`, its latest before state `k`. */
  ghost predicate BeganAt(states: seq<State>, moves: seq<Move>, p: Pid, a: nat, k: nat) {
    && IsRun(states, moves) && a < k < |states| && moves[a].who == p && moves[a].step.Start?
    && forall j :: a < j < k ==> !(moves[j].who == p && moves[j].step.Start?)
  }

  /** Since move `a` the process began its line at a log that was whole, and is as it
      was but for that. */
  ghost predicate BeganLine(states: seq<State>, moves: seq<Move>, p: Pid, a: nat, k: nat)
    requires |states| == |moves| + 1 && k < |states|
  {
    exists i: nat {:trigger moves[i]} :: a < i < k && moves[i] == Move(p, WritePart)
      && !Torn(states[i]) && Contents(states[i]) == Contents(states[k])
  }

  /** The line an append writes after those the log shows. */
  function LineAfter(s: State, body: Body, at: string): Line {
    Line(MaxSeq(Contents(s)) + 1, Some(at), Number(2), body)
  }

  /** By move `j` the operation `p` began by move `a` came to its result: a read to the
      whole log, unless it is torn; an append to its one line after a whole log of formats
      the engine reads, and otherwise to a failure; a replacement to what it renamed, or,
      with or without the rename, to a failure. */
  ghost predicate DecidesAt(states: seq<State>, moves: seq<Move>, p: Pid, a: nat, j: nat, request: Request, result: Result)
    requires |states| == |moves| + 1 && j < |moves|
  {
    var s, t, step := states[j], states[j + 1], moves[j].step;
    && moves[j].who == p
    && match request
       case Read =>
         if step.ReadAll? then s.name.Some? && result == (if Torn(s) then Failed else Lines(Contents(s)))
         else (step.Start? || step.Open?) && s.name.None? && result == Lines([])
       case Append(body, at) =>
         if step.RefuseAppend? then (Torn(s) || Unread(Contents(s))) && result == Failed
         else
           && step.WriteRest? && BeganLine(states, moves, p, a, j) && !Unread(Contents(s))
           && result == AppendedLine(LineAfter(s, body, at))
           && Contents(t) == Contents(s) + [LineAfter(s, body, at)] && !Torn(t)
       case Replace =>
         if step.FailReplace? then Contents(t) == Contents(s) && result == Failed
         else
           && step.Rename? && !Torn(s) && !Torn(t) && p in t.processes
           && result == if t.processes[p].Failing? then Failed else ReplacedBy(Contents(t))
  }

  ghost predicate Decided(states: seq<State>, moves: seq<Move>, p: Pid, a: nat, k: nat, request: Request, result: Result)
    requires |states| == |moves| + 1 && k <= |moves|
  {
    exists j: nat {:trigger DecidesAt(states, moves, p, a, j, request, result)} ::
      a <= j < k && DecidesAt(states, moves, p, a, j, request, result)
  }

  // ---- On its way to a result ---------------------------------------------------------

  /** Where the operation `p` began by move `a` can be before state `k`. */
  ghost predicate OnItsWay(states: seq<State>, moves: seq<Move>, p: Pid, a: nat, k: nat, request: Request)
    requires |states| == |moves| + 1 && k <= |moves|
  {
    && p in states[k].processes
    && match states[k].processes[p]
       case Idle => false
       case Opening(r, _) => r == request
       case Waiting(r, _, _) => r == request
       case Locked(r, _, _) => r == request
       case Holding(r, _, _) => r == request
       case Writing(_, line) =>
         && request.Append? && line == LineAfter(states[k], request.body, request.at)
         && !Unread(Contents(states[k])) && BeganLine(states, moves, p, a, k)
       case Staged(_, _, _, _) => request == Replace && !Torn(states[k])
       case Failing(_, _, _) => Decided(states, moves, p, a, k, request, Failed)
       case Unlinking(_) => Decided(states, moves, p, a, k, request, Failed)
       case Closing(_, _, result) => Decided(states, moves, p, a, k, request, result)
       case Done(result) => Decided(states, moves, p, a, k, request, result)
       case Killed => true
  }

  lemma DecidedNow(states: seq<State>, moves: seq<Move>, p: Pid, a: nat, k: nat, request: Request, result: Result)
    requires |states| == |moves| + 1 && a <= k < |moves| && DecidesAt(states, moves, p, a, k, request, result)
    ensures Decided(states, moves, p, a, k + 1, request, result)
  {
  }

  lemma StillDecided(states: seq<State>, moves: seq<Move>, p: Pid, a: nat, k: nat, request: Request, result: Result)
    requires |states| == |moves| + 1 && k < |moves| && Decided(states, moves, p, a, k, request, result)
    ensures Decided(states, moves, p, a, k + 1, request, result)
  {
    hide DecidesAt;
    var j: nat :| a <= j < k && DecidesAt(states, moves, p, a, j, request, result);
    assert j < k + 1 && DecidesAt(states, moves, p, a, j, request, result);
  }

  lemma StillBegan(states: seq<State>, moves: seq<Move>, p: Pid, a: nat, k: nat)
    requires |states| == |moves| + 1 && k < |moves| && BeganLine(states, moves, p, a, k)
    requires Contents(states[k + 1]) == Contents(states[k])
    ensures BeganLine(states, moves, p, a, k + 1)
  {
    hide Contents, Torn;
    var i: nat :| a < i < k && moves[i] == Move(p, WritePart) && !Torn(states[i]) && Contents(states[i]) == Contents(states[k]);
    assert i < k + 1 && moves[i] == Move(p, WritePart);
  }

  /** Another's step leaves the operation on its way. */
  lemma OthersLeave(states: seq<State>, moves: seq<Move>, p: Pid, a: nat, k: nat, request: Request)
    requires IsRun(states, moves) && k < |moves| && OnItsWay(states, moves, p, a, k, request)
    requires moves[k].who != p
    ensures OnItsWay(states, moves, p, a, k + 1, request)
  {
    var s, t, q, step := states[k], states[k + 1], moves[k].who, moves[k].step;
    StepOf(states, moves, k);
    RunKeepsInv(states, moves, k);
    StepSpares(s, q, step, t, p);
    var pc := s.processes[p];
    hide IsRun, Inv, Next, Unread, Decided;
    if pc.Writing? || pc.Staged? {
      NobodyElseTouches(s, p, pc.i, q, step, t);
      if pc.Writing? {
        StillBegan(states, moves, p, a, k);
      }
    } else if pc.Closing? || pc.Done? {
      StillDecided(states, moves, p, a, k, request, pc.result);
    } else if pc.Failing? || pc.Unlinking? {
      StillDecided(states, moves, p, a, k, request, Failed);
    }
  }

  lemma StepSpares(s: State, q: Pid, step: Step, t: State, p: Pid)
    requires Next(s, q, step, t) && p in s.processes && p != q
    ensures p in t.processes && t.processes[p] == s.processes[p]
  {
    hide Grantable, HasNewer;
  }

  /** The steps before a decision keep the operation on its way. */
  lemma MovesOn(states: seq<State>, moves: seq<Move>, p: Pid, a: nat, k: nat, request: Request)
    requires IsRun(states, moves) && a < k < |moves| && moves[k].who == p && OnItsWay(states, moves, p, a, k, request)
    requires moves[k].step.Acquire? || moves[k].step.Check? || moves[k].step.Kill? || moves[k].step.Open?
    ensures OnItsWay(states, moves, p, a, k + 1, request)
  {
    StepOf(states, moves, k);
    hide IsRun, Grantable, HasNewer, Contents, Unread, BeganLine, Torn, LineAfter, Numbered;
    if states[k + 1].processes[p].Done? {
      assert DecidesAt(states, moves, p, a, k, request, Lines([]));
      DecidedNow(states, moves, p, a, k, request, Lines([]));
    }
  }

  /** After a decision a process only ends, with the result it has. */
  lemma EndStep(s: State, p: Pid, step: Step, t: State)
    requires Next(s, p, step, t) && (step.Stat? || step.Unlink? || step.Close?)
    ensures p in t.processes
    ensures var pc, next := s.processes[p], t.processes[p];
      if pc.Closing? then next == Done(pc.result)
      else (pc.Failing? || pc.Unlinking?) && (next.Unlinking? || (next.Closing? && next.result == Failed))
  {
    hide Grantable, HasNewer;
  }

  /** So do those after it. */
  lemma EndsOn(states: seq<State>, moves: seq<Move>, p: Pid, a: nat, k: nat, request: Request)
    requires IsRun(states, moves) && k < |moves| && moves[k].who == p && OnItsWay(states, moves, p, a, k, request)
    requires moves[k].step.Stat? || moves[k].step.Unlink? || moves[k].step.Close?
    ensures OnItsWay(states, moves, p, a, k + 1, request)
  {
    StepOf(states, moves, k);
    EndStep(states[k], p, moves[k].step, states[k + 1]);
    var pc := states[k].processes[p];
    hide IsRun, Next, Contents, Unread, BeganLine, Torn, Decided, LineAfter;
    StillDecided(states, moves, p, a, k, request, if pc.Closing? then pc.result else Failed);
  }

  lemma HoldsNamed(s: State, p: Pid)
    requires Inv(s) && p in s.processes
    ensures var pc := s.processes[p];
      pc.Holding? || pc.Writing? || pc.Staged? ==>
        && s.name == Some(pc.i) && pc.i in s.files
        && Contents(s) == s.files[pc.i].lines && (Torn(s) <==> s.files[pc.i].torn)
  {
    var pc := s.processes[p];
    if pc.Holding? || pc.Writing? || pc.Staged? {
      ValidatedNames(s, p, pc.i);
    }
  }

  /** The steps that decide a result decide it so. */
  lemma ReadDecides(states: seq<State>, moves: seq<Move>, p: Pid, a: nat, k: nat, request: Request)
    requires IsRun(states, moves) && a < k < |moves| && moves[k].who == p && OnItsWay(states, moves, p, a, k, request)
    requires moves[k].step.ReadAll? || moves[k].step.RefuseAppend?
    ensures OnItsWay(states, moves, p, a, k + 1, request)
  {
    var s, t := states[k], states[k + 1];
    StepOf(states, moves, k);
    RunKeepsInv(states, moves, k);
    HoldsNamed(s, p);
    UnreadIsNewer(Contents(s));
    hide IsRun, Inv, Grantable, BeganLine, Decided, HasNewer, Unread, Contents, Torn;
    DecidedNow(states, moves, p, a, k, request, t.processes[p].result);
  }

  lemma FailureDecides(states: seq<State>, moves: seq<Move>, p: Pid, a: nat, k: nat, request: Request)
    requires IsRun(states, moves) && a < k < |moves| && moves[k].who == p && OnItsWay(states, moves, p, a, k, request)
    requires moves[k].step.FailReplace?
    ensures OnItsWay(states, moves, p, a, k + 1, request)
  {
    StepOf(states, moves, k);
    hide IsRun, Grantable, BeganLine, Decided, HasNewer, Unread, Torn;
    DecidedNow(states, moves, p, a, k, request, Failed);
  }

  lemma BeginsLine(states: seq<State>, moves: seq<Move>, p: Pid, a: nat, k: nat, request: Request)
    requires IsRun(states, moves) && a < k < |moves| && moves[k].who == p && OnItsWay(states, moves, p, a, k, request)
    requires moves[k].step.WritePart?
    ensures OnItsWay(states, moves, p, a, k + 1, request)
  {
    var s, t := states[k], states[k + 1];
    StepOf(states, moves, k);
    RunKeepsInv(states, moves, k);
    HoldsNamed(s, p);
    WritePartKeepsInv(s, p, t);
    UnreadIsNewer(Contents(s));
    hide IsRun, Inv, Grantable, Decided, HasNewer, Unread, Contents, Torn;
    assert moves[k] == Move(p, WritePart);
  }

  lemma LineDecides(states: seq<State>, moves: seq<Move>, p: Pid, a: nat, k: nat, request: Request)
    requires IsRun(states, moves) && a < k < |moves| && moves[k].who == p && OnItsWay(states, moves, p, a, k, request)
    requires moves[k].step.WriteRest?
    ensures OnItsWay(states, moves, p, a, k + 1, request)
  {
    var s, t := states[k], states[k + 1];
    StepOf(states, moves, k);
    RunKeepsInv(states, moves, k);
    HoldsNamed(s, p);
    WriteRestKeepsInv(s, p, t);
    assert !Torn(t);
    hide IsRun, Inv, Grantable, Decided, Unread, Contents, Torn, BeganLine;
    DecidedNow(states, moves, p, a, k, request, t.processes[p].result);
  }

  lemma StagesOn(states: seq<State>, moves: seq<Move>, p: Pid, a: nat, k: nat, request: Request)
    requires IsRun(states, moves) && a < k < |moves| && moves[k].who == p && OnItsWay(states, moves, p, a, k, request)
    requires moves[k].step.Rewrite?
    ensures OnItsWay(states, moves, p, a, k + 1, request)
  {
    var s := states[k];
    StepOf(states, moves, k);
    RunKeepsInv(states, moves, k);
    HoldsNamed(s, p);
    hide IsRun, Inv, Grantable, Decided, Unread, Contents, BeganLine;
  }

  lemma RenameDecides(states: seq<State>, moves: seq<Move>, p: Pid, a: nat, k: nat, request: Request)
    requires IsRun(states, moves) && a < k < |moves| && moves[k].who == p && OnItsWay(states, moves, p, a, k, request)
    requires moves[k].step.Rename?
    ensures OnItsWay(states, moves, p, a, k + 1, request)
  {
    var s, t := states[k], states[k + 1];
    StepOf(states, moves, k);
    RunKeepsInv(states, moves, k);
    RenameKeepsInv(s, p, t);
    assert PcOk(s.name, s.files, s.processes[p]);
    assert !Torn(t);
    hide IsRun, Inv, PcOk, Grantable, Decided, Unread, Contents, BeganLine, Torn;
    var result := if t.processes[p].Failing? then Failed else ReplacedBy(Contents(t));
    assert DecidesAt(states, moves, p, a, k, request, result);
    DecidedNow(states, moves, p, a, k, request, result);
  }

  lemma OwnStepMovesOn(states: seq<State>, moves: seq<Move>, p: Pid, a: nat, k: nat, request: Request)
    requires IsRun(states, moves) && a < k < |moves| && moves[k].who == p && OnItsWay(states, moves, p, a, k, request)
    requires !moves[k].step.Start?
    ensures OnItsWay(states, moves, p, a, k + 1, request)
  {
    hide *;
    match moves[k].step
    case Start(_) => assert false;
    case Open(_) => MovesOn(states, moves, p, a, k, request);
    case Acquire => MovesOn(states, moves, p, a, k, request);
    case Check => MovesOn(states, moves, p, a, k, request);
    case ReadAll => ReadDecides(states, moves, p, a, k, request);
    case RefuseAppend => ReadDecides(states, moves, p, a, k, request);
    case WritePart => BeginsLine(states, moves, p, a, k, request);
    case WriteRest => LineDecides(states, moves, p, a, k, request);
    case Rewrite(_, _) => StagesOn(states, moves, p, a, k, request);
    case FailReplace => FailureDecides(states, moves, p, a, k, request);
    case Rename => RenameDecides(states, moves, p, a, k, request);
    case Stat => EndsOn(states, moves, p, a, k, request);
    case Unlink => EndsOn(states, moves, p, a, k, request);
    case Close => EndsOn(states, moves, p, a, k, request);
    case Kill => MovesOn(states, moves, p, a, k, request);
  }

  lemma Earlier(states: seq<State>, moves: seq<Move>, p: Pid, a: nat, k: nat)
    requires BeganAt(states, moves, p, a, k)
    ensures IsRun(states, moves) && a < k < |states| == |moves| + 1 && moves[a].who == p && moves[a].step.Start?
    ensures k > a + 1 ==> BeganAt(states, moves, p, a, k - 1) && !(moves[k - 1].who == p && moves[k - 1].step.Start?)
  {
    assert k - 1 > a ==> !(moves[k - 1].who == p && moves[k - 1].step.Start?);
  }

  lemma {:induction false} StaysOnItsWay(states: seq<State>, moves: seq<Move>, p: Pid, a: nat, k: nat)
    requires BeganAt(states, moves, p, a, k)
    ensures |states| == |moves| + 1 && k <= |moves| && moves[a].step.Start?
    ensures OnItsWay(states, moves, p, a, k, moves[a].step.request)
    decreases k
  {
    hide *;
    Earlier(states, moves, p, a, k);
    var request := moves[a].step.request;
    if k == a + 1 {
      Begins(states, moves, p, a);
    } else {
      StaysOnItsWay(states, moves, p, a, k - 1);
      if moves[k - 1].who != p {
        OthersLeave(states, moves, p, a, k - 1, request);
      } else {
        OwnStepMovesOn(states, moves, p, a, k - 1, request);
      }
    }
  }

  lemma Begins(states: seq<State>, moves: seq<Move>, p: Pid, a: nat)
    requires BeganAt(states, moves, p, a, a + 1)
    ensures OnItsWay(states, moves, p, a, a + 1, moves[a].step.request)
  {
    StepOf(states, moves, a);
    hide IsRun, Grantable, Contents, Unread, BeganLine, Torn, Decided;
    if states[a + 1].processes[p].Done? {
      DecidedNow(states, moves, p, a, a, Read, Lines([]));
    }
  }

  // ---- What operations return -----------------------------------------------------------

  /** The log is linearizable: what an operation returns is what the log called for at one
      moment, a step of its own between its beginning and its end, and what it changed it
      changed in that step. A failure has its reason there too. */
  lemma Linearizable(states: seq<State>, moves: seq<Move>, p: Pid, a: nat, k: nat)
    requires BeganAt(states, moves, p, a, k) && p in states[k].processes
    requires states[k].processes[p].Closing? || states[k].processes[p].Done?
    ensures Decided(states, moves, p, a, k, moves[a].step.request, states[k].processes[p].result)
  {
    StaysOnItsWay(states, moves, p, a, k);
    hide Decided, BeganAt;
  }

  /** A read of a log never torn meanwhile returns its lines. */
  lemma ReadsSucceed(states: seq<State>, moves: seq<Move>, p: Pid, a: nat, k: nat)
    requires BeganAt(states, moves, p, a, k) && p in states[k].processes && moves[a].step.request == Read
    requires states[k].processes[p].Closing? || states[k].processes[p].Done?
    requires forall j :: a <= j < k ==> !Torn(states[j])
    ensures exists j: nat :: a <= j < k && states[k].processes[p].result == Lines(Contents(states[j]))
  {
    Linearizable(states, moves, p, a, k);
    var result := states[k].processes[p].result;
    var j: nat :| a <= j < k && DecidesAt(states, moves, p, a, j, Read, result);
    assert result == Lines(Contents(states[j]));
  }

  /** A replacement fails exactly if some step of its own failed it, or its rename was
      made but its call then raised. */
  lemma ReplacementFails(states: seq<State>, moves: seq<Move>, p: Pid, a: nat, k: nat)
    requires BeganAt(states, moves, p, a, k) && p in states[k].processes && moves[a].step.request == Replace
    requires states[k].processes[p].Closing? || states[k].processes[p].Done?
    ensures states[k].processes[p].result == Failed <==> exists j: nat :: a < j < k && FailedBy(states, moves, p, j)
  {
    Linearizable(states, moves, p, a, k);
    var result := states[k].processes[p].result;
    var j: nat :| a <= j < k && DecidesAt(states, moves, p, a, j, Replace, result);
    assert j != a;
    assert FailedBy(states, moves, p, j) <==> result == Failed;
    assert forall i: nat :: FailedBy(states, moves, p, i) ==> i < |moves| && moves[i].who == p && Decides(moves[i].step);
    hide Next, DecidesAt, FailedBy;
    forall i: nat | a < i < k && FailedBy(states, moves, p, i)
      ensures i == j
    {
      if i < j {
        OneEffectPerOperation(states, moves, i, j);
      } else if j < i {
        OneEffectPerOperation(states, moves, j, i);
      }
    }
  }

  ghost predicate FailedBy(states: seq<State>, moves: seq<Move>, p: Pid, j: nat) {
    && |states| == |moves| + 1 && j < |moves| && moves[j].who == p
    && (moves[j].step.FailReplace?
        || (moves[j].step.Rename? && p in states[j + 1].processes && states[j + 1].processes[p].Failing?))
  }

  // ---- Going on ---------------------------------------------------------------------------

  /** The process is in an operation. */
  predicate Working(pc: Pc) {
    !pc.Idle? && !pc.Done? && !pc.Killed?
  }

  /** `p` can take a step of its operation; one that fails a replacement only over a torn
      log. */
  ghost predicate CanStep(s: State, p: Pid) {
    exists step, t :: Next(s, p, step, t) && !step.Start? && !step.Kill? && (step.FailReplace? ==> Torn(s))
  }

  lemma {:induction false} AboveAll(inodes: set<Inode>) returns (i: Inode)
    ensures forall j :: j in inodes ==> j < i
  {
    if inodes == {} {
      i := 0;
    } else {
      var j :| j in inodes;
      var above := AboveAll(inodes - {j});
      i := if above > j then above else j + 1;
      assert forall k :: k in inodes ==> k == j || k in inodes - {j};
    }
  }

  /** A process in its operation can always go on, except to wait for a lock that another
      process holds. */
  lemma NeverStuck(s: State, p: Pid)
    requires Inv(s) && p in s.processes && Working(s.processes[p])
    requires s.processes[p].Waiting? ==> Grantable(s, p, s.processes[p])
    ensures CanStep(s, p)
  {
    var pc := s.processes[p];
    match pc
    case Opening(request, existed) =>
      var inode := AboveAll(s.files.Keys);
      assert inode !in s.files;
      OpenIsNext(s, p, inode);
    case Waiting(request, existed, i) =>
      assert Next(s, p, Acquire, At(s, p, Locked(request, existed, i)));
    case Locked(request, existed, i) =>
      assert Next(s, p, Check, At(s, p, if s.name == Some(i) then Holding(request, existed, i) else Pc.Opening(request, existed)));
    case Holding(request, existed, i) =>
      HoldsNamed(s, p);
      HoldingIsNext(s, p);
    case Writing(i, line) =>
      HoldsNamed(s, p);
      WritingIsNext(s, p);
    case Staged(existed, i, new_, temp) =>
      HoldsNamed(s, p);
      StagedIsNext(s, p);
    case Failing(existed, i, renamed) =>
      assert PcOk(s.name, s.files, pc) && Uses(pc, i);
      FailingIsNext(s, p);
    case Unlinking(i) =>
      assert Next(s, p, Unlink, At(s, p, Closing(i, true, Failed)).(name := None));
    case Closing(i, exclusive, result) =>
      assert Next(s, p, Close, At(s, p, Done(result)));
  }

  lemma OpenIsNext(s: State, p: Pid, inode: Inode)
    requires p in s.processes && s.processes[p].Opening? && inode !in s.files
    ensures CanStep(s, p)
  {
    var pc := s.processes[p];
    var t :=
      if s.name.Some? then At(s, p, Waiting(pc.request, pc.existed, s.name.value))
      else if pc.request == Read then At(s, p, Done(Lines([])))
      else
        At(s, p, Waiting(pc.request, pc.existed, inode))
        .(name := Some(inode), files := s.files[inode := File([], false, true)]);
    assert Next(s, p, Open(inode), t);
  }

  lemma HoldingIsNext(s: State, p: Pid)
    requires p in s.processes && s.processes[p].Holding? && s.processes[p].i in s.files
    requires Torn(s) <==> s.files[s.processes[p].i].torn
    ensures CanStep(s, p)
  {
    var pc := s.processes[p];
    var file := s.files[pc.i];
    hide Grantable, HasNewer;
    match pc.request
    case Read =>
      assert Next(s, p, ReadAll, At(s, p, Closing(pc.i, false, if file.torn then Failed else Lines(file.lines))));
    case Append(body, at) =>
      if file.torn || HasNewer(file.lines) {
        assert Next(s, p, RefuseAppend, At(s, p, Closing(pc.i, true, Failed)));
      } else {
        var t := At(s, p, Writing(pc.i, Numbered(file.lines, body, at)))
                 .(files := s.files[pc.i := File(file.lines, true, false)]);
        assert Next(s, p, WritePart, t);
      }
    case Replace =>
      if file.torn {
        assert Next(s, p, FailReplace, At(s, p, Failing(pc.existed, pc.i, false)));
      } else {
        var temp := AboveAll(s.files.Keys);
        var t := At(s, p, Staged(pc.existed, pc.i, [], temp)).(files := s.files[temp := File([], false, true)]);
        assert Next(s, p, Rewrite([], temp), t);
      }
  }

  lemma WritingIsNext(s: State, p: Pid)
    requires p in s.processes && s.processes[p].Writing? && s.processes[p].i in s.files
    ensures CanStep(s, p)
  {
    var pc := s.processes[p];
    var t := At(s, p, Closing(pc.i, true, AppendedLine(pc.line)))
             .(files := s.files[pc.i := File(s.files[pc.i].lines + [pc.line], false, false)],
               effects := s.effects + [Appended(pc.line)]);
    assert Next(s, p, WriteRest, t);
  }

  lemma StagedIsNext(s: State, p: Pid)
    requires p in s.processes && s.processes[p].Staged? && s.processes[p].i in s.files
    ensures CanStep(s, p)
  {
    var pc := s.processes[p];
    var t := At(s, p, Closing(pc.i, true, ReplacedBy(pc.new_)))
             .(name := Some(pc.temp), effects := s.effects + [Replaced(s.files[pc.i].lines, pc.new_)]);
    assert Next(s, p, Rename, t);
  }

  lemma FailingIsNext(s: State, p: Pid)
    requires p in s.processes && s.processes[p].Failing? && s.processes[p].i in s.files
    ensures CanStep(s, p)
  {
    var pc := s.processes[p];
    var t := At(s, p, if !pc.existed && s.files[pc.i].empty && s.name == Some(pc.i) then Unlinking(pc.i)
                      else Closing(pc.i, true, Failed));
    assert Next(s, p, Stat, t);
  }

  /** Some process can always go on while any is in an operation: one that waits, waits
      for another that can. */
  lemma NoDeadlock(s: State, p: Pid)
    requires Inv(s) && p in s.processes && Working(s.processes[p])
    ensures exists q :: q in s.processes && CanStep(s, q)
  {
    var pc := s.processes[p];
    if pc.Waiting? && !Grantable(s, p, pc) {
      var q :| q in s.processes && q != p && Holds(s.processes[q], pc.i);
      hide Inv, CanStep, Grantable;
      NeverStuck(s, q);
    } else {
      hide Inv, CanStep, Grantable;
      NeverStuck(s, p);
    }
  }
}
