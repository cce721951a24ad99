/**
 The workflow log as processes share it: each opens the file the log's name holds,
 waits for its lock, and goes on only if the name still holds that file. A process
 reads the log, appends to it, or replaces it whole by a rename; any may be killed
 between two steps. An inode in use is never given to another file.
 */
module LogProtocol {
  import opened Options
  import opened WorkflowLog

  type Pid = nat
  type Inode = nat

  /** A file: its whole lines, whether a line is left half-written after them, and
      whether its size is zero. */
  datatype File = File(lines: seq<Line>, torn: bool, empty: bool)

  datatype Request = Read | Append(body: Body, at: string) | Replace

  datatype Result = Lines(lines: seq<Line>) | AppendedLine(line: Line) | ReplacedBy(lines: seq<Line>) | Failed

  /** Where a process is in its operation. `existed` is whether the log did before it
      was first opened, and `i` the inode opened. */
  datatype Pc =
    | Idle
    | Opening(request: Request, existed: bool)
    | Waiting(request: Request, existed: bool, i: Inode)
    | Locked(request: Request, existed: bool, i: Inode)
    | Holding(request: Request, existed: bool, i: Inode)
    | Writing(i: Inode, line: Line)
    | Staged(existed: bool, i: Inode, new_: seq<Line>, temp: Inode)
    | Failing(existed: bool, i: Inode, renamed: bool)
    | Unlinking(i: Inode)
    | Closing(i: Inode, exclusive: bool, result: Result)
    | Done(result: Result)
    | Killed

  /** An operation as it takes effect; a replacement with the lines it was handed. */
  datatype Effect = Appended(line: Line) | Replaced(handed: seq<Line>, new_: seq<Line>)

  /** The log's name, the files, the processes, the log's first lines, and every effect
      on it so far, in order. */
  datatype State = State(name: Option<Inode>, files: map<Inode, File>, processes: map<Pid, Pc>,
                         first: seq<Line>, effects: seq<Effect>)

  function Applied(lines: seq<Line>, e: Effect): seq<Line> {
    match e
    case Appended(line) => lines + [line]
    case Replaced(_, new_) => new_
  }

  /** The log as the effects, one after another, leave it. */
  function Replay(first: seq<Line>, effects: seq<Effect>): seq<Line> {
    if effects == [] then first
    else Applied(Replay(first, effects[..|effects| - 1]), effects[|effects| - 1])
  }

  /** The log as its name shows it; no log is an empty one. */
  function Contents(s: State): seq<Line> {
    if s.name.Some? && s.name.value in s.files then s.files[s.name.value].lines else []
  }

  // ---- Steps -------------------------------------------------------------------

  datatype Step =
    | Start(request: Request)
    | Open(inode: Inode)
    | Acquire
    | Check
    | ReadAll
    | RefuseAppend
    | WritePart
    | WriteRest
    | Rewrite(new_: seq<Line>, temp: Inode)
    | FailReplace
    | Rename
    | Stat
    | Unlink
    | Close
    | Kill

  /** The inode a process holds a lock on. */
  predicate Holds(pc: Pc, i: Inode) {
    match pc
    case Locked(_, _, j) => i == j
    case Holding(_, _, j) => i == j
    case Writing(j, _) => i == j
    case Staged(_, j, _, _) => i == j
    case Failing(_, j, _) => i == j
    case Unlinking(j) => i == j
    case Closing(j, _, _) => i == j
    case _ => false
  }

  /** Whether the lock a process holds or waits for is exclusive. */
  predicate Exclusive(pc: Pc) {
    match pc
    case Waiting(request, _, _) => request != Read
    case Locked(request, _, _) => request != Read
    case Holding(request, _, _) => request != Read
    case Closing(_, exclusive, _) => exclusive
    case _ => true
  }

  /** Whether the lock `pc` waits for is compatible with every lock others hold. */
  ghost predicate Grantable(s: State, p: Pid, pc: Pc)
    requires pc.Waiting?
  {
    forall q :: q in s.processes && q != p && Holds(s.processes[q], pc.i)
      ==> !Exclusive(pc) && !Exclusive(s.processes[q])
  }

  function At(s: State, p: Pid, pc: Pc): State {
    s.(processes := s.processes[p := pc])
  }

  ghost predicate Next(s: State, p: Pid, step: Step, t: State) {
    && p in s.processes
    && var pc := s.processes[p];
      match step
      case Start(request) =>
        // A read of a log whose name holds nothing ends at once.
        && (pc.Idle? || pc.Done? || pc.Killed?)
        && t == At(s, p, if request == Read && s.name.None? then Done(Lines([]))
                         else Pc.Opening(request, s.name.Some?))
      case Open(inode) =>
        && pc.Opening?
        && if s.name.Some? then t == At(s, p, Waiting(pc.request, pc.existed, s.name.value))
           else if pc.request == Read then t == At(s, p, Done(Lines([])))
           else
             && inode !in s.files
             && t == At(s, p, Waiting(pc.request, pc.existed, inode))
                     .(name := Some(inode), files := s.files[inode := File([], false, true)])
      case Acquire =>
        && pc.Waiting? && Grantable(s, p, pc)
        && t == At(s, p, Locked(pc.request, pc.existed, pc.i))
      case Check =>
        && pc.Locked?
        && t == At(s, p, if s.name == Some(pc.i) then Holding(pc.request, pc.existed, pc.i)
                         else Pc.Opening(pc.request, pc.existed))
      case ReadAll =>
        && pc.Holding? && pc.request == Read && pc.i in s.files
        && t == At(s, p, Closing(pc.i, false,
                                     if s.files[pc.i].torn then Failed else Lines(s.files[pc.i].lines)))
      case RefuseAppend =>
        && pc.Holding? && pc.request.Append? && pc.i in s.files
        && (s.files[pc.i].torn || HasNewer(s.files[pc.i].lines))
        && t == At(s, p, Closing(pc.i, true, Failed))
      case WritePart =>
        && pc.Holding? && pc.request.Append? && pc.i in s.files
        && !s.files[pc.i].torn && !HasNewer(s.files[pc.i].lines)
        && t == At(s, p, Writing(pc.i, Numbered(s.files[pc.i].lines, pc.request.body, pc.request.at)))
                .(files := s.files[pc.i := File(s.files[pc.i].lines, true, false)])
      case WriteRest =>
        && pc.Writing? && pc.i in s.files
        && t == At(s, p, Closing(pc.i, true, AppendedLine(pc.line)))
                .(files := s.files[pc.i := File(s.files[pc.i].lines + [pc.line], false, false)],
                  effects := s.effects + [Appended(pc.line)])
      case Rewrite(new_, temp) =>
        && pc.Holding? && pc.request == Replace && pc.i in s.files && !s.files[pc.i].torn
        && temp !in s.files
        && t == At(s, p, Staged(pc.existed, pc.i, new_, temp))
                .(files := s.files[temp := File(new_, false, new_ == [])])
      case FailReplace =>
        // The log does not parse, the rewrite refuses it, or its file cannot be written
        // or renamed.
        && ((pc.Holding? && pc.request == Replace) || pc.Staged?)
        && t == At(s, p, Failing(pc.existed, pc.i, false))
      case Rename =>
        && pc.Staged? && pc.i in s.files
        && (t == At(s, p, Closing(pc.i, true, ReplacedBy(pc.new_)))
                 .(name := Some(pc.temp), effects := s.effects + [Replaced(s.files[pc.i].lines, pc.new_)])
            || t == At(s, p, Failing(pc.existed, pc.i, true))
                    .(name := Some(pc.temp), effects := s.effects + [Replaced(s.files[pc.i].lines, pc.new_)]))
      case Stat =>
        && pc.Failing? && pc.i in s.files
        && t == At(s, p, if !pc.existed && s.files[pc.i].empty && s.name == Some(pc.i) then Unlinking(pc.i)
                         else Closing(pc.i, true, Failed))
      case Unlink =>
        // Whatever the name holds by now is what is unlinked.
        && pc.Unlinking?
        && t == At(s, p, Closing(pc.i, true, Failed)).(name := None)
      case Close =>
        && pc.Closing? && t == At(s, p, Done(pc.result))
      case Kill =>
        && !pc.Idle? && !pc.Done? && !pc.Killed?
        && t == At(s, p, Killed)
  }
}
