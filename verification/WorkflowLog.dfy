/** The workflow log's lines: their numbers and formats, and which of the owner's directions
    stand. */
module WorkflowLog {
  import opened Options
  import opened WorkflowGraph

  /** The steps whose runs the log records. */
  datatype RunStep = DesignRun | ReviewRun | TriageRun | PlanRun | ImplementRun
    | ValidateRun | MergeRun | CloseoutRun | ArchiveCleanupRun

  datatype LineStep = Orchestrator | Conversion | Opening | Run(run: RunStep) | NoStep | OtherLine(text: string)

  datatype Outcome = Finished | Returned | Question | Blocked | Stopped | RoundAgreed | Decided
    | Converted | Opened | OtherOutcome(text: string)

  datatype Phase = DesignPhase | PlanningPhase | ImplementationPhase | OtherPhase(text: string)

  datatype NextField = NoNext | TextNext(text: string) | TargetNext(target: Target)

  /** A review's record, by the parts its name is read for. */
  datatype RecordName = RecordName(number: nat, kind: KindName, external: bool)

  /** A line but for what the log assigns it. */
  datatype Body = Body(
    step: LineStep, outcome: Outcome, owner: bool,
    kind: Option<KindName>, next: NextField, message: Option<string>, returnTo: Option<Phase>,
    triaged: seq<RecordName>, resumes: Option<int>, resolves: Option<int>, readsRun: Option<int>,
    denials: bool)

  datatype Format = NoFormat | Number(n: int) | NoNumber

  datatype Line = Line(number: int, at: Option<string>, format: Format, body: Body)

  /** The format of every line this engine writes. */
  const FORMAT: Format := Number(2)

  // ---- Formats and numbers ---------------------------------------------------

  predicate Readable(mark: Format) {
    mark.NoFormat? || (mark.Number? && mark.n <= FORMAT.n)
  }

  predicate HasNewer(lines: seq<Line>) {
    exists line :: line in lines && !Readable(line.format)
  }

  predicate HasOlder(lines: seq<Line>) {
    exists line :: line in lines && Readable(line.format) && line.format != FORMAT
  }

  predicate Current(lines: seq<Line>) {
    forall line :: line in lines ==> line.format == FORMAT
  }

  /** A log is in the current format exactly when it is neither newer nor older. */
  lemma CurrentIsNeither(lines: seq<Line>)
    ensures Current(lines) <==> !HasNewer(lines) && !HasOlder(lines)
  {
  }

  /** The highest seq; 0 of an empty log. */
  function MaxSeq(lines: seq<Line>): (max: int)
    ensures forall line :: line in lines ==> line.number <= max
    ensures if lines == [] then max == 0 else exists line :: line in lines && line.number == max
  {
    if lines == [] then 0
    else if |lines| == 1 then lines[0].number
    else
      var rest, last := MaxSeq(lines[..|lines| - 1]), lines[|lines| - 1];
      assert forall line :: line in lines ==> line in lines[..|lines| - 1] || line == last;
      if rest < last.number then last.number else rest
  }

  /** `body` as the line that follows `lines`. */
  function Numbered(lines: seq<Line>, body: Body, at: string): Line {
    Line(MaxSeq(lines) + 1, Some(at), FORMAT, body)
  }

  ghost predicate Increasing(lines: seq<Line>) {
    forall i, j :: 0 <= i < j < |lines| ==> lines[i].number < lines[j].number
  }

  /** Appending keeps the seqs strictly increasing, whatever is appended. */
  lemma NumberedKeepsIncreasing(lines: seq<Line>, body: Body, at: string)
    requires Increasing(lines)
    ensures Increasing(lines + [Numbered(lines, body, at)])
  {
    var all := lines + [Numbered(lines, body, at)];
    forall i, j | 0 <= i < j < |all|
      ensures all[i].number < all[j].number
    {
      assert all[i] in lines;
    }
  }

  // ---- Runs ------------------------------------------------------------------

  predicate IsRunLine(line: Line) {
    line.body.step.Run?
  }

  /** The step a run of the node is logged as; none of a node that logs none. */
  function Runs(n: Node): LineStep {
    match n
    case Design => Run(DesignRun)
    case Review(_) => Run(ReviewRun)
    case Triage(_) => Run(TriageRun)
    case Plan => Run(PlanRun)
    case Round => Run(ImplementRun)
    case Validate => Run(ValidateRun)
    case Merge => Run(MergeRun)
    case Closeout => Run(CloseoutRun)
    case ArchiveCleanup => Run(ArchiveCleanupRun)
    case RoundView | Done => NoStep
  }

  /** Whether the line is a run of the node. */
  predicate Ran(n: Node, line: Line) {
    if n == Round && line.body.outcome == RoundAgreed then true
    else if line.body.step != Runs(n) then false
    else
      match n
      case Review(kind) => line.body.kind == Some(KindNamed(kind))
      case Triage(kind) => exists name :: name in line.body.triaged && name.kind == KindNamed(kind)
      case _ => true
  }

  // ---- The owner's direction ---------------------------------------------------

  predicate IsDirection(line: Line) {
    line.body.outcome == Decided && line.body.owner && line.body.next.TargetNext?
  }

  predicate TookExit(n: Node, line: Line) {
    Ran(n, line) && line.body.outcome in {Finished, Returned, RoundAgreed}
  }

  function LastDirection(lines: seq<Line>): Option<Line> {
    if lines == [] then None
    else if IsDirection(lines[|lines| - 1]) then Some(lines[|lines| - 1])
    else LastDirection(lines[..|lines| - 1])
  }

  /** The owner's latest direction, while no run of the node it directs has taken an
      exit after it. */
  function UnusedDirection(lines: seq<Line>): Option<Line> {
    var direction := LastDirection(lines);
    if direction.None? then None
    else if !direction.value.body.next.TargetNext? || NodeOf(direction.value.body.next.target).None? then None
    else if exists line :: line in lines && line.number > direction.value.number
                           && TookExit(NodeOf(direction.value.body.next.target).value, line) then None
    else direction
  }

  /** A run of the node that ended with an exit, as the log writes each: by its step, and
      a review by its kind, a triage by the kind of a review it names, the round by its
      agreement too. */
  ghost predicate EndedRun(n: Node, line: Line) {
    var step, outcome := line.body.step, line.body.outcome;
    && (outcome == Finished || outcome == Returned || outcome == RoundAgreed)
    && match n
       case Design => step == Run(DesignRun)
       case Review(kind) => step == Run(ReviewRun) && line.body.kind == Some(KindNamed(kind))
       case Triage(kind) =>
         step == Run(TriageRun) && exists i :: 0 <= i < |line.body.triaged| && line.body.triaged[i].kind == KindNamed(kind)
       case Plan => step == Run(PlanRun)
       case Round => step == Run(ImplementRun) || outcome == RoundAgreed
       case Validate => step == Run(ValidateRun)
       case Merge => step == Run(MergeRun)
       case Closeout => step == Run(CloseoutRun)
       case ArchiveCleanup => step == Run(ArchiveCleanupRun)
       case RoundView => step == NoStep
       case Done => step == NoStep
  }

  lemma ExitIsEndedRun(n: Node, line: Line)
    ensures TookExit(n, line) <==> EndedRun(n, line)
  {
  }

  /** The line is a decision of the owner's with a target. */
  ghost predicate Directs(line: Line) {
    line.body.outcome == Decided && line.body.owner && line.body.next.TargetNext?
  }

  /** The direction at `i` is the last, and nothing after it ended a run of its node. */
  ghost predicate StandsFrom(lines: seq<Line>, i: nat) {
    && i < |lines| && Directs(lines[i]) && NodeOf(lines[i].body.next.target).Some?
    && (forall j :: i < j < |lines| ==> !Directs(lines[j]))
    && (forall j :: i < j < |lines| ==> !EndedRun(NodeOf(lines[i].body.next.target).value, lines[j]))
  }

  lemma {:induction false} LastDirectionAt(lines: seq<Line>) returns (i: int)
    ensures LastDirection(lines).None? ==> i == -1 && forall j :: 0 <= j < |lines| ==> !IsDirection(lines[j])
    ensures LastDirection(lines).Some? ==>
      && 0 <= i < |lines| && IsDirection(lines[i]) && LastDirection(lines) == Some(lines[i])
      && forall j :: i < j < |lines| ==> !IsDirection(lines[j])
  {
    if lines == [] {
      i := -1;
    } else if IsDirection(lines[|lines| - 1]) {
      i := |lines| - 1;
    } else {
      i := LastDirectionAt(lines[..|lines| - 1]);
    }
  }

  /** The unused direction is the last one, if no later run has used it: the seqs say of
      the lines what their places do. */
  lemma UnusedMeansStands(lines: seq<Line>, d: Line)
    requires Increasing(lines)
    ensures UnusedDirection(lines) == Some(d) <==> exists i: nat :: StandsFrom(lines, i) && lines[i] == d
  {
    var last := LastDirectionAt(lines);
    assert forall line :: IsDirection(line) <==> Directs(line);
    assert forall line :: Directs(line) ==> line.body.next.TargetNext?;
    forall n, line
      ensures TookExit(n, line) <==> EndedRun(n, line)
    {
      ExitIsEndedRun(n, line);
    }
    hide IsDirection, Directs, TookExit, EndedRun, NodeOf;
    if UnusedDirection(lines) == Some(d) {
      forall j | last < j < |lines|
        ensures !TookExit(NodeOf(lines[last].body.next.target).value, lines[j])
      {
        assert lines[j] in lines && lines[j].number > lines[last].number;
      }
      assert StandsFrom(lines, last);
    }
    if i: nat :| StandsFrom(lines, i) && lines[i] == d {
      assert i == last;
      forall line | line in lines && line.number > d.number
        ensures !TookExit(NodeOf(d.body.next.target).value, line)
      {
        var j :| 0 <= j < |lines| && lines[j] == line;
        assert j > i;
      }
    }
  }

  /** What one appended line does to the unused direction: a direction takes its
      place, a run of the directed node that ended with an exit uses it, and any other
      line, a run that ended with a question, a block, or a stop among them, leaves it. */
  lemma AppendedToDirection(lines: seq<Line>, line: Line)
    requires forall l :: l in lines ==> l.number < line.number
    ensures UnusedDirection(lines + [line]) ==
      if Directs(line) then
        (if NodeOf(line.body.next.target).Some? then Some(line) else None)
      else if UnusedDirection(lines).Some?
              && EndedRun(NodeOf(UnusedDirection(lines).value.body.next.target).value, line) then None
      else UnusedDirection(lines)
  {
    var all := lines + [line];
    assert all[..|all| - 1] == lines && all[|all| - 1] == line;
    if IsDirection(line) {
      forall l | l in all
        ensures l.number <= line.number
      {
        assert l in lines || l == line;
      }
    } else {
      var i := LastDirectionAt(lines);
      assert LastDirection(all) == LastDirection(lines);
      if LastDirection(lines).Some? {
        var d := LastDirection(lines).value;
        assert d in lines && d.number < line.number;
        assert forall l :: l in all <==> l in lines || l == line;
      }
    }
  }

  /** Some lines are appended, none of them a direction. */
  ghost predicate NoneDirects(more: seq<Line>) {
    forall line :: line in more ==> !Directs(line)
  }

  /** Once used, a direction stays used until another is given. */
  lemma {:induction false} UsedStaysUsed(lines: seq<Line>, more: seq<Line>)
    requires Increasing(lines + more) && UnusedDirection(lines).None? && NoneDirects(more)
    ensures UnusedDirection(lines + more).None?
  {
    if more == [] {
      assert lines + more == lines;
    } else {
      var init, last := more[..|more| - 1], more[|more| - 1];
      var before := lines + init;
      assert lines + more == before + [last];
      IncreasingPrefix(before, last);
      UsedStaysUsed(lines, init);
      AppendedToDirection(before, last);
    }
  }

  lemma IncreasingPrefix(lines: seq<Line>, line: Line)
    requires Increasing(lines + [line])
    ensures Increasing(lines) && forall l :: l in lines ==> l.number < line.number
  {
    var all := lines + [line];
    forall l | l in lines
      ensures l.number < line.number
    {
      var i :| 0 <= i < |lines| && lines[i] == l;
      assert all[i].number < all[|lines|].number;
    }
    forall i, j | 0 <= i < j < |lines|
      ensures lines[i].number < lines[j].number
    {
      assert all[i].number < all[j].number;
    }
  }

  /** Runs that ended with a question, a block, or a stop leave the direction standing. */
  lemma {:induction false} UnfinishedRunsKeepDirection(lines: seq<Line>, more: seq<Line>)
    requires Increasing(lines + more) && UnusedDirection(lines).Some?
    requires forall line :: line in more ==> IsRunLine(line) && line.body.outcome in {Question, Blocked, Stopped}
    ensures UnusedDirection(lines + more) == UnusedDirection(lines)
  {
    if more == [] {
      assert lines + more == lines;
    } else {
      var init, last := more[..|more| - 1], more[|more| - 1];
      var before := lines + init;
      assert lines + more == before + [last];
      IncreasingPrefix(before, last);
      UnfinishedRunsKeepDirection(lines, init);
      AppendedToDirection(before, last);
    }
  }

  /** Some line naming a step, and no direction, would use a direction to the node. */
  ghost predicate CanBeUsed(n: Node) {
    exists line: Line :: line.body.step != NoStep && !Directs(line) && EndedRun(n, line)
  }

  function RunOf(n: Node): Line {
    var kind := if n.Review? then Some(KindNamed(n.kind)) else None;
    var triaged := if n.Triage? then [RecordName(1, KindNamed(n.kind), false)] else [];
    Line(1, None, FORMAT, Body(Runs(n), Finished, false, kind, NoNext, None, None, triaged, None, None, None, false))
  }

  /** A direction can be used exactly if its node is one whose runs are logged. */
  lemma UsableUnlessUnlogged(n: Node)
    ensures CanBeUsed(n) <==> n != RoundView && n != Done
  {
    if n != RoundView && n != Done {
      if n.Triage? {
        assert RunOf(n).body.triaged[0].kind == KindNamed(n.kind);
      }
      assert RunOf(n).body.step != NoStep && !Directs(RunOf(n)) && EndedRun(n, RunOf(n));
    }
  }

  /** So a direction to the round view stays unused whatever lines naming a step follow,
      until another direction. */
  lemma {:induction false} RoundViewDirectionStands(lines: seq<Line>, more: seq<Line>)
    requires Increasing(lines + more) && UnusedDirection(lines).Some?
    requires NodeOf(UnusedDirection(lines).value.body.next.target) == Some(RoundView)
    requires NoneDirects(more) && forall line :: line in more ==> line.body.step != NoStep
    ensures UnusedDirection(lines + more) == UnusedDirection(lines)
  {
    if more == [] {
      assert lines + more == lines;
    } else {
      var init, last := more[..|more| - 1], more[|more| - 1];
      var before := lines + init;
      assert lines + more == before + [last];
      IncreasingPrefix(before, last);
      RoundViewDirectionStands(lines, init);
      AppendedToDirection(before, last);
    }
  }

  // ---- Revisiting a triage -------------------------------------------------------

  datatype Refusal = NoFinishedTriage | NamesNoReview | Superseded(later: int)

  function Triaged(line: Line): set<RecordName> {
    set name | name in line.body.triaged
  }

  predicate IsFinishedTriage(line: Line) {
    line.body.step == Run(TriageRun) && line.body.outcome == Finished
  }

  /** The first run at `seq`. */
  function RunAt(lines: seq<Line>, n: int): (run: Option<Line>)
    ensures run.Some? ==> run.value in lines && run.value.number == n && IsRunLine(run.value)
    ensures run.None? ==> forall line :: line in lines ==> line.number != n || !IsRunLine(line)
  {
    if lines == [] then None
    else if lines[0].number == n && IsRunLine(lines[0]) then Some(lines[0])
    else
      assert forall line :: line in lines ==> line == lines[0] || line in lines[1..];
      RunAt(lines[1..], n)
  }

  /** Whether `line` is a later triage of what the run at `n` triaged, or resumed it. */
  predicate Supersedes(line: Line, n: int, triaged: set<RecordName>) {
    && line.number > n && line.body.step == Run(TriageRun)
    && (triaged * Triaged(line) != {} || line.body.resumes == Some(n))
  }

  function LastSuperseding(lines: seq<Line>, n: int, triaged: set<RecordName>): (line: Option<Line>)
    ensures line.None? <==> forall l :: l in lines ==> !Supersedes(l, n, triaged)
  {
    if lines == [] then None
    else if Supersedes(lines[|lines| - 1], n, triaged) then Some(lines[|lines| - 1])
    else
      assert forall l :: l in lines ==> l in lines[..|lines| - 1] || l == lines[|lines| - 1];
      LastSuperseding(lines[..|lines| - 1], n, triaged)
  }

  /** Why the triage run at `n` cannot be revisited; none when it can. */
  function RevisitRefusal(lines: seq<Line>, n: int): Option<Refusal> {
    var run := RunAt(lines, n);
    if run.None? || !IsFinishedTriage(run.value) then Some(NoFinishedTriage)
    else if Triaged(run.value) == {} then Some(NamesNoReview)
    else
      var later := LastSuperseding(lines, n, Triaged(run.value));
      if later.Some? then Some(Superseded(later.value.number)) else None
  }

  /** The line at `i` is the first run at seq `n`. */
  ghost predicate FirstRunAt(lines: seq<Line>, n: int, i: nat) {
    && i < |lines| && lines[i].number == n && lines[i].body.step.Run?
    && forall j :: 0 <= j < i ==> !(lines[j].number == n && lines[j].body.step.Run?)
  }

  lemma {:induction false} RunAtIsFirst(lines: seq<Line>, n: int) returns (i: nat)
    ensures RunAt(lines, n).Some? ==> FirstRunAt(lines, n, i) && lines[i] == RunAt(lines, n).value
    ensures RunAt(lines, n).None? ==> forall j: nat :: !FirstRunAt(lines, n, j)
  {
    i := 0;
    if lines != [] && !(lines[0].number == n && lines[0].body.step.Run?) {
      var j := RunAtIsFirst(lines[1..], n);
      i := j + 1;
    }
  }

  /** The line is a later triage of a review that `run` triaged, or resumed `run`. */
  ghost predicate TriagesAgain(line: Line, run: Line) {
    && line.body.step == Run(TriageRun) && line.number > run.number
    && (line.body.resumes == Some(run.number)
        || exists review :: review in run.body.triaged && review in line.body.triaged)
  }

  lemma SupersedesIs(line: Line, run: Line)
    ensures Supersedes(line, run.number, Triaged(run)) <==> TriagesAgain(line, run)
  {
    if review :| review in run.body.triaged && review in line.body.triaged {
      assert review in Triaged(run) * Triaged(line);
    }
    if Triaged(run) * Triaged(line) != {} {
      var review :| review in Triaged(run) * Triaged(line);
    }
  }

  /** The last line that triages again what `run` did has seq `k`. */
  ghost predicate LastAgain(lines: seq<Line>, run: Line, k: int) {
    exists i :: 0 <= i < |lines| && TriagesAgain(lines[i], run) && lines[i].number == k
      && forall j :: i < j < |lines| ==> !TriagesAgain(lines[j], run)
  }

  lemma {:induction false} LastSupersedingIs(lines: seq<Line>, run: Line) returns (i: nat)
    ensures var last := LastSuperseding(lines, run.number, Triaged(run));
      && (last.None? ==> forall j :: 0 <= j < |lines| ==> !TriagesAgain(lines[j], run))
      && (last.Some? ==> i < |lines| && lines[i] == last.value && TriagesAgain(lines[i], run)
                         && forall j :: i < j < |lines| ==> !TriagesAgain(lines[j], run))
  {
    i := 0;
    if lines != [] {
      var n := |lines| - 1;
      SupersedesIs(lines[n], run);
      hide Supersedes, TriagesAgain, Triaged;
      if TriagesAgain(lines[n], run) {
        i := n;
      } else {
        i := LastSupersedingIs(lines[..n], run);
        assert forall j :: 0 <= j < n ==> lines[..n][j] == lines[j];
      }
    }
  }

  /** Exactly when a triage can be revisited, and why it cannot be: the first run at its
      seq is a finished triage that names a review, and no later run triages one again or
      resumed it. */
  lemma RevisitMeans(lines: seq<Line>, n: int)
    ensures match RevisitRefusal(lines, n)
      case None =>
        exists i: nat :: FirstRunAt(lines, n, i) && lines[i].body.step == Run(TriageRun) && lines[i].body.outcome == Finished
          && lines[i].body.triaged != [] && forall j :: 0 <= j < |lines| ==> !TriagesAgain(lines[j], lines[i])
      case Some(NoFinishedTriage) =>
        forall i: nat :: FirstRunAt(lines, n, i) ==>
          lines[i].body.step != Run(TriageRun) || lines[i].body.outcome != Finished
      case Some(NamesNoReview) => exists i: nat :: FirstRunAt(lines, n, i) && lines[i].body.triaged == []
      case Some(Superseded(k)) => exists i: nat :: FirstRunAt(lines, n, i) && LastAgain(lines, lines[i], k)
  {
    var i := RunAtIsFirst(lines, n);
    if RunAt(lines, n).Some? {
      var run := lines[i];
      var k := LastSupersedingIs(lines, run);
      assert run.body.triaged != [] ==> run.body.triaged[0] in Triaged(run);
      assert forall j: nat :: FirstRunAt(lines, n, j) ==> j == i;
      hide TriagesAgain, LastSuperseding;
    }
  }

  /** A later triage run that names a review of an earlier one bars revisiting it. */
  lemma LaterTriageBarsRevisit(lines: seq<Line>, n: int, later: Line, review: RecordName)
    requires RunAt(lines, n).Some? && review in Triaged(RunAt(lines, n).value)
    requires later in lines && later.number > n && later.body.step == Run(TriageRun) && review in Triaged(later)
    ensures RevisitRefusal(lines, n).Some?
  {
    assert review in Triaged(RunAt(lines, n).value) * Triaged(later);
    assert Supersedes(later, n, Triaged(RunAt(lines, n).value));
  }

  /** Of all the triages of one review at most one can be revisited. */
  lemma OneRevisitableTriagePerReview(lines: seq<Line>, a: int, b: int, review: RecordName)
    requires RevisitRefusal(lines, a).None? && RevisitRefusal(lines, b).None?
    requires review in Triaged(RunAt(lines, a).value) && review in Triaged(RunAt(lines, b).value)
    ensures a == b
  {
    if a < b {
      LaterTriageBarsRevisit(lines, a, RunAt(lines, b).value, review);
    } else if b < a {
      LaterTriageBarsRevisit(lines, b, RunAt(lines, a).value, review);
    }
  }

  predicate IsRevisit(line: Line, n: int) {
    line.body.outcome == Decided && line.body.owner && line.body.resumes == Some(n)
  }

  predicate IsResume(line: Line, n: int) {
    IsRunLine(line) && line.body.resumes == Some(n)
  }

  function LastRevisit(lines: seq<Line>, n: int): Option<Line> {
    if lines == [] then None
    else if IsRevisit(lines[|lines| - 1], n) then Some(lines[|lines| - 1])
    else LastRevisit(lines[..|lines| - 1], n)
  }

  /** The owner's direction to revisit the triage at `n`, while no run has resumed
      it since. */
  function RevisitDirection(lines: seq<Line>, n: int): Option<Line> {
    var direction := LastRevisit(lines, n);
    if direction.None? then None
    else if exists line :: line in lines && line.number > direction.value.number && IsResume(line, n) then None
    else direction
  }

  lemma {:induction false} LastRevisitIsLine(lines: seq<Line>, n: int)
    ensures LastRevisit(lines, n).Some? ==>
      LastRevisit(lines, n).value in lines && IsRevisit(LastRevisit(lines, n).value, n)
  {
    if lines != [] && !IsRevisit(lines[|lines| - 1], n) {
      LastRevisitIsLine(lines[..|lines| - 1], n);
      assert forall line :: line in lines[..|lines| - 1] ==> line in lines;
    }
  }

  /** The line at `i` is the owner's last decision to revisit the run at `n`, and no run
      after it resumed that. */
  ghost predicate RevisitFrom(lines: seq<Line>, n: int, i: nat) {
    && i < |lines| && lines[i].body.outcome == Decided && lines[i].body.owner && lines[i].body.resumes == Some(n)
    && forall j :: i < j < |lines| && lines[j].body.resumes == Some(n) ==>
         !(lines[j].body.outcome == Decided && lines[j].body.owner) && !lines[j].body.step.Run?
  }

  lemma {:induction false} LastRevisitAt(lines: seq<Line>, n: int) returns (i: nat)
    ensures LastRevisit(lines, n).None? ==> forall j :: 0 <= j < |lines| ==> !IsRevisit(lines[j], n)
    ensures LastRevisit(lines, n).Some? ==>
      && i < |lines| && IsRevisit(lines[i], n) && LastRevisit(lines, n) == Some(lines[i])
      && forall j :: i < j < |lines| ==> !IsRevisit(lines[j], n)
  {
    i := 0;
    if lines != [] {
      if IsRevisit(lines[|lines| - 1], n) {
        i := |lines| - 1;
      } else {
        i := LastRevisitAt(lines[..|lines| - 1], n);
      }
    }
  }

  /** The direction to revisit that stands is the last, if no later run resumed the
      triage: here too the seqs say of the lines what their places do. */
  lemma RevisitMeansStands(lines: seq<Line>, n: int, d: Line)
    requires Increasing(lines)
    ensures RevisitDirection(lines, n) == Some(d) <==> exists i: nat :: RevisitFrom(lines, n, i) && lines[i] == d
  {
    var last := LastRevisitAt(lines, n);
    if RevisitDirection(lines, n) == Some(d) {
      forall j | last < j < |lines|
        ensures !IsResume(lines[j], n)
      {
        assert lines[j] in lines && lines[j].number > lines[last].number;
      }
      assert RevisitFrom(lines, n, last);
    }
    if i: nat :| RevisitFrom(lines, n, i) && lines[i] == d {
      assert IsRevisit(lines[i], n) && forall j :: i < j < |lines| ==> !IsRevisit(lines[j], n);
      assert i == last;
      forall line | line in lines && line.number > d.number
        ensures !IsResume(line, n)
      {
        var j :| 0 <= j < |lines| && lines[j] == line;
        assert j > i;
      }
    }
  }

  /** What one appended line does to a revisit: a direction opens it, a run resuming the
      triage closes it. */
  lemma AppendedToRevisit(lines: seq<Line>, line: Line, n: int)
    requires forall l :: l in lines ==> l.number < line.number
    ensures RevisitDirection(lines + [line], n) ==
      if IsRevisit(line, n) then Some(line)
      else if IsResume(line, n) then None
      else RevisitDirection(lines, n)
  {
    var all := lines + [line];
    assert all[..|all| - 1] == lines && all[|all| - 1] == line;
    assert forall l :: l in all <==> l in lines || l == line;
    LastRevisitIsLine(lines, n);
    assert LastRevisit(all, n) == if IsRevisit(line, n) then Some(line) else LastRevisit(lines, n);
    if !IsRevisit(line, n) && LastRevisit(lines, n).Some? && IsResume(line, n) {
      assert line in all && line.number > LastRevisit(lines, n).value.number;
    }
  }

  lemma {:induction false} GoneStaysGone(lines: seq<Line>, n: int, d: Line, k: nat)
    requires Increasing(lines) && k <= |lines| && RevisitDirection(lines[..k], n) != Some(d)
    requires d in lines[..k]
    ensures RevisitDirection(lines, n) != Some(d)
    decreases |lines|
  {
    if k < |lines| {
      var init, last := lines[..|lines| - 1], lines[|lines| - 1];
      assert init + [last] == lines && init[..k] == lines[..k];
      IncreasingPrefix(init, last);
      GoneStaysGone(init, n, d, k);
      AppendedToRevisit(init, last, n);
      assert forall l :: l in lines[..k] ==> l in init;
    } else {
      assert lines[..k] == lines;
    }
  }

  lemma IncreasingUpTo(lines: seq<Line>, k: nat)
    requires Increasing(lines) && k <= |lines|
    ensures Increasing(lines[..k])
  {
  }

  lemma ResumeUses(before: seq<Line>, line: Line, n: int, d: Line)
    requires Increasing(before + [line]) && IsResume(line, n) && RevisitDirection(before, n) == Some(d)
    ensures RevisitDirection(before + [line], n) != Some(d) && d in before + [line]
  {
    LastRevisitIsLine(before, n);
    IncreasingPrefix(before, line);
    AppendedToRevisit(before, line, n);
  }

  /** In every log, a direction to revisit stands for at most one run resuming the
      triage: once a run resumed it, the direction stands for no later one. */
  lemma DirectionResumesOnce(lines: seq<Line>, n: int, i: nat, j: nat, d: Line)
    requires Increasing(lines) && i < j < |lines| && IsResume(lines[i], n)
    requires RevisitDirection(lines[..i], n) == Some(d)
    ensures RevisitDirection(lines[..j], n) != Some(d)
  {
    hide *;
    var upTo := lines[..j];
    assert upTo[..i + 1] == lines[..i] + [lines[i]];
    IncreasingUpTo(lines, i + 1);
    IncreasingUpTo(lines, j);
    assert lines[..i + 1] == lines[..i] + [lines[i]];
    ResumeUses(lines[..i], lines[i], n, d);
    GoneStaysGone(upTo, n, d, i + 1);
  }

  function Count(lines: seq<Line>, which: Line -> bool): (n: nat)
    ensures n <= |lines|
  {
    if lines == [] then 0
    else Count(lines[..|lines| - 1], which) + if which(lines[|lines| - 1]) then 1 else 0
  }

  /** Every run that resumed the run at `n` was appended while a direction to revisit it
      stood; seqs increase. */
  ghost predicate Authorized(lines: seq<Line>, n: int) {
    && Increasing(lines)
    && forall i :: 0 <= i < |lines| && IsResume(lines[i], n) && !IsRevisit(lines[i], n)
         ==> RevisitDirection(lines[..i], n).Some?
  }

  /** Where each resume of a triage was appended while a direction stood, there are never
      more of them than directions to revisit it, and fewer while one stands. */
  lemma {:induction false} EachRevisitResumesOnce(lines: seq<Line>, n: int)
    requires Authorized(lines, n)
    ensures Count(lines, line => IsResume(line, n) && !IsRevisit(line, n))
            + (if RevisitDirection(lines, n).Some? then 1 else 0)
            <= Count(lines, line => IsRevisit(line, n))
  {
    if lines != [] {
      var init, last := lines[..|lines| - 1], lines[|lines| - 1];
      assert init + [last] == lines;
      IncreasingPrefix(init, last);
      forall i | 0 <= i < |init| && IsResume(init[i], n) && !IsRevisit(init[i], n)
        ensures RevisitDirection(init[..i], n).Some?
      {
        assert init[..i] == lines[..i] && init[i] == lines[i];
      }
      EachRevisitResumesOnce(init, n);
      AppendedToRevisit(init, last, n);
    }
  }

  // ---- Decisions -------------------------------------------------------------------

  /** What a decision is recorded with. */
  datatype Decision = Decision(owner: bool, message: string, resolves: Option<int>, readsRun: Option<int>,
                               directs: Option<Target>, resumes: Option<int>)

  /** The last run at `n`: the one a decision naming the seq is about. */
  function LastRunAt(lines: seq<Line>, n: int): Option<Line> {
    if lines == [] then None
    else if lines[|lines| - 1].number == n && IsRunLine(lines[|lines| - 1]) then Some(lines[|lines| - 1])
    else LastRunAt(lines[..|lines| - 1], n)
  }

  predicate ReadableDenials(run: Option<Line>) {
    run.Some? && run.value.body.denials
  }

  /** The decision as a line's body, unless it breaks one of the log's rules. */
  function DecisionBody(lines: seq<Line>, standing: Standing, d: Decision): Option<Body> {
    if d.resolves.Some? && LastRunAt(lines, d.resolves.value).None? then None
    else if d.readsRun.Some? && !ReadableDenials(LastRunAt(lines, d.readsRun.value)) then None
    else if d.resumes.Some? && (!d.owner || d.directs.Some? || RevisitRefusal(lines, d.resumes.value).Some?) then None
    else if d.directs.Some? && (!d.owner || !EntryOutcome(d.directs.value, standing, true).Accepted?) then None
    else
      Some(Body(Orchestrator, Decided, d.owner, None, if d.directs.Some? then TargetNext(d.directs.value) else NoNext,
                Some(d.message), None, [], d.resumes, d.resolves, d.readsRun, false))
  }

  /** The line at `i` is the last run at seq `n`. */
  ghost predicate LastRunIs(lines: seq<Line>, n: int, i: nat) {
    && i < |lines| && lines[i].number == n && lines[i].body.step.Run?
    && forall j :: i < j < |lines| ==> !(lines[j].number == n && lines[j].body.step.Run?)
  }

  lemma {:induction false} LastRunAtIs(lines: seq<Line>, n: int) returns (i: nat)
    ensures LastRunAt(lines, n).Some? ==> LastRunIs(lines, n, i) && lines[i] == LastRunAt(lines, n).value
    ensures LastRunAt(lines, n).None? ==> forall j :: 0 <= j < |lines| ==> !(lines[j].number == n && lines[j].body.step.Run?)
  {
    i := 0;
    if lines != [] {
      if lines[|lines| - 1].number == n && lines[|lines| - 1].body.step.Run? {
        i := |lines| - 1;
      } else {
        var init := lines[..|lines| - 1];
        i := LastRunAtIs(init, n);
        assert forall j :: 0 <= j < |init| ==> init[j] == lines[j];
      }
    }
  }

  /** Exactly which decisions are recorded, and as what: one that resolves a run resolves
      one there is; one that reads a run reads the last at its seq, with denials; only the
      owner revisits, a triage that can be and with no step, or directs, to an entry that
      is accepted. */
  lemma DecisionRecorded(lines: seq<Line>, standing: Standing, d: Decision)
    ensures var body := DecisionBody(lines, standing, d);
      && (body.Some? <==>
            && (d.resolves.Some? ==> exists i: nat :: LastRunIs(lines, d.resolves.value, i))
            && (d.readsRun.Some? ==> exists i: nat :: LastRunIs(lines, d.readsRun.value, i) && lines[i].body.denials)
            && (d.resumes.Some? ==> d.owner && d.directs.None? && RevisitRefusal(lines, d.resumes.value).None?)
            && (d.directs.Some? ==> d.owner && EntryOutcome(d.directs.value, standing, true).Accepted?))
      && (body.Some? ==>
            && body.value.step == Orchestrator && body.value.outcome == Decided && body.value.owner == d.owner
            && body.value.message == Some(d.message) && body.value.kind.None? && body.value.triaged == []
            && body.value.resolves == d.resolves && body.value.readsRun == d.readsRun && body.value.resumes == d.resumes
            && !body.value.denials
            && (d.directs.Some? <==> body.value.next.TargetNext?) && !body.value.next.TextNext?
            && (d.directs.Some? && body.value.next.TargetNext? ==> body.value.next.target == d.directs.value))
  {
    if d.resolves.Some? {
      var i := LastRunAtIs(lines, d.resolves.value);
    }
    if d.readsRun.Some? {
      var i := LastRunAtIs(lines, d.readsRun.value);
      assert forall j: nat :: LastRunAt(lines, d.readsRun.value).Some? && LastRunIs(lines, d.readsRun.value, j) ==> j == i;
    }
    hide RevisitRefusal, EntryOutcome, LastRunAt;
  }

  /** A direction to a step, once recorded, is the unused one; one to revisit a triage
      stands, and leaves the unused direction as it is. */
  lemma RecordedDecisionStands(lines: seq<Line>, standing: Standing, d: Decision, at: string)
    requires DecisionBody(lines, standing, d).Some?
    requires d.directs.Some? ==> Written(d.directs.value)
    ensures var line := Numbered(lines, DecisionBody(lines, standing, d).value, at);
      && (d.directs.Some? ==> UnusedDirection(lines + [line]) == Some(line))
      && (d.directs.None? ==> UnusedDirection(lines + [line]) == UnusedDirection(lines))
      && (d.resumes.Some? ==> RevisitDirection(lines + [line], d.resumes.value) == Some(line))
  {
    var line := Numbered(lines, DecisionBody(lines, standing, d).value, at);
    if d.directs.Some? {
      AcceptedEntry(d.directs.value, standing, true);
    }
    AppendedToDirection(lines, line);
    if d.resumes.Some? {
      AppendedToRevisit(lines, line, d.resumes.value);
    }
  }
}
