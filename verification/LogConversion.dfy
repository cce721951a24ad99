/** Converting a log of an older format, whole, to the current one. */
module LogConversion {
  import opened Options
  import opened WorkflowGraph
  import opened WorkflowLog

  // ---- One line ----------------------------------------------------------------

  /** The step a word names. */
  function ReadStep(text: string): StepName {
    if text == "review" then ReviewStep
    else if text == "triage" then TriageStep
    else if text == "implement" then ImplementStep
    else if text == "validate" then ValidateStep
    else if text == "design" then PlainStep(Design)
    else if text == "plan" then PlainStep(Plan)
    else if text == "round" then PlainStep(Round)
    else if text == "round-view" then PlainStep(RoundView)
    else if text == "merge" then PlainStep(Merge)
    else if text == "closeout" then PlainStep(Closeout)
    else if text == "archive-cleanup" then PlainStep(ArchiveCleanup)
    else if text == "done" then PlainStep(Done)
    else OtherStep(text)
  }

  function ReturnTarget(phase: Phase): Option<Target> {
    match phase
    case DesignPhase => Some(Target(Value(PlainStep(Design)), Absent, Absent, Absent, false))
    case PlanningPhase => Some(Target(Value(PlainStep(Plan)), Absent, Absent, Absent, false))
    case ImplementationPhase => Some(Target(Value(PlainStep(Round)), Absent, Absent, Absent, false))
    case OtherPhase(_) => None
  }

  /** A decision's word becomes the target it names, its kind with it. */
  function RewrittenDecision(b: Body): Body {
    if !b.next.TextNext? then b
    else
      var kind := if b.kind.Some? && b.kind != Some(OtherKind("")) then Value(b.kind.value) else Absent;
      b.(kind := None, next := TargetNext(Target(Value(ReadStep(b.next.text)), kind, Absent, Absent, false)))
  }

  /** A run's prose moves into its message, and a return gains the target it names. */
  function RewrittenRun(b: Body): Body {
    var moved := if !b.next.TextNext? then b
                 else b.(next := NoNext,
                         message := Some(if b.message.Some? && b.message != Some("")
                                         then b.message.value + "\n\nNext: " + b.next.text else b.next.text));
    if moved.outcome == Returned && moved.next.NoNext? && moved.returnTo.Some? && ReturnTarget(moved.returnTo.value).Some?
    then moved.(next := TargetNext(ReturnTarget(moved.returnTo.value).value)) else moved
  }

  /** The line in the current format; one already in it is kept as it is. */
  function Rewritten(line: Line): Line {
    if line.format == FORMAT then line
    else
      var body := if line.body.step == Orchestrator then RewrittenDecision(line.body)
                  else if IsRunLine(line) then RewrittenRun(line.body) else line.body;
      Line(line.number, line.at, FORMAT, body)
  }

  function RewrittenAll(lines: seq<Line>): (out: seq<Line>)
    ensures |out| == |lines|
    ensures forall i :: 0 <= i < |lines| ==> out[i] == Rewritten(lines[i])
  {
    seq(|lines|, i requires 0 <= i < |lines| => Rewritten(lines[i]))
  }

  /** What a line is and what it refers to: all that a reference to it, or by it, is
      about. */
  ghost predicate SameRun(a: Line, b: Line) {
    && a.number == b.number && a.at == b.at
    && a.body.step == b.body.step && a.body.outcome == b.body.outcome && a.body.owner == b.body.owner
    && a.body.triaged == b.body.triaged && a.body.denials == b.body.denials
    && a.body.resolves == b.body.resolves && a.body.readsRun == b.body.readsRun && a.body.resumes == b.body.resumes
  }

  lemma RewrittenIsSameRun(line: Line)
    ensures SameRun(line, Rewritten(line)) && Rewritten(line).format == FORMAT
    ensures Rewritten(Rewritten(line)) == Rewritten(line)
    ensures IsRunLine(line) ==> Rewritten(line).body.kind == line.body.kind
  {
  }

  /** A line written before this format. */
  predicate Old(line: Line) {
    line.format.NoFormat? || (line.format.Number? && line.format.n < 2)
  }

  /** The word, and the kind beside it, that an older line names the node by; a validation
      it could not name. */
  predicate NamedBy(n: Node, text: string, kind: Option<KindName>) {
    var plain := kind.None? || kind == Some(OtherKind(""));
    match n
    case Review(k) => text == "review" && kind == Some(KindNamed(k))
    case Triage(k) => text == "triage" && kind == Some(KindNamed(k))
    case Design => text == "design" && plain
    case Plan => text == "plan" && plain
    case Round => text == "round" && plain
    case RoundView => text == "round-view" && plain
    case Merge => text == "merge" && plain
    case Closeout => text == "closeout" && plain
    case ArchiveCleanup => text == "archive-cleanup" && plain
    case Done => text == "done" && plain
    case Validate => false
  }

  /** An older decision's word becomes a target of just the node the word names. */
  lemma DecisionNames(line: Line, n: Node)
    requires Old(line) && line.body.step == Orchestrator && line.body.next.TextNext?
    ensures var b := Rewritten(line).body;
      b.next.TargetNext? && b.kind.None?
      && (NodeOf(b.next.target) == Some(n) <==> NamedBy(n, line.body.next.text, line.body.kind))
  {
    var text := line.body.next.text;
    var b := Rewritten(line).body;
    assert b.next == TargetNext(Target(Value(ReadStep(text)), b.next.target.kind, Absent, Absent, false));
    ReadsWord(text, n);
  }

  /** What a word is read as. */
  lemma ReadsWord(text: string, n: Node)
    ensures ReadStep(text) == ReviewStep <==> text == "review"
    ensures ReadStep(text) == TriageStep <==> text == "triage"
    ensures ReadStep(text) == ValidateStep <==> text == "validate"
    ensures ReadStep(text) == ImplementStep <==> text == "implement"
    ensures !n.Review? && !n.Triage? ==> (ReadStep(text) == PlainStep(n) <==> NamedBy(n, text, None))
    ensures ReadStep(text).PlainStep? ==> ReadStep(text).Valid()
  {
  }

  /** An older return becomes a target of its phase's node; one of another phase names
      none. */
  lemma ReturnNames(line: Line)
    requires Old(line) && IsRunLine(line) && line.body.outcome == Returned && !line.body.next.TargetNext?
    ensures var next, phase := Rewritten(line).body.next, line.body.returnTo;
      && (phase == Some(DesignPhase) ==> next.TargetNext? && NodeOf(next.target) == Some(Design))
      && (phase == Some(PlanningPhase) ==> next.TargetNext? && NodeOf(next.target) == Some(Plan))
      && (phase == Some(ImplementationPhase) ==> next.TargetNext? && NodeOf(next.target) == Some(Round))
      && (phase.None? || phase.value.OtherPhase? ==> next.NoNext?)
  {
  }

  /** An older run's prose is kept as its message, or after it. */
  lemma ProseIsKept(line: Line)
    requires Old(line) && IsRunLine(line)
    ensures var b, message := Rewritten(line).body, line.body.message;
      && (line.body.next.TextNext? && (message.None? || message == Some("")) ==> b.message == Some(line.body.next.text))
      && (line.body.next.TextNext? && message.Some? && message != Some("") ==>
            b.message == Some(message.value + "\n\nNext: " + line.body.next.text))
      && (!line.body.next.TextNext? ==> b.message == message)
      && (line.body.outcome != Returned ==> b.next == if line.body.next.TextNext? then NoNext else line.body.next)
      && (line.body.next.TargetNext? ==> b.next == line.body.next)
  {
  }

  // ---- The whole log -------------------------------------------------------------

  /** A review with a triage file: its name, and whether the file has a heading that
      says what follows. */
  datatype TriageFile = TriageFile(review: RecordName, headed: bool)

  /** What the conversion reads of the change besides its log. */
  datatype Reading = Reading(hasRecords: bool, triages: seq<TriageFile>)

  /** The records a recorded triage outcome, or an earlier conversion, names. */
  predicate Attests(line: Line) {
    || (line.format == FORMAT && line.body.step == Run(TriageRun) && line.body.outcome in {Finished, Returned})
    || line.body.step == Conversion
  }

  predicate Attested(lines: seq<Line>, review: RecordName) {
    exists line :: line in lines && Attests(line) && review in line.body.triaged
  }

  datatype Failure = HoldsNewer | AlreadyConverted | TriageInProgress | NoDirection | DirectionRefused

  datatype Converted = NotConverted(why: Failure) | Lines(lines: seq<Line>)

  function Names(triages: seq<TriageFile>): seq<RecordName> {
    seq(|triages|, i requires 0 <= i < |triages| => triages[i].review)
  }

  function ConversionBody(reading: Reading, message: string): Body {
    Body(Conversion, Outcome.Converted, false, None, NoNext, Some(message), None,
         Names(reading.triages), None, None, None, false)
  }

  /** The converted log: every line rewritten, then the conversion's own. */
  function Convert(lines: seq<Line>, reading: Reading, message: string, at: string): Converted {
    if HasNewer(lines) then NotConverted(HoldsNewer)
    else if !HasOlder(lines) && (lines != [] || !reading.hasRecords) then NotConverted(AlreadyConverted)
    else if exists t :: t in reading.triages && !t.headed && !Attested(lines, t.review) then NotConverted(TriageInProgress)
    else
      var rewritten := RewrittenAll(lines);
      Lines(rewritten + [Numbered(rewritten, ConversionBody(reading, message), at)])
  }

  /** What the owner confirms: a direction given or proposed, or a declined return. */
  datatype Confirmation = Decline | Direct(target: Option<Target>, resolves: Option<int>, message: string)

  /** The conversion as written: the owner's direction follows it unless declined. */
  function ConfirmedLog(lines: seq<Line>, reading: Reading, standing: Standing, confirmed: Confirmation,
                   message: string, at: string): Converted {
    var made := Convert(lines, reading, message, at);
    if made.NotConverted? || confirmed.Decline? then made
    else if confirmed.target.None? then NotConverted(NoDirection)
    else
      var body := DecisionBody(made.lines, standing,
                               Decision(true, confirmed.message, confirmed.resolves, None, confirmed.target, None));
      if body.None? then NotConverted(DirectionRefused)
      else Lines(made.lines + [Numbered(made.lines, body.value, at)])
  }

  /** `out` is the log rewritten in place, with newer lines after it. */
  ghost predicate Keeps(lines: seq<Line>, out: seq<Line>) {
    && |out| > |lines| && out[..|lines|] == RewrittenAll(lines)
    && Current(out)
    && (forall i, j :: 0 <= i < |lines| <= j < |out| ==> out[i].number < out[j].number)
    && (Increasing(lines) ==> Increasing(out))
  }

  lemma AppendKeeps(lines: seq<Line>, body: Body, at: string)
    ensures var all := lines + [Numbered(lines, body, at)];
      && (Current(lines) ==> Current(all))
      && (Increasing(lines) ==> Increasing(all))
      && (forall i :: 0 <= i < |lines| ==> all[i].number < all[|lines|].number)
  {
    forall i | 0 <= i < |lines|
      ensures lines[i].number < Numbered(lines, body, at).number
    {
      assert lines[i] in lines;
    }
    if Increasing(lines) {
      NumberedKeepsIncreasing(lines, body, at);
    }
  }

  lemma KeepsOneMore(lines: seq<Line>, out: seq<Line>, body: Body, at: string)
    requires Keeps(lines, out)
    ensures Keeps(lines, out + [Numbered(out, body, at)])
  {
    AppendKeeps(out, body, at);
    assert (out + [Numbered(out, body, at)])[..|lines|] == out[..|lines|];
  }

  lemma RewrittenAllFacts(lines: seq<Line>)
    ensures Current(RewrittenAll(lines))
    ensures Increasing(lines) ==> Increasing(RewrittenAll(lines))
  {
    var out := RewrittenAll(lines);
    forall i | 0 <= i < |out|
      ensures out[i].number == lines[i].number && out[i].format == FORMAT
    {
      RewrittenIsSameRun(lines[i]);
    }
  }

  lemma ConvertKeeps(lines: seq<Line>, reading: Reading, message: string, at: string)
    requires Convert(lines, reading, message, at).Lines?
    ensures Keeps(lines, Convert(lines, reading, message, at).lines)
  {
    hide Rewritten, ConversionBody, HasNewer, HasOlder, Attested, Current, Increasing;
    var rewritten := RewrittenAll(lines);
    var body := ConversionBody(reading, message);
    RewrittenAllFacts(lines);
    AppendKeeps(rewritten, body, at);
    assert (rewritten + [Numbered(rewritten, body, at)])[..|lines|] == rewritten;
  }

  /** The old lines of a written conversion are the log's own, rewritten in place and
      keeping their seqs; the new ones take larger seqs; every line is current. */
  lemma ConversionKeepsLines(lines: seq<Line>, reading: Reading, standing: Standing, confirmed: Confirmation,
                             message: string, at: string)
    requires ConfirmedLog(lines, reading, standing, confirmed, message, at).Lines?
    ensures Keeps(lines, ConfirmedLog(lines, reading, standing, confirmed, message, at).lines)
  {
    hide Keeps, Convert, DecisionBody;
    ConvertKeeps(lines, reading, message, at);
    if !confirmed.Decline? {
      var made := Convert(lines, reading, message, at).lines;
      var body := DecisionBody(made, standing,
                               Decision(true, confirmed.message, confirmed.resolves, None, confirmed.target, None));
      KeepsOneMore(lines, made, body.value, at);
    }
  }

  lemma {:induction false} RewrittenFirstRun(lines: seq<Line>, n: int)
    ensures RunAt(lines, n).None? <==> RunAt(RewrittenAll(lines), n).None?
    ensures RunAt(lines, n).Some? ==>
      RunAt(RewrittenAll(lines), n) == Some(Rewritten(RunAt(lines, n).value))
      && SameRun(RunAt(lines, n).value, RunAt(RewrittenAll(lines), n).value)
  {
    if lines != [] {
      RewrittenIsSameRun(lines[0]);
      assert RewrittenAll(lines)[1..] == RewrittenAll(lines[1..]);
      RewrittenFirstRun(lines[1..], n);
      if RunAt(lines, n).Some? {
        RewrittenIsSameRun(RunAt(lines, n).value);
      }
    }
  }

  lemma {:induction false} RewrittenLastRun(lines: seq<Line>, n: int)
    ensures LastRunAt(lines, n).None? <==> LastRunAt(RewrittenAll(lines), n).None?
    ensures LastRunAt(lines, n).Some? ==> SameRun(LastRunAt(lines, n).value, LastRunAt(RewrittenAll(lines), n).value)
  {
    if lines != [] {
      var last := |lines| - 1;
      RewrittenIsSameRun(lines[last]);
      assert RewrittenAll(lines)[..last] == RewrittenAll(lines[..last]);
      RewrittenLastRun(lines[..last], n);
    }
  }

  lemma {:induction false} OtherLineIsNoRun(lines: seq<Line>, line: Line, n: int)
    requires !IsRunLine(line)
    ensures RunAt(lines + [line], n) == RunAt(lines, n) && LastRunAt(lines + [line], n) == LastRunAt(lines, n)
  {
    assert (lines + [line])[..|lines|] == lines;
    if lines != [] {
      assert (lines + [line])[1..] == lines[1..] + [line];
      OtherLineIsNoRun(lines[1..], line, n);
      FirstOfMore(lines, line, n);
    }
  }

  lemma FirstOfMore(lines: seq<Line>, line: Line, n: int)
    requires lines != [] && RunAt(lines[1..] + [line], n) == RunAt(lines[1..], n)
    ensures RunAt(lines + [line], n) == RunAt(lines, n)
  {
    assert (lines + [line])[1..] == lines[1..] + [line];
  }

  /** The same run, or none, is at a seq of two logs, the first there and the last. */
  ghost predicate SameRunsAt(a: seq<Line>, b: seq<Line>, n: int) {
    && (RunAt(a, n).None? <==> RunAt(b, n).None?)
    && (RunAt(a, n).Some? ==> SameRun(RunAt(a, n).value, RunAt(b, n).value))
    && (LastRunAt(a, n).None? <==> LastRunAt(b, n).None?)
    && (LastRunAt(a, n).Some? ==> SameRun(LastRunAt(a, n).value, LastRunAt(b, n).value))
  }

  /** Every reference still names the run it named: at each seq the written log, its new
      lines included, holds the same run as before, whether the first or the last of the
      seq is meant, or, where there was none, none. */
  lemma ReferencesStillName(lines: seq<Line>, reading: Reading, standing: Standing, confirmed: Confirmation,
                            message: string, at: string, n: int)
    requires ConfirmedLog(lines, reading, standing, confirmed, message, at).Lines?
    ensures SameRunsAt(lines, ConfirmedLog(lines, reading, standing, confirmed, message, at).lines, n)
  {
    var made := Convert(lines, reading, message, at).lines;
    ConvertKeepsRuns(lines, reading, message, at, n);
    if !confirmed.Decline? {
      var body := DecisionBody(made, standing,
                               Decision(true, confirmed.message, confirmed.resolves, None, confirmed.target, None));
      assert !IsRunLine(Numbered(made, body.value, at));
      hide SameRun, RunAt, LastRunAt, Numbered, Convert, DecisionBody;
      OtherLineIsNoRun(made, Numbered(made, body.value, at), n);
    }
  }

  lemma ConvertKeepsRuns(lines: seq<Line>, reading: Reading, message: string, at: string, n: int)
    requires Convert(lines, reading, message, at).Lines?
    ensures SameRunsAt(lines, Convert(lines, reading, message, at).lines, n)
  {
    var rewritten := RewrittenAll(lines);
    var line := Numbered(rewritten, ConversionBody(reading, message), at);
    assert Convert(lines, reading, message, at).lines == rewritten + [line] && !IsRunLine(line);
    hide SameRun, Rewritten, RunAt, LastRunAt, Numbered, Convert, IsRunLine;
    RewrittenFirstRun(lines, n);
    RewrittenLastRun(lines, n);
    OtherLineIsNoRun(rewritten, line, n);
  }

  /** A written conversion is refused a second time, whatever the change then holds. */
  lemma SecondConversionRefused(lines: seq<Line>, reading: Reading, standing: Standing, confirmed: Confirmation,
                                message: string, at: string, again: Reading, message': string, at': string)
    requires ConfirmedLog(lines, reading, standing, confirmed, message, at).Lines?
    ensures Convert(ConfirmedLog(lines, reading, standing, confirmed, message, at).lines, again, message', at')
            == NotConverted(AlreadyConverted)
  {
    ConversionKeepsLines(lines, reading, standing, confirmed, message, at);
    CurrentIsNeither(ConfirmedLog(lines, reading, standing, confirmed, message, at).lines);
  }

  /** A recorded triage outcome, or a conversion, names the review. */
  ghost predicate Recorded(lines: seq<Line>, review: RecordName) {
    exists i :: 0 <= i < |lines| && review in lines[i].body.triaged
      && (lines[i].body.step == Conversion
          || (lines[i].body.step == Run(TriageRun) && lines[i].format == Number(2)
              && (lines[i].body.outcome == Finished || lines[i].body.outcome == Returned)))
  }

  lemma RecordedIsAttested(lines: seq<Line>, review: RecordName)
    ensures Recorded(lines, review) <==> Attested(lines, review)
  {
    if Attested(lines, review) {
      var line :| line in lines && Attests(line) && review in line.body.triaged;
      var i :| 0 <= i < |lines| && lines[i] == line;
    }
    if Recorded(lines, review) {
      var i :| 0 <= i < |lines| && review in lines[i].body.triaged && Attests(lines[i]);
      assert lines[i] in lines;
    }
  }

  /** Exactly which logs are converted: none with a newer line; those with an older one,
      or empty beside records; unless a triage in progress is nowhere recorded. The
      conversion's own line names the reviews with triage files, and directs nothing. */
  lemma ConvertsOnlyOlder(lines: seq<Line>, reading: Reading, message: string, at: string)
    ensures var made := Convert(lines, reading, message, at);
      var newer := exists line :: line in lines && (line.format == NoNumber || (line.format.Number? && line.format.n > 2));
      var older := (exists line :: line in lines && Old(line)) || (lines == [] && reading.hasRecords);
      var open_ := exists t :: t in reading.triages && !t.headed && !Recorded(lines, t.review);
      && (made == NotConverted(HoldsNewer) <==> newer)
      && (made == NotConverted(AlreadyConverted) <==> !newer && !older)
      && (made == NotConverted(TriageInProgress) <==> !newer && older && open_)
      && (made.Lines? <==> !newer && older && !open_)
      && (made.Lines? ==>
            && |made.lines| == |lines| + 1 && made.lines[|lines|].body.step == Conversion
            && made.lines[|lines|].body.outcome == Outcome.Converted && made.lines[|lines|].body.next == NoNext
            && made.lines[|lines|].body.message == Some(message)
            && !made.lines[|lines|].body.owner && !made.lines[|lines|].body.denials
            && forall r :: r in made.lines[|lines|].body.triaged <==> exists t :: t in reading.triages && t.review == r)
  {
    assert forall line: Line :: Old(line) <==> Readable(line.format) && line.format != FORMAT;
    assert forall line: Line :: !Readable(line.format) <==> line.format == NoNumber || (line.format.Number? && line.format.n > 2);
    forall review
      ensures Recorded(lines, review) <==> Attested(lines, review)
    {
      RecordedIsAttested(lines, review);
    }
    NamesAre(reading.triages);
    hide Rewritten, Readable, Old, Recorded, Attested;
  }

  lemma NamesAre(triages: seq<TriageFile>)
    ensures forall r :: r in Names(triages) <==> exists t :: t in triages && t.review == r
  {
    forall t | t in triages
      ensures t.review in Names(triages)
    {
      var i :| 0 <= i < |triages| && triages[i] == t;
      assert Names(triages)[i] == t.review;
    }
  }

  /** The direction confirmed with the conversion is then the unused one, whatever the old
      lines directed. */
  lemma ConvertedDirectionStands(lines: seq<Line>, reading: Reading, standing: Standing, confirmed: Confirmation,
                                   message: string, at: string)
    requires ConfirmedLog(lines, reading, standing, confirmed, message, at).Lines? && confirmed.Direct?
    requires Written(confirmed.target.value)
    ensures var out := ConfirmedLog(lines, reading, standing, confirmed, message, at).lines;
      UnusedDirection(out) == Some(out[|out| - 1]) && out[|out| - 1].body.next == TargetNext(confirmed.target.value)
  {
    var made := Convert(lines, reading, message, at).lines;
    RecordedDecisionStands(made, standing,
                           Decision(true, confirmed.message, confirmed.resolves, None, confirmed.target, None), at);
  }
}
