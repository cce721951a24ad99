/** Runs of the workflow: the exits a change takes, the remedies it is sent through, and
    the owner's directions between them. */
module WorkflowRuns {
  import opened Options
  import opened WorkflowGraph

  /** What a remedy carries: the exit of a step it remedies or whose join it supplies,
      or the target an owner's directed validation is for. */
  datatype Carried = Nothing | ForExit(source: Node, exit: Exit) | ForTarget(target: Target)

  datatype State = State(node: Node, carried: Carried, archived: bool)

  /** The exits open to a change where it stands: those of its node or, in a remedy,
      the one the remedy carries. */
  ghost predicate Open(s: State, source: Node, e: Exit) {
    if s.carried.ForExit? then s.carried == ForExit(source, e)
    else s.carried.Nothing? && source == s.node && e in StepExits(source)
  }

  /** Closeout's own run archives the change, so it is archived as its exit is taken. */
  function ArchivedAfter(s: State): bool {
    s.archived || s.node == Closeout
  }

  /** What moves a change on: an exit is taken; an unmet guard of one, or the join it
      waits on, sends the change to a remedy; or a remedy that failed sends it to the
      step that repairs what it found. */
  datatype Move = TakeExit(source: Node, exit: Exit)
    | GoToRemedy(source: Node, exit: Exit, remedy: Node)
    | GoToRepair(source: Node, exit: Exit, guard: Guard)

  ghost predicate MovesBy(s: State, move: Move, s': State) {
    && Open(s, move.source, move.exit)
    && match move
       case TakeExit(_, e) =>
         // A remedy takes the exit it carries as one of its own.
         && (s.carried.ForExit? && s.node in {RoundView, Validate} ==> HasKey(Exits(s.node), Derived(s.node, e)))
         && s' == State(e.target, Nothing, ArchivedAfter(s))
       case GoToRemedy(source, e, remedy) =>
         Remedies(remedy, e) && s' == State(remedy, ForExit(source, e), ArchivedAfter(s))
       case GoToRepair(_, e, g) =>
         && g in e.guards && RemedyFailed(g).Some?
         && s' == State(RemedyFailed(g).value, Nothing, ArchivedAfter(s))
  }

  /** A step of the workflow's own, its entry guards aside. */
  ghost predicate Moves(s: State, s': State) {
    exists move :: MovesBy(s, move, s')
  }

  /** The archive guards of the node entered. */
  predicate ArchiveGuardsMet(s: State) {
    && (NotArchived in EntryGuards(s.node) ==> !s.archived)
    && (Archived in EntryGuards(s.node) ==> s.archived)
  }

  /** The round's join as an exit of its own, with no guard but the join. */
  const ROUND_JOIN_EXIT := Exit(Triage(ImplementationKind), [], Always, true)

  /** Where a direction to `t` leads; a validation carries the target it is for, and the
      round view reads the round's join, so it carries that. */
  function Entered(t: Target, standing: Standing): State
    requires EntryOutcome(t, standing, true).Accepted?
  {
    var node := EntryOutcome(t, standing, true).node;
    State(node,
          if node == Validate && t.Target? && t.target.Value? then ForTarget(t.target.value)
          else if node == RoundView then ForExit(Review(ImplementationKind), ROUND_JOIN_EXIT)
          else Nothing,
          standing.archived)
  }

  /** A direction given while closeout runs may find the change archived or not yet. */
  predicate MayBeArchived(s: State, archived: bool) {
    archived == s.archived || (s.node == Closeout && archived)
  }

  ghost predicate DirectedBy(s: State, t: Target, standing: Standing, s': State) {
    Written(t) && MayBeArchived(s, standing.archived)
    && EntryOutcome(t, standing, true).Accepted? && s' == Entered(t, standing)
  }

  /** The owner's direction is followed once it is accepted: to the node it names. */
  ghost predicate Directed(s: State, s': State) {
    exists t, standing :: DirectedBy(s, t, standing, s')
  }

  /** A directed validation has run: the target it is for is entered as by an exit. */
  ghost predicate LeavesDirected(s: State, s': State) {
    exists awaiting :: s.carried.ForTarget?
      && EntryOutcome(s.carried.target, Standing(s.archived, awaiting), false).Accepted?
      && s' == State(EntryOutcome(s.carried.target, Standing(s.archived, awaiting), false).node, Nothing, s.archived)
  }

  /** A move as the workflow makes it: an exit is taken only where the entry guards of
      the node it names hold; a remedy or a repair is entered unchecked. */
  ghost predicate Advances(s: State, s': State) {
    exists move :: MovesBy(s, move, s') && (move.TakeExit? ==> ArchiveGuardsMet(s'))
  }

  /** One step of a run that mixes exits, remedies, repairs, and directions. */
  ghost predicate Step(s: State, s': State) {
    Advances(s, s') || Directed(s, s') || LeavesDirected(s, s')
  }

  ghost predicate IsRun(run: seq<State>) {
    && |run| > 0
    && run[0] == State(Design, Nothing, false)
    && forall i :: 0 <= i < |run| - 1 ==> Step(run[i], run[i + 1])
  }

  // ---- Every run --------------------------------------------------------------

  ghost predicate CarriesWell(s: State) {
    match s.carried
    case Nothing => true
    case ForExit(source, e) => e in StepExits(source) && Remedies(s.node, e)
    case ForTarget(t) => s.node == Validate && Written(t) && NodeOf(t).Some?
                         && NodeOf(t) != Some(Done) && NodeOf(t) != Some(Validate)
  }

  /** The node whose exits are open to the change. */
  function Home(s: State): Node {
    if s.carried.ForExit? then s.carried.source else s.node
  }

  /** The archive guards of a node, whether it was entered by an exit or not. */
  predicate GuardsHold(n: Node, archived: bool) {
    && (NotArchived in EntryGuards(n) ==> !archived)
    && (Archived in EntryGuards(n) ==> archived)
  }

  /** What every step keeps: the guards hold of the node whose exits are open, which a
      remedy's own node is not. */
  ghost predicate Sound(s: State) {
    CarriesWell(s) && GuardsHold(Home(s), s.archived)
  }

  /** Of the exits of the table, only archive cleanup's leads to the end, and none that
      a remedy serves does. */
  lemma DoneHasOneWayIn(source: Node, e: Exit)
    requires e in StepExits(source) && e.target == Done
    ensures source == ArchiveCleanup && forall remedy :: !Remedies(remedy, e)
  {
  }

  lemma StepIsSound(s: State, s': State)
    requires Sound(s) && Step(s, s')
    ensures Sound(s')
    ensures s'.node == Done ==> s.node == ArchiveCleanup
  {
    if Advances(s, s') {
      MoveIsSound(s, s');
    } else if Directed(s, s') {
      DirectedIsSound(s, s');
    } else {
      LeavingIsSound(s, s');
    }
  }

  lemma MoveIsSound(s: State, s': State)
    requires Sound(s) && Advances(s, s')
    ensures Sound(s')
    ensures s'.node == Done ==> s.node == ArchiveCleanup
  {
    var move :| MovesBy(s, move, s') && (move.TakeExit? ==> ArchiveGuardsMet(s'));
    hide StepExits, Remedies, EntryGuards, Exits, Derived, HasKey;
    match move {
      case TakeExit(source, e) =>
        if e.target == Done {
          DoneHasOneWayIn(source, e);
        }
      case GoToRemedy(source, e, remedy) =>
        RemedySide(remedy, source, e);
        NoRemedyAtCloseout(s);
      case GoToRepair(source, e, g) =>
        RepairIsMerge(source, e, g);
        NoRemedyAtCloseout(s);
    }
  }

  /** Closeout is no remedy: standing there is having its own exits open. */
  lemma NoRemedyAtCloseout(s: State)
    requires CarriesWell(s)
    ensures s.node == Closeout ==> Home(s) == Closeout
  {
    if s.carried.ForExit? {
      RemedyNodes(s.node, s.carried.exit);
    }
  }

  /** The archive is entered at closeout alone, and never left. */
  lemma ArchivedAtCloseout(s: State, s': State)
    requires Step(s, s') && s.archived != s'.archived
    ensures s'.archived && s.node == Closeout
  {
  }

  /** A directed validation can go on to the node it is for, and to that alone. */
  lemma DirectedValidationLeads(s: State, t: Target, standing: Standing, s': State)
    requires DirectedBy(s, t, standing, s') && NodeOf(t) == Some(Validate)
    ensures Step(s, s') && s'.node == Validate && s'.archived == standing.archived
    ensures t.Target? && t.target.Value? && NodeOf(t.target.value).Some?
    ensures forall next :: LeavesDirected(s', next) <==>
      next == State(NodeOf(t.target.value).value, Nothing, standing.archived)
  {
    AcceptedEntry(t, standing, true);
    var target := t.target.value;
    AcceptedEntry(target, standing, true);
    var n := NodeOf(target).value;
    assert AllMet(EntryGuards(n), n, target, standing, false);
    assert EntryOutcome(target, Standing(s'.archived, standing.awaiting), false) == Accepted(n);
    forall awaiting | EntryOutcome(target, Standing(s'.archived, awaiting), false).Accepted?
      ensures EntryOutcome(target, Standing(s'.archived, awaiting), false).node == n
    {
      AcceptedEntry(target, Standing(s'.archived, awaiting), false);
    }
  }

  lemma DirectedIsSound(s: State, s': State)
    requires Directed(s, s')
    ensures Sound(s') && s'.node != Done
  {
    var t, standing :| DirectedBy(s, t, standing, s');
    AcceptedEntry(t, standing, true);
    DoneIsNeverDirected(t, standing);
    if NodeOf(t) == Some(Validate) {
      AcceptedEntry(t.target.value, standing, true);
    }
  }

  lemma LeavingIsSound(s: State, s': State)
    requires CarriesWell(s) && LeavesDirected(s, s')
    ensures Sound(s') && s'.node != Done
  {
    var awaiting :| s.carried.ForTarget?
      && EntryOutcome(s.carried.target, Standing(s.archived, awaiting), false).Accepted?
      && s' == State(EntryOutcome(s.carried.target, Standing(s.archived, awaiting), false).node, Nothing, s.archived);
    AcceptedEntry(s.carried.target, Standing(s.archived, awaiting), false);
  }

  lemma {:induction false} RunsAreSound(run: seq<State>, i: nat)
    requires IsRun(run) && i < |run|
    ensures Sound(run[i])
    ensures run[i].node == Done ==> i > 0 && run[i - 1].node == ArchiveCleanup
  {
    if i > 0 {
      RunsAreSound(run, i - 1);
      assert Step(run[i - 1], run[i]);
      StepIsSound(run[i - 1], run[i]);
    }
  }

  /** Along every run, design, planning, and the merge are stood at only while the change
      is not archived, closeout's review, triage, and cleanup only once it is, though
      remedies and repairs are entered unchecked; and the end is reached only from
      archive cleanup. */
  lemma RunsRespectTheArchive(run: seq<State>, i: nat)
    requires IsRun(run) && i < |run|
    ensures run[i].node in {Design, Plan, Merge} ==> !run[i].archived
    ensures run[i].node in {Review(CloseoutKind), Triage(CloseoutKind), ArchiveCleanup} ==> run[i].archived
    ensures run[i].node == Done ==> i > 0 && run[i - 1].node == ArchiveCleanup
  {
    RunsAreSound(run, i);
    if run[i].carried.ForExit? {
      RemedyNodes(run[i].node, run[i].carried.exit);
    }
  }

  // ---- A round on an archived change ------------------------------------------------

  /** The change is in the round's join: what the join lacks is named next, unchecked. */
  ghost predicate InRoundJoin(s: State) {
    if s.carried.ForExit? then s.carried.exit.join
    else s.carried.Nothing? && s.node in {Round, Review(ImplementationKind)}
  }

  /** From a state of a run, the next step can be a round of an archived change exactly
      if the change is archived and in the round's join. */
  lemma ArchivedRoundNext(s: State)
    requires Sound(s)
    ensures (exists s' :: Step(s, s') && s'.node == Round && s'.archived) <==> s.archived && InRoundJoin(s)
  {
    if s' :| Step(s, s') && s'.node == Round && s'.archived {
      IntoArchivedRound(s, s');
    }
    if s.archived && InRoundJoin(s) {
      RoundIsReached(s);
      var e :| Advances(s, State(Round, e, true));
      assert Step(s, State(Round, e, true));
    }
  }

  lemma RoundIsReached(s: State)
    requires CarriesWell(s) && s.archived && InRoundJoin(s)
    ensures exists e :: Advances(s, State(Round, e, true))
  {
    var source := Home(s);
    var e := if s.carried.ForExit? then s.carried.exit
             else if s.node == Round then Exit(Triage(ImplementationKind), [Bootstrapped], Always, true) else ROUND_JOIN_EXIT;
    assert Round in ROUND_JOIN by {
      assert ROUND_JOIN[0] == Round;
    }
    var s' := State(Round, ForExit(source, e), true);
    assert MovesBy(s, GoToRemedy(source, e, Round), s');
    assert Advances(s, s');
  }

  lemma RoundIsGuarded()
    ensures NotArchived in EntryGuards(Round)
  {
    assert EntryGuards(Round)[0] == NotArchived;
  }

  lemma IntoArchivedRound(s: State, s': State)
    requires Sound(s) && Step(s, s') && s'.node == Round && s'.archived
    ensures s.archived && InRoundJoin(s)
  {
    RoundIsGuarded();
    OnlyMovesEnterArchivedRound(s, s');
    var move :| MovesBy(s, move, s') && (move.TakeExit? ==> ArchiveGuardsMet(s'));
    if move.GoToRemedy? {
      RemedyNodes(Round, move.exit);
      JoinExits(move.source, move.exit);
    } else if move.GoToRepair? {
      RepairIsMerge(move.source, move.exit, move.guard);
    }
  }

  lemma OnlyMovesEnterArchivedRound(s: State, s': State)
    requires Sound(s) && Step(s, s') && s'.node == Round && s'.archived
    ensures Advances(s, s')
  {
    RoundIsGuarded();
    assert Directed(s, s') ==> Sound(s') && Home(s') == Round by {
      if Directed(s, s') {
        DirectedIsSound(s, s');
        DirectedHome(s, s');
      }
    }
    assert LeavesDirected(s, s') ==> Sound(s') && Home(s') == Round by {
      if LeavesDirected(s, s') {
        LeavingIsSound(s, s');
      }
    }
  }

  lemma DirectedHome(s: State, s': State)
    requires Directed(s, s')
    ensures s'.node == Round ==> Home(s') == Round
  {
  }

  predicate Implements(n: Node) {
    n == Round || n == Review(ImplementationKind) || n == Triage(ImplementationKind)
  }

  /** The owner directed an archived change back into a round: to its review, its triage,
      or its view, or to a validation for one of the first two. */
  ghost predicate LedBack(s: State, s': State) {
    && Directed(s, s') && s'.archived
    && (Implements(Home(s')) || (s'.carried.ForTarget? && NodeOf(s'.carried.target).Some?
                                 && Implements(NodeOf(s'.carried.target).value)))
  }

  /** The change is archived, and in implementation or on the way there. */
  ghost predicate BackInRound(s: State) {
    && s.archived
    && (Implements(Home(s)) || (s.carried.ForTarget? && NodeOf(s.carried.target).Some?
                                && NodeOf(s.carried.target) != Some(Round)
                                && Implements(NodeOf(s.carried.target).value)))
  }

  lemma ImplementsInto(source: Node, e: Exit)
    requires e in StepExits(source) && e.target in {Review(ImplementationKind), Triage(ImplementationKind)}
    ensures Implements(source)
  {
  }

  lemma OnlyDirectionsLeadBack(s: State, s': State)
    requires Sound(s) && Step(s, s') && BackInRound(s')
    ensures BackInRound(s) || LedBack(s, s')
  {
    if Advances(s, s') {
      MovesStayBack(s, s');
    } else if Directed(s, s') {
      assert LedBack(s, s');
    } else {
      LeavingStaysBack(s, s');
    }
  }

  lemma MovesStayBack(s: State, s': State)
    requires Sound(s) && Advances(s, s') && BackInRound(s')
    ensures BackInRound(s)
  {
    var move :| MovesBy(s, move, s') && (move.TakeExit? ==> ArchiveGuardsMet(s'));
    NoRemedyAtCloseout(s);
    RoundIsGuarded();
    hide StepExits, Remedies, EntryGuards, Exits, Derived, HasKey;
    match move {
      case TakeExit(source, e) =>
        ImplementsInto(source, e);
      case GoToRemedy(source, e, remedy) =>
        RemedySide(remedy, source, e);
      case GoToRepair(source, e, g) =>
        RepairIsMerge(source, e, g);
    }
  }

  lemma LeavingStaysBack(s: State, s': State)
    requires Sound(s) && LeavesDirected(s, s') && BackInRound(s')
    ensures BackInRound(s)
  {
    RoundIsGuarded();
    var awaiting :| s.carried.ForTarget?
      && EntryOutcome(s.carried.target, Standing(s.archived, awaiting), false).Accepted?
      && s' == State(EntryOutcome(s.carried.target, Standing(s.archived, awaiting), false).node, Nothing, s.archived);
    AcceptedEntry(s.carried.target, Standing(s.archived, awaiting), false);
  }

  lemma {:induction false} BackInRoundWasLed(run: seq<State>, i: nat)
    requires IsRun(run) && i < |run| && BackInRound(run[i])
    ensures exists j :: 0 <= j < i && LedBack(run[j], run[j + 1])
  {
    RunsAreSound(run, i - 1);
    assert Step(run[i - 1], run[i]);
    OnlyDirectionsLeadBack(run[i - 1], run[i]);
    if BackInRound(run[i - 1]) {
      BackInRoundWasLed(run, i - 1);
    }
  }

  /** A round is entered on an archived change only after the owner directed the archived
      change back into one. */
  lemma ArchivedRoundWasLed(run: seq<State>, i: nat)
    requires IsRun(run) && i < |run| && run[i].node == Round && run[i].archived
    ensures exists j :: 0 <= j < i && LedBack(run[j], run[j + 1])
  {
    RunsAreSound(run, i);
    RoundIsGuarded();
    if run[i].carried.ForExit? {
      RemedyNodes(Round, run[i].carried.exit);
      JoinExits(run[i].carried.source, run[i].carried.exit);
    }
    BackInRoundWasLed(run, i);
  }

  /** The change goes on through `more` with no direction of the owner's. */
  ghost predicate GoesOn(s: State, more: seq<State>)
    decreases |more|
  {
    more == [] || ((Advances(s, more[0]) || LeavesDirected(s, more[0])) && GoesOn(more[0], more[1..]))
  }

  /** With no other direction, the change can come to a round while archived. */
  ghost predicate ReachesArchivedRound(s: State) {
    exists more: seq<State> :: GoesOn(s, more) && more != [] && more[|more| - 1].node == Round && more[|more| - 1].archived
  }

  lemma ReachesLater(s: State, s': State)
    requires Advances(s, s') || LeavesDirected(s, s')
    requires ReachesArchivedRound(s')
    ensures ReachesArchivedRound(s)
  {
    var more: seq<State> :|
      GoesOn(s', more) && more != [] && more[|more| - 1].node == Round && more[|more| - 1].archived;
    assert ([s'] + more)[1..] == more && GoesOn(s, [s'] + more);
  }

  lemma JoinReachesRound(s: State)
    requires CarriesWell(s) && s.archived && InRoundJoin(s)
    ensures ReachesArchivedRound(s)
  {
    RoundIsReached(s);
    var e :| Advances(s, State(Round, e, true));
    var more := [State(Round, e, true)];
    assert more[1..] == [] && GoesOn(s, more);
  }

  lemma PlainReachesRound(s: State)
    requires s.archived && s.carried == Nothing && s.node in {Review(ImplementationKind), Triage(ImplementationKind)}
    ensures ReachesArchivedRound(s)
  {
    if s.node == Review(ImplementationKind) {
      JoinReachesRound(s);
    } else {
      var e := StepExits(s.node)[3];
      var s' := State(Review(ImplementationKind), Nothing, true);
      assert e in StepExits(s.node) && MovesBy(s, TakeExit(s.node, e), s');
      assert Advances(s, s');
      JoinReachesRound(s');
      ReachesLater(s, s');
    }
  }

  lemma LeavesFor(s: State)
    requires s.carried.ForTarget? && NodeOf(s.carried.target).Some? && s.archived
    requires NodeOf(s.carried.target).value in {Review(ImplementationKind), Triage(ImplementationKind)}
    ensures LeavesDirected(s, State(NodeOf(s.carried.target).value, Nothing, true))
  {
    var standing := Standing(s.archived, {ImplementationKind});
    assert EntryOutcome(s.carried.target, standing, false) == Accepted(NodeOf(s.carried.target).value);
  }

  /** And every such direction can lead to one with no other direction after it. */
  lemma LedBackReachesRound(s: State, s': State)
    requires LedBack(s, s')
    ensures ReachesArchivedRound(s')
  {
    DirectedIsSound(s, s');
    DirectedFacts(s, s');
    if s'.carried.ForTarget? {
      var next := State(NodeOf(s'.carried.target).value, Nothing, true);
      LeavesFor(s');
      PlainReachesRound(next);
      ReachesLater(s', next);
    } else if s'.carried.ForExit? {
      JoinReachesRound(s');
    } else {
      PlainReachesRound(s');
    }
  }

  lemma DirectedFacts(s: State, s': State)
    requires LedBack(s, s')
    ensures s'.carried.ForExit? ==> InRoundJoin(s')
    ensures s'.carried.Nothing? ==> s'.node in {Review(ImplementationKind), Triage(ImplementationKind)}
    ensures s'.carried.ForTarget? ==>
      NodeOf(s'.carried.target) in {Some(Review(ImplementationKind)), Some(Triage(ImplementationKind))}
  {
    DirectedIsSound(s, s');
    RoundIsGuarded();
    var t, standing :| DirectedBy(s, t, standing, s');
    AcceptedEntry(t, standing, true);
    if NodeOf(t) == Some(Validate) {
      AcceptedEntry(t.target.value, standing, true);
    }
  }

  function PlainTarget(step: StepName, kind: Field<KindName>): Target {
    Target(Value(step), kind, Absent, Absent, false)
  }

  /** One such run: closeout directed and left, then the round's review directed. */
  lemma ArchivedRoundHappens()
    ensures IsRun(ArchivedRun()) && ArchivedRun()[4].node == Round && ArchivedRun()[4].archived
  {
    var run := ArchivedRun();
    var closeout := PlainTarget(PlainStep(Closeout), Absent);
    var review := PlainTarget(ReviewStep, Value(KindNamed(ImplementationKind)));
    assert DirectedBy(run[0], closeout, Standing(false, {}), run[1]);
    var e := StepExits(Closeout)[0];
    assert MovesBy(run[1], TakeExit(Closeout, e), run[2]);
    assert Advances(run[1], run[2]);
    assert DirectedBy(run[2], review, Standing(true, {}), run[3]);
    assert ROUND_JOIN[0] == Round;
    assert MovesBy(run[3], GoToRemedy(Review(ImplementationKind), ROUND_JOIN_EXIT, Round), run[4]);
    assert Advances(run[3], run[4]);
  }

  function ArchivedRun(): seq<State> {
    [State(Design, Nothing, false), State(Closeout, Nothing, false), State(Review(CloseoutKind), Nothing, true),
     State(Review(ImplementationKind), Nothing, true),
     State(Round, ForExit(Review(ImplementationKind), ROUND_JOIN_EXIT), true)]
  }

  // ---- Runs of exits alone ------------------------------------------------------

  /** A run from the design on that follows exits only, and checks no archive guard. */
  ghost predicate IsExitRun(run: seq<State>) {
    && |run| > 0
    && run[0] == State(Design, Nothing, false)
    && forall i :: 0 <= i < |run| - 1 ==> Moves(run[i], run[i + 1])
  }

  /** The part of the workflow past the archive. */
  predicate PastArchive(n: Node) {
    n == Review(CloseoutKind) || n == Triage(CloseoutKind) || n == ArchiveCleanup || n == Done
  }

  ghost predicate ArchiveSplits(s: State) {
    && CarriesWell(s) && !s.carried.ForTarget?
    && (s.archived <==> PastArchive(Home(s)))
    && (s.carried.ForExit? ==> Home(s) != Closeout)
  }

  /** Every exit stays on its side of the archive but closeout's, which crosses it. */
  lemma ExitsCrossAtCloseout(source: Node, e: Exit)
    requires e in StepExits(source)
    ensures PastArchive(e.target) <==> PastArchive(source) || source == Closeout
  {
    match source {
      case Review(kind) => assert StepExits(source) == [Exit(Triage(kind), [], Always, kind == ImplementationKind)];
      case Triage(kind) => ExitsOfTriageStay(kind, e);
      case _ =>
    }
  }

  lemma ExitsOfTriageStay(kind: Kind, e: Exit)
    requires e in StepExits(Triage(kind))
    ensures PastArchive(e.target) <==> kind == CloseoutKind
  {
    match kind {
      case DesignKind =>
      case ImplementationKind =>
      case PreCloseoutKind =>
      case CloseoutKind =>
    }
  }

  lemma CloseoutExitIsPlain(e: Exit)
    requires e in StepExits(Closeout)
    ensures e.guards == [] && !e.join
  {
  }

  /** Only a validation for one of the merge's exits is repaired, by the merge. */
  lemma RepairIsMerge(source: Node, e: Exit, g: Guard)
    requires e in StepExits(source) && g in e.guards && RemedyFailed(g).Some?
    ensures source == Merge && RemedyFailed(g) == Some(Merge)
  {
  }

  /** And each of them is: a failed validation of what the merge made is the merge's to
      repair, of anything else it is not. */
  lemma MergeIsRepaired(source: Node, e: Exit)
    requires e in StepExits(source)
    ensures (exists g :: g in e.guards && RemedyFailed(g) == Some(Merge)) <==>
      source == Merge && (e.target == Closeout || e.target == Review(PreCloseoutKind))
  {
    ExitsLeadTo(source, e);
    if g :| g in e.guards && RemedyFailed(g) == Some(Merge) {
      RepairIsMerge(source, e, g);
      assert e.guards != [ReturnConfirmed];
    }
    if source == Merge && e.target == Closeout {
      assert e.guards[1] == MergeValidated && RemedyFailed(MergeValidated) == Some(Merge);
    } else if source == Merge && e.target == Review(PreCloseoutKind) {
      assert e.guards[0] == MergeReviewValidated && RemedyFailed(MergeReviewValidated) == Some(Merge);
    }
  }

  /** The exits that wait on the join. */
  lemma JoinExits(source: Node, e: Exit)
    requires e in StepExits(source) && e.join
    ensures source in {Round, Review(ImplementationKind)}
  {
  }

  lemma RemedyNodes(remedy: Node, e: Exit)
    requires Remedies(remedy, e)
    ensures remedy in {RoundView, Validate} || (e.join && remedy in {Round, Review(ImplementationKind)})
  {
  }

  lemma GuardsMetAt(s: State)
    requires PastArchive(s.node) ==> s.archived
    requires s.node in {Design, Plan, Round, Merge} ==> !s.archived
    ensures ArchiveGuardsMet(s)
  {
  }

  lemma ExitMoveSplits(s: State, move: Move, s': State)
    requires ArchiveSplits(s) && MovesBy(s, move, s')
    ensures ArchiveSplits(s') && ArchiveGuardsMet(s')
  {
    hide StepExits, Remedies, ArchiveGuardsMet, Exits, Derived, HasKey;
    RemedyHome(s);
    match move {
      case TakeExit(source, e) =>
        ExitsCrossAtCloseout(source, e);
      case GoToRemedy(source, e, remedy) =>
        RemedySide(remedy, source, e);
      case GoToRepair(source, e, g) =>
        RepairIsMerge(source, e, g);
    }
    GuardsMetAt(s');
  }

  /** A change carrying an exit stands in that exit's remedy, never at closeout. */
  lemma RemedyHome(s: State)
    requires ArchiveSplits(s)
    ensures s.carried.ForExit? ==> s.node != Closeout && s.carried.exit in StepExits(s.carried.source)
  {
  }

  lemma RemedySide(remedy: Node, source: Node, e: Exit)
    requires e in StepExits(source) && Remedies(remedy, e)
    ensures source != Closeout
    ensures remedy in {RoundView, Validate} || (remedy in {Round, Review(ImplementationKind)} && !PastArchive(source))
  {
    RemedyNodes(remedy, e);
    if e.join {
      JoinExits(source, e);
    }
    if source == Closeout {
      CloseoutExitIsPlain(e);
    }
  }

  /** On a run of exits alone no archive guard ever blocks: wherever it leads, the
      guards of the node hold, though none was checked. */
  lemma {:induction false} ArchiveGuardsNeverBlock(run: seq<State>, i: nat)
    requires IsExitRun(run) && i < |run|
    ensures ArchiveSplits(run[i]) && ArchiveGuardsMet(run[i])
  {
    if i > 0 {
      ArchiveGuardsNeverBlock(run, i - 1);
      assert Moves(run[i - 1], run[i]);
      var move :| MovesBy(run[i - 1], move, run[i]);
      ExitMoveSplits(run[i - 1], move, run[i]);
    }
  }

  /** The merge and closeout are entered only from the exits that name them, or, the
      merge, from a failed validation for its own. */
  lemma MoveInto(s: State, move: Move, s': State)
    requires CarriesWell(s) && !s.carried.ForTarget? && MovesBy(s, move, s') && s'.node in {Merge, Closeout}
    ensures s'.carried == Nothing
    ensures Home(s) == Merge ==> AtMerge(s)
    ensures Home(s) != Merge ==> s'.node == Merge && s.node == Triage(PreCloseoutKind)
  {
    hide StepExits, Remedies, Exits, Derived, HasKey;
    match move {
      case TakeExit(source, e) =>
        WaysIn(source, e);
        if s.carried.ForExit? {
          ServedWaysIn(source, e, s.node);
        }
      case GoToRemedy(source, e, remedy) =>
        RemedyNodes(remedy, e);
      case GoToRepair(source, e, g) =>
        RepairIsMerge(source, e, g);
        if s.carried.ForExit? {
          MergeRemedies(s.node, e);
        }
    }
  }

  lemma WaysIn(source: Node, e: Exit)
    requires e in StepExits(source)
    ensures e.target == Closeout ==> source == Merge
    ensures e.target == Merge ==> source == Triage(PreCloseoutKind)
  {
  }

  lemma ServedWaysIn(source: Node, e: Exit, remedy: Node)
    requires e in StepExits(source) && Remedies(remedy, e) && e.target in {Merge, Closeout}
    ensures source == Merge && remedy == Validate
  {
    WaysIn(source, e);
    if source == Merge {
      MergeRemedies(remedy, e);
    }
  }

  lemma MergeRemedies(remedy: Node, e: Exit)
    requires e in StepExits(Merge)
    ensures Remedies(remedy, e) ==> remedy == Validate
  {
  }

  /** Where `i` stands in the merge, or in a validation of one of its exits. */
  predicate AtMerge(s: State) {
    Home(s) == Merge && (s.carried.ForExit? ==> s.node == Validate)
  }

  /** Back from the merge, through its own validations, to the triage before it. */
  lemma {:induction false} MergeFollowsTriage(run: seq<State>, k: nat) returns (i: nat)
    requires IsExitRun(run) && k < |run| && AtMerge(run[k])
    ensures i < k && run[i].node == Triage(PreCloseoutKind)
    ensures run[i + 1].node == Merge
    ensures forall j :: i < j <= k ==> AtMerge(run[j])
  {
    hide ArchiveSplits, MovesBy, AtMerge;
    AtMergeNotFirst(run[k]);
    ArchiveGuardsNeverBlock(run, k - 1);
    assert Moves(run[k - 1], run[k]);
    var move :| MovesBy(run[k - 1], move, run[k]);
    if AtMerge(run[k - 1]) {
      i := MergeFollowsTriage(run, k - 1);
    } else {
      EntersMerge(run[k - 1], move, run[k]);
      i := k - 1;
    }
  }

  lemma AtMergeNotFirst(s: State)
    requires AtMerge(s)
    ensures s != State(Design, Nothing, false)
  {
  }

  lemma EntersMerge(s: State, move: Move, s': State)
    requires ArchiveSplits(s) && MovesBy(s, move, s')
    requires AtMerge(s') && !AtMerge(s)
    ensures s.node == Triage(PreCloseoutKind) && s'.node == Merge
  {
    hide StepExits, Remedies, Exits, Derived, HasKey;
    if move.GoToRemedy? {
      if s.carried.ForExit? {
        MergeRemedies(s.node, move.exit);
      }
    } else {
      MoveInto(s, move, s');
    }
  }

  /** Closeout is entered only from the merge, which was entered from the triage of a
      pre-closeout review: nothing but the merge and validations of its exits between. */
  lemma CloseoutFollowsTriageAndMerge(run: seq<State>, k: nat) returns (i: nat, j: nat)
    requires IsExitRun(run) && k < |run| && run[k].node == Closeout
    ensures i < j < k && run[i].node == Triage(PreCloseoutKind) && run[j].node == Merge
    ensures forall x :: i < x < k ==> run[x].node in {Merge, Validate}
  {
    assert k > 0;
    ArchiveGuardsNeverBlock(run, k - 1);
    assert Moves(run[k - 1], run[k]);
    var move :| MovesBy(run[k - 1], move, run[k]);
    MoveInto(run[k - 1], move, run[k]);
    i := MergeFollowsTriage(run, k - 1);
    j := i + 1;
    forall x | i < x < k
      ensures run[x].node in {Merge, Validate}
    {
      assert AtMerge(run[x]);
    }
  }

  // ---- What the derived exits leave out -------------------------------------------

  lemma {:induction false} RemediedGrows(remedy: Node, nodes: seq<Node>, k: nat)
    requires k <= |nodes|
    ensures Remedied(remedy, nodes[..k]) <= Remedied(remedy, nodes)
  {
    if k < |nodes| {
      RemediedGrows(remedy, nodes[..|nodes| - 1], k);
      assert nodes[..|nodes| - 1][..k] == nodes[..k];
      RemediedExits(remedy, nodes[..|nodes| - 1]);
      AddedRemedied(remedy, Remedied(remedy, nodes[..|nodes| - 1]), StepExits(nodes[|nodes| - 1]));
    } else {
      assert nodes[..k] == nodes;
    }
  }

  /** Of the exits before the merge's, only the triage's leads to another pre-closeout
      review. */
  lemma FirstReviewExit(n: Node, e: Exit)
    requires n in STEP_NODES[..9] && e in StepExits(n)
    requires e.target == Review(PreCloseoutKind) && Derived(Validate, e).when == AnotherRound
    ensures Derived(Validate, e).guards == [DocumentedFixValidated]
  {
  }

  lemma TriageReviewExit() returns (e: Exit)
    ensures Triage(PreCloseoutKind) in STEP_NODES[..9] && e in StepExits(Triage(PreCloseoutKind))
    ensures Remedies(Validate, e)
    ensures Derived(Validate, e).target == Review(PreCloseoutKind) && Derived(Validate, e).when == AnotherRound
  {
    e := StepExits(Triage(PreCloseoutKind))[1];
    assert STEP_NODES[..9][8] == Triage(PreCloseoutKind);
    assert e.guards[0] == DocumentedFixValidated && Remedy(DocumentedFixValidated) == Some(Validate);
  }

  /** An exit whose key the first nodes have already given is theirs: a later
      declaration of it adds nothing. */
  lemma RemediedKeepsFirst(remedy: Node, nodes: seq<Node>, k: nat, d: Exit)
    requires k <= |nodes| && d in Remedied(remedy, nodes)
    requires HasKey(Remedied(remedy, nodes[..k]), d)
    ensures d in Remedied(remedy, nodes[..k])
  {
    var first := Remedied(remedy, nodes[..k]);
    var d' :| d' in first && SameKey(d', d);
    RemediedGrows(remedy, nodes, k);
    RemediedExits(remedy, nodes);
    UniqueKey(Remedied(remedy, nodes), d, d');
  }

  /** A validation can take the exit to another pre-closeout review on one declaration
      only, and it is the triage's: the guard the merge's own exit there declares is not
      among those the derived exit has. */
  lemma MergeReviewGuardIsDropped(d: Exit)
    requires d in Exits(Validate) && d.target == Review(PreCloseoutKind) && d.when == AnotherRound
    ensures d.guards == [DocumentedFixValidated] && MergeReviewValidated !in d.guards
  {
    var e := TriageReviewExit();
    TriageReviewKey(d, e);
    RemediedKeepsFirst(Validate, STEP_NODES, 9, d);
    FirstReviewDerived(d);
  }

  /** The guards a validation's exit has, by its key, and whether the merge declares it. */
  function GuardsByKey(target: Node, when: When, ofMerge: bool): seq<Guard> {
    match target
    case Triage(ImplementationKind) => []
    case Round => [RoundFixValidated]
    case Review(PreCloseoutKind) =>
      if ofMerge then [MergeReviewValidated]
      else if when == NothingToImplement then [HeadValidated]
      else if when == AnotherRound then [DocumentedFixValidated] else [RoundFixValidated]
    case Review(_) => [RepeatFixRead, RepeatFixValidated]
    case Closeout => [CloseoutReleased, MergeValidated]
    case _ => [CorrectionValidated]
  }

  lemma ValidatedByKey(n: Node, e: Exit)
    requires e in StepExits(n) && Remedies(Validate, e)
    ensures Derived(Validate, e).guards == GuardsByKey(e.target, Derived(Validate, e).when, n == Merge)
    ensures Derived(Validate, e).join <==> e.target == Triage(ImplementationKind)
    ensures n == Merge && e.target == Review(PreCloseoutKind) ==> Derived(Validate, e).when == AnotherRound
    ensures n == Merge ==> e.target in {Closeout, Review(PreCloseoutKind)}
  {
    ExitsLeadTo(n, e);
    hide StepExits;
  }

  /** A remedied exit's key is that of an exit the remedy keeps. */
  lemma KeptAs(remedy: Node, n: Node, e: Exit) returns (d: Exit, m: Node, f: Exit)
    requires n in STEP_NODES && e in StepExits(n) && Remedies(remedy, e)
    ensures d in Remedied(remedy, STEP_NODES) && SameKey(d, Derived(remedy, e))
    ensures f in StepExits(m) && Remedies(remedy, f) && d == Derived(remedy, f)
  {
    hide StepExits, Remedies, Derived, Remedied;
    RemediedExits(remedy, STEP_NODES);
    assert HasKey(Remedied(remedy, STEP_NODES), Derived(remedy, e));
    d :| d in Remedied(remedy, STEP_NODES) && SameKey(d, Derived(remedy, e));
    assert DerivedAmong(remedy, STEP_NODES, d);
    m :| m in STEP_NODES && DerivedFrom(remedy, StepExits(m), d);
    f :| f in StepExits(m) && Remedies(remedy, f) && d == Derived(remedy, f);
  }

  /** A validation keeps every exit it remedies, guards and all, but the merge's to
      another pre-closeout review. */
  lemma ValidationKeepsAllButOne(n: Node, e: Exit)
    requires n in STEP_NODES && e in StepExits(n) && Remedies(Validate, e)
    ensures Derived(Validate, e) in Exits(Validate) <==> !(n == Merge && e.target == Review(PreCloseoutKind))
  {
    hide StepExits, Remedies, Derived, Remedied;
    var d, m, f := KeptAs(Validate, n, e);
    var d0 := Derived(Validate, e);
    DerivedTarget(e);
    DerivedTarget(f);
    ValidatedByKey(n, e);
    ValidatedByKey(m, f);
    if d0.target == Review(PreCloseoutKind) && d0.when == AnotherRound {
      MergeReviewGuardIsDropped(d);
      if d0 in Exits(Validate) {
        MergeReviewGuardIsDropped(d0);
      }
    }
  }

  lemma ReadByKey(n: Node, e: Exit)
    requires e in StepExits(n) && Remedies(RoundView, e)
    ensures Derived(RoundView, e) == if e.target == Triage(ImplementationKind) then ROUND_JOIN_EXIT
      else Exit(Review(ImplementationKind), [RepeatFixRead, RepeatFixValidated], AnotherRound, false)
  {
    ExitsLeadTo(n, e);
    hide StepExits;
  }

  /** The round view keeps every exit it remedies, guards and all. */
  lemma RoundViewKeepsAll(n: Node, e: Exit)
    requires n in STEP_NODES && e in StepExits(n) && Remedies(RoundView, e)
    ensures Derived(RoundView, e) in Exits(RoundView)
  {
    hide StepExits, Remedies, Derived, Remedied;
    var d, m, f := KeptAs(RoundView, n, e);
    ReadByKey(n, e);
    ReadByKey(m, f);
  }

  /** All the round view's exits. */
  lemma RoundViewExits(d: Exit)
    ensures d in Exits(RoundView) <==>
      d == ROUND_JOIN_EXIT || d == Exit(Review(ImplementationKind), [RepeatFixRead, RepeatFixValidated], AnotherRound, false)
  {
    if d in Exits(RoundView) {
      RoundViewOnly(d);
    }
    assert ROUND_JOIN[1] == RoundView;
    hide StepExits, Remedied, Remedies;
    var triage := Triage(ImplementationKind);
    ReadExit(Round, Exit(triage, [Bootstrapped], Always, true), 4);
    ReadExit(triage, Exit(Review(ImplementationKind), [RepeatFixRead, RepeatFixValidated], AnotherRound, false), 6);
  }

  lemma RoundViewOnly(d: Exit)
    requires d in Remedied(RoundView, STEP_NODES)
    ensures d == ROUND_JOIN_EXIT || d == Exit(Review(ImplementationKind), [RepeatFixRead, RepeatFixValidated], AnotherRound, false)
  {
    hide StepExits, Remedied, Remedies, Derived;
    var n, e := RemediedFrom(RoundView, d);
    ReadByKey(n, e);
  }

  lemma ReadExit(n: Node, e: Exit, i: nat)
    requires i < |STEP_NODES| && STEP_NODES[i] == n && LeadsTo(n, e)
    requires e.join || (|e.guards| > 0 && e.guards[0] == RepeatFixRead)
    ensures Derived(RoundView, e) in Exits(RoundView)
  {
    ExitsLeadTo(n, e);
    assert ROUND_JOIN[1] == RoundView;
    assert e.join || Remedy(e.guards[0]) == Some(RoundView);
    RoundViewKeepsAll(n, e);
  }

  lemma RemediedFrom(remedy: Node, d: Exit) returns (n: Node, e: Exit)
    requires d in Remedied(remedy, STEP_NODES)
    ensures n in STEP_NODES && e in StepExits(n) && Remedies(remedy, e) && d == Derived(remedy, e) && LeadsTo(n, e)
  {
    RemediedExits(remedy, STEP_NODES);
    assert DerivedAmong(remedy, STEP_NODES, d);
    n :| n in STEP_NODES && DerivedFrom(remedy, StepExits(n), d);
    e :| e in StepExits(n) && Remedies(remedy, e) && d == Derived(remedy, e);
    ExitsLeadTo(n, e);
  }

  /** A validation's exits, by the node each leads to. */
  ghost predicate ValidationLeadsTo(d: Exit) {
    && (d.join <==> d.target == Triage(ImplementationKind))
    && match d.target
       case Triage(ImplementationKind) => d.when == Always && d.guards == []
       case Round => d.when in {Advance, OutOfOrder} && d.guards == [RoundFixValidated]
       case Review(ImplementationKind) => d.when == AnotherRound && d.guards == [RepeatFixRead, RepeatFixValidated]
       case Review(PreCloseoutKind) =>
         || (d.when == NothingToImplement && d.guards == [HeadValidated])
         || (d.when == AfterLastRound && d.guards == [RoundFixValidated])
         || (d.when == AnotherRound && d.guards == [DocumentedFixValidated])
       case Closeout => d.when == Advance && d.guards == [CloseoutReleased, MergeValidated]
       case ArchiveCleanup => d.when == Advance && d.guards == [CorrectionValidated]
       case _ => false
  }

  /** All a validation's exits. */
  lemma ValidationExits(d: Exit)
    ensures d in Exits(Validate) <==> ValidationLeadsTo(d)
  {
    if d in Exits(Validate) {
      var n, e := RemediedFrom(Validate, d);
      hide StepExits, Remedied;
      if n == Merge && e.target == Review(PreCloseoutKind) {
        ValidationKeepsAllButOne(n, e);
      }
    }
    if ValidationLeadsTo(d) {
      ValidationHas(d);
    }
  }

  /** Where among the table's nodes a validation's exit comes from. */
  function SourceOf(d: Exit): nat {
    if d.target == Triage(ImplementationKind) then 4
    else if d.target == Review(PreCloseoutKind) then
      (if d.when == NothingToImplement then 3 else if d.when == AfterLastRound then 6 else 8)
    else if d.target == Closeout then 9
    else if d.target == ArchiveCleanup then 12
    else 6
  }

  lemma ValidationHas(d: Exit)
    requires ValidationLeadsTo(d)
    ensures d in Exits(Validate)
  {
    var e := if d.join then Exit(d.target, [Bootstrapped], Always, true) else d;
    var n := STEP_NODES[SourceOf(d)];
    assert LeadsTo(n, e) && |e.guards| > 0;
    ValidatedExit(n, e, SourceOf(d), e.guards[|e.guards| - 1]);
  }

  lemma ValidatedExit(n: Node, e: Exit, i: nat, g: Guard)
    requires i < |STEP_NODES| && STEP_NODES[i] == n && LeadsTo(n, e) && g in e.guards
    requires e.join || g in {HeadValidated, RoundFixValidated, RepeatFixValidated, DocumentedFixValidated,
                             MergeValidated, CorrectionValidated}
    requires !(n == Merge && e.target == Review(PreCloseoutKind))
    ensures Derived(Validate, e) in Exits(Validate)
  {
    ExitsLeadTo(n, e);
    assert ROUND_JOIN[2] == Validate;
    assert e.join || Remedy(g) == Some(Validate);
    ValidationKeepsAllButOne(n, e);
  }

  lemma TriageReviewKey(d: Exit, e: Exit)
    requires d.target == Review(PreCloseoutKind) && d.when == AnotherRound
    requires Triage(PreCloseoutKind) in STEP_NODES[..9] && e in StepExits(Triage(PreCloseoutKind))
    requires Remedies(Validate, e) && SameKey(Derived(Validate, e), d)
    ensures HasKey(Remedied(Validate, STEP_NODES[..9]), d)
  {
    hide StepExits, Remedies, Remedied, Derived, UniqueKeys;
    var first := STEP_NODES[..9];
    RemediedExits(Validate, first);
    assert HasKey(Remedied(Validate, first), Derived(Validate, e));
    var d' :| d' in Remedied(Validate, first) && SameKey(d', Derived(Validate, e));
    assert SameKey(d', d);
  }

  lemma FirstReviewDerived(d: Exit)
    requires d in Remedied(Validate, STEP_NODES[..9]) && d.target == Review(PreCloseoutKind) && d.when == AnotherRound
    ensures d.guards == [DocumentedFixValidated]
  {
    hide StepExits, Remedies, Remedied, Derived, UniqueKeys;
    var first := STEP_NODES[..9];
    RemediedExits(Validate, first);
    assert DerivedAmong(Validate, first, d);
    var n :| n in first && DerivedFrom(Validate, StepExits(n), d);
    var e :| e in StepExits(n) && Remedies(Validate, e) && d == Derived(Validate, e);
    DerivedTarget(e);
    FirstReviewExit(n, e);
  }

  lemma DerivedTarget(e: Exit)
    ensures Derived(Validate, e).target == e.target
  {
  }

  lemma UniqueKey(exits: seq<Exit>, a: Exit, b: Exit)
    requires UniqueKeys(exits) && a in exits && b in exits && SameKey(a, b)
    ensures a == b
  {
    var i :| 0 <= i < |exits| && exits[i] == a;
    var j :| 0 <= j < |exits| && exits[j] == b;
    assert SameKey(exits[j], exits[i]);
    assert i <= j && j <= i;
  }
}
