/** The workflow's graph: its table of nodes and exits, how a target names a node, and
    when an entry to a node is refused. */
module WorkflowGraph {
  import opened Options

  // ---- Nodes ---------------------------------------------------------------

  datatype Kind = DesignKind | ImplementationKind | PreCloseoutKind | CloseoutKind

  datatype Node = Design | Review(kind: Kind) | Triage(kind: Kind) | Plan | Round | RoundView
    | Validate | Merge | Closeout | ArchiveCleanup | Done

  // ---- Targets ---------------------------------------------------------------

  /** The step a target writes: one of the table's, `implement`, or any other word.
      `review` and `triage` are nodes only with a kind. */
  datatype StepName = ReviewStep | TriageStep | ImplementStep | ValidateStep
    | PlainStep(node: Node) | OtherStep(text: string)
  {
    /** A plain step is that of a node no kind qualifies and no other word names. */
    ghost predicate Valid() {
      PlainStep? ==> !node.Review? && !node.Triage? && !node.Validate?
    }
  }

  datatype KindName = KindNamed(kind: Kind) | OtherKind(text: string)

  /** A field of a target: absent, a value of the type read for, or another value. */
  datatype Field<T> = Absent | Value(value: T) | Misread

  /** A target as an entry carries it, before it is known to name a node. `sections`
      holds whether the value is a list of sessions of section ids; `extra`, whether it
      has a field no target has. */
  datatype Target = NotObject
    | Target(step: Field<StepName>, kind: Field<KindName>, sections: Field<bool>,
             target: Field<Target>, extra: bool)

  predicate Kinded(step: StepName) {
    step.ReviewStep? || step.TriageStep?
  }

  /** The node `t` names; none when it names no node. */
  function NodeOf(t: Target): (node: Option<Node>)
  {
    match t
    case NotObject => None
    case Target(Value(step), kind, sections, target, extra) =>
      if extra then None
      else if !kind.Absent? && !Kinded(step) then None
      else if !sections.Absent? && step != ImplementStep then None
      else if !target.Absent? && step != ValidateStep then None
      else
        (match step
         case ReviewStep => if kind.Value? && kind.value.KindNamed? then Some(Review(kind.value.kind)) else None
         case TriageStep => if kind.Value? && kind.value.KindNamed? then Some(Triage(kind.value.kind)) else None
         case ImplementStep => if sections == Value(true) then Some(Round) else None
         case ValidateStep =>
           if !target.Value? then None
           else
             var nested := NodeOf(target.value);
             if nested.None? || nested == Some(Validate) then None else Some(Validate)
         case PlainStep(node) => Some(node)
         case OtherStep(_) => None)
    case Target(_, _, _, _, _) => None
  }

  /** Every name a target uses is written as the table writes it. */
  ghost predicate Written(t: Target) {
    t.Target? ==>
      && (t.step.Value? ==> t.step.value.Valid())
      && (t.target.Value? ==> Written(t.target.value))
  }

  /** A target naming a node names it by its own fields alone: a validation is for a
      node that is no validation, and no other node names a target. */
  lemma ValidationNamesAnotherNode(t: Target)
    requires Written(t)
    ensures NodeOf(t) == Some(Validate) <==>
      && t.Target? && t.step == Value(ValidateStep) && !t.extra
      && t.kind.Absent? && t.sections.Absent? && t.target.Value?
      && NodeOf(t.target.value).Some? && NodeOf(t.target.value) != Some(Validate)
  {
  }

  /** The fields a target names a node by: a review or a triage by its kind, a round by its
      sections or its own word, a validation by the target it is for, any other by its word
      alone. */
  ghost predicate Names(t: Target, n: Node) {
    && t.Target? && !t.extra
    && match n
       case Review(kind) =>
         t.step == Value(ReviewStep) && t.kind == Value(KindNamed(kind)) && t.sections.Absent? && t.target.Absent?
       case Triage(kind) =>
         t.step == Value(TriageStep) && t.kind == Value(KindNamed(kind)) && t.sections.Absent? && t.target.Absent?
       case Validate =>
         && t.step == Value(ValidateStep) && t.kind.Absent? && t.sections.Absent? && t.target.Value?
         && exists m :: m != Validate && Names(t.target.value, m)
       case Round =>
         && t.kind.Absent? && t.target.Absent?
         && ((t.step == Value(ImplementStep) && t.sections == Value(true))
             || (t.step == Value(PlainStep(Round)) && t.sections.Absent?))
       case _ => t.step == Value(PlainStep(n)) && t.kind.Absent? && t.sections.Absent? && t.target.Absent?
  }

  lemma {:induction false} NodeIsNamed(t: Target, n: Node)
    requires Written(t)
    ensures NodeOf(t) == Some(n) <==> Names(t, n)
  {
    if t.Target? && t.target.Value? {
      forall m
        ensures NodeOf(t.target.value) == Some(m) <==> Names(t.target.value, m)
      {
        NodeIsNamed(t.target.value, m);
      }
    }
  }

  // ---- The table -------------------------------------------------------------

  datatype When = Always | Advance | AnotherRound | Return | OutOfOrder | NothingToImplement | AfterLastRound

  datatype Guard = PlanningReleased | ImplementationReleased | CloseoutReleased | Bootstrapped
    | ReturnConfirmed | HeadValidated | RoundFixValidated | RepeatFixRead | RepeatFixValidated
    | MergeValidated | MergeReviewValidated | DocumentedFixValidated | CorrectionValidated

  /** The step that makes a guard hold; none where only the owner, or waiting, can. */
  function Remedy(g: Guard): Option<Node> {
    match g
    case PlanningReleased | ImplementationReleased | CloseoutReleased | Bootstrapped | ReturnConfirmed => None
    case RepeatFixRead => Some(RoundView)
    case _ => Some(Validate)
  }

  /** The step named when the remedy has run and failed. */
  function RemedyFailed(g: Guard): Option<Node> {
    if g.MergeValidated? || g.MergeReviewValidated? then Some(Merge) else None
  }

  datatype Exit = Exit(target: Node, guards: seq<Guard>, when: When, join: bool)

  /** The nodes whose steps supply the one join there is. */
  const ROUND_JOIN: seq<Node> := [Round, RoundView, Validate, Review(ImplementationKind)]

  /** The nodes declared with exits of their own, in the table's order. */
  const STEP_NODES: seq<Node> := [Design, Review(DesignKind), Triage(DesignKind), Plan, Round,
    Review(ImplementationKind), Triage(ImplementationKind), Review(PreCloseoutKind), Triage(PreCloseoutKind),
    Merge, Closeout, Review(CloseoutKind), Triage(CloseoutKind), ArchiveCleanup, Done]

  function StepExits(n: Node): seq<Exit> {
    match n
    case Design => [Exit(Review(DesignKind), [], Always, false)]
    case Review(DesignKind) => [Exit(Triage(DesignKind), [], Always, false)]
    case Triage(DesignKind) => [
      Exit(Plan, [PlanningReleased], Advance, false),
      Exit(Review(DesignKind), [], AnotherRound, false),
      Exit(Design, [ReturnConfirmed], Return, false)]
    case Plan => [
      Exit(Round, [ImplementationReleased], Always, false),
      Exit(Review(PreCloseoutKind), [HeadValidated], NothingToImplement, false)]
    case Round => [Exit(Triage(ImplementationKind), [Bootstrapped], Always, true)]
    case Review(ImplementationKind) => [Exit(Triage(ImplementationKind), [], Always, true)]
    case Triage(ImplementationKind) => [
      Exit(Round, [RoundFixValidated], Advance, false),
      Exit(Round, [RoundFixValidated], OutOfOrder, false),
      Exit(Review(PreCloseoutKind), [RoundFixValidated], AfterLastRound, false),
      Exit(Review(ImplementationKind), [RepeatFixRead, RepeatFixValidated], AnotherRound, false),
      Exit(Plan, [ReturnConfirmed], Return, false),
      Exit(Design, [ReturnConfirmed], Return, false)]
    case Review(PreCloseoutKind) => [Exit(Triage(PreCloseoutKind), [], Always, false)]
    case Triage(PreCloseoutKind) => [
      Exit(Merge, [], Advance, false),
      Exit(Review(PreCloseoutKind), [DocumentedFixValidated], AnotherRound, false),
      Exit(Plan, [ReturnConfirmed], Return, false),
      Exit(Design, [ReturnConfirmed], Return, false)]
    case Merge => [
      Exit(Closeout, [CloseoutReleased, MergeValidated], Advance, false),
      Exit(Review(PreCloseoutKind), [MergeReviewValidated], AnotherRound, false),
      Exit(Plan, [ReturnConfirmed], Return, false),
      Exit(Design, [ReturnConfirmed], Return, false)]
    case Closeout => [Exit(Review(CloseoutKind), [], Always, false)]
    case Review(CloseoutKind) => [Exit(Triage(CloseoutKind), [], Always, false)]
    case Triage(CloseoutKind) => [
      Exit(ArchiveCleanup, [CorrectionValidated], Advance, false),
      Exit(Review(CloseoutKind), [], AnotherRound, false)]
    case ArchiveCleanup => [Exit(Done, [], Always, false)]
    case RoundView | Validate | Done => []
  }

  /** The table read the other way: by the node an exit leads to, where it comes from, when
      it is taken, and what guards it. */
  ghost predicate LeadsTo(source: Node, e: Exit) {
    && (e.join <==> e.target == Triage(ImplementationKind))
    && match e.target
       case Design =>
         && source in {Triage(DesignKind), Triage(ImplementationKind), Triage(PreCloseoutKind), Merge}
         && e.when == Return && e.guards == [ReturnConfirmed]
       case Plan =>
         || (source == Triage(DesignKind) && e.when == Advance && e.guards == [PlanningReleased])
         || (source in {Triage(ImplementationKind), Triage(PreCloseoutKind), Merge}
             && e.when == Return && e.guards == [ReturnConfirmed])
       case Round =>
         || (source == Plan && e.when == Always && e.guards == [ImplementationReleased])
         || (source == Triage(ImplementationKind) && e.when in {Advance, OutOfOrder} && e.guards == [RoundFixValidated])
       case Triage(kind) =>
         && e.when == Always
         && ((source == Review(kind) && e.guards == [])
             || (source == Round && kind == ImplementationKind && e.guards == [Bootstrapped]))
       case Review(DesignKind) =>
         e.guards == [] && ((source == Design && e.when == Always) || (source == Triage(DesignKind) && e.when == AnotherRound))
       case Review(ImplementationKind) =>
         source == Triage(ImplementationKind) && e.when == AnotherRound && e.guards == [RepeatFixRead, RepeatFixValidated]
       case Review(PreCloseoutKind) =>
         || (source == Plan && e.when == NothingToImplement && e.guards == [HeadValidated])
         || (source == Triage(ImplementationKind) && e.when == AfterLastRound && e.guards == [RoundFixValidated])
         || (source == Triage(PreCloseoutKind) && e.when == AnotherRound && e.guards == [DocumentedFixValidated])
         || (source == Merge && e.when == AnotherRound && e.guards == [MergeReviewValidated])
       case Review(CloseoutKind) =>
         e.guards == [] && ((source == Closeout && e.when == Always) || (source == Triage(CloseoutKind) && e.when == AnotherRound))
       case Merge => source == Triage(PreCloseoutKind) && e.when == Advance && e.guards == []
       case Closeout => source == Merge && e.when == Advance && e.guards == [CloseoutReleased, MergeValidated]
       case ArchiveCleanup => source == Triage(CloseoutKind) && e.when == Advance && e.guards == [CorrectionValidated]
       case Done => source == ArchiveCleanup && e.when == Always && e.guards == []
       case RoundView | Validate => false
  }

  lemma ExitsLeadTo(source: Node, e: Exit)
    ensures e in StepExits(source) <==> LeadsTo(source, e)
  {
    match source {
      case Triage(kind) => TriageExitsLeadTo(kind, e);
      case Merge => MergeLeads(e);
      case _ =>
    }
  }

  lemma MergeLeads(e: Exit)
    ensures e in StepExits(Merge) <==> LeadsTo(Merge, e)
  {
  }

  lemma TriageExitsLeadTo(kind: Kind, e: Exit)
    ensures e in StepExits(Triage(kind)) <==> LeadsTo(Triage(kind), e)
  {
    match kind {
      case DesignKind =>
      case ImplementationKind => ImplementationTriageLeads(e);
      case PreCloseoutKind => PreCloseoutTriageLeads(e);
      case CloseoutKind =>
    }
  }

  lemma ImplementationTriageLeads(e: Exit)
    ensures e in StepExits(Triage(ImplementationKind)) <==> LeadsTo(Triage(ImplementationKind), e)
  {
  }

  lemma PreCloseoutTriageLeads(e: Exit)
    ensures e in StepExits(Triage(PreCloseoutKind)) <==> LeadsTo(Triage(PreCloseoutKind), e)
  {
  }

  /** Whether `remedy` supplies the exit's join, or remedies one of its guards. */
  predicate Remedies(remedy: Node, e: Exit) {
    if e.join && remedy in ROUND_JOIN then true
    else exists g :: g in e.guards && Remedy(g) == Some(remedy)
  }

  /** The exit as the remedy's own: a join is waited on, and nothing else is. */
  function Derived(remedy: Node, e: Exit): Exit {
    if e.join && remedy in ROUND_JOIN then Exit(e.target, [], Always, true) else e
  }

  predicate SameKey(a: Exit, b: Exit) {
    a.target == b.target && a.when == b.when
  }

  /** `found` with the remedy's share of `exits` after it: the first exit to a target on
      an occasion is kept. */
  function AddRemedied(remedy: Node, found: seq<Exit>, exits: seq<Exit>): seq<Exit> {
    if exits == [] then found
    else
      var before := AddRemedied(remedy, found, exits[..|exits| - 1]);
      var e := exits[|exits| - 1];
      if Remedies(remedy, e) && forall d :: d in before ==> !SameKey(d, Derived(remedy, e))
      then before + [Derived(remedy, e)] else before
  }

  function Remedied(remedy: Node, nodes: seq<Node>): seq<Exit> {
    if nodes == [] then []
    else AddRemedied(remedy, Remedied(remedy, nodes[..|nodes| - 1]), StepExits(nodes[|nodes| - 1]))
  }

  function Exits(n: Node): seq<Exit> {
    if n == RoundView || n == Validate then Remedied(n, STEP_NODES) else StepExits(n)
  }

  ghost predicate UniqueKeys(exits: seq<Exit>) {
    forall i, j :: 0 <= i < j < |exits| ==> !SameKey(exits[i], exits[j])
  }

  ghost predicate HasKey(exits: seq<Exit>, e: Exit) {
    exists d :: d in exits && SameKey(d, e)
  }

  ghost predicate DerivedFrom(remedy: Node, exits: seq<Exit>, d: Exit) {
    exists e :: e in exits && Remedies(remedy, e) && d == Derived(remedy, e)
  }

  lemma {:induction false} AddedRemedied(remedy: Node, found: seq<Exit>, exits: seq<Exit>)
    requires UniqueKeys(found)
    ensures UniqueKeys(AddRemedied(remedy, found, exits))
    ensures found <= AddRemedied(remedy, found, exits)
    ensures forall d :: d in AddRemedied(remedy, found, exits) ==> d in found || DerivedFrom(remedy, exits, d)
    ensures forall e :: e in exits && Remedies(remedy, e) ==>
      HasKey(AddRemedied(remedy, found, exits), Derived(remedy, e))
  {
    if exits != [] {
      var init, last := exits[..|exits| - 1], exits[|exits| - 1];
      AddedRemedied(remedy, found, init);
      var before, all := AddRemedied(remedy, found, init), AddRemedied(remedy, found, exits);
      forall d | d in all
        ensures d in found || DerivedFrom(remedy, exits, d)
      {
        if d in before && d !in found {
          assert DerivedFrom(remedy, init, d);
          var e :| e in init && Remedies(remedy, e) && d == Derived(remedy, e);
          assert e in exits;
        } else if d !in before {
          assert last in exits && d == Derived(remedy, last);
        }
      }
      forall e | e in exits && Remedies(remedy, e)
        ensures HasKey(all, Derived(remedy, e))
      {
        if e in init {
          assert HasKey(before, Derived(remedy, e));
          var d :| d in before && SameKey(d, Derived(remedy, e));
          assert d in all;
        } else {
          assert e == last;
          if d :| d in before && SameKey(d, Derived(remedy, last)) {
            assert d in all;
          } else {
            assert all == before + [Derived(remedy, last)];
            assert Derived(remedy, last) in all;
            assert SameKey(Derived(remedy, last), Derived(remedy, last));
          }
        }
      }
    }
  }

  ghost predicate DerivedAmong(remedy: Node, nodes: seq<Node>, d: Exit) {
    exists n :: n in nodes && DerivedFrom(remedy, StepExits(n), d)
  }

  /** A remedy's exits are those it remedies, to each target on each occasion once. */
  lemma {:induction false} RemediedExits(remedy: Node, nodes: seq<Node>)
    ensures UniqueKeys(Remedied(remedy, nodes))
    ensures forall d :: d in Remedied(remedy, nodes) ==> DerivedAmong(remedy, nodes, d)
    ensures forall n, e :: n in nodes && e in StepExits(n) && Remedies(remedy, e) ==>
      HasKey(Remedied(remedy, nodes), Derived(remedy, e))
  {
    hide DerivedFrom, HasKey, StepExits, UniqueKeys, Remedies;
    if nodes == [] {
      NothingRemedied(remedy);
    } else {
      var init, last := nodes[..|nodes| - 1], nodes[|nodes| - 1];
      RemediedExits(remedy, init);
      AddedRemedied(remedy, Remedied(remedy, init), StepExits(last));
      forall d | d in Remedied(remedy, nodes)
        ensures DerivedAmong(remedy, nodes, d)
      {
        if d in Remedied(remedy, init) {
          var n :| n in init && DerivedFrom(remedy, StepExits(n), d);
          assert n in nodes;
        } else {
          assert last in nodes && DerivedFrom(remedy, StepExits(last), d);
        }
      }
      forall n, e | n in nodes && e in StepExits(n) && Remedies(remedy, e)
        ensures HasKey(Remedied(remedy, nodes), Derived(remedy, e))
      {
        if n in init {
          KeyKept(Remedied(remedy, init), Remedied(remedy, nodes), Derived(remedy, e));
        }
      }
    }
  }

  lemma NothingRemedied(remedy: Node)
    ensures UniqueKeys(Remedied(remedy, []))
  {
  }

  lemma KeyKept(some: seq<Exit>, more: seq<Exit>, e: Exit)
    requires some <= more && HasKey(some, e)
    ensures HasKey(more, e)
  {
    var d :| d in some && SameKey(d, e);
    assert d in more;
  }

  // ---- Entries ---------------------------------------------------------------

  datatype Standing = Standing(archived: bool, awaiting: set<Kind>)

  datatype EntryGuard = NotArchived | Archived | AwaitsTriage | CarriesTarget | NeverDirected

  /** The entry guards no direction waives, in the table's order. */
  function EntryGuards(n: Node): seq<EntryGuard> {
    match n
    case Design | Plan | Round | Merge => [NotArchived]
    case Triage(CloseoutKind) => [Archived, AwaitsTriage]
    case Triage(_) => [AwaitsTriage]
    case Review(CloseoutKind) | ArchiveCleanup => [Archived]
    case Validate => [CarriesTarget]
    case Done => [NeverDirected]
    case Review(_) | RoundView | Closeout => []
  }

  /** Whether `g`, a guard on entering `n` as `t` names it, is met. */
  predicate Met(g: EntryGuard, n: Node, t: Target, standing: Standing, directed: bool) {
    match g
    case NotArchived => !standing.archived
    case Archived => standing.archived
    case AwaitsTriage => n.Triage? && n.kind in standing.awaiting
    case CarriesTarget => NodeOf(t).Some?
    case NeverDirected => !directed
  }

  predicate AllMet(guards: seq<EntryGuard>, n: Node, t: Target, standing: Standing, directed: bool) {
    forall g :: g in guards ==> Met(g, n, t, standing, directed)
  }

  datatype Entry = NoNode | Refused(node: Node) | Accepted(node: Node)

  /** The outcome of an entry to `t`: an error where it names no node, a refusal where
      an entry guard of a node it names is not met. A directed validation is checked
      for the target it carries as well. */
  function EntryOutcome(t: Target, standing: Standing, directed: bool): Entry {
    var named := NodeOf(t);
    if named.None? && !(t.Target? && t.step == Value(ValidateStep)) then NoNode
    else
      var n := if named.Some? then named.value else Validate;
      if !AllMet(EntryGuards(n), n, t, standing, directed) then Refused(n)
      else if n == Validate && directed && t.Target? && t.target.Value? then
        var nested := EntryOutcome(t.target.value, standing, directed);
        if nested.Accepted? then Accepted(n) else nested
      else Accepted(n)
  }

  /** An accepted entry names a node whose guards are met; a directed validation's
      target is an accepted entry of its own, and no validation. */
  lemma AcceptedEntry(t: Target, standing: Standing, directed: bool)
    requires Written(t) && EntryOutcome(t, standing, directed).Accepted?
    ensures NodeOf(t) == Some(EntryOutcome(t, standing, directed).node)
    ensures AllMet(EntryGuards(NodeOf(t).value), NodeOf(t).value, t, standing, directed)
    ensures directed && NodeOf(t) == Some(Validate) ==>
      && t.Target? && t.target.Value?
      && EntryOutcome(t.target.value, standing, true).Accepted?
      && EntryOutcome(t.target.value, standing, true).node != Validate
  {
    assert EntryGuards(Validate) == [CarriesTarget];
    assert CarriesTarget in EntryGuards(Validate);
    if directed && NodeOf(t) == Some(Validate) {
      ValidationNamesAnotherNode(t);
      AcceptedEntry(t.target.value, standing, true);
    }
  }

  /** Whether the node can be entered: the earlier phases on a change not archived, those
      past the archive on one that is, a triage where a review of its kind awaits it, and
      the end by no direction. */
  predicate Enterable(n: Node, standing: Standing, directed: bool) {
    match n
    case Design | Plan | Round | Merge => !standing.archived
    case Review(CloseoutKind) | ArchiveCleanup => standing.archived
    case Triage(CloseoutKind) => standing.archived && CloseoutKind in standing.awaiting
    case Triage(kind) => kind in standing.awaiting
    case Done => !directed
    case _ => true
  }

  lemma MetMeans(n: Node, t: Target, standing: Standing, directed: bool)
    requires NodeOf(t) == Some(n)
    ensures AllMet(EntryGuards(n), n, t, standing, directed) <==> Enterable(n, standing, directed)
  {
    var guards := EntryGuards(n);
    if |guards| > 0 && AllMet(guards, n, t, standing, directed) {
      assert Met(guards[0], n, t, standing, directed);
      assert |guards| > 1 ==> Met(guards[1], n, t, standing, directed);
    }
  }

  /** Exactly which entries are accepted, and which name no node: a validation without a
      node to be for is refused, and a directed one is accepted only if the target it is for
      is. */
  lemma EntryMeans(t: Target, standing: Standing, directed: bool)
    requires Written(t)
    ensures var outcome := EntryOutcome(t, standing, directed);
      && (outcome.NoNode? <==> NodeOf(t).None? && !(t.Target? && t.step == Value(ValidateStep)))
      && (outcome.Accepted? <==>
            && NodeOf(t).Some? && Enterable(NodeOf(t).value, standing, directed)
            && (directed && NodeOf(t) == Some(Validate) && t.Target? && t.target.Value? ==>
                  EntryOutcome(t.target.value, standing, true).Accepted?))
  {
    if NodeOf(t).Some? {
      MetMeans(NodeOf(t).value, t, standing, directed);
      if NodeOf(t) == Some(Validate) {
        ValidationNamesAnotherNode(t);
        EntryMeans(t.target.value, standing, true);
      }
    } else {
      assert EntryGuards(Validate)[0] == CarriesTarget && !Met(CarriesTarget, Validate, t, standing, directed);
    }
  }

  /** No direction, however nested, reaches the end of the workflow. */
  lemma DoneIsNeverDirected(t: Target, standing: Standing)
    requires Written(t) && EntryOutcome(t, standing, true).Accepted?
    ensures NodeOf(t) != Some(Done)
    ensures NodeOf(t) == Some(Validate) ==> t.Target? && t.target.Value? && NodeOf(t.target.value) != Some(Done)
  {
    assert NeverDirected in EntryGuards(Done);
    AcceptedEntry(t, standing, true);
    if NodeOf(t) == Some(Validate) {
      AcceptedEntry(t.target.value, standing, true);
    }
  }
}
