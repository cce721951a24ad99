/** Whether a lock agrees with the wheels it installs (scripts/check_locks.py). */
module LockCheck {
  import opened Options
  import opened Versions
  import opened ExtrasInUse

  /** A locked package's recorded sections: its dependencies, and those of its extras. */
  datatype Package = Package(dependencies: seq<Entry>, optional: map<string, seq<Entry>>)

  /** A section of a package's dependencies: its own, or an extra's. */
  type Section = Option<string>

  datatype Problem =
    | Unrecorded(section: Section, name: string)
    | NoLongerRequired(section: Section, name: string)
    | Unmet(section: Section, requirement: Requirement)
    | Unverified(section: Section, requirement: Requirement)

  type Locked = map<string, set<Version>>

  function Recorded(entries: seq<Entry>): (names: set<string>)
    ensures forall n :: n in names <==> exists e :: e in entries && e.name == n
  {
    set e | e in entries :: e.name
  }

  function Of(package: Package, section: Section): (entries: seq<Entry>)
    ensures section.None? ==> entries == package.dependencies
    ensures forall x :: section == Some(x) && x in package.optional ==> entries == package.optional[x]
    ensures forall x :: section == Some(x) && x !in package.optional ==> entries == []
  {
    if section.None? then package.dependencies
    else if section.value in package.optional then package.optional[section.value]
    else []
  }

  function Sections(package: Package, inUse: set<string>): (sections: set<Section>)
    ensures forall s :: s in sections <==> s.None? || s.value in package.optional || s.value in inUse
  {
    var extras := package.optional.Keys + inUse;
    var named: set<Section> := set x | x in extras :: Some(x);
    assert forall s: Section :: s.Some? && s.value in extras ==> Some(s.value) in named;
    {None} + named
  }

  /** The last entry of a name, which is the one a dictionary of them keeps. */
  function LastOf(entries: seq<Entry>, name: string): (e: Entry)
    requires name in Recorded(entries)
    ensures e in entries && e.name == name
  {
    var last := entries[|entries| - 1];
    if last.name == name then last
    else
      assert forall e :: e in entries <==> e in entries[..|entries| - 1] || e == last;
      LastOf(entries[..|entries| - 1], name)
  }

  /** The version the lock resolves a dependency to: that on its edge, else the only one
      it is locked at. */
  function Resolved(entries: seq<Entry>, locked: Locked, name: string): (v: Option<Version>)
    requires name in Recorded(entries)
  {
    var edge := LastOf(entries, name).version;
    if edge.Some? && edge.value.text != "" then edge
    else OnlyOne(locked, name)
  }

  function OnlyOne(locked: Locked, name: string): (v: Option<Version>)
    ensures v.Some? ==> name in locked && locked[name] == {v.value} && v.value.text != ""
  {
    if name in locked && |locked[name]| == 1 then
      SingleMember(locked[name]);
      var v :| v in locked[name] && locked[name] == {v};
      if v.text == "" then None else Some(v)
    else None
  }

  lemma SingleMember(versions: set<Version>)
    requires |versions| == 1
    ensures exists v :: v in versions && versions == {v}
  {
    var v :| v in versions;
    assert |versions - {v}| == 0;
    assert versions == {v};
  }

  function VerdictOf(entries: seq<Entry>, locked: Locked, r: Requirement): Verdict
    requires r.name in Recorded(entries) && r.specifier.Some?
  {
    var version := Resolved(entries, locked, r.name);
    if version.None? then Unknown else Meaning(version.value.release, r.specifier.value)
  }

  /** The entry at `j` is the last of the name. */
  predicate LastNamed(entries: seq<Entry>, name: string, j: nat) {
    j < |entries| && entries[j].name == name && forall k :: j < k < |entries| ==> entries[k].name != name
  }

  /** The lock has the dependency at `v`: its last entry says so, or says no version where
      `v` is the only one the dependency is locked at. */
  ghost predicate LockedAt(entries: seq<Entry>, locked: Locked, name: string, v: Version) {
    && v.text != ""
    && exists j: nat :: LastNamed(entries, name, j)
         && (entries[j].version == Some(v)
             || ((entries[j].version.None? || entries[j].version.value.text == "")
                 && name in locked && locked[name] == {v}))
  }

  lemma {:induction false} LastOfIsLast(entries: seq<Entry>, name: string) returns (j: nat)
    requires name in Recorded(entries)
    ensures LastNamed(entries, name, j) && entries[j] == LastOf(entries, name)
  {
    j := |entries| - 1;
    if entries[j].name != name {
      var init := entries[..j];
      assert forall e :: e in entries <==> e in init || e == entries[j];
      j := LastOfIsLast(init, name);
    }
  }

  lemma ResolvedIsLockedAt(entries: seq<Entry>, locked: Locked, name: string, v: Version)
    requires name in Recorded(entries)
    ensures Resolved(entries, locked, name) == Some(v) <==> LockedAt(entries, locked, name, v)
  {
    var j := LastOfIsLast(entries, name);
    assert forall i: nat :: LastNamed(entries, name, i) ==> i == j;
    if name in locked && locked[name] == {v} {
      assert |{v}| == 1;
      assert OnlyOne(locked, name) == if v.text == "" then None else Some(v);
    }
  }

  lemma VerdictIs(entries: seq<Entry>, locked: Locked, r: Requirement)
    requires r.name in Recorded(entries) && r.specifier.Some?
    ensures VerdictOf(entries, locked, r) == Fails <==>
      exists v :: LockedAt(entries, locked, r.name, v) && Meaning(v.release, r.specifier.value) == Fails
    ensures VerdictOf(entries, locked, r) == Unknown <==>
      forall v :: LockedAt(entries, locked, r.name, v) ==> Meaning(v.release, r.specifier.value) == Unknown
    ensures VerdictOf(entries, locked, r) == Verdict.Meets <==>
      exists v :: LockedAt(entries, locked, r.name, v) && Meaning(v.release, r.specifier.value) == Verdict.Meets
  {
    forall v: Version
      ensures Resolved(entries, locked, r.name) == Some(v) <==> LockedAt(entries, locked, r.name, v)
    {
      ResolvedIsLockedAt(entries, locked, r.name, v);
    }
    hide Resolved, LockedAt, Meaning;
  }

  predicate Checked(entries: seq<Entry>, section: Section, r: Requirement) {
    r.extra == section && r.name in Recorded(entries) && r.specifier.Some?
  }

  predicate Wanted(requirements: seq<Requirement>, section: Section, name: string, unmarked: bool) {
    exists r :: r in requirements && r.extra == section && r.name == name && (unmarked ==> !r.marked)
  }

  /** What is wrong with one section: a requirement is unmet by the version the dependency
      is locked at, and unverified by one that cannot tell, or by none. */
  ghost predicate Wrong(entries: seq<Entry>, requirements: seq<Requirement>, locked: Locked, q: Problem) {
    match q
    case Unrecorded(section, name) => Wanted(requirements, section, name, true) && name !in Recorded(entries)
    case NoLongerRequired(section, name) => name in Recorded(entries) && !Wanted(requirements, section, name, false)
    case Unmet(section, r) =>
      && r in requirements && Checked(entries, section, r)
      && exists v :: LockedAt(entries, locked, r.name, v) && Meaning(v.release, r.specifier.value) == Fails
    case Unverified(section, r) =>
      && r in requirements && Checked(entries, section, r)
      && forall v :: LockedAt(entries, locked, r.name, v) ==> Meaning(v.release, r.specifier.value) == Unknown
  }

  /** What is wrong with a package: something, in one of its sections. */
  ghost predicate Reported(package: Package, requirements: seq<Requirement>, inUse: set<string>, locked: Locked, q: Problem) {
    q.section in Sections(package, inUse) && Wrong(Of(package, q.section), requirements, locked, q)
  }

  method MetadataProblems(package: Package, requirements: seq<Requirement>, inUse: set<string>, locked: Locked)
    returns (problems: seq<Problem>)
    ensures forall q :: q in problems <==> Reported(package, requirements, inUse, locked, q)
  {
    problems := [];
    var left := Sections(package, inUse);
    while left != {}
      invariant left <= Sections(package, inUse)
      invariant forall q :: q in problems <==> q.section !in left && Reported(package, requirements, inUse, locked, q)
    {
      var section :| section in left;
      var more := SectionProblems(Of(package, section), section, requirements, locked);
      problems := problems + more;
      left := left - {section};
    }
  }

  method SectionProblems(entries: seq<Entry>, section: Section, requirements: seq<Requirement>, locked: Locked)
    returns (problems: seq<Problem>)
    ensures forall q :: q in problems <==> q.section == section && Wrong(entries, requirements, locked, q)
  {
    var recorded := Recorded(entries);
    var every := set r | r in requirements && r.extra == section :: r.name;
    var unmarked := set r | r in requirements && r.extra == section && !r.marked :: r.name;
    var added := InOrder(unmarked - recorded);
    var removed := InOrder(recorded - every);
    problems := seq(|added|, i requires 0 <= i < |added| => Unrecorded(section, added[i]))
                + seq(|removed|, i requires 0 <= i < |removed| => NoLongerRequired(section, removed[i]));
    NamesReported(entries, section, requirements, locked, added, removed, problems);
    ghost var names := problems;
    for i := 0 to |requirements|
      invariant forall q :: q in problems <==>
        q in names || (q.section == section && VersionWrong(entries, requirements[..i], locked, q))
    {
      var r := requirements[i];
      assert requirements[..i + 1] == requirements[..i] + [r];
      OneMoreVersion(entries, section, requirements[..i], r, locked);
      hide VersionWrong, VerdictOf, Wrong;
      if r.extra == section && r.name in recorded && r.specifier.Some? {
        var verdict := VerdictOf(entries, locked, r);
        if verdict == Fails {
          problems := problems + [Unmet(section, r)];
        } else if verdict == Unknown {
          problems := problems + [Unverified(section, r)];
        }
      }
    }
    assert requirements[..|requirements|] == requirements;
  }

  /** What one more requirement makes wrong with the section. */
  lemma OneMoreVersion(entries: seq<Entry>, section: Section, before: seq<Requirement>, r: Requirement, locked: Locked)
    ensures forall q: Problem :: q.section == section ==>
      (VersionWrong(entries, before + [r], locked, q) <==>
         VersionWrong(entries, before, locked, q)
         || (r.extra == section && r.name in Recorded(entries) && r.specifier.Some?
             && ((q == Unmet(section, r) && VerdictOf(entries, locked, r) == Fails)
                 || (q == Unverified(section, r) && VerdictOf(entries, locked, r) == Unknown))))
  {
    if r.name in Recorded(entries) && r.specifier.Some? {
      VerdictIs(entries, locked, r);
    }
    hide LockedAt, Meaning, VerdictOf, Recorded;
  }

  ghost predicate VersionWrong(entries: seq<Entry>, requirements: seq<Requirement>, locked: Locked, q: Problem) {
    (q.Unmet? || q.Unverified?) && Wrong(entries, requirements, locked, q)
  }

  lemma NamesReported(entries: seq<Entry>, section: Section, requirements: seq<Requirement>, locked: Locked,
                      added: seq<string>, removed: seq<string>, problems: seq<Problem>)
    requires forall n :: n in added <==> Wanted(requirements, section, n, true) && n !in Recorded(entries)
    requires forall n :: n in removed <==> n in Recorded(entries) && !Wanted(requirements, section, n, false)
    requires problems == seq(|added|, i requires 0 <= i < |added| => Unrecorded(section, added[i]))
                         + seq(|removed|, i requires 0 <= i < |removed| => NoLongerRequired(section, removed[i]))
    ensures forall q :: q in problems <==>
      q.section == section && (q.Unrecorded? || q.NoLongerRequired?) && Wrong(entries, requirements, locked, q)
  {
    forall q
      ensures q in problems <==>
        q.section == section && (q.Unrecorded? || q.NoLongerRequired?) && Wrong(entries, requirements, locked, q)
    {
      if q.Unrecorded? && q.section == section && q.name in added {
        var i :| 0 <= i < |added| && added[i] == q.name;
        assert problems[i] == q;
      }
      if q.NoLongerRequired? && q.section == section && q.name in removed {
        var i :| 0 <= i < |removed| && removed[i] == q.name;
        assert problems[|added| + i] == q;
      }
    }
  }

  /** The members of a set, in some order. */
  method InOrder(names: set<string>) returns (out: seq<string>)
    ensures forall n :: n in out <==> n in names
  {
    out := [];
    var left := names;
    while left != {}
      invariant forall n :: n in names <==> n in left || n in out
    {
      var n :| n in left;
      out := out + [n];
      left := left - {n};
    }
  }

  // ---- A lock's internal packages -----------------------------------------------------

  /** A package locked from the wheelhouse, with its wheel's requirements. */
  datatype Internal = Internal(name: string, package: Package, requirements: seq<Requirement>)

  /** The wheels by name; of two of one name, the last. */
  function WheelsOf(internal: seq<Internal>): Wheels {
    if internal == [] then map[]
    else
      var last := internal[|internal| - 1];
      WheelsOf(internal[..|internal| - 1])[last.name := last.requirements]
  }

  lemma {:induction false} WheelIsOf(internal: seq<Internal>, n: string)
    ensures n in WheelsOf(internal) <==> exists one :: one in internal && one.name == n
    ensures n in WheelsOf(internal) ==>
      exists one :: one in internal && one.name == n && one.requirements == WheelsOf(internal)[n]
  {
    if internal != [] {
      var last := internal[|internal| - 1];
      assert forall one :: one in internal <==> one in internal[..|internal| - 1] || one == last;
      WheelIsOf(internal[..|internal| - 1], n);
    }
  }

  method LockProblems(requests: seq<Entry>, internal: seq<Internal>, locked: Locked)
    returns (problems: seq<(string, Problem)>, inUse: InUse)
    ensures Least(requests, WheelsOf(internal), Facts(inUse))
    ensures forall n, q :: (n, q) in problems <==> ReportedOf(internal, Facts(inUse), locked, n, q)
  {
    hide Least, Reported, WheelsOf;
    inUse := Compute(requests, WheelsOf(internal));
    ghost var facts := Facts(inUse);
    problems := [];
    for i := 0 to |internal|
      invariant forall n, q :: (n, q) in problems <==> ReportedOf(internal[..i], facts, locked, n, q)
    {
      var one := internal[i];
      ghost var sofar := problems;
      var found := MetadataProblems(one.package, one.requirements, Lookup(inUse, one.name), locked);
      assert ExtrasOf(facts, one.name) == Lookup(inUse, one.name);
      assert internal[..i + 1] == internal[..i] + [one];
      var named := seq(|found|, k requires 0 <= k < |found| => (one.name, found[k]));
      assert forall n, q :: (n, q) in named <==> n == one.name && q in found by {
        NamedAre(one.name, found, named);
      }
      problems := problems + named;
      OneMoreReported(internal[..i], one, facts, locked);
    }
    assert internal[..|internal|] == internal;
  }

  lemma NamedAre(name: string, found: seq<Problem>, named: seq<(string, Problem)>)
    requires |named| == |found| && forall k :: 0 <= k < |named| ==> named[k] == (name, found[k])
    ensures forall n, q :: (n, q) in named <==> n == name && q in found
  {
    forall q | q in found
      ensures (name, q) in named
    {
      var k :| 0 <= k < |found| && found[k] == q;
      assert named[k] == (name, q);
    }
  }

  lemma OneMoreReported(before: seq<Internal>, one: Internal, facts: set<Fact>, locked: Locked)
    ensures forall n, q :: ReportedOf(before + [one], facts, locked, n, q) <==>
      ReportedOf(before, facts, locked, n, q)
      || (n == one.name && Reported(one.package, one.requirements, ExtrasOf(facts, n), locked, q))
  {
    hide Reported;
    assert forall other :: other in before + [one] <==> other in before || other == one;
  }

  function ExtrasOf(facts: set<Fact>, name: string): (extras: set<string>)
    ensures forall x :: x in extras <==> (name, x) in facts
  {
    set f | f in facts && f.0 == name :: f.1
  }

  ghost predicate ReportedOf(internal: seq<Internal>, facts: set<Fact>, locked: Locked, name: string, q: Problem) {
    exists one :: one in internal && one.name == name
      && Reported(one.package, one.requirements, ExtrasOf(facts, name), locked, q)
  }

  /** The lock records what the wheel requires, no more, and resolves each dependency to
      a version that meets its specifier. */
  ghost predicate Agrees(one: Internal, section: Section, locked: Locked) {
    var entries := Of(one.package, section);
    && (forall r :: r in one.requirements && r.extra == section && !r.marked ==> r.name in Recorded(entries))
    && (forall n :: n in Recorded(entries) ==> Wanted(one.requirements, section, n, false))
    && forall r :: r in one.requirements && Checked(entries, section, r) ==>
         exists v: Version :: LockedAt(entries, locked, r.name, v) && v.release.Some?
                     && MeetsAll(v.release.value, r.specifier.value)
  }

  ghost predicate SectionClean(one: Internal, section: Section, locked: Locked) {
    forall q: Problem :: q.section == section ==> !Wrong(Of(one.package, section), one.requirements, locked, q)
  }

  lemma CleanAgrees(one: Internal, section: Section, locked: Locked)
    ensures SectionClean(one, section, locked) <==> Agrees(one, section, locked)
  {
    var entries := Of(one.package, section);
    forall r | r in one.requirements && Checked(entries, section, r)
      ensures VerdictOf(entries, locked, r) == Verdict.Meets <==>
        exists v: Version :: LockedAt(entries, locked, r.name, v) && v.release.Some?
                    && MeetsAll(v.release.value, r.specifier.value)
      ensures VerdictOf(entries, locked, r) == Fails <==> Wrong(entries, one.requirements, locked, Unmet(section, r))
      ensures VerdictOf(entries, locked, r) == Unknown <==> Wrong(entries, one.requirements, locked, Unverified(section, r))
    {
      VerdictIs(entries, locked, r);
      forall v: Version
        ensures Meaning(v.release, r.specifier.value) == Verdict.Meets <==>
          v.release.Some? && MeetsAll(v.release.value, r.specifier.value)
      {
        MeaningIs(v.release, r.specifier.value);
      }
      hide VerdictOf, LockedAt, Meaning, MeetsAll;
    }
    if SectionClean(one, section, locked) {
      forall r | r in one.requirements && r.extra == section && !r.marked
        ensures r.name in Recorded(entries)
      {
        assert !Wrong(entries, one.requirements, locked, Unrecorded(section, r.name));
      }
      forall n | n in Recorded(entries)
        ensures Wanted(one.requirements, section, n, false)
      {
        assert !Wrong(entries, one.requirements, locked, NoLongerRequired(section, n));
      }
    }
  }

  /** Every section in use of every internal package agrees with its wheel. */
  ghost predicate AllAgree(internal: seq<Internal>, facts: set<Fact>, locked: Locked) {
    forall one, section :: one in internal && section in Sections(one.package, ExtrasOf(facts, one.name))
      ==> Agrees(one, section, locked)
  }

  ghost predicate NothingReported(internal: seq<Internal>, facts: set<Fact>, locked: Locked) {
    forall n, q :: !ReportedOf(internal, facts, locked, n, q)
  }

  /** An empty report is sound and complete: nothing is reported exactly when every
      section in use agrees. */
  lemma NothingReportedMeans(internal: seq<Internal>, facts: set<Fact>, locked: Locked)
    ensures NothingReported(internal, facts, locked) <==> AllAgree(internal, facts, locked)
  {
    if NothingReported(internal, facts, locked) {
      forall one, section | one in internal && section in Sections(one.package, ExtrasOf(facts, one.name))
        ensures Agrees(one, section, locked)
      {
        forall q: Problem | q.section == section
          ensures !Wrong(Of(one.package, section), one.requirements, locked, q)
        {
          assert !ReportedOf(internal, facts, locked, one.name, q);
        }
        CleanAgrees(one, section, locked);
      }
    }
    if AllAgree(internal, facts, locked) {
      forall n, q
        ensures !ReportedOf(internal, facts, locked, n, q)
      {
        forall one | one in internal && one.name == n
          ensures !Reported(one.package, one.requirements, ExtrasOf(facts, n), locked, q)
        {
          CleanAgrees(one, q.section, locked);
        }
      }
    }
  }

  /** With nothing reported, each unmarked requirement active under the extras requested
      is recorded and, if it has a specifier, resolved to a version that meets it. */
  lemma ActiveRequirementIsMet(internal: seq<Internal>, facts: set<Fact>, locked: Locked, one: Internal, r: Requirement)
    requires NothingReported(internal, facts, locked) && one in internal && r in one.requirements
    requires !r.marked && Active(r, one.name, facts)
    ensures r.name in Recorded(Of(one.package, r.extra))
    ensures r.specifier.Some? ==> exists v: Version ::
      LockedAt(Of(one.package, r.extra), locked, r.name, v) && v.release.Some?
      && MeetsAll(v.release.value, r.specifier.value)
  {
    NothingReportedMeans(internal, facts, locked);
    assert r.extra in Sections(one.package, ExtrasOf(facts, one.name));
    assert Agrees(one, r.extra, locked);
  }

  // ---- What one entry, and one wheel, of a name leaves unseen ---------------------------

  predicate NamedOnce(entries: seq<Entry>) {
    forall i, j :: 0 <= i < j < |entries| ==> entries[i].name != entries[j].name
  }

  /** Each recorded entry of a dependency meets its requirements, forked or not. */
  ghost predicate EntriesMeet(entries: seq<Entry>, r: Requirement) {
    forall e :: e in entries && e.name == r.name && e.version.Some? && e.version.value.text != "" && r.specifier.Some? ==>
      Meaning(e.version.value.release, r.specifier.value) == Verdict.Meets
  }

  /** Where a section records each name once, a clean one has every entry met. */
  lemma UnforkedIsMet(one: Internal, section: Section, locked: Locked, r: Requirement)
    requires SectionClean(one, section, locked) && r in one.requirements && r.extra == section
    requires NamedOnce(Of(one.package, section))
    ensures EntriesMeet(Of(one.package, section), r)
  {
    var entries := Of(one.package, section);
    forall e | e in entries && e.name == r.name && e.version.Some? && e.version.value.text != "" && r.specifier.Some?
      ensures Meaning(e.version.value.release, r.specifier.value) == Verdict.Meets
    {
      var last := LastOf(entries, r.name);
      var i :| 0 <= i < |entries| && entries[i] == e;
      var j :| 0 <= j < |entries| && entries[j] == last;
      assert entries[i].name == entries[j].name;
      assert !Wrong(entries, one.requirements, locked, Unmet(section, r));
      assert !Wrong(entries, one.requirements, locked, Unverified(section, r));
    }
  }

  const ONE := Version("1", Some([1]))
  const TWO := Version("2", Some([2]))
  const AT_LEAST_TWO := [Compare(AtLeast, Some([2]))]

  /** Entries of the names given, all but the one at `i` at version 2. */
  function Forked(names: seq<string>, i: nat): (entries: seq<Entry>)
    ensures |entries| == |names|
    ensures forall k :: 0 <= k < |names| ==> entries[k] == Entry(names[k], Some(if k == i then ONE else TWO), {})
  {
    seq(|names|, k requires 0 <= k < |names| => Entry(names[k], Some(if k == i then ONE else TWO), {}))
  }

  function AllAtLeastTwo(names: seq<string>): (requirements: seq<Requirement>)
    ensures |requirements| == |names|
    ensures forall k :: 0 <= k < |names| ==>
      requirements[k] == Requirement(names[k], Some(AT_LEAST_TWO), None, false, {})
  {
    seq(|names|, k requires 0 <= k < |names| => Requirement(names[k], Some(AT_LEAST_TWO), None, false, {}))
  }

  lemma {:induction false} LastIsNot(names: seq<string>, i: nat, j: nat, name: string)
    requires i < j < |names| && names[i] == names[j] && name in Recorded(Forked(names, i))
    ensures LastOf(Forked(names, i), name).version == Some(TWO)
    decreases |names|
  {
    var entries := Forked(names, i);
    var n := |names| - 1;
    if names[n] != name {
      assert entries[..n] == Forked(names[..n], i);
      assert forall e :: e in entries <==> e in entries[..n] || e == entries[n];
      if j < n {
        LastIsNot(names[..n], i, j, name);
      } else {
        LastAway(names[..n], i, name);
      }
    }
  }

  lemma {:induction false} LastAway(names: seq<string>, i: nat, name: string)
    requires i < |names| && names[i] != name && name in Recorded(Forked(names, i))
    ensures LastOf(Forked(names, i), name).version == Some(TWO)
  {
    var entries := Forked(names, i);
    var last := LastOf(entries, name);
    var k :| 0 <= k < |entries| && entries[k] == last;
  }

  lemma TwoMeets()
    ensures Meaning(Some([2]), AT_LEAST_TWO) == Verdict.Meets && Meaning(Some([1]), AT_LEAST_TWO) == Fails
  {
    assert TupleLess([1], [2]) && !TupleLess([2], [2]);
    assert AT_LEAST_TWO[1..] == [];
  }

  lemma ForkedIsWanted(names: seq<string>, i: nat, n: string)
    requires i < |names|
    ensures n in Recorded(Forked(names, i)) <==> n in names
    ensures n in names ==> Wanted(AllAtLeastTwo(names), None, n, false)
  {
    if n in names {
      var k :| 0 <= k < |names| && names[k] == n;
      assert Forked(names, i)[k].name == n && AllAtLeastTwo(names)[k].name == n;
      assert AllAtLeastTwo(names)[k] in AllAtLeastTwo(names);
    }
  }

  lemma ForkedIsMet(names: seq<string>, i: nat, j: nat, locked: Locked, r: Requirement)
    requires i < j < |names| && names[i] == names[j] && r in AllAtLeastTwo(names)
    requires r.name in Recorded(Forked(names, i))
    ensures r.specifier.Some? && VerdictOf(Forked(names, i), locked, r) == Verdict.Meets
  {
    LastIsNot(names, i, j, r.name);
    TwoMeets();
    hide Meaning;
  }

  lemma ForkedIsClean(names: seq<string>, i: nat, j: nat, locked: Locked)
    requires i < j < |names| && names[i] == names[j]
    ensures SectionClean(Internal("w", Package(Forked(names, i), map[]), AllAtLeastTwo(names)), None, locked)
  {
    var entries, requirements := Forked(names, i), AllAtLeastTwo(names);
    forall q: Problem | q.section == None
      ensures !Wrong(entries, requirements, locked, q)
    {
      if q.Unrecorded? || q.NoLongerRequired? {
        ForkedIsWanted(names, i, q.name);
      } else if q.requirement in requirements && Checked(entries, None, q.requirement) {
        ForkedIsMet(names, i, j, locked, q.requirement);
        VerdictIs(entries, locked, q.requirement);
      }
    }
    hide Wrong;
  }

  /** A section that records a name twice can be clean with an entry no requirement of
      that name allows: only the last entry of a name is checked. */
  lemma ForkEscapes(names: seq<string>, i: nat, j: nat, locked: Locked)
    requires i < j < |names| && names[i] == names[j]
    ensures var one := Internal("w", Package(Forked(names, i), map[]), AllAtLeastTwo(names));
      SectionClean(one, None, locked) && exists r :: r in one.requirements && !EntriesMeet(Of(one.package, None), r)
  {
    var entries, requirements := Forked(names, i), AllAtLeastTwo(names);
    ForkedIsClean(names, i, j, locked);
    hide SectionClean;
    TwoMeets();
    assert requirements[i] in requirements && entries[i] in entries;
    assert !EntriesMeet(entries, requirements[i]);
  }

  predicate LockedOnce(internal: seq<Internal>) {
    forall i, j :: 0 <= i < j < |internal| ==> internal[i].name != internal[j].name
  }

  /** Where no two internal packages share a name, every wheel's requirements count
      toward the extras. */
  lemma EveryWheelCounts(requests: seq<Entry>, internal: seq<Internal>, facts: set<Fact>, one: Internal)
    requires Least(requests, WheelsOf(internal), facts) && one in internal && LockedOnce(internal)
    ensures Served(one.name, one.requirements, facts)
  {
    WheelIsOf(internal, one.name);
    var other :| other in internal && other.name == one.name && other.requirements == WheelsOf(internal)[one.name];
    var i :| 0 <= i < |internal| && internal[i] == one;
    var j :| 0 <= j < |internal| && internal[j] == other;
    assert internal[i].name == internal[j].name;
    assert Served(one.name, WheelsOf(internal)[one.name], facts);
  }

  /** The internal packages of the names given, the one at `i` requesting an extra. */
  function OneRequests(names: seq<string>, i: nat): (internal: seq<Internal>)
    ensures |internal| == |names|
    ensures forall k :: 0 <= k < |names| ==> internal[k] == Internal(names[k], Package([], map[]),
      if k == i then [Requirement("d", None, None, false, {"x"})] else [])
  {
    seq(|names|, k requires 0 <= k < |names| => Internal(names[k], Package([], map[]),
      if k == i then [Requirement("d", None, None, false, {"x"})] else []))
  }

  lemma {:induction false} LaterWins(names: seq<string>, i: nat)
    requires i < |names|
    requires exists j :: i < j < |names| && names[j] == names[i]
    ensures forall n :: n in WheelsOf(OneRequests(names, i)) ==> WheelsOf(OneRequests(names, i))[n] == []
  {
    var n := |names| - 1;
    assert OneRequests(names, i)[..n] == OneRequests(names[..n], i);
    if exists j :: i < j < n && names[j] == names[i] {
      LaterWins(names[..n], i);
    } else {
      OthersAskNothing(names[..n], i);
    }
  }

  lemma {:induction false} OthersAskNothing(names: seq<string>, i: nat)
    requires i < |names|
    ensures forall n :: n in WheelsOf(OneRequests(names, i)) && n != names[i] ==> WheelsOf(OneRequests(names, i))[n] == []
  {
    var internal := OneRequests(names, i);
    forall n | n in WheelsOf(internal) && n != names[i]
      ensures WheelsOf(internal)[n] == []
    {
      WheelIsOf(internal, n);
      var one :| one in internal && one.name == n && one.requirements == WheelsOf(internal)[n];
    }
  }

  /** Of two wheels of one name the earlier one's requests are lost. */
  lemma EarlierWheelIsLost(names: seq<string>, i: nat, j: nat)
    requires i < j < |names| && names[i] == names[j]
    ensures var internal := OneRequests(names, i);
      Least([], WheelsOf(internal), {}) && !Served(names[i], internal[i].requirements, {})
  {
    LaterWins(names, i);
    var r := OneRequests(names, i)[i].requirements[0];
    assert r in OneRequests(names, i)[i].requirements && "x" in r.requested;
    assert !Asked(r.name, r.requested, {});
  }
}
