/** The Helm part of a validation: the release is replaced, its scenarios run, and it is
    brought down again, whatever happened (scripts/validate_slice.py). */
module Helm {
  import opened HelmTrace
  import opened Options
  import opened Validation

  /** The part so far: its steps and trace go on, and a failure of it stays one. */
  twostate predicate GoesOn(v: Validation)
    reads v
  {
    v.Continues() && (!old(v.passed) ==> !v.passed)
  }

  /** Nothing was deployed, and no test pod left running that was not before. */
  twostate predicate Calm(v: Validation)
    reads v
  {
    DeployedAt(v.trace) == DeployedAt(old(v.trace)) && Pending(v.trace) <= Pending(old(v.trace))
  }

  /** The release is as it was: nothing was touched or deployed. */
  twostate predicate LeavesRelease(v: Validation)
    reads v
  {
    (Touched(v.trace) <==> Touched(old(v.trace))) && Calm(v)
  }

  // ---- What a passed part did ------------------------------------------------------------

  const SCENARIO_POD := "scenarios"

  /** The last that was read is a listing of workloads that is not readable. */
  predicate Raised(trace: Trace) {
    trace != [] && trace[|trace| - 1] == ReadWorkloads(Malformed)
  }

  /** Each thing built, and the charts rendered with no check skipped. */
  ghost predicate Built(trace: Trace, names: seq<string>) {
    && (forall n :: n in names ==> Did(trace, 0, Other(n)))
    && Did(trace, 0, Other("test-render")) && ReadSkips(false) in trace
  }

  /** What was left up scaled down, the pods and volumes deleted, and the secrets made. */
  ghost predicate Prepared(trace: Trace, testVolumes: bool) {
    && Emptied(trace, 0) && Deleted(trace, testVolumes) && TestsCleared(trace, testVolumes)
    && Did(trace, 0, Other("topology-secrets"))
  }

  ghost predicate Deleted(trace: Trace, testVolumes: bool) {
    && Did(trace, 0, Other("delete pods")) && Did(trace, 0, Command.DeleteVolumes)
    && (testVolumes ==> Did(trace, 0, DeleteTestVolumes))
  }

  /** The tests' volumes, where they are asked for, were read as gone. */
  ghost predicate TestsCleared(trace: Trace, testVolumes: bool) {
    testVolumes ==> Event.ReadTestVolumes(Remaining([])) in trace
  }

  /** After all that the release was last deployed; it passed, was resumed, and came up. */
  ghost predicate Replaced(trace: Trace, testVolumes: bool) {
    var d := DeployedAt(trace);
    && d >= 0 && Prepared(trace[..d], testVolumes)
    && Passes(trace, d, Deploy) && Did(trace, d, Other("resume")) && CameUp(trace, d)
  }

  /** From `since` on, unless the checkout was read to have changed, the scenarios' pod, if
      there is one, and each payments check exited with 0. */
  ghost predicate Tested(trace: Trace, since: nat, scenarios: bool) {
    ReadCheckout(true) !in trace ==> (scenarios ==> PodPassed(trace, since, SCENARIO_POD)) && ChecksPassed(trace, since)
  }

  /** All a part that passed did, in this order. */
  ghost predicate PartDone(trace: Trace, names: seq<string>, testVolumes: bool, scenarios: bool) {
    var d := DeployedAt(trace);
    && Replaced(trace, testVolumes) && Built(trace[..d], names) && Tested(trace, d, scenarios)
    && trace[|trace| - 1] == Recorded("clean after", Passed)
  }

  lemma DeletedStays(trace: Trace, longer: Trace, testVolumes: bool)
    requires trace <= longer && Deleted(trace, testVolumes)
    ensures Deleted(longer, testVolumes)
  {
    DidStays(trace, longer, 0, Other("delete pods"));
    DidStays(trace, longer, 0, Command.DeleteVolumes);
    if testVolumes {
      DidStays(trace, longer, 0, DeleteTestVolumes);
    }
  }

  lemma PreparedStays(trace: Trace, longer: Trace, testVolumes: bool)
    requires trace <= longer && Prepared(trace, testVolumes)
    ensures Prepared(longer, testVolumes)
  {
    EmptiedStays(trace, longer, 0);
    DeletedStays(trace, longer, testVolumes);
    DidStays(trace, longer, 0, Other("topology-secrets"));
  }

  lemma BuiltStays(trace: Trace, longer: Trace, names: seq<string>)
    requires trace <= longer && Built(trace, names)
    ensures Built(longer, names)
  {
    forall n | n in names
      ensures Did(longer, 0, Other(n))
    {
      DidStays(trace, longer, 0, Other(n));
    }
    DidStays(trace, longer, 0, Other("test-render"));
  }

  lemma ReplacedStays(trace: Trace, longer: Trace, testVolumes: bool)
    requires trace <= longer && Replaced(trace, testVolumes) && DeployedAt(longer) == DeployedAt(trace)
    ensures Replaced(longer, testVolumes) && longer[..DeployedAt(longer)] == trace[..DeployedAt(trace)]
  {
    var d := DeployedAt(trace);
    assert longer[..d] == trace[..d];
    DidStays(trace, longer, d, Other("resume"));
    CameUpStays(trace, longer, d);
  }

  lemma TestedStays(trace: Trace, longer: Trace, since: nat, scenarios: bool)
    requires trace <= longer && Tested(trace, since, scenarios)
    ensures Tested(longer, since, scenarios)
  {
    if ReadCheckout(true) !in longer {
      assert ReadCheckout(true) !in trace;
      if scenarios {
        PodPassedStays(trace, longer, since, SCENARIO_POD);
      }
      ChecksPassedStays(trace, longer, since);
    }
  }

  // ---- The volumes -------------------------------------------------------------------------

  method ReadVolumes(v: Validation) returns (answer: Claims)
    requires v.Valid()
    modifies v`trace
    ensures v.Valid() && v.Continues() && Calm(v)
    ensures v.trace != [] && v.trace[|v.trace| - 1] == Event.ReadVolumes(answer)
    ensures answer == Remaining([]) ==> Cleared(v.trace)
  {
    answer := *;
    v.Emit(Event.ReadVolumes(answer));
  }

  method ReadTestVolumes(v: Validation) returns (found: Claims)
    requires v.Valid()
    modifies v`trace
    ensures v.Valid() && v.Continues() && (Cleared(v.trace) <==> Cleared(old(v.trace)))
    ensures v.trace != [] && v.trace[|v.trace| - 1] == Event.ReadTestVolumes(found)
    ensures Calm(v)
  {
    found := *;
    v.Emit(Event.ReadTestVolumes(found));
  }

  /** A listing of volumes could not be read. */
  ghost predicate NotListed(trace: Trace) {
    Event.ReadVolumes(NotRead) in trace || Event.ReadTestVolumes(NotRead) in trace
  }

  /** The volumes listed, the release's and, where asked for, its tests'; None when one
      listing is not read. */
  method ListVolumes(v: Validation, testVolumes: bool) returns (left: Option<seq<string>>)
    requires v.Valid()
    modifies v`trace
    ensures v.Valid() && v.Continues() && Calm(v)
    ensures left == Some([]) ==> Cleared(v.trace) && TestsCleared(v.trace, testVolumes)
    ensures left.None? ==> NotListed(v.trace)
  {
    hide Safe, Touched, Marks, Cleared, DeployedAt, Pending;
    var answer := ReadVolumes(v);
    var found := Remaining([]);
    if answer.Remaining? && testVolumes {
      found := ReadTestVolumes(v);
    }
    if answer.NotRead? || found.NotRead? {
      return None;
    }
    return Some(answer.claims + found.claims);
  }

  /** Polls until no volume is listed; true only if the last listing of the release's
      own was empty. */
  method WaitForNoVolumes(v: Validation, testVolumes: bool, wait: int) returns (gone: bool)
    requires v.Valid()
    modifies v
    ensures v.Valid() && v.Continues() && Calm(v)
    ensures gone ==> Cleared(v.trace) && TestsCleared(v.trace, testVolumes)
    ensures !gone ==> NotListed(v.trace) || v.now >= old(v.now) + wait
    ensures v.passed <==> gone && old(v.passed)
  {
    hide Safe, Touched, Marks, Cleared, DeployedAt, Pending;
    var start := v.Clock();
    var deadline := start + wait;
    while true
      invariant v.Valid() && v.Continues() && v.passed == old(v.passed)
      invariant Calm(v) && deadline >= old(v.now) + wait
      decreases deadline - v.now
    {
      var left := ListVolumes(v, testVolumes);
      if left.None? {
        v.Fail("volumes gone");
        return false;
      }
      if left == Some([]) {
        v.Note("volumes gone");
        return true;
      }
      var t := v.Clock();
      if t >= deadline {
        v.Fail("volumes gone");
        return false;
      }
      v.Sleep(2);
    }
  }

  method DeleteVolumes(v: Validation, testVolumes: bool, wait: int) returns (gone: bool)
    requires v.Valid()
    modifies v
    ensures v.Valid() && v.Continues() && Calm(v)
    ensures gone ==> Cleared(v.trace) && Deleted(v.trace, testVolumes) && TestsCleared(v.trace, testVolumes)
    ensures v.passed <==> gone && old(v.passed)
  {
    hide Safe, Touched, Marks, Cleared, DeployedAt, Pending, Deleted;
    var ok := AskDeletion(v, testVolumes);
    if !ok {
      return false;
    }
    ghost var deleted := v.trace;
    gone := WaitForNoVolumes(v, testVolumes, wait);
    DeletedStays(deleted, v.trace, testVolumes);
  }

  method AskDeletion(v: Validation, testVolumes: bool) returns (ok: bool)
    requires v.Valid()
    modifies v
    ensures v.Valid() && v.Continues() && Calm(v)
    ensures ok ==> Deleted(v.trace, testVolumes)
    ensures v.passed <==> ok && old(v.passed)
  {
    hide Safe, Touched, Marks, Cleared, DeployedAt, Pending;
    var step := v.Run("delete pods", Other("delete pods"));
    if step.mark != Passed {
      return false;
    }
    ghost var pods := v.trace;
    step := v.Run("delete volumes", Command.DeleteVolumes);
    if step.mark != Passed {
      return false;
    }
    ghost var volumes := v.trace;
    assert Did(volumes, 0, Command.DeleteVolumes);
    DidStays(pods, volumes, 0, Other("delete pods"));
    if testVolumes {
      step := v.Run("delete test volumes", DeleteTestVolumes);
      if step.mark != Passed {
        return false;
      }
      DeletedStays(volumes, v.trace, false);
      assert Passes(v.trace, |volumes|, DeleteTestVolumes);
    }
    ok := true;
  }

  /** Whether the failed deploy was a refusal to upgrade in place. */
  method Refusal(v: Validation) returns (refused: bool)
    requires v.Valid()
    modifies v`trace
    ensures v.Valid() && v.Continues() && Calm(v)
    ensures v.trace == old(v.trace) + [ReadCheckout(false), ReadRefusal(refused)]
      || (!refused && v.trace == old(v.trace) + [ReadCheckout(true)])
  {
    hide Safe, Touched, Marks, Cleared, DeployedAt, Pending;
    var changed := v.CommitChanged();
    if changed {
      return false;
    }
    refused := *;
    v.Emit(ReadRefusal(refused));
  }

  // ---- The release ---------------------------------------------------------------------------

  method ReleaseWorkloads(v: Validation, listing: Listing)
    requires v.Valid()
    modifies v`trace
    ensures v.Valid() && v.Continues() && (Cleared(v.trace) <==> Cleared(old(v.trace)))
    ensures v.trace == old(v.trace) + [ReadWorkloads(listing)] && Calm(v)
  {
    v.Emit(ReadWorkloads(listing));
  }

  /** Replaces the release; `raised` when a listing of its workloads is not readable. */
  method ReplaceRelease(v: Validation, testVolumes: bool, wait: int) returns (ready: bool, raised: bool)
    requires v.Valid()
    modifies v
    ensures v.Valid() && v.Continues() && Pending(v.trace) <= Pending(old(v.trace))
    ensures ready ==> Replaced(v.trace, testVolumes) && DeployedAt(v.trace) >= |old(v.trace)|
    ensures raised ==> !ready && Raised(v.trace)
    ensures ready ==> v.passed == old(v.passed)
    ensures !ready && !raised ==> !v.passed
  {
    var down: bool;
    down, raised := ScaleLeftovers(v);
    if !down {
      return false, raised;
    }
    ready, raised := StartAnew(v, testVolumes, wait);
  }

  /** Workloads a run that did not end left up are scaled down first. */
  method ScaleLeftovers(v: Validation) returns (down: bool, raised: bool)
    requires v.Valid()
    modifies v
    ensures v.Valid() && v.Continues() && Calm(v)
    ensures raised ==> !down && Raised(v.trace)
    ensures down ==> v.passed == old(v.passed) && Emptied(v.trace, 0)
    ensures !down && !raised ==> !v.passed
  {
    hide Safe, Touched, Marks, Cleared, Up, DeployedAt, Pending;
    var listing: Listing := *;
    ghost var r := |v.trace|;
    ReleaseWorkloads(v, listing);
    match listing {
      case Malformed => return false, true;
      case Refused =>
        v.Fail("workloads");
        return false, false;
      case Listed(workloads) =>
        if Up(workloads) == [] {
          assert EmptiedFrom(v.trace, r);
          return true, false;
        }
        var step := v.Run("scale down", ScaleDown(NamesOf(Up(workloads))));
        if step.mark == Passed {
          assert Passes(v.trace, r + 1, ScaleDown(NamesOf(Up(workloads))));
          assert EmptiedFrom(v.trace, r);
        }
        return step.mark == Passed, false;
    }
  }

  method StartAnew(v: Validation, testVolumes: bool, wait: int) returns (ready: bool, raised: bool)
    requires v.Valid() && Emptied(v.trace, 0)
    modifies v
    ensures v.Valid() && v.Continues() && Pending(v.trace) <= Pending(old(v.trace))
    ensures ready ==> Replaced(v.trace, testVolumes) && DeployedAt(v.trace) >= |old(v.trace)|
    ensures raised ==> !ready && Raised(v.trace)
    ensures ready ==> v.passed == old(v.passed)
    ensures !ready && !raised ==> !v.passed
  {
    hide Safe, Touched, Marks, Cleared, DeployedAt, Pending, Emptied, Deleted, Prepared;
    var gone := DeleteVolumes(v, testVolumes, wait);
    if !gone {
      return false, false;
    }
    ghost var deleted := v.trace;
    var step := v.Run("namespace secrets", Other("topology-secrets"));
    if step.mark != Passed {
      return false, false;
    }
    SecretsPrepare(old(v.trace), deleted, v.trace, testVolumes);
    hide Did;
    ready, raised := DeployAndWait(v, testVolumes, wait);
  }

  lemma SecretsPrepare(emptied: Trace, deleted: Trace, trace: Trace, testVolumes: bool)
    requires emptied <= deleted <= trace && Emptied(emptied, 0) && Deleted(deleted, testVolumes)
    requires TestsCleared(deleted, testVolumes)
    requires Passes(trace, |deleted|, Other("topology-secrets"))
    ensures Prepared(trace, testVolumes)
  {
    EmptiedStays(emptied, trace, 0);
    DeletedStays(deleted, trace, testVolumes);
  }

  method DeployAndWait(v: Validation, testVolumes: bool, wait: int) returns (ready: bool, raised: bool)
    requires v.Valid() && Cleared(v.trace) && Prepared(v.trace, testVolumes)
    modifies v
    ensures v.Valid() && v.Continues() && Pending(v.trace) <= Pending(old(v.trace))
    ensures ready ==> Replaced(v.trace, testVolumes) && DeployedAt(v.trace) >= |old(v.trace)|
    ensures raised ==> !ready && Raised(v.trace)
    ensures ready ==> v.passed == old(v.passed)
    ensures !ready && !raised ==> !v.passed
  {
    hide Safe, Touched, Marks, Cleared, DeployedAt, Pending, Prepared, CameUp;
    var ok := DeployOrReinstall(v, wait);
    if !ok {
      return false, false;
    }
    ghost var d, deployed := DeployedAt(v.trace), v.trace;
    var step := v.Run("resume", Other("resume"));
    if step.mark != Passed {
      return false, false;
    }
    ghost var resumed := v.trace;
    assert Did(resumed, d, Other("resume"));
    ready, raised := RolledOut(v);
    if ready {
      DidStays(resumed, v.trace, d, Other("resume"));
      CameUpSince(v.trace, |resumed|, d);
      assert old(v.trace) <= v.trace[..d];
      PreparedStays(old(v.trace), v.trace[..d], testVolumes);
    }
  }

  lemma CameUpSince(trace: Trace, later: nat, since: nat)
    requires CameUp(trace, later) && since <= later
    ensures CameUp(trace, since)
  {
  }

  /** After the deploy at `n`, the release was taken down exactly if the deploy was read,
      over the commit, to have been refused. */
  predicate ReinstalledIfRefused(trace: Trace, n: nat) {
    if |trace| > n + 4 && trace[n + 4] == ReadRefusal(true) then
      |trace| > n + 5 && trace[n + 3] == ReadCheckout(false) && trace[n + 5] == Ran(Undeploy)
    else |trace| <= n + 5
  }

  method DeployOrReinstall(v: Validation, wait: int) returns (ok: bool)
    requires v.Valid() && Cleared(v.trace)
    modifies v
    ensures v.Valid() && v.Continues() && DeployedAt(v.trace) >= |old(v.trace)|
    ensures Pending(v.trace) <= Pending(old(v.trace)) && old(v.trace) + [Ran(Deploy)] <= v.trace
    ensures ReinstalledIfRefused(v.trace, |old(v.trace)|)
    ensures ok ==> Passes(v.trace, DeployedAt(v.trace), Deploy)
    ensures v.passed <==> ok && old(v.passed)
  {
    hide Safe, Touched, Marks, Cleared, DeployedAt, Pending;
    var deploy := v.Run("deploy", Deploy);
    if deploy.mark == Passed {
      return true;
    }
    ok := ReinstallIfRefused(v, deploy, wait, old(v.passed), |old(v.trace)|);
  }

  method ReinstallIfRefused(v: Validation, deploy: Step, wait: int, ghost others: bool, ghost n: nat) returns (ok: bool)
    requires v.Valid() && deploy in v.steps && deploy.mark == Failed && |v.trace| == n + 3
    requires others <==> forall s :: s in v.steps && s != deploy ==> s.mark != Failed
    modifies v, deploy
    ensures v.Valid() && v.Continues() && Pending(v.trace) <= Pending(old(v.trace))
    ensures ReinstalledIfRefused(v.trace, n)
    ensures DeployedAt(v.trace) == DeployedAt(old(v.trace)) || DeployedAt(v.trace) >= |old(v.trace)|
    ensures ok ==> DeployedAt(v.trace) >= |old(v.trace)| && Passes(v.trace, DeployedAt(v.trace), Deploy)
    ensures v.passed <==> ok && others
  {
    hide Safe, Touched, Marks, Cleared, DeployedAt, Pending;
    var refused := Refusal(v);
    if !refused {
      return false;
    }
    // The release is replaced whole instead, so its refused upgrade is no failure.
    MarkAgain(v, deploy, others);
    ghost var read := v.trace;
    assert read[n + 3] == ReadCheckout(false) && read[n + 4] == ReadRefusal(true) && |read| == n + 5;
    ok := Reinstall(v, wait);
    assert v.trace[..n + 5] == read && v.trace[n + 5] == Ran(Undeploy);
  }

  /** Marks a failed step a warning, so the run passes exactly if all else did. */
  method MarkAgain(v: Validation, step: Step, ghost others: bool)
    requires v.Valid() && step in v.steps
    requires others <==> forall s :: s in v.steps && s != step ==> s.mark != Failed
    modifies v`passed, step
    ensures v.Valid() && step.mark == Warning && (v.passed <==> others)
  {
    step.mark := Warning;
    v.passed := forall s :: s in v.steps ==> s.mark != Failed;
  }

  method Reinstall(v: Validation, wait: int) returns (ok: bool)
    requires v.Valid()
    modifies v
    ensures v.Valid() && v.Continues() && Pending(v.trace) <= Pending(old(v.trace))
    ensures old(v.trace) + [Ran(Undeploy)] <= v.trace
    ensures DeployedAt(v.trace) == DeployedAt(old(v.trace)) || DeployedAt(v.trace) >= |old(v.trace)|
    ensures ok ==> DeployedAt(v.trace) >= |old(v.trace)| && Passes(v.trace, DeployedAt(v.trace), Deploy)
    ensures ok ==> Did(v.trace[..DeployedAt(v.trace)], |old(v.trace)|, Undeploy)
    ensures v.passed <==> ok && old(v.passed)
  {
    hide Safe, Touched, Marks, Cleared, DeployedAt, Pending;
    var step := v.Run("undeploy", Undeploy);
    if step.mark != Passed {
      return false;
    }
    assert Passes(v.trace, |old(v.trace)|, Undeploy);
    var gone := WaitForNoVolumes(v, false, wait);
    if !gone {
      return false;
    }
    ghost var cleared := v.trace;
    assert Passes(cleared, |old(v.trace)|, Undeploy);
    step := v.Run("install", Deploy);
    ok := step.mark == Passed;
    assert v.trace[..|cleared|] == cleared;
  }

  method RolledOut(v: Validation) returns (ready: bool, raised: bool)
    requires v.Valid()
    modifies v
    ensures v.Valid() && v.Continues() && Calm(v)
    ensures raised ==> !ready && Raised(v.trace)
    ensures ready ==> v.passed == old(v.passed) && CameUp(v.trace, |old(v.trace)|)
    ensures !ready && !raised ==> !v.passed
  {
    hide Safe, Touched, Marks, Cleared, Up, DeployedAt, Pending;
    var listing: Listing := *;
    ghost var r := |v.trace|;
    ReleaseWorkloads(v, listing);
    match listing {
      case Malformed => return false, true;
      case Refused =>
        v.Fail("ready");
        return false, false;
      case Listed(workloads) =>
        for i := 0 to |workloads|
          invariant v.Valid() && v.Continues() && v.passed == old(v.passed)
          invariant Calm(v)
          invariant |v.trace| > r && v.trace[r] == ReadWorkloads(listing)
          invariant forall k :: 0 <= k < i ==> Did(v.trace, r, RolloutStatus(workloads[k].name))
        {
          ghost var before := v.trace;
          var step := v.Run("ready " + workloads[i].name, RolloutStatus(workloads[i].name));
          if step.mark != Passed {
            return false, false;
          }
          forall k | 0 <= k < i
            ensures Did(v.trace, r, RolloutStatus(workloads[k].name))
          {
            DidStays(before, v.trace, r, RolloutStatus(workloads[k].name));
          }
          assert Passes(v.trace, |before|, RolloutStatus(workloads[i].name));
        }
        assert CameUpFrom(v.trace, r);
        return true, false;
    }
  }

  // ---- The scenarios and the evidence ------------------------------------------------

  /** Runs one test pod's step, which counts as passed only with the pod's own exit
      status of 0; `stop` when the checkout is no longer the commit. */
  method TestPod(v: Validation, name: string, pod: string) returns (stop: bool)
    requires v.Valid()
    modifies v
    ensures v.Valid() && GoesOn(v) && LeavesRelease(v)
    ensures stop ==> ReadCheckout(true) in v.trace
    ensures pod !in Pending(v.trace)
    ensures !stop && v.passed ==> PodPassed(v.trace, |old(v.trace)|, pod)
  {
    hide Safe, Touched, Marks, Cleared, DeployedAt, Pending, PodPassed;
    var step := v.Run(name, RunTest(pod));
    ghost var ran := v.trace;
    var changed := v.CommitChanged();
    if changed {
      StopTest(v, name, pod);
      return true;
    }
    var kept: bool := *;
    if !kept {
      v.Warn("evidence");
    }
    assert v.steps[|old(v.steps)|] == step;
    ghost var i := |v.trace|;
    var status := MarkByExit(v, name, pod, step);
    if v.passed {
      PassedBy(ran, v.trace, |old(v.trace)|, i, pod);
    }
    stop := false;
  }

  method StopTest(v: Validation, name: string, pod: string)
    requires v.Valid() && v.trace != [] && v.trace[|v.trace| - 1] == ReadCheckout(true)
    modifies v
    ensures v.Valid() && GoesOn(v) && LeavesRelease(v)
    ensures pod !in Pending(v.trace) && Pending(v.trace) <= Pending(old(v.trace)) - {pod}
    ensures ReadCheckout(true) in v.trace
  {
    hide Safe, Touched, Marks, Cleared, DeployedAt, Pending;
    var _ := v.Run("stop " + name, StopPod(pod));
    assert v.trace[|old(v.trace)| - 1] == ReadCheckout(true);
  }

  lemma PassedBy(ran: Trace, trace: Trace, n: nat, i: nat, pod: string)
    requires ran <= trace && Passes(ran, n, RunTest(pod)) && |ran| <= i < |trace| && trace[i] == ReadExit(pod, Exited(0))
    ensures PodPassed(trace, n, pod)
  {
    assert Passes(trace, n, RunTest(pod));
  }

  method MarkByExit(v: Validation, name: string, pod: string, step: Step) returns (status: ExitStatus)
    requires v.Valid() && step in v.steps && step.mark != Warning
    modifies v, step
    ensures v.Valid() && GoesOn(v) && LeavesRelease(v)
    ensures |v.trace| > |old(v.trace)| && v.trace[|old(v.trace)|] == ReadExit(pod, status)
    ensures pod !in Pending(v.trace)
    ensures status != Exited(0) || old(step.mark) == Failed ==> !v.passed
    ensures status == Exited(0) ==> step.mark == old(step.mark)
  {
    hide Safe, Touched, Marks, Cleared, DeployedAt, Pending;
    var readable: bool := *;
    status := NoStatus;
    if readable {
      status := *;
    }
    v.Emit(ReadExit(pod, status));
    if !readable {
      v.Warn(name);
    }
    assert v.steps[..|old(v.steps)|] == old(v.steps);
    if step.mark == Passed && status != Exited(0) {
      step.mark := Failed;
      v.passed := false;
    }
    assert status != Exited(0) ==> !v.passed;
    if status == NoStatus {
      var _ := v.Run("stop " + name, StopPod(pod));
    }
  }

  method RunPaymentsChecks(v: Validation)
    requires v.Valid()
    modifies v
    ensures v.Valid() && GoesOn(v) && LeavesRelease(v)
    ensures v.passed && ReadCheckout(true) !in v.trace ==> ChecksPassed(v.trace, |old(v.trace)|)
  {
    hide Safe, Touched, Marks, Cleared, DeployedAt, Pending, PodPassed;
    var readable: bool := *;
    ghost var r := |v.trace|;
    if !readable {
      v.Emit(ReadChecks(None));
      v.Fail("payments check");
      return;
    }
    var pods: seq<string> := *;
    v.Emit(ReadChecks(Some(pods)));
    if pods == [] {
      v.Warn("payments check");
      assert v.trace[r + 1] == Recorded("payments check", Warning);
      assert ChecksPassedFrom(v.trace, r);
      return;
    }
    for i := 0 to |pods|
      invariant v.Valid() && GoesOn(v) && LeavesRelease(v)
      invariant |v.trace| > r && v.trace[r] == ReadChecks(Some(pods))
      invariant v.passed ==> forall k :: 0 <= k < i ==> PodPassed(v.trace, r, pods[k])
    {
      ghost var before := v.trace;
      var stop := TestPod(v, "payments check " + pods[i], pods[i]);
      if stop {
        return;
      }
      if v.passed {
        MorePassed(before, v.trace, r, pods, i);
      }
    }
    assert v.passed ==> ChecksPassedFrom(v.trace, r);
  }

  lemma MorePassed(before: Trace, trace: Trace, r: nat, pods: seq<string>, i: nat)
    requires before <= trace && i < |pods| && r <= |before| && PodPassed(trace, |before|, pods[i])
    requires forall k :: 0 <= k < i ==> PodPassed(before, r, pods[k])
    ensures forall k :: 0 <= k <= i ==> PodPassed(trace, r, pods[k])
  {
    PodPassedSince(trace, |before|, r, pods[i]);
    hide PodPassed;
    forall k | 0 <= k < i
      ensures PodPassed(trace, r, pods[k])
    {
      PodPassedStays(before, trace, r, pods[k]);
    }
  }

  lemma PodPassedSince(trace: Trace, later: nat, since: nat, pod: string)
    requires PodPassed(trace, later, pod) && since <= later
    ensures PodPassed(trace, since, pod)
  {
  }

  /** Keeps what evidence it can: it may warn any number of times and then stop. */
  method KeepEvidence(v: Validation) returns (stopped: bool)
    requires v.Valid()
    modifies v
    ensures v.Valid() && GoesOn(v) && Calm(v)
  {
    hide Safe, Touched, Marks, Cleared, DeployedAt, Pending;
    var warnings :| 0 <= warnings;
    for i := 0 to warnings
      invariant v.Valid() && GoesOn(v) && Calm(v)
    {
      v.Warn("evidence");
    }
    stopped := *;
  }

  // ---- Bringing the release down ---------------------------------------------------------

  /** `final` is what the last listing of the release's workloads answers; unreadable, it
      raises past the scale-down. */
  method AfterScenarios(v: Validation, final: Listing) returns (raised: bool)
    requires v.Valid()
    modifies v
    ensures v.Valid() && GoesOn(v) && Calm(v) && ReadWorkloads(final) in v.trace
    ensures BroughtDown(v.trace) <==> final != Malformed
    ensures raised <==> final == Malformed
  {
    hide Safe, Touched, Marks, Cleared, DeployedAt, Pending, BroughtDown;
    var changed := v.CommitChanged();
    if !changed {
      var stopped := KeepEvidence(v);
      if stopped {
        v.Warn("evidence");
      }
    }
    raised := BringDown(v, final);
  }

  method BringDown(v: Validation, final: Listing) returns (raised: bool)
    requires v.Valid()
    modifies v
    ensures v.Valid() && GoesOn(v) && Calm(v) && ReadWorkloads(final) in v.trace
    ensures BroughtDown(v.trace) <==> final != Malformed
    ensures raised <==> final == Malformed
  {
    hide Safe, Touched, Marks, Cleared, DeployedAt, Pending, Up, BroughtDown;
    ghost var before := v.trace;
    ReleaseWorkloads(v, final);
    raised := final == Malformed;
    if final.Refused? {
      v.Fail("scale to zero");
    } else if final.Listed? {
      if Up(final.workloads) != [] {
        var _ := v.Run("scale to zero", ScaleDown(NamesOf(Up(final.workloads))));
      } else {
        v.Note("scale to zero");
      }
    }
    ghost var more := v.trace[|before| + 1..];
    assert v.trace == before + [ReadWorkloads(final)] + more && v.trace[|before|] == ReadWorkloads(final);
    ListingDecides(before, final, more);
  }

  // ---- The whole part ---------------------------------------------------------------------

  /** What is checked before anything is built: notes and warnings, then a failure or
      none. */
  method Preflight(v: Validation) returns (ok: bool)
    requires v.Valid()
    modifies v
    ensures v.Valid() && GoesOn(v) && LeavesRelease(v)
    ensures if ok then v.passed == old(v.passed) else !v.passed
  {
    hide Safe, Touched, Marks, Cleared, DeployedAt, Pending;
    var checks: seq<Mark> := *;
    for i := 0 to |checks|
      invariant v.Valid() && GoesOn(v) && LeavesRelease(v) && v.passed == old(v.passed)
    {
      var _ := v.Record("preflight", checks[i]);
      if checks[i] == Failed {
        return false;
      }
    }
    return true;
  }

  /** One step after another, up to the first that does not pass. */
  method Build(v: Validation, names: seq<string>) returns (ok: bool)
    requires v.Valid()
    modifies v
    ensures v.Valid() && GoesOn(v) && LeavesRelease(v)
    ensures !ok ==> !v.passed
    ensures ok ==> v.passed && Built(v.trace, names)
  {
    hide Safe, Touched, Marks, Cleared, DeployedAt, Pending;
    for i := 0 to |names|
      invariant v.Valid() && GoesOn(v) && LeavesRelease(v)
      invariant forall k :: 0 <= k < i ==> Did(v.trace, 0, Other(names[k]))
    {
      ghost var before := v.trace;
      var step := v.Run(names[i], Other(names[i]));
      if step.mark != Passed {
        return false;
      }
      AllDid(before, v.trace, names, i);
    }
    ghost var before := v.trace;
    var render := v.Run("test-render", Other("test-render"));
    ghost var rendered := v.trace;
    if render.mark == Passed {
      // A render check that skipped did not run.
      var skipped: bool := *;
      v.Emit(ReadSkips(skipped));
      if skipped {
        render.mark := Failed;
        v.passed := false;
      } else {
        assert v.trace[|rendered|] == ReadSkips(false);
        BuiltNow(before, rendered, v.trace, names);
      }
    }
    return v.passed;
  }

  lemma AllDid(before: Trace, trace: Trace, names: seq<string>, i: nat)
    requires before <= trace && i < |names| && Passes(trace, |before|, Other(names[i]))
    requires forall k :: 0 <= k < i ==> Did(before, 0, Other(names[k]))
    ensures forall k :: 0 <= k <= i ==> Did(trace, 0, Other(names[k]))
  {
    assert Did(trace, 0, Other(names[i]));
    hide Did;
    forall k | 0 <= k < i
      ensures Did(trace, 0, Other(names[k]))
    {
      DidStays(before, trace, 0, Other(names[k]));
    }
  }

  lemma BuiltNow(before: Trace, rendered: Trace, trace: Trace, names: seq<string>)
    requires before <= rendered <= trace && ReadSkips(false) in trace
    requires forall k :: 0 <= k < |names| ==> Did(before, 0, Other(names[k]))
    requires Passes(rendered, |before|, Other("test-render"))
    ensures Built(trace, names)
  {
    assert Did(rendered, 0, Other("test-render"));
    hide Did;
    DidStays(rendered, trace, 0, Other("test-render"));
    forall n | n in names
      ensures Did(trace, 0, Other(n))
    {
      var k :| 0 <= k < |names| && names[k] == n;
      DidStays(before, trace, 0, Other(names[k]));
    }
  }

  /** Replaces the release, runs what it serves, and brings it down, whatever happened;
      `final` is what the last listing of its workloads answers. */
  method Replacement(v: Validation, testVolumes: bool, wait: int, scenarios: bool, final: Listing)
    returns (raised: bool)
    requires v.Valid()
    modifies v
    ensures v.Valid() && v.Continues() && Pending(v.trace) <= Pending(old(v.trace))
    ensures BroughtDown(v.trace) <==> final != Malformed
    ensures (final == Malformed ==> raised) && (raised ==> ReadWorkloads(Malformed) in v.trace)
    ensures !raised && v.passed ==>
      Replaced(v.trace, testVolumes) && DeployedAt(v.trace) >= |old(v.trace)|
      && Tested(v.trace, DeployedAt(v.trace), scenarios)
  {
    hide Safe, Touched, Marks, Cleared, BroughtDown, DeployedAt, Pending, Replaced, Tested;
    var ready: bool;
    ready, raised := ReplaceRelease(v, testVolumes, wait);
    ghost var replaced := v.trace;
    if ready {
      Scenarios(v, scenarios);
    }
    ghost var tested := v.trace;
    var escaped := AfterScenarios(v, final);
    assert raised ==> v.trace[|replaced| - 1] == ReadWorkloads(Malformed);
    raised := raised || escaped;
    if !raised && v.passed {
      ReplacedStays(replaced, v.trace, testVolumes);
      TestedSince(tested, |replaced|, DeployedAt(v.trace), scenarios);
      TestedStays(tested, v.trace, DeployedAt(v.trace), scenarios);
    }
  }

  lemma TestedSince(trace: Trace, later: nat, since: nat, scenarios: bool)
    requires Tested(trace, later, scenarios) && since <= later
    ensures Tested(trace, since, scenarios)
  {
  }

  method Scenarios(v: Validation, scenarios: bool)
    requires v.Valid()
    modifies v
    ensures v.Valid() && GoesOn(v) && LeavesRelease(v)
    ensures v.passed ==> Tested(v.trace, |old(v.trace)|, scenarios)
  {
    hide Safe, Touched, Marks, Cleared, DeployedAt, Pending, PodPassed, ChecksPassed;
    var sampled: bool := *;
    if !sampled {
      v.Warn("memory");
    }
    ghost var began := v.trace;
    if scenarios {
      var _ := TestPod(v, "e2e", SCENARIO_POD);
    } else {
      v.Note("e2e");
    }
    ghost var tested, passed := v.trace, v.passed;
    var changed := v.CommitChanged();
    ghost var read := v.trace;
    assert read[|tested|] == ReadCheckout(changed);
    if !changed {
      RunPaymentsChecks(v);
    }
    if v.passed && ReadCheckout(true) !in v.trace {
      NoChangeRead(tested, v.trace);
      if scenarios {
        PodPassedSince(tested, |began|, |old(v.trace)|, SCENARIO_POD);
        PodPassedStays(tested, v.trace, |old(v.trace)|, SCENARIO_POD);
      }
      assert v.trace[|tested|] == ReadCheckout(changed);
      ChecksPassedSince(v.trace, |read|, |old(v.trace)|);
    }
  }

  lemma NoChangeRead(trace: Trace, longer: Trace)
    requires trace <= longer && ReadCheckout(true) !in longer
    ensures ReadCheckout(true) !in trace
  {
  }

  lemma ChecksPassedSince(trace: Trace, later: nat, since: nat)
    requires ChecksPassed(trace, later) && since <= later
    ensures ChecksPassed(trace, since)
  {
  }

  /** The whole part. If it passes and does not raise, it built all it was to, replaced
      the release, saw it come up, and ran the scenarios and the checks to their pods' own
      status of 0, as long as the checkout was the commit; it deploys only over volumes
      read as gone; it leaves no test pod running; and once a command has touched the release, it brings it down exactly
      unless the last listing of its workloads cannot be read, which then also keeps it
      from finishing. */
  method ValidateHelm(v: Validation, names: seq<string>, testVolumes: bool, wait: int, scenarios: bool, final: Listing)
    returns (raised: bool)
    requires v.Valid() && v.trace == []
    modifies v
    ensures v.Valid()
    ensures (exists e :: e in v.trace && Touches(e)) ==>
      (BroughtDown(v.trace) <==> final != Malformed) && (final == Malformed ==> raised)
    ensures !raised && v.passed ==> PartDone(v.trace, names, testVolumes, scenarios)
    ensures raised ==> ReadWorkloads(Malformed) in v.trace
    ensures forall pod, i: nat :: !LeftRunning(v.trace, pod, i)
  {
    raised := Part(v, names, testVolumes, wait, scenarios, final);
    TouchedMeans(v.trace);
    forall pod, i: nat
      ensures !LeftRunning(v.trace, pod, i)
    {
      PendingMeans(v.trace, pod);
    }
  }

  method Part(v: Validation, names: seq<string>, testVolumes: bool, wait: int, scenarios: bool, final: Listing)
    returns (raised: bool)
    requires v.Valid() && v.trace == []
    modifies v
    ensures v.Valid()
    ensures Touched(v.trace) ==> (BroughtDown(v.trace) <==> final != Malformed)
    ensures Touched(v.trace) && final == Malformed ==> raised
    ensures !raised && v.passed ==> PartDone(v.trace, names, testVolumes, scenarios)
    ensures (raised ==> ReadWorkloads(Malformed) in v.trace) && Pending(v.trace) == {}
  {
    assert DeployedAt([]) == -1 && !Touched([]) && Pending([]) == {};
    hide Safe, Cleared, BroughtDown, DeployedAt, Pending, Touched, Built, Replaced, Tested, PartDone, Marks;
    var go := BeforeRelease(v, names);
    if !go {
      return false;
    }
    ghost var built := v.trace;
    raised := Replacement(v, testVolumes, wait, scenarios, final);
    ghost var replaced := v.trace;
    if !raised {
      AfterPart(v);
      if v.passed {
        PartIsDone(built, replaced, v.trace, names, testVolumes, scenarios);
      }
    }
  }

  /** All before the release is touched; if any of it fails, the part ends. */
  method BeforeRelease(v: Validation, names: seq<string>) returns (go: bool)
    requires v.Valid()
    modifies v
    ensures v.Valid() && GoesOn(v) && LeavesRelease(v)
    ensures if go then Built(v.trace, names) else !v.passed
  {
    hide Safe, Cleared, DeployedAt, Pending, Touched, Built, Marks;
    var clean := v.Clean("clean before");
    if !clean {
      return false;
    }
    var ok := Preflight(v);
    if !ok {
      return false;
    }
    go := Build(v, names);
    if !go {
      AfterPart(v);
    }
  }

  lemma PartIsDone(built: Trace, replaced: Trace, trace: Trace, names: seq<string>, testVolumes: bool, scenarios: bool)
    requires built <= replaced <= trace && DeployedAt(replaced) == DeployedAt(trace) >= |built|
    requires Built(built, names) && Replaced(replaced, testVolumes) && Tested(replaced, DeployedAt(replaced), scenarios)
    requires trace != [] && trace[|trace| - 1] == Recorded("clean after", Passed)
    ensures PartDone(trace, names, testVolumes, scenarios)
  {
    hide Replaced, Built, Tested;
    ReplacedStays(replaced, trace, testVolumes);
    TestedStays(replaced, trace, DeployedAt(trace), scenarios);
    assert built <= trace[..DeployedAt(trace)];
    BuiltStays(built, trace[..DeployedAt(trace)], names);
  }

  method AfterPart(v: Validation)
    requires v.Valid()
    modifies v
    ensures v.Valid() && GoesOn(v) && LeavesRelease(v)
    ensures BroughtDown(v.trace) <==> BroughtDown(old(v.trace))
    ensures v.passed ==> v.trace != [] && v.trace[|v.trace| - 1] == Recorded("clean after", Passed)
  {
    hide Safe, Touched, Marks, Cleared, BroughtDown, DeployedAt, Pending;
    var _ := v.Clean("clean after");
    ghost var more := v.trace[|old(v.trace)|..];
    assert v.trace == old(v.trace) + more;
    RecordingKeeps(old(v.trace), more);
  }

  // ---- A baseline that is not needed ----------------------------------------------------

  /** The steps from `since` on are marked so. */
  ghost predicate AsMarked(v: Validation, since: nat, marks: seq<Mark>)
    reads v, v.steps
  {
    |v.steps| == since + |marks| && forall k :: 0 <= k < |marks| ==> v.steps[since + k].mark == marks[k]
  }

  /** A failure turned to a warning. */
  function Softened(marks: seq<Mark>): (soft: seq<Mark>)
    ensures |soft| == |marks|
    ensures forall k :: 0 <= k < |marks| ==> soft[k] == if marks[k] == Failed then Warning else marks[k]
  {
    seq(|marks|, k requires 0 <= k < |marks| => if marks[k] == Failed then Warning else marks[k])
  }

  /** Chooses and fetches a baseline run, recording notes, warnings, and failures. */
  method ChooseBaseline(v: Validation) returns (found: bool)
    requires v.Valid()
    modifies v
    ensures v.Valid() && v.Continues()
    ensures found ==> v.passed == old(v.passed) && Did(v.trace, |old(v.trace)|, Other("fetch-e2e-logs"))
    ensures forall k :: |old(v.steps)| <= k < |v.steps| ==> fresh(v.steps[k])
    ensures forall j, k :: |old(v.steps)| <= j < k < |v.steps| ==> v.steps[j] != v.steps[k]
    ensures Marks(old(v.trace)) <= Marks(v.trace)
    ensures AsMarked(v, |old(v.steps)|, Marks(v.trace)[|Marks(old(v.trace))|..])
  {
    hide Safe, Touched, Marks, Cleared, DeployedAt, Pending;
    var choice: Option<bool> := *;
    match choice {
      case None =>
        v.Fail("baseline");
        return false;
      case Some(chosen) =>
        if !chosen {
          v.Warn("baseline");
          return false;
        }
    }
    found := FetchBaseline(v);
  }

  method FetchBaseline(v: Validation) returns (found: bool)
    requires v.Valid()
    modifies v
    ensures v.Valid() && v.Continues()
    ensures found ==> v.passed == old(v.passed) && Did(v.trace, |old(v.trace)|, Other("fetch-e2e-logs"))
    ensures forall k :: |old(v.steps)| <= k < |v.steps| ==> fresh(v.steps[k])
    ensures forall j, k :: |old(v.steps)| <= j < k < |v.steps| ==> v.steps[j] != v.steps[k]
    ensures Marks(old(v.trace)) <= Marks(v.trace)
    ensures AsMarked(v, |old(v.steps)|, Marks(v.trace)[|Marks(old(v.trace))|..])
  {
    hide Safe, Touched, Marks, Cleared, DeployedAt, Pending;
    var step := v.Run("baseline fetch", Other("fetch-e2e-logs"));
    if step.mark != Passed {
      return false;
    }
    ghost var fetched := v.trace;
    found := *;
    if found {
      v.Note("baseline");
      assert Passes(v.trace, |old(v.trace)|, Other("fetch-e2e-logs")) by {
        assert Passes(fetched, |old(v.trace)|, Other("fetch-e2e-logs"));
      }
    } else {
      v.Fail("baseline");
    }
  }

  /** When no baseline is found and none is needed, each failed step of the search is
      marked a warning, so the run passes exactly if it did before; otherwise every step
      stays as it was recorded. */
  method CiBaseline(v: Validation, needed: bool) returns (found: bool)
    requires v.Valid()
    modifies v
    ensures v.Valid() && v.Continues()
    ensures !needed || found ==> v.passed == old(v.passed)
    ensures found ==> Did(v.trace, |old(v.trace)|, Other("fetch-e2e-logs"))
    ensures Marks(old(v.trace)) <= Marks(v.trace)
    ensures var marks := Marks(v.trace)[|Marks(old(v.trace))|..];
      AsMarked(v, |old(v.steps)|, if needed || found then marks else Softened(marks))
  {
    hide Safe, Touched, Marks, Cleared, DeployedAt, Pending;
    var since := |v.steps|;
    found := ChooseBaseline(v);
    ghost var looked, told, marks := v.steps, v.trace, Marks(v.trace)[|Marks(old(v.trace))|..];
    if !needed && !found {
      var i := since;
      while i < |v.steps|
        invariant since <= i <= |v.steps| && v.steps == looked && v.trace == told
        invariant forall k :: 0 <= k < |marks| && since + k < i ==> v.steps[since + k].mark == Softened(marks)[k]
        invariant forall k :: 0 <= k < |marks| && since + k >= i ==> v.steps[since + k].mark == marks[k]
        invariant forall s :: s in old(v.steps) ==> s.mark == old(s.mark)
      {
        if v.steps[i].mark == Failed {
          v.steps[i].mark := Warning;
        }
        i := i + 1;
      }
      forall s | s in v.steps
        ensures s in old(v.steps) || s.mark != Failed
      {
        var k :| 0 <= k < |v.steps| && v.steps[k] == s;
        assert k < since ==> s == old(v.steps)[k];
        assert k >= since ==> v.steps[since + (k - since)].mark == Softened(marks)[k - since];
      }
      assert forall s :: s in old(v.steps) ==> s in v.steps;
      v.passed := forall s :: s in v.steps ==> s.mark != Failed;
    }
  }
}
