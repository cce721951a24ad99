/** What a validation run asks of the cluster, and what it must ask before a release is
    deployed and before it ends (scripts/validate_slice.py). */
module HelmTrace {
  import opened Options

  datatype Mark = Passed | Warning | Failed

  datatype Workload = Workload(name: string, replicas: int)

  /** A listing of workloads, or of volumes: refused, not readable, or what it lists. */
  datatype Listing = Refused | Malformed | Listed(workloads: seq<Workload>)
  datatype Claims = NotRead | Remaining(claims: seq<string>)

  /** A pod's exit status as read: none, or a number. */
  datatype ExitStatus = NoStatus | Exited(code: int)

  datatype Command =
    | Other(name: string)
    | RolloutStatus(workload: string)
    | RunTest(pod: string)
    | StopPod(pod: string)
    | ScaleDown(workloads: seq<string>)
    | DeleteVolumes
    | DeleteTestVolumes
    | Undeploy
    | Deploy

  /** What a run asks, and what it is answered: a command and whether it passed over the
      commit, a read, or a step recorded. */
  datatype Event =
    | Ran(command: Command)
    | Answered(ok: bool, changed: bool)
    | ReadCheckout(changed: bool)
    | ReadRefusal(refused: bool)
    | ReadSkips(skipped: bool)
    | ReadVolumes(answer: Claims)
    | ReadTestVolumes(found: Claims)
    | ReadWorkloads(listing: Listing)
    | ReadExit(pod: string, status: ExitStatus)
    | ReadChecks(pods: Option<seq<string>>)
    | Recorded(name: string, mark: Mark)

  type Trace = seq<Event>

  /** Something was asked of the cluster that changes what the release runs or holds. */
  predicate Touched(trace: Trace) {
    trace != [] && (Touches(trace[|trace| - 1]) || Touched(trace[..|trace| - 1]))
  }

  predicate Touches(e: Event) {
    && e.Ran?
    && (e.command.ScaleDown? || e.command.DeleteVolumes? || e.command.DeleteTestVolumes? || e.command.Undeploy?
        || e.command.Deploy?)
  }

  lemma {:induction false} TouchedMeans(trace: Trace)
    ensures Touched(trace) <==> exists e :: e in trace && Touches(e)
  {
    if trace != [] {
      var n := |trace| - 1;
      TouchedMeans(trace[..n]);
      assert forall e :: e in trace <==> e in trace[..n] || e == trace[n];
    }
  }

  /** How the steps were marked as they were recorded. */
  function Marks(trace: Trace): seq<Mark> {
    if trace == [] then [] else Marks(trace[..|trace| - 1]) + MarkOf(trace[|trace| - 1])
  }

  function MarkOf(e: Event): seq<Mark> {
    if e.Recorded? then [e.mark] else []
  }

  // ---- No release over another's volumes ---------------------------------------------

  predicate Deletes(e: Event) {
    e.Ran? && (e.command.DeleteVolumes? || e.command.DeleteTestVolumes? || e.command.Undeploy?)
  }

  /** The release's volumes were read as gone since anything was last deleted. */
  predicate Cleared(trace: Trace) {
    trace != [] &&
    var last := trace[|trace| - 1];
    last == ReadVolumes(Remaining([])) || (!Deletes(last) && Cleared(trace[..|trace| - 1]))
  }

  predicate Safe(trace: Trace) {
    trace == [] ||
    (&& Safe(trace[..|trace| - 1])
     && (trace[|trace| - 1] == Ran(Deploy) ==> Cleared(trace[..|trace| - 1])))
  }

  /** Some read before `k` listed none of the volumes, and nothing between it and `k`
      deleted or uninstalled. */
  ghost predicate GoneBefore(trace: Trace, k: nat)
    requires k <= |trace|
  {
    exists j :: 0 <= j < k && trace[j] == ReadVolumes(Remaining([])) && forall i :: j < i < k ==> !Deletes(trace[i])
  }

  lemma {:induction false} ClearedMeans(trace: Trace)
    ensures Cleared(trace) <==> GoneBefore(trace, |trace|)
  {
    if trace != [] {
      var n := |trace| - 1;
      ClearedMeans(trace[..n]);
      if Cleared(trace) && trace[n] != ReadVolumes(Remaining([])) {
        var j :| 0 <= j < n && trace[..n][j] == ReadVolumes(Remaining([])) && forall i :: j < i < n ==> !Deletes(trace[..n][i]);
        assert trace[j] == ReadVolumes(Remaining([]));
        forall i | j < i < |trace| ensures !Deletes(trace[i]) {
          assert i < n ==> trace[i] == trace[..n][i];
        }
      }
      if GoneBefore(trace, |trace|) {
        var j :| 0 <= j < |trace| && trace[j] == ReadVolumes(Remaining([])) && forall i :: j < i < |trace| ==> !Deletes(trace[i]);
        if j < n {
          assert trace[..n][j] == trace[j];
          forall i | j < i < n ensures !Deletes(trace[..n][i]) {
            assert trace[i] == trace[..n][i];
          }
        }
      }
    }
  }

  /** A safe run issues every deploy, first or again, only over volumes read as gone
      after the last deletion or uninstall before it. */
  lemma {:induction false} SafeMeans(trace: Trace)
    ensures Safe(trace) <==> forall k :: 0 <= k < |trace| && trace[k] == Ran(Deploy) ==> GoneBefore(trace, k)
  {
    if trace != [] {
      var n := |trace| - 1;
      SafeMeans(trace[..n]);
      ClearedMeans(trace[..n]);
      forall k | 0 <= k <= n
        ensures GoneBefore(trace, k) <==> GoneBefore(trace[..n], k)
      {
        SamePrefix(trace, n, k);
      }
    }
  }

  lemma SamePrefix(trace: Trace, n: nat, k: nat)
    requires k <= n <= |trace|
    ensures GoneBefore(trace, k) <==> GoneBefore(trace[..n], k)
  {
    if GoneBefore(trace, k) {
      var j :| 0 <= j < k && trace[j] == ReadVolumes(Remaining([])) && forall i :: j < i < k ==> !Deletes(trace[i]);
      assert trace[..n][j] == trace[j] && forall i :: j < i < k ==> trace[..n][i] == trace[i];
    }
    if GoneBefore(trace[..n], k) {
      var j :| 0 <= j < k && trace[..n][j] == ReadVolumes(Remaining([])) && forall i :: j < i < k ==> !Deletes(trace[..n][i]);
      assert trace[..n][j] == trace[j] && forall i :: j < i < k ==> trace[..n][i] == trace[i];
    }
  }

  lemma OneMore(trace: Trace, e: Event)
    requires Safe(trace) && (e == Ran(Deploy) ==> Cleared(trace))
    ensures Safe(trace + [e])
    ensures Cleared(trace + [e]) <==> e == ReadVolumes(Remaining([])) || (!Deletes(e) && Cleared(trace))
    ensures Touched(trace + [e]) <==> Touches(e) || Touched(trace)
    ensures Marks(trace + [e]) == Marks(trace) + MarkOf(e)
    ensures DeployedAt(trace + [e]) == if e == Ran(Deploy) then |trace| else DeployedAt(trace)
    ensures Pending(trace + [e]) == PendingAfter(Pending(trace), e)
  {
    assert (trace + [e])[..|trace|] == trace;
  }

  // ---- What a passed run did ----------------------------------------------------------

  /** Where the release was last deployed; -1 if it was not. */
  function DeployedAt(trace: Trace): (d: int)
    ensures -1 <= d < |trace|
    ensures d >= 0 ==> trace[d] == Ran(Deploy)
    ensures forall k :: d < k < |trace| ==> trace[k] != Ran(Deploy)
  {
    if trace == [] then -1
    else if trace[|trace| - 1] == Ran(Deploy) then |trace| - 1
    else
      assert forall k :: 0 <= k < |trace| - 1 ==> trace[k] == trace[..|trace| - 1][k];
      DeployedAt(trace[..|trace| - 1])
  }

  /** The test pods started, and neither read to have exited nor told to stop since. */
  function Pending(trace: Trace): set<string> {
    if trace == [] then {} else PendingAfter(Pending(trace[..|trace| - 1]), trace[|trace| - 1])
  }

  function PendingAfter(pods: set<string>, e: Event): set<string> {
    match e
    case Ran(RunTest(pod)) => pods + {pod}
    case Ran(StopPod(pod)) => pods - {pod}
    case ReadExit(pod, Exited(_)) => pods - {pod}
    case _ => pods
  }

  /** The event ends the pod's test. */
  ghost predicate Ends(e: Event, pod: string) {
    e == Ran(StopPod(pod)) || (e.ReadExit? && e.pod == pod && e.status != NoStatus)
  }

  /** The pod's test was run at `i`, and nothing since has ended it. */
  ghost predicate LeftRunning(trace: Trace, pod: string, i: nat) {
    i < |trace| && trace[i] == Ran(RunTest(pod)) && forall k :: i < k < |trace| ==> !Ends(trace[k], pod)
  }

  lemma {:induction false} PendingMeans(trace: Trace, pod: string)
    ensures pod in Pending(trace) <==> exists i: nat :: LeftRunning(trace, pod, i)
  {
    if trace != [] {
      var init, n := trace[..|trace| - 1], |trace| - 1;
      PendingMeans(init, pod);
      assert forall i: nat :: i < n ==> (LeftRunning(trace, pod, i) <==> LeftRunning(init, pod, i) && !Ends(trace[n], pod));
      assert LeftRunning(trace, pod, n) <==> trace[n] == Ran(RunTest(pod));
    }
  }

  /** At `i` the command was run, passed, and left the checkout the commit. */
  predicate Passes(trace: Trace, i: nat, c: Command) {
    i + 1 < |trace| && trace[i] == Ran(c) && trace[i + 1] == Answered(true, false)
  }

  ghost predicate Did(trace: Trace, since: nat, c: Command) {
    exists i: nat :: since <= i && Passes(trace, i, c)
  }

  /** The pod's test passed, and then its own exit status was read as 0. */
  ghost predicate PodPassed(trace: Trace, since: nat, pod: string) {
    exists i: nat, j: nat ::
      since <= i < j < |trace| && Passes(trace, i, RunTest(pod)) && trace[j] == ReadExit(pod, Exited(0))
  }

  /** Workloads were listed, and those left up scaled down. */
  ghost predicate Emptied(trace: Trace, since: nat) {
    exists r: nat :: since <= r < |trace| && EmptiedFrom(trace, r)
  }

  ghost predicate EmptiedFrom(trace: Trace, r: nat)
    requires r < |trace|
  {
    && trace[r].ReadWorkloads? && trace[r].listing.Listed?
    && (Up(trace[r].listing.workloads) == [] || Did(trace, r, ScaleDown(NamesOf(Up(trace[r].listing.workloads)))))
  }

  /** The release's workloads were listed, and each rolled out. */
  ghost predicate CameUp(trace: Trace, since: nat) {
    exists r: nat :: since <= r < |trace| && CameUpFrom(trace, r)
  }

  ghost predicate CameUpFrom(trace: Trace, r: nat)
    requires r < |trace|
  {
    && trace[r].ReadWorkloads? && trace[r].listing.Listed?
    && forall w :: w in trace[r].listing.workloads ==> Did(trace, r, RolloutStatus(w.name))
  }

  /** The payments checks were listed, and each passed; with none to run, that was warned
      of. */
  ghost predicate ChecksPassed(trace: Trace, since: nat) {
    exists r: nat :: since <= r < |trace| && ChecksPassedFrom(trace, r)
  }

  ghost predicate ChecksPassedFrom(trace: Trace, r: nat)
    requires r < |trace|
  {
    && trace[r].ReadChecks? && trace[r].pods.Some?
    && (forall pod :: pod in trace[r].pods.value ==> PodPassed(trace, r, pod))
    && (trace[r].pods.value == [] ==> Recorded("payments check", Warning) in trace)
  }

  lemma DidStays(trace: Trace, longer: Trace, since: nat, c: Command)
    requires trace <= longer && Did(trace, since, c)
    ensures Did(longer, since, c)
  {
    var i: nat :| since <= i && Passes(trace, i, c);
    assert Passes(longer, i, c);
  }

  lemma PodPassedStays(trace: Trace, longer: Trace, since: nat, pod: string)
    requires trace <= longer && PodPassed(trace, since, pod)
    ensures PodPassed(longer, since, pod)
  {
    var i: nat, j: nat :| since <= i < j < |trace| && Passes(trace, i, RunTest(pod)) && trace[j] == ReadExit(pod, Exited(0));
    assert Passes(longer, i, RunTest(pod)) && longer[j] == ReadExit(pod, Exited(0));
  }

  lemma EmptiedStays(trace: Trace, longer: Trace, since: nat)
    requires trace <= longer && Emptied(trace, since)
    ensures Emptied(longer, since)
  {
    var r: nat :| since <= r < |trace| && EmptiedFrom(trace, r);
    if Up(trace[r].listing.workloads) != [] {
      DidStays(trace, longer, r, ScaleDown(NamesOf(Up(trace[r].listing.workloads))));
    }
    assert EmptiedFrom(longer, r);
  }

  lemma CameUpStays(trace: Trace, longer: Trace, since: nat)
    requires trace <= longer && CameUp(trace, since)
    ensures CameUp(longer, since)
  {
    var r: nat :| since <= r < |trace| && CameUpFrom(trace, r);
    forall w | w in trace[r].listing.workloads
      ensures Did(longer, r, RolloutStatus(w.name))
    {
      DidStays(trace, longer, r, RolloutStatus(w.name));
    }
    assert CameUpFrom(longer, r);
  }

  lemma ChecksPassedStays(trace: Trace, longer: Trace, since: nat)
    requires trace <= longer && ChecksPassed(trace, since)
    ensures ChecksPassed(longer, since)
  {
    var r: nat :| since <= r < |trace| && ChecksPassedFrom(trace, r);
    forall pod | pod in trace[r].pods.value
      ensures PodPassed(longer, r, pod)
    {
      PodPassedStays(trace, longer, r, pod);
    }
    assert ChecksPassedFrom(longer, r);
  }

  // ---- The release is brought down -----------------------------------------------------

  function Up(workloads: seq<Workload>): (up: seq<Workload>)
    ensures forall w :: w in up <==> w in workloads && w.replicas > 0
  {
    if workloads == [] then []
    else (if workloads[0].replicas > 0 then [workloads[0]] else []) + Up(workloads[1..])
  }

  function NamesOf(workloads: seq<Workload>): (names: seq<string>)
    ensures |names| == |workloads| && forall k :: 0 <= k < |names| ==> names[k] == workloads[k].name
  {
    seq(|workloads|, k requires 0 <= k < |workloads| => workloads[k].name)
  }

  /** After the last listing of the release's workloads: one it could not read is a
      failure recorded; those up are told to scale to zero; or none is up. */
  ghost predicate BroughtDown(trace: Trace) {
    exists j :: 0 <= j < |trace| && BroughtDownFrom(trace, j)
  }

  ghost predicate BroughtDownFrom(trace: Trace, j: nat)
    requires j < |trace|
  {
    && trace[j].ReadWorkloads?
    && (forall i :: j < i < |trace| ==> !trace[i].ReadWorkloads?)
    && match trace[j].listing
       case Refused => Recorded("scale to zero", Failed) in trace[j..]
       case Malformed => false
       case Listed(workloads) =>
         (forall w :: w in workloads ==> w.replicas <= 0)
         || exists names :: Ran(ScaleDown(names)) in trace[j..]
                           && forall w :: w in workloads && w.replicas > 0 ==> w.name in names
  }

  /** Nothing but the listing decides: no other event undoes or makes it brought down. */
  lemma RecordingKeeps(trace: Trace, more: Trace)
    requires forall e :: e in more ==> e.Recorded? && e.name != "scale to zero"
    ensures BroughtDown(trace + more) <==> BroughtDown(trace)
  {
    var all := trace + more;
    forall j | 0 <= j < |all|
      ensures BroughtDownFrom(all, j) <==> j < |trace| && BroughtDownFrom(trace, j)
    {
      if j < |trace| {
        assert all[j] == trace[j] && all[j..] == trace[j..] + more;
        forall i | j < i < |all|
          ensures i < |trace| ==> all[i] == trace[i]
          ensures i >= |trace| ==> !all[i].ReadWorkloads?
        {
          assert i >= |trace| ==> all[i] in more;
        }
      } else {
        assert all[j] in more;
      }
    }
    if j :| 0 <= j < |trace| && BroughtDownFrom(trace, j) {
      assert BroughtDownFrom(all, j);
    }
  }

  /** What the last listing must lead to. */
  lemma ListingDecides(before: Trace, listing: Listing, more: Trace)
    requires forall e :: e in more ==> !e.ReadWorkloads?
    requires listing.Refused? ==> Recorded("scale to zero", Failed) in more
    requires listing.Listed? && Up(listing.workloads) != [] ==> Ran(ScaleDown(NamesOf(Up(listing.workloads)))) in more
    ensures BroughtDown(before + [ReadWorkloads(listing)] + more) <==> listing != Malformed
  {
    var all := before + [ReadWorkloads(listing)] + more;
    var j := |before|;
    assert all[j] == ReadWorkloads(listing) && all[j..] == [ReadWorkloads(listing)] + more;
    assert forall i :: j < i < |all| ==> all[i] in more;
    if listing.Malformed? {
      forall k | 0 <= k < |all| ensures !BroughtDownFrom(all, k) {
        assert k < j ==> all[j].ReadWorkloads?;
        assert k > j ==> all[k] in more;
      }
    } else {
      if listing.Listed? {
        UpNames(listing.workloads);
      }
      assert BroughtDownFrom(all, j);
    }
  }

  lemma UpNames(workloads: seq<Workload>)
    ensures forall w :: w in workloads && w.replicas > 0 ==> w.name in NamesOf(Up(workloads))
    ensures Up(workloads) == [] ==> forall w :: w in workloads ==> w.replicas <= 0
  {
    forall w | w in workloads && w.replicas > 0
      ensures w.name in NamesOf(Up(workloads))
    {
      var k :| 0 <= k < |Up(workloads)| && Up(workloads)[k] == w;
      assert NamesOf(Up(workloads))[k] == w.name;
    }
    if Up(workloads) == [] {
      forall w | w in workloads ensures w.replicas <= 0 {
        assert w.replicas > 0 ==> w in Up(workloads);
      }
    }
  }
}
