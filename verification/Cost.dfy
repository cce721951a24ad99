/** What each run of a session cost, in exact dollars (scripts/change_workflow/cost.py). */
module Cost {
  import opened Options

  /** A run's recorded cost: its own dollars and the session's running total, where
      known, and the turns its conversation held as it ended. */
  datatype Cost = Cost(usd: Option<real>, partial: bool, session: Option<real>, entries: Option<int>)

  /** A session's logged runs, oldest first, each with its cost if one was recorded. */
  type Lines = seq<Option<Cost>>

  /** What a run is measured against; none of it where no session is resumed. */
  datatype Before = Before(usd: Option<real>, partial: bool, entries: Option<int>)

  const FRESH := Before(None, false, None)

  /** The totals the run's results report, in order; a result may report none. */
  type Results = seq<Option<real>>

  function OrZero(usd: Option<real>): real {
    if usd.None? then 0.0 else usd.value
  }

  /** The last total reported. */
  function LastTotal(results: Results): Option<real> {
    if results == [] then None
    else if results[|results| - 1].Some? then results[|results| - 1]
    else LastTotal(results[..|results| - 1])
  }

  /** The running total as the latest run that recorded one left it. */
  function LoggedTotal(lines: Lines): Option<real> {
    if lines == [] then None
    else
      var last := lines[|lines| - 1];
      if last.Some? && last.value.session.Some? then last.value.session else LoggedTotal(lines[..|lines| - 1])
  }

  method ReadLoggedTotal(lines: Lines) returns (total: Option<real>)
    ensures total == LoggedTotal(lines)
  {
    var i := |lines|;
    assert lines[..i] == lines;
    while i > 0
      invariant 0 <= i <= |lines| && LoggedTotal(lines) == LoggedTotal(lines[..i])
    {
      i := i - 1;
      assert lines[..i + 1][..i] == lines[..i];
      if lines[i].Some? && lines[i].value.session.Some? {
        return lines[i].value.session;
      }
    }
    return None;
  }

  method MeasuredBefore(lines: Lines, conversation: Option<int>) returns (before: Before)
    ensures before.usd == LoggedTotal(lines)
    ensures before.partial <==> DollarsShared(lines, conversation)
    ensures before.entries == conversation
  {
    var total := ReadLoggedTotal(lines);
    var last: Option<Cost> := None;
    if lines != [] {
      last := lines[|lines| - 1];
    }
    var partial := last.None? || last.value.session.None?
                   || (conversation.Some? && last.value.entries.Some? && conversation.value > last.value.entries.value);
    return Before(total, partial, conversation);
  }

  /** The next run's dollars cannot be told from other turns': the last run left no
      total, or the session has since gained turns. */
  predicate DollarsShared(lines: Lines, conversation: Option<int>) {
    lines == [] ||
    match lines[|lines| - 1]
    case None => true
    case Some(last) =>
      last.session.None? || (conversation.Some? && last.entries.Some? && conversation.value > last.entries.value)
  }

  /** The run's own dollars, told only from a total no lower than that before it. */
  method RunCost(results: Results, before: Option<real>) returns (cost: Cost)
    ensures var last := LastTotal(results);
      cost == if last.Some? && last.value >= OrZero(before)
              then Cost(Some(last.value - OrZero(before)), false, last, None) else Cost(None, false, None, None)
  {
    var last: Option<real> := None;
    for i := 0 to |results|
      invariant last == LastTotal(results[..i])
    {
      assert results[..i + 1][..i] == results[..i];
      if results[i].Some? {
        last := results[i];
      }
    }
    assert results[..|results|] == results;
    cost := Cost(None, false, None, None);
    if last.Some? && last.value >= OrZero(before) {
      cost := cost.(usd := Some(last.value - OrZero(before)));
      cost := cost.(session := last);
    }
  }

  /** Whether a run adds to what is known of the session's total: it reports a total no
      lower than the one found. */
  predicate Told(results: Results, before: Before) {
    LastTotal(results).Some? && LastTotal(results).value >= OrZero(before.usd)
  }

  /** A run's recorded cost. It either reports a total no lower than the session's, and
      records the difference and that total; or it records no dollars, and either no
      total or the one it found. */
  method MeasuredCost(results: Results, before: Before, conversation: Option<int>) returns (cost: Cost)
    ensures Told(results, before) ==>
      cost.usd == Some(LastTotal(results).value - OrZero(before.usd)) && cost.session == LastTotal(results)
    ensures !Told(results, before) ==> cost.usd.None? && (cost.session.None? || cost.session == before.usd)
    ensures !Told(results, before) && before.usd.Some? ==>
      (cost.session.Some? <==>
         LastTotal(results).Some? || (!before.partial && conversation.Some? && conversation == before.entries))
    ensures cost.partial <==> before.partial && cost.usd.Some?
    ensures cost.entries == conversation
  {
    cost := RunCost(results, before.usd);
    if before.partial && cost.usd.Some? {
      cost := cost.(partial := true);
    }
    if conversation.Some? {
      cost := cost.(entries := conversation);
    }
    var last := LastTotal(results);
    var reported := exists r :: r in results && r.Some?;
    ReportedIsLast(results);
    var fell := before.usd.Some? && reported && cost.usd.None?;
    if cost.session.None? && before.usd.Some?
       && (fell || (!before.partial && conversation.Some? && conversation == before.entries)) {
      cost := cost.(session := before.usd);
    }
  }

  lemma {:induction false} ReportedIsLast(results: Results)
    ensures LastTotal(results).Some? <==> exists r :: r in results && r.Some?
  {
    if results != [] {
      var init := results[..|results| - 1];
      ReportedIsLast(init);
      assert forall r :: r in results <==> r in init || r == results[|results| - 1];
    }
  }

  // ---- Over a whole session -------------------------------------------------------------

  /** The dollars the lines record. */
  function Dollars(lines: Lines): real {
    if lines == [] then 0.0
    else
      var last := lines[|lines| - 1];
      Dollars(lines[..|lines| - 1]) + if last.None? then 0.0 else OrZero(last.value.usd)
  }

  /** A session's next run, if its cost is recorded, is measured against the session's own
      log, or, as its first, against nothing. */
  ghost predicate Follows(lines: Lines, next: Option<Cost>) {
    next.None? ||
    exists results, before: Before, conversation ::
      && before.usd == LoggedTotal(lines)
      && CostOf(next.value, results, before, conversation)
  }

  /** What `MeasuredCost` ensures of its result. */
  ghost predicate CostOf(cost: Cost, results: Results, before: Before, conversation: Option<int>) {
    && (Told(results, before) ==>
          cost.usd == Some(LastTotal(results).value - OrZero(before.usd)) && cost.session == LastTotal(results))
    && (!Told(results, before) ==> cost.usd.None? && (cost.session.None? || cost.session == before.usd))
  }

  ghost predicate Session(lines: Lines) {
    forall k :: 0 <= k < |lines| ==> Follows(lines[..k], lines[k])
  }

  /** The recorded dollars of a session sum to its latest logged running total, whatever
      its runs reported: none, no total, or one that fell. */
  lemma {:induction false} DollarsAreTheTotal(lines: Lines)
    requires Session(lines)
    ensures Dollars(lines) == OrZero(LoggedTotal(lines))
  {
    if lines != [] {
      var n := |lines| - 1;
      SessionPrefix(lines, n);
      DollarsAreTheTotal(lines[..n]);
      assert Follows(lines[..n], lines[n]);
    }
  }

  lemma SessionPrefix(lines: Lines, n: nat)
    requires Session(lines) && n <= |lines|
    ensures Session(lines[..n])
  {
    forall k | 0 <= k < n
      ensures Follows(lines[..n][..k], lines[..n][k])
    {
      assert lines[..n][..k] == lines[..k];
    }
  }

  /** And the running total never decreases. */
  lemma {:induction false} TotalNeverFalls(lines: Lines, n: nat)
    requires Session(lines) && n <= |lines|
    ensures OrZero(LoggedTotal(lines[..n])) <= OrZero(LoggedTotal(lines))
    decreases |lines|
  {
    if n < |lines| {
      var m := |lines| - 1;
      SessionPrefix(lines, m);
      TotalNeverFalls(lines[..m], n);
      assert lines[..m][..n] == lines[..n];
      assert Follows(lines[..m], lines[m]);
    } else {
      assert lines[..n] == lines;
    }
  }

  /** A session run as it is measured: its next line follows its log. */
  method NextLine(lines: Lines, resumed: bool, before: Option<int>, results: Results, after: Option<int>)
    returns (all: Lines)
    requires lines != [] ==> resumed
    ensures |all| == |lines| + 1 && all[..|lines|] == lines && all[|lines|].Some?
    ensures Session(lines) ==> Session(all)
  {
    var found := FRESH;
    if resumed {
      found := MeasuredBefore(lines, before);
    }
    var cost := MeasuredCost(results, found, after);
    all := lines + [Some(cost)];
    assert CostOf(cost, results, found, after) && found.usd == LoggedTotal(lines);
    assert all[..|lines|] == lines;
    assert forall k :: 0 <= k < |lines| ==> all[..k] == lines[..k] && all[k] == lines[k];
  }
}
