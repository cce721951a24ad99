/** A change's costs by step, by round, and by cache (scripts/change_workflow/cost_report.py). */
module CostReport {
  import opened Options

  /** What a run's line says of its cost. */
  datatype Figures = Figures(usd: Option<real>, partial: bool, turns: int, seconds: real, input: int, output: int,
                             cacheRead: int, cacheWrite: int, codex: int)

  datatype Line =
    | Round(sections: string)
    | Run(step: string, closes: bool, cost: Option<Figures>, cacheHit: Option<bool>)
    | Unrelated

  /** The round a run belongs to: before any, the latest recorded, or closeout. */
  datatype Label = BeforeRounds | InRound(number: nat, sections: string) | Closeout

  datatype Cache = Opening | Miss | Warm

  /** A run's line with the round it belongs to. */
  type Labelling = (Line, Label)

  // ---- Rounds ----------------------------------------------------------------------

  function RoundsIn(log: seq<Line>): nat {
    if log == [] then 0 else RoundsIn(log[..|log| - 1]) + if log[|log| - 1].Round? then 1 else 0
  }

  function LastRound(log: seq<Line>): Label {
    if log == [] then BeforeRounds
    else if log[|log| - 1].Round? then InRound(RoundsIn(log), log[|log| - 1].sections)
    else LastRound(log[..|log| - 1])
  }

  /** A pre-closeout review has finished. */
  predicate Closed(log: seq<Line>) {
    exists line :: line in log && line.Run? && line.closes
  }

  function LabelAt(log: seq<Line>): Label {
    if Closed(log) then Closeout else LastRound(log)
  }

  /** Each run with its label: that which the log up to and with it gives. */
  function Labelled(log: seq<Line>): seq<Labelling> {
    if log == [] then []
    else
      var last := log[|log| - 1];
      Labelled(log[..|log| - 1]) + if last.Run? then [(last, LabelAt(log))] else []
  }

  method Rounds(log: seq<Line>) returns (runs: seq<Labelling>)
    ensures runs == Labelled(log)
  {
    var current, number, closeout := BeforeRounds, 0, false;
    runs := [];
    for i := 0 to |log|
      invariant number == RoundsIn(log[..i]) && current == LastRound(log[..i])
      invariant closeout <==> Closed(log[..i])
      invariant runs == Labelled(log[..i])
    {
      var line := log[i];
      assert log[..i + 1] == log[..i] + [line] && log[..i + 1][..i] == log[..i];
      match line
      case Round(sections) =>
        number := number + 1;
        current := InRound(number, sections);
      case Run(_, closes, _, _) =>
        if closes {
          closeout := true;
        }
        runs := runs + [(line, if closeout then Closeout else current)];
      case Unrelated =>
    }
    assert log[..|log|] == log;
  }

  // ---- Sums ------------------------------------------------------------------------------

  datatype Sums = Sums(runs: int, usd: real, partial: real, turns: int, seconds: real, input: int, output: int,
                       cacheRead: int, cacheWrite: int, codex: int)

  const NOTHING := Sums(0, 0.0, 0.0, 0, 0.0, 0, 0, 0, 0, 0)

  function Plus(a: Sums, b: Sums): Sums {
    Sums(a.runs + b.runs, a.usd + b.usd, a.partial + b.partial, a.turns + b.turns, a.seconds + b.seconds,
         a.input + b.input, a.output + b.output, a.cacheRead + b.cacheRead, a.cacheWrite + b.cacheWrite, a.codex + b.codex)
  }

  /** One run, its dollars in one of the two ends of the range. */
  function Of(f: Figures): Sums {
    var usd := if f.usd.Some? then f.usd.value else 0.0;
    Sums(1, if f.partial then 0.0 else usd, if f.partial then usd else 0.0, f.turns, f.seconds,
         f.input, f.output, f.cacheRead, f.cacheWrite, f.codex)
  }

  type Entries<K> = seq<(K, Figures)>

  function SumAll<K>(entries: Entries<K>): Sums {
    if entries == [] then NOTHING
    else Plus(SumAll(entries[..|entries| - 1]), Of(entries[|entries| - 1].1))
  }

  function SumFor<K(==)>(entries: Entries<K>, key: K): Sums {
    if entries == [] then NOTHING
    else
      var (k, f) := entries[|entries| - 1];
      Plus(SumFor(entries[..|entries| - 1], key), if k == key then Of(f) else NOTHING)
  }

  function SumOver<K(==)>(entries: Entries<K>, keys: seq<K>): Sums {
    if keys == [] then NOTHING
    else Plus(SumOver(entries, keys[..|keys| - 1]), SumFor(entries, keys[|keys| - 1]))
  }

  ghost predicate Distinct<K>(keys: seq<K>) {
    forall i, j :: 0 <= i < j < |keys| ==> keys[i] != keys[j]
  }

  lemma PlusFacts(a: Sums, b: Sums, c: Sums, d: Sums)
    ensures Plus(a, NOTHING) == a && Plus(NOTHING, a) == a
    ensures Plus(Plus(a, b), Plus(c, d)) == Plus(Plus(a, c), Plus(b, d))
  {
  }

  lemma SumForOneMore<K>(entries: Entries<K>, e: (K, Figures), key: K)
    ensures SumFor(entries + [e], key) == if e.0 == key then Plus(SumFor(entries, key), Of(e.1)) else SumFor(entries, key)
  {
    assert (entries + [e])[..|entries|] == entries;
    PlusFacts(SumFor(entries, key), NOTHING, NOTHING, NOTHING);
  }

  lemma {:induction false} SumOverOneMore<K>(entries: Entries<K>, e: (K, Figures), keys: seq<K>)
    requires Distinct(keys)
    ensures SumOver(entries + [e], keys) == Plus(SumOver(entries, keys), if e.0 in keys then Of(e.1) else NOTHING)
  {
    hide Plus, Of, SumFor;
    PlusFacts(SumOver(entries, keys), NOTHING, NOTHING, NOTHING);
    if keys != [] {
      var init, last := keys[..|keys| - 1], keys[|keys| - 1];
      SumOverOneMore(entries, e, init);
      SumForOneMore(entries, e, last);
      assert keys == init + [last] && last !in init;
      var more := Of(e.1);
      PlusFacts(SumOver(entries, init), if e.0 in init then more else NOTHING, SumFor(entries, last),
                if e.0 == last then more else NOTHING);
      PlusFacts(SumFor(entries, last), NOTHING, NOTHING, NOTHING);
      PlusFacts(more, NOTHING, NOTHING, NOTHING);
      PlusFacts(NOTHING, NOTHING, NOTHING, NOTHING);
    }
  }

  lemma {:induction false} SumOverNothing<K>(keys: seq<K>)
    ensures SumOver([], keys) == NOTHING
  {
    if keys != [] {
      SumOverNothing(keys[..|keys| - 1]);
    }
  }

  /** Groups that are distinct and leave nothing out sum to the whole. */
  lemma {:induction false} GroupsSumToAll<K>(entries: Entries<K>, keys: seq<K>)
    requires Distinct(keys) && forall e :: e in entries ==> e.0 in keys
    ensures SumOver(entries, keys) == SumAll(entries)
  {
    if entries == [] {
      SumOverNothing(keys);
    } else {
      var init, last := entries[..|entries| - 1], entries[|entries| - 1];
      GroupsSumToAll(init, keys);
      SumOverOneMore(init, last, keys);
      assert entries == init + [last];
    }
  }

  // ---- Buckets ---------------------------------------------------------------------------

  datatype Token = Input | Output | CacheRead | CacheWrite

  class Bucket {
    var runs: int
    var usd: real
    var partial: real
    var turns: int
    var seconds: real
    var tokens: map<Token, int>
    var codex: int

    ghost predicate Valid()
      reads this
    {
      Input in tokens && Output in tokens && CacheRead in tokens && CacheWrite in tokens
    }

    ghost function Value(): Sums
      requires Valid()
      reads this
    {
      Sums(runs, usd, partial, turns, seconds, tokens[Input], tokens[Output], tokens[CacheRead], tokens[CacheWrite], codex)
    }

    constructor ()
      ensures Valid() && Value() == NOTHING
    {
      runs, usd, partial, turns, seconds, codex := 0, 0.0, 0.0, 0, 0.0, 0;
      tokens := map[Input := 0, Output := 0, CacheRead := 0, CacheWrite := 0];
    }

    method Add(f: Figures)
      requires Valid()
      modifies this
      ensures Valid() && Value() == Plus(old(Value()), Of(f))
    {
      runs := runs + 1;
      if f.usd.Some? {
        if f.partial {
          partial := partial + f.usd.value;
        } else {
          usd := usd + f.usd.value;
        }
      }
      turns := turns + f.turns;
      seconds := seconds + f.seconds;
      AddTokens(f);
      codex := codex + f.codex;
    }

    method AddTokens(f: Figures)
      requires Valid()
      modifies this`tokens
      ensures Valid()
      ensures tokens[Input] == old(tokens[Input]) + f.input && tokens[Output] == old(tokens[Output]) + f.output
      ensures tokens[CacheRead] == old(tokens[CacheRead]) + f.cacheRead
      ensures tokens[CacheWrite] == old(tokens[CacheWrite]) + f.cacheWrite
    {
      tokens := tokens[Input := tokens[Input] + f.input];
      tokens := tokens[Output := tokens[Output] + f.output];
      tokens := tokens[CacheRead := tokens[CacheRead] + f.cacheRead];
      tokens := tokens[CacheWrite := tokens[CacheWrite] + f.cacheWrite];
    }
  }

  /** Buckets by key, in the order first used. */
  class Family<K(==,!new)> {
    var keys: seq<K>
    var buckets: map<K, Bucket>
    ghost var entries: Entries<K>
    ghost var Repr: set<object>

    /** Each key has a bucket of its own, which holds the sum of what was added under it. */
    ghost predicate Valid()
      reads this, Repr
      ensures Valid() ==> this in Repr
    {
      && this in Repr && Distinct(keys)
      && (forall k :: k in buckets <==> k in keys)
      && (forall e :: e in entries ==> e.0 in keys)
      && (forall k :: k in buckets ==> buckets[k] in Repr)
      && Keeps(entries, buckets)
    }

    constructor ()
      ensures Valid() && fresh(Repr) && entries == [] && keys == [] && buckets == map[]
    {
      keys, buckets, entries, Repr := [], map[], [], {this};
    }

    /** The key's bucket, made if there is none. */
    method Ensure(key: K) returns (bucket: Bucket)
      requires Valid()
      modifies this
      ensures Valid() && entries == old(entries) && bucket in Repr && fresh(Repr - old(Repr))
      ensures key in buckets && bucket == buckets[key]
      ensures forall k :: k in old(buckets) ==> k in buckets
    {
      if key in buckets {
        return buckets[key];
      }
      bucket := Make(key);
    }

    method Make(key: K) returns (bucket: Bucket)
      requires Valid() && key !in buckets
      modifies this
      ensures Valid() && entries == old(entries) && bucket in Repr && fresh(Repr - old(Repr))
      ensures buckets == old(buckets)[key := bucket]
    {
      hide Plus, Of, SumFor, Distinct, Keeps, Bucket.Value, Bucket.Valid;
      NoneUnder(key);
      DistinctMore(keys, key);
      bucket := new Bucket();
      KeepsMore(key, bucket);
      Repr := Repr + {bucket};
      keys := keys + [key];
      buckets := buckets[key := bucket];
    }

    lemma NoneUnder(key: K)
      requires Valid() && key !in buckets
      ensures SumFor(entries, key) == NOTHING
    {
      hide Plus, Of, SumFor, Distinct, Keeps;
      NoneFor(entries, key);
    }

    lemma KeepsMore(key: K, bucket: Bucket)
      requires Keeps(entries, buckets) && key !in buckets && bucket !in buckets.Values
      requires bucket.Valid() && bucket.Value() == SumFor(entries, key)
      ensures Keeps(entries, buckets[key := bucket])
    {
      hide Plus, Of, SumFor, Bucket.Value, Bucket.Valid;
    }

    static ghost predicate Keeps(entries: Entries<K>, buckets: map<K, Bucket>)
      reads buckets.Values
    {
      && (forall j, k :: j in buckets && k in buckets && j != k ==> buckets[j] != buckets[k])
      && (forall k :: k in buckets ==> buckets[k].Valid() && buckets[k].Value() == SumFor(entries, k))
    }

    method Add(key: K, f: Figures)
      requires Valid()
      modifies Repr
      ensures Valid() && fresh(Repr - old(Repr)) && entries == old(entries) + [(key, f)]
    {
      hide Plus, Of, SumFor, Bucket.Value, Bucket.Valid;
      var bucket := Ensure(key);
      ghost var before := entries;
      label Ensured:
      bucket.Add(f);
      entries := entries + [(key, f)];
      forall k | k in buckets
        ensures buckets[k].Valid() && buckets[k].Value() == SumFor(entries, k)
      {
        SumForOneMore(before, (key, f), k);
        if k != key {
          assert buckets[k] != bucket;
          assert old@Ensured(buckets[k].Valid() && buckets[k].Value() == SumFor(before, k));
        }
      }
    }
  }

  lemma DistinctMore<K>(keys: seq<K>, key: K)
    requires Distinct(keys) && key !in keys
    ensures Distinct(keys + [key])
    ensures forall k :: k in keys + [key] <==> k in keys || k == key
  {
  }

  lemma {:induction false} NoneFor<K>(entries: Entries<K>, key: K)
    requires forall e :: e in entries ==> e.0 != key
    ensures SumFor(entries, key) == NOTHING
  {
    if entries != [] {
      NoneFor(entries[..|entries| - 1], key);
    }
  }

  // ---- The report ---------------------------------------------------------------------------

  function StepOf(run: Labelling): string {
    if run.0.Run? then run.0.step else ""
  }

  function RoundOf(run: Labelling): Label {
    run.1
  }

  /** A run that records no cache hit is an opening one. */
  function CacheOf(run: Labelling): (cache: Cache)
    ensures cache == Warm <==> run.0.Run? && run.0.cacheHit == Some(true)
    ensures cache == Miss <==> run.0.Run? && run.0.cacheHit == Some(false)
  {
    if !run.0.Run? || run.0.cacheHit.None? then Opening else if run.0.cacheHit.value then Warm else Miss
  }

  predicate Costed(run: Labelling) {
    run.0.Run? && run.0.cost.Some?
  }

  /** The runs whose lines record a cost, each under its key. */
  function Keyed<K>(runs: seq<Labelling>, key: Labelling -> K): Entries<K> {
    if runs == [] then []
    else
      var last := runs[|runs| - 1];
      Keyed(runs[..|runs| - 1], key) + if Costed(last) then [(key(last), last.0.cost.value)] else []
  }

  /** What the runs cost together, whatever they are grouped by. */
  function CostOf(runs: seq<Labelling>): Sums {
    if runs == [] then NOTHING
    else
      var last := runs[|runs| - 1];
      var before := CostOf(runs[..|runs| - 1]);
      if Costed(last) then Plus(before, Of(last.0.cost.value)) else before
  }

  lemma {:induction false} KeyedSums<K>(runs: seq<Labelling>, key: Labelling -> K)
    ensures SumAll(Keyed(runs, key)) == CostOf(runs)
  {
    hide Plus, Of;
    if runs != [] {
      var init, last := runs[..|runs| - 1], runs[|runs| - 1];
      KeyedSums(init, key);
      if Costed(last) {
        SumAllOneMore(Keyed(init, key), (key(last), last.0.cost.value));
      } else {
        assert Keyed(runs, key) == Keyed(init, key);
      }
    }
  }

  lemma SumAllOneMore<K>(entries: Entries<K>, e: (K, Figures))
    ensures SumAll(entries + [e]) == Plus(SumAll(entries), Of(e.1))
  {
    assert (entries + [e])[..|entries|] == entries;
  }

  /** A family's buckets, key by key, and all of them together. */
  ghost function Summed<K(!new)>(family: Family<K>, keys: seq<K>): Sums
    requires forall k :: k in keys ==> k in family.buckets
    reads family, family.Repr
    requires family.Valid()
  {
    if keys == [] then NOTHING
    else Plus(Summed(family, keys[..|keys| - 1]), family.buckets[keys[|keys| - 1]].Value())
  }

  lemma {:induction false} SummedIs<K(!new)>(family: Family<K>, keys: seq<K>)
    requires family.Valid() && forall k :: k in keys ==> k in family.buckets
    ensures Summed(family, keys) == SumOver(family.entries, keys)
  {
    if keys != [] {
      SummedIs(family, keys[..|keys| - 1]);
    }
  }

  /** A family's buckets sum to what was added to it. */
  lemma FamilySumsToAll<K(!new)>(family: Family<K>)
    requires family.Valid()
    ensures Summed(family, family.keys) == SumAll(family.entries)
  {
    SummedIs(family, family.keys);
    GroupsSumToAll(family.entries, family.keys);
  }

  /** The cache's buckets are there from the start. */
  method EmptyByCache() returns (family: Family<Cache>)
    ensures fresh(family) && fresh(family.Repr) && family.Valid() && family.entries == []
    ensures Opening in family.buckets && Miss in family.buckets && Warm in family.buckets
  {
    family := new Family();
    hide *;
    var _ := family.Ensure(Opening);
    var _ := family.Ensure(Miss);
    var _ := family.Ensure(Warm);
  }

  /** The four groupings, none sharing a bucket with another. */
  class Report {
    const byStep: Family<string>
    const byRound: Family<Label>
    const byCache: Family<Cache>
    const total: Bucket

    ghost predicate Valid()
      reads this, total, byStep, byRound, byCache, byStep.Repr, byRound.Repr, byCache.Repr
    {
      && byStep.Valid() && byRound.Valid() && byCache.Valid() && total.Valid()
      && byStep.Repr !! byRound.Repr && byStep.Repr !! byCache.Repr && byRound.Repr !! byCache.Repr
      && total !in byStep.Repr && total !in byRound.Repr && total !in byCache.Repr
    }

    constructor ()
      ensures Valid() && fresh(byStep.Repr) && fresh(byRound.Repr) && fresh(byCache.Repr) && fresh(total)
      ensures byStep.entries == [] && byRound.entries == [] && byCache.entries == [] && total.Value() == NOTHING
      ensures Opening in byCache.buckets && Miss in byCache.buckets && Warm in byCache.buckets
      ensures fresh(byStep) && fresh(byRound) && fresh(byCache)
    {
      byStep := new Family();
      byRound := new Family();
      hide Plus, Of, Family.Valid, Bucket.Valid, Bucket.Value;
      var empty := EmptyByCache();
      byCache := empty;
      total := new Bucket();
    }

    /** Adds a run to the bucket of its step, of its round, and of its cache, and to the
        total. */
    method Add(run: Labelling)
      requires Valid() && Costed(run)
      modifies byStep.Repr, byRound.Repr, byCache.Repr, total
      ensures Valid()
      ensures fresh(byStep.Repr - old(byStep.Repr)) && fresh(byRound.Repr - old(byRound.Repr))
      ensures fresh(byCache.Repr - old(byCache.Repr))
      ensures byStep.entries == old(byStep.entries) + [(StepOf(run), run.0.cost.value)]
      ensures byRound.entries == old(byRound.entries) + [(RoundOf(run), run.0.cost.value)]
      ensures byCache.entries == old(byCache.entries) + [(CacheOf(run), run.0.cost.value)]
      ensures total.Value() == Plus(old(total.Value()), Of(run.0.cost.value))
    {
      hide Plus, Of, StepOf, RoundOf, CacheOf, Family.Valid, Bucket.Valid, Bucket.Value;
      var f := run.0.cost.value;
      byStep.Add(StepOf(run), f);
      byRound.Add(RoundOf(run), f);
      byCache.Add(CacheOf(run), f);
      total.Add(f);
    }
  }

  /** Reports a log's costs: each bucket holds exactly its own runs', and the buckets by
      step, by round, and by cache each sum to the total, which is all the runs cost. */
  method MakeReport(log: seq<Line>) returns (r: Report)
    ensures fresh(r) && r.Valid()
    ensures var runs := Labelled(log);
      && r.byStep.entries == Keyed(runs, StepOf)
      && r.byRound.entries == Keyed(runs, RoundOf)
      && r.byCache.entries == Keyed(runs, CacheOf)
      && r.total.Value() == CostOf(runs)
      && Summed(r.byStep, r.byStep.keys) == r.total.Value()
      && Summed(r.byRound, r.byRound.keys) == r.total.Value()
      && Summed(r.byCache, r.byCache.keys) == r.total.Value()
  {
    r := new Report();
    var runs := Rounds(log);
    AddAll(r, runs);
    FamilySumsToAll(r.byStep);
    FamilySumsToAll(r.byRound);
    FamilySumsToAll(r.byCache);
    KeyedSums(runs, StepOf);
    KeyedSums(runs, RoundOf);
    KeyedSums(runs, CacheOf);
  }

  method AddAll(r: Report, runs: seq<Labelling>)
    requires r.Valid() && r.byStep.entries == [] && r.byRound.entries == [] && r.byCache.entries == []
    requires r.total.Value() == NOTHING
    modifies r.byStep.Repr, r.byRound.Repr, r.byCache.Repr, r.total
    ensures r.Valid()
    ensures r.byStep.entries == Keyed(runs, StepOf) && r.byRound.entries == Keyed(runs, RoundOf)
    ensures r.byCache.entries == Keyed(runs, CacheOf) && r.total.Value() == CostOf(runs)
  {
    hide Plus, Of, StepOf, RoundOf, CacheOf, Family.Valid, Bucket.Valid, Bucket.Value;
    for i := 0 to |runs|
      invariant r.Valid()
      invariant fresh(r.byStep.Repr - old(r.byStep.Repr)) && fresh(r.byRound.Repr - old(r.byRound.Repr))
      invariant fresh(r.byCache.Repr - old(r.byCache.Repr))
      invariant r.byStep.entries == Keyed(runs[..i], StepOf) && r.byRound.entries == Keyed(runs[..i], RoundOf)
      invariant r.byCache.entries == Keyed(runs[..i], CacheOf) && r.total.Value() == CostOf(runs[..i])
    {
      assert runs[..i + 1][..i] == runs[..i] && runs[..i + 1][i] == runs[i];
      if Costed(runs[i]) {
        r.Add(runs[i]);
      }
    }
    assert runs[..|runs|] == runs;
  }
}
