/** The extras a lock and the wheels it installs request (scripts/check_locks.py). */
module ExtrasInUse {
  import opened Options
  import opened Versions

  datatype Version = Version(text: string, release: Option<Release>)

  /** An entry of a lock's section: the package, the version recorded when the resolution
      forks, and the extras asked of it. */
  datatype Entry = Entry(name: string, version: Option<Version>, extras: set<string>)

  /** A requirement of a wheel: under an extra or none, and whether other markers apply. */
  datatype Requirement = Requirement(name: string, specifier: Option<seq<Clause>>, extra: Option<string>,
                                     marked: bool, requested: set<string>)

  type Wheels = map<string, seq<Requirement>>

  /** A package with an extra of it that is requested. */
  type Fact = (string, string)

  type InUse = map<string, set<string>>

  function Lookup(inUse: InUse, name: string): set<string> {
    if name in inUse then inUse[name] else {}
  }

  function Facts(inUse: InUse): (facts: set<Fact>)
    ensures forall n, x :: (n, x) in facts <==> x in Lookup(inUse, n)
  {
    set n, x | n in inUse && x in inUse[n] :: (n, x)
  }

  predicate Active(r: Requirement, name: string, facts: set<Fact>) {
    r.extra.None? || (name, r.extra.value) in facts
  }

  predicate Asked(name: string, extras: set<string>, facts: set<Fact>) {
    forall x :: x in extras ==> (name, x) in facts
  }

  predicate Served(name: string, requirements: seq<Requirement>, facts: set<Fact>) {
    forall r :: r in requirements && Active(r, name, facts) ==> Asked(r.name, r.requested, facts)
  }

  /** `facts` hold all the lock's own requests, and all the wheels' under those extras. */
  ghost predicate Closed(requests: seq<Entry>, wheels: Wheels, facts: set<Fact>) {
    && (forall e :: e in requests ==> Asked(e.name, e.extras, facts))
    && forall n :: n in wheels ==> Served(n, wheels[n], facts)
  }

  ghost predicate Least(requests: seq<Entry>, wheels: Wheels, facts: set<Fact>) {
    && Closed(requests, wheels, facts)
    && forall other :: Closed(requests, wheels, other) ==> facts <= other
  }

  /** There is but one least set: whatever order the wheels were visited in. */
  lemma LeastIsOne(requests: seq<Entry>, wheels: Wheels, facts: set<Fact>, other: set<Fact>)
    requires Least(requests, wheels, facts) && Least(requests, wheels, other)
    ensures facts == other
  {
    assert facts <= other && other <= facts;
  }

  /** Everything that could ever be requested. */
  function Askable(requests: seq<Entry>, wheels: Wheels): set<Fact> {
    (set e, x | e in requests && x in e.extras :: (e.name, x))
    + (set n, r, x | n in wheels && r in wheels[n] && x in r.requested :: (r.name, x))
  }

  /** `after` is `before` with more, all of it askable and needed, and `changed` says
      whether there is any. */
  ghost predicate Grew(requests: seq<Entry>, wheels: Wheels, before: set<Fact>, after: set<Fact>, changed: bool) {
    && before <= after && (changed <==> before != after)
    && (before <= Askable(requests, wheels) ==> after <= Askable(requests, wheels))
    && forall other :: Closed(requests, wheels, other) && before <= other ==> after <= other
  }

  lemma GrewMore(requests: seq<Entry>, wheels: Wheels, a: set<Fact>, b: set<Fact>, c: set<Fact>,
                 first: bool, second: bool)
    requires Grew(requests, wheels, a, b, first) && Grew(requests, wheels, b, c, second)
    ensures Grew(requests, wheels, a, c, first || second)
  {
  }

  /** Records a request; whether it asked for anything new. */
  method Request(inUse: InUse, name: string, extras: set<string>) returns (out: InUse, changed: bool)
    ensures Facts(out) == Facts(inUse) + (set x | x in extras :: (name, x))
    ensures name in out && forall n :: n in inUse ==> n in out
    ensures changed <==> !Asked(name, extras, Facts(inUse))
  {
    var wanted := extras - Lookup(inUse, name);
    out := inUse[name := Lookup(inUse, name) + wanted];
    changed := wanted != {};
    ghost var asked := set x | x in extras :: (name, x);
    assert forall n, x :: (n, x) in Facts(out) <==> (n, x) in Facts(inUse) || (n, x) in asked;
    assert Facts(out) == Facts(inUse) + asked;
    assert forall x :: x in extras ==> (x in wanted <==> (name, x) !in Facts(inUse));
  }

  lemma AskGrows(requests: seq<Entry>, wheels: Wheels, facts: set<Fact>, name: string, requirements: seq<Requirement>,
                 r: Requirement, started: set<Fact>, all: set<Fact>)
    requires name in wheels && wheels[name] == requirements && r in requirements
    requires Active(r, name, started) && started <= facts
    requires all == facts + (set x | x in r.requested :: (r.name, x))
    ensures Grew(requests, wheels, facts, all, !Asked(r.name, r.requested, facts))
  {
    forall other | Closed(requests, wheels, other) && facts <= other
      ensures all <= other
    {
      assert Served(name, wheels[name], other) && Active(r, name, other);
      assert Asked(r.name, r.requested, other);
    }
  }

  /** One wheel's requests. The extras of its own that count are those it has as it is
      visited, and, if it was in use before, those its own requests add meanwhile. */
  method VisitWheel(ghost requests: seq<Entry>, ghost wheels: Wheels, inUse: InUse, name: string,
                    requirements: seq<Requirement>)
    returns (out: InUse, changed: bool)
    requires name in wheels && wheels[name] == requirements
    ensures Grew(requests, wheels, Facts(inUse), Facts(out), changed)
    ensures !changed ==> Served(name, requirements, Facts(out))
  {
    out, changed := inUse, false;
    var shared := name in inUse;
    for i := 0 to |requirements|
      invariant Grew(requests, wheels, Facts(inUse), Facts(out), changed)
      invariant shared ==> name in out
      invariant !changed ==> Served(name, requirements[..i], Facts(out))
    {
      var r := requirements[i];
      var active := if shared then out[name] else {};
      if r.requested != {} && (r.extra.None? || r.extra.value in active) {
        ghost var before, sofar := Facts(out), changed;
        var more: bool;
        out, more := Request(out, r.name, r.requested);
        AskGrows(requests, wheels, before, name, requirements, r, before, Facts(out));
        GrewMore(requests, wheels, Facts(inUse), before, Facts(out), sofar, more);
        changed := changed || more;
      }
      assert requirements[..i + 1] == requirements[..i] + [r];
    }
    assert requirements[..|requirements|] == requirements;
  }

  /** One pass over the wheels, in any order. */
  method VisitWheels(ghost requests: seq<Entry>, wheels: Wheels, inUse: InUse) returns (out: InUse, changed: bool)
    ensures Grew(requests, wheels, Facts(inUse), Facts(out), changed)
    ensures !changed ==> forall n :: n in wheels ==> Served(n, wheels[n], Facts(out))
  {
    out, changed := inUse, false;
    var left := wheels.Keys;
    while left != {}
      invariant left <= wheels.Keys
      invariant Grew(requests, wheels, Facts(inUse), Facts(out), changed)
      invariant !changed ==> forall n :: n in wheels && n !in left ==> Served(n, wheels[n], Facts(out))
    {
      var name :| name in left;
      ghost var before, sofar := Facts(out), changed;
      var more: bool;
      out, more := VisitWheel(requests, wheels, out, name, wheels[name]);
      GrewMore(requests, wheels, Facts(inUse), before, Facts(out), sofar, more);
      changed := changed || more;
      left := left - {name};
    }
  }

  /** The lock's own requests. */
  method AskLock(requests: seq<Entry>, ghost wheels: Wheels) returns (inUse: InUse)
    ensures forall e :: e in requests ==> Asked(e.name, e.extras, Facts(inUse))
    ensures Facts(inUse) <= Askable(requests, wheels)
    ensures forall other :: Closed(requests, wheels, other) ==> Facts(inUse) <= other
  {
    inUse := map[];
    for i := 0 to |requests|
      invariant forall e :: e in requests[..i] ==> Asked(e.name, e.extras, Facts(inUse))
      invariant Facts(inUse) <= Askable(requests, wheels)
      invariant forall other :: Closed(requests, wheels, other) ==> Facts(inUse) <= other
    {
      var e := requests[i];
      ghost var before := Facts(inUse);
      var more;
      inUse, more := Request(inUse, e.name, e.extras);
      assert requests[..i + 1] == requests[..i] + [e];
      forall other | Closed(requests, wheels, other)
        ensures Facts(inUse) <= other
      {
        assert before <= other && Asked(e.name, e.extras, other);
      }
    }
    assert requests[..|requests|] == requests;
  }

  /** The least set of extras closed under the wheels' requirements, whatever the order
      the wheels are visited in. */
  method Compute(requests: seq<Entry>, wheels: Wheels) returns (inUse: InUse)
    ensures Least(requests, wheels, Facts(inUse))
  {
    inUse := AskLock(requests, wheels);
    var changed := true;
    while changed
      invariant forall e :: e in requests ==> Asked(e.name, e.extras, Facts(inUse))
      invariant Facts(inUse) <= Askable(requests, wheels)
      invariant forall other :: Closed(requests, wheels, other) ==> Facts(inUse) <= other
      invariant !changed ==> forall n :: n in wheels ==> Served(n, wheels[n], Facts(inUse))
      decreases |Askable(requests, wheels) - Facts(inUse)|, changed
    {
      ghost var before := Facts(inUse);
      inUse, changed := VisitWheels(requests, wheels, inUse);
      if changed {
        Smaller(Askable(requests, wheels), before, Facts(inUse));
      }
    }
  }

  lemma Smaller(all: set<Fact>, a: set<Fact>, b: set<Fact>)
    requires a <= b <= all && a != b
    ensures |all - b| < |all - a|
  {
    var x :| x in b && x !in a;
    assert all - b <= (all - a) - {x};
    Fewer(all - b, (all - a) - {x});
  }

  lemma Fewer(a: set<Fact>, b: set<Fact>)
    requires a <= b
    ensures |a| <= |b|
  {
    if a != {} {
      var x :| x in a;
      Fewer(a - {x}, b - {x});
    }
  }
}
