/** Release numbers and the specifiers they meet (scripts/check_locks.py). */
module Versions {
  import opened Options

  type Release = r: seq<nat> | |r| > 0 witness [0]

  datatype Operator = Equal | NotEqual | AtMost | AtLeast | Less | Greater | Compatible

  /** One clause of a specifier, read: not a clause, an arbitrary equality, a prefix
      match or its complement, or a comparison; a release that does not parse is None. */
  datatype Clause =
    | Unread
    | Arbitrary
    | Prefix(equal: bool, prefix: Option<Release>)
    | Compare(operator: Operator, target: Option<Release>)

  datatype Verdict = Meets | Fails | Unknown

  // ---- Comparing releases --------------------------------------------------------

  function Zeros(n: nat): (z: seq<nat>)
    ensures |z| == n && forall k :: 0 <= k < n ==> z[k] == 0
  {
    seq(n, _ => 0)
  }

  function Padded(a: seq<nat>, width: nat): (p: seq<nat>)
    ensures |p| == if |a| < width then width else |a|
    ensures forall k :: 0 <= k < |p| ==> p[k] == Part(a, k)
  {
    if |a| < width then a + Zeros(width - |a|) else a
  }

  /** The `k`th part of a release, zero beyond its last. */
  function Part(a: seq<nat>, k: nat): nat {
    if k < |a| then a[k] else 0
  }

  function Width(a: seq<nat>, b: seq<nat>): nat {
    if |a| < |b| then |b| else |a|
  }

  /** Tuples compare by their first difference, a proper prefix being less. */
  predicate TupleLess(a: seq<nat>, b: seq<nat>) {
    b != [] && (a == [] || a[0] < b[0] || (a[0] == b[0] && TupleLess(a[1..], b[1..])))
  }

  predicate PaddedLess(a: Release, b: Release) {
    TupleLess(Padded(a, Width(a, b)), Padded(b, Width(a, b)))
  }

  predicate PaddedEqual(a: Release, b: Release) {
    Padded(a, Width(a, b)) == Padded(b, Width(a, b))
  }

  function Take(a: seq<nat>, n: nat): seq<nat> {
    if n <= |a| then a[..n] else a
  }

  predicate Matches(have: Release, prefix: seq<nat>) {
    Take(have, |prefix|) == prefix
  }

  predicate Compares(operator: Operator, have: Release, target: Release) {
    match operator
    case Equal => PaddedEqual(have, target)
    case NotEqual => !PaddedEqual(have, target)
    case AtMost => !PaddedLess(target, have)
    case AtLeast => !PaddedLess(have, target)
    case Less => PaddedLess(have, target)
    case Greater => PaddedLess(target, have)
    case Compatible => !PaddedLess(have, target) && Matches(have, target[..|target| - 1])
  }

  // ---- A specifier -----------------------------------------------------------------

  predicate Parses(c: Clause) {
    match c
    case Unread => false
    case Arbitrary => false
    case Prefix(_, prefix) => prefix.Some?
    case Compare(_, target) => target.Some?
  }

  predicate Holds(have: Release, c: Clause)
    requires Parses(c)
  {
    match c
    case Prefix(equal, prefix) => Matches(have, prefix.value) == equal
    case Compare(operator, target) => Compares(operator, have, target.value)
  }

  predicate MeetsAll(have: Release, clauses: seq<Clause>) {
    forall c :: c in clauses ==> Parses(c) && Holds(have, c)
  }

  /** The clause at `i` is the first that does not parse or does not hold. */
  predicate FirstBad(have: Release, clauses: seq<Clause>, i: nat) {
    i < |clauses| && MeetsAll(have, clauses[..i]) && !(Parses(clauses[i]) && Holds(have, clauses[i]))
  }

  /** What `clauses` say of a version: they are met if all parse and hold; else the
      first that does not decides whether they are unmet or not known. */
  function Meaning(have: Option<Release>, clauses: seq<Clause>): Verdict {
    if have.None? then Unknown
    else if clauses == [] then Meets
    else if !Parses(clauses[0]) then Unknown
    else if !Holds(have.value, clauses[0]) then Fails
    else Meaning(have, clauses[1..])
  }

  method Satisfies(have: Option<Release>, clauses: seq<Clause>) returns (verdict: Verdict)
    ensures verdict == Meaning(have, clauses)
  {
    if have.None? {
      return Unknown;
    }
    var i := 0;
    while i < |clauses|
      invariant i <= |clauses|
      invariant Meaning(have, clauses) == Meaning(have, clauses[i..])
    {
      match clauses[i] {
        case Unread => return Unknown;
        case Arbitrary => return Unknown;
        case Prefix(equal, prefix) =>
          if prefix.None? {
            return Unknown;
          }
          var matches := Take(have.value, |prefix.value|) == prefix.value;
          if matches != equal {
            return Fails;
          }
        case Compare(operator, target) =>
          if target.None? {
            return Unknown;
          }
          if !Compares(operator, have.value, target.value) {
            return Fails;
          }
      }
      i := i + 1;
    }
    return Meets;
  }

  lemma FirstBadShifts(have: Release, clauses: seq<Clause>, i: nat)
    requires clauses != [] && Parses(clauses[0]) && Holds(have, clauses[0])
    ensures FirstBad(have, clauses, i + 1) <==> FirstBad(have, clauses[1..], i)
    ensures !FirstBad(have, clauses, 0)
  {
    if i < |clauses[1..]| {
      assert clauses[..i + 1] == [clauses[0]] + clauses[1..][..i];
    }
  }

  /** The first bad clause, if any, is what decides. */
  lemma {:induction false} FirstBadDecides(have: Release, clauses: seq<Clause>, i: nat)
    requires FirstBad(have, clauses, i)
    ensures Meaning(Some(have), clauses) == if Parses(clauses[i]) then Fails else Unknown
  {
    if i > 0 {
      assert clauses[0] in clauses[..i];
      FirstBadShifts(have, clauses, i - 1);
      FirstBadDecides(have, clauses[1..], i - 1);
    }
  }

  lemma {:induction false} FirstBadIsThere(have: Release, clauses: seq<Clause>)
    ensures Meaning(Some(have), clauses) == Meets <==> MeetsAll(have, clauses)
    ensures Meaning(Some(have), clauses) != Meets ==> exists i: nat :: FirstBad(have, clauses, i)
  {
    if clauses != [] && Parses(clauses[0]) && Holds(have, clauses[0]) {
      FirstBadIsThere(have, clauses[1..]);
      assert forall c :: c in clauses <==> c == clauses[0] || c in clauses[1..];
      if Meaning(Some(have), clauses) != Meets {
        var i: nat :| FirstBad(have, clauses[1..], i);
        FirstBadShifts(have, clauses, i);
      }
    } else if clauses != [] {
      assert clauses[0] in clauses;
      assert FirstBad(have, clauses, 0);
    }
  }

  /** A specifier is met exactly when the version parses and every clause parses and
      holds, and found unmet exactly when the first clause that is not both parses. */
  lemma MeaningIs(have: Option<Release>, clauses: seq<Clause>)
    ensures Meaning(have, clauses) == Meets <==> have.Some? && MeetsAll(have.value, clauses)
    ensures Meaning(have, clauses) == Fails <==>
      have.Some? && exists i: nat :: FirstBad(have.value, clauses, i) && Parses(clauses[i])
  {
    if have.Some? {
      FirstBadIsThere(have.value, clauses);
      forall i: nat | FirstBad(have.value, clauses, i)
        ensures Meaning(have, clauses) == if Parses(clauses[i]) then Fails else Unknown
      {
        FirstBadDecides(have.value, clauses, i);
      }
    }
  }

  // ---- The order -----------------------------------------------------------------------

  /** `k` is where `a` first differs from `b`, being less there. */
  predicate LessAt(a: seq<nat>, b: seq<nat>, k: nat) {
    Part(a, k) < Part(b, k) && forall j: nat :: j < k ==> Part(a, j) == Part(b, j)
  }

  /** The order meant: by the first part that differs, absent parts being zero. */
  ghost predicate Before(a: seq<nat>, b: seq<nat>) {
    exists k: nat :: LessAt(a, b, k)
  }

  ghost predicate Same(a: seq<nat>, b: seq<nat>) {
    forall k: nat :: Part(a, k) == Part(b, k)
  }

  lemma {:induction false} TupleLessIs(a: seq<nat>, b: seq<nat>)
    requires |a| == |b|
    ensures TupleLess(a, b) <==> Before(a, b)
  {
    if a != [] {
      TupleLessIs(a[1..], b[1..]);
      forall k: nat
        ensures a[0] == b[0] ==> (LessAt(a, b, k + 1) <==> LessAt(a[1..], b[1..], k))
      {
        assert Part(a, k + 1) == Part(a[1..], k) && Part(b, k + 1) == Part(b[1..], k);
        if a[0] == b[0] && LessAt(a, b, k + 1) {
          forall j: nat | j < k ensures Part(a[1..], j) == Part(b[1..], j) {
            assert Part(a, j + 1) == Part(b, j + 1);
          }
        }
        if a[0] == b[0] && LessAt(a[1..], b[1..], k) {
          forall j: nat | j < k + 1 ensures Part(a, j) == Part(b, j) {
            assert j > 0 ==> Part(a[1..], j - 1) == Part(b[1..], j - 1);
          }
        }
      }
      if a[0] < b[0] {
        assert LessAt(a, b, 0);
      }
      if a[0] == b[0] && TupleLess(a[1..], b[1..]) {
        var k: nat :| LessAt(a[1..], b[1..], k);
        assert LessAt(a, b, k + 1);
      }
      if k: nat :| LessAt(a, b, k) {
        assert k > 0 ==> Part(a, 0) == Part(b, 0);
        assert k > 0 ==> LessAt(a[1..], b[1..], k - 1);
      }
    }
  }

  lemma PaddedParts(a: Release, b: Release)
    ensures Before(Padded(a, Width(a, b)), Padded(b, Width(a, b))) <==> Before(a, b)
    ensures PaddedEqual(a, b) <==> Same(a, b)
  {
    var x, y := Padded(a, Width(a, b)), Padded(b, Width(a, b));
    assert forall k: nat :: Part(x, k) == Part(a, k) && Part(y, k) == Part(b, k);
    forall k: nat
      ensures LessAt(x, y, k) <==> LessAt(a, b, k)
    {
    }
    if Same(a, b) {
      forall k | 0 <= k < |x| ensures x[k] == y[k] {
        assert Part(a, k) == Part(b, k);
      }
    }
    if x == y {
      forall k: nat ensures Part(a, k) == Part(b, k) {
        assert Part(x, k) == Part(y, k);
      }
    }
  }

  /** The comparisons are of the order meant, whatever the releases' lengths. */
  lemma ComparesMeans(have: Release, target: Release)
    ensures Compares(Equal, have, target) <==> Same(have, target)
    ensures Compares(NotEqual, have, target) <==> !Same(have, target)
    ensures Compares(Less, have, target) <==> Before(have, target)
    ensures Compares(Greater, have, target) <==> Before(target, have)
    ensures Compares(AtLeast, have, target) <==> !Before(have, target)
    ensures Compares(AtMost, have, target) <==> !Before(target, have)
  {
    PaddedParts(have, target);
    PaddedParts(target, have);
    assert Width(have, target) == Width(target, have);
    TupleLessIs(Padded(have, Width(have, target)), Padded(target, Width(have, target)));
    TupleLessIs(Padded(target, Width(have, target)), Padded(have, Width(have, target)));
  }

  lemma FirstDifference(a: seq<nat>, b: seq<nat>, n: nat) returns (k: nat)
    requires Part(a, n) != Part(b, n)
    ensures LessAt(a, b, k) || LessAt(b, a, k)
  {
    if j: nat :| j < n && Part(a, j) != Part(b, j) {
      k := FirstDifference(a, b, j);
    } else {
      k := n;
    }
  }

  lemma NotBothLess(a: seq<nat>, b: seq<nat>, k: nat, j: nat)
    requires LessAt(a, b, k)
    ensures !LessAt(b, a, j)
  {
    assert j < k ==> Part(a, j) == Part(b, j);
    assert Part(a, k) != Part(b, k);
  }

  /** A total preorder: of two releases exactly one of less, same, and greater holds,
      and less is transitive, also across the same releases written otherwise. */
  lemma TotalPreorder(a: seq<nat>, b: seq<nat>, c: seq<nat>)
    ensures Before(a, b) || Same(a, b) || Before(b, a)
    ensures !(Before(a, b) && Same(a, b)) && !(Before(a, b) && Before(b, a))
    ensures Before(a, b) && (Before(b, c) || Same(b, c)) ==> Before(a, c)
    ensures Same(a, b) && Before(b, c) ==> Before(a, c)
    ensures Same(a, b) && Same(b, c) ==> Same(a, c)
  {
    if n: nat :| Part(a, n) != Part(b, n) {
      var k := FirstDifference(a, b, n);
      assert LessAt(a, b, k) || LessAt(b, a, k);
    }
    if Before(a, b) {
      var k: nat :| LessAt(a, b, k);
      forall j: nat ensures !LessAt(b, a, j) {
        NotBothLess(a, b, k, j);
      }
      if Before(b, c) {
        var m: nat :| LessAt(b, c, m);
        var least := if k < m then k else m;
        assert forall j: nat :: j < least ==> Part(a, j) == Part(b, j) == Part(c, j);
        assert m < k ==> Part(a, m) == Part(b, m);
        assert k < m ==> Part(b, k) == Part(c, k);
        assert LessAt(a, c, least);
      }
      if Same(b, c) {
        assert forall j: nat :: Part(b, j) == Part(c, j);
        assert LessAt(a, c, k);
      }
    }
    if Same(a, b) && Before(b, c) {
      var m: nat :| LessAt(b, c, m);
      assert forall j: nat :: Part(a, j) == Part(b, j);
      assert LessAt(a, c, m);
    }
  }

  // ---- What the clauses mean -----------------------------------------------------------

  /** Ordered clauses and plain equalities ignore trailing zeros on either side. */
  lemma TrailingZeros(operator: Operator, have: Release, target: Release, n: nat)
    requires operator != Compatible
    ensures Compares(operator, have + Zeros(n), target) == Compares(operator, have, target)
    ensures Compares(operator, have, target + Zeros(n)) == Compares(operator, have, target)
  {
    var more: Release, longer: Release := have + Zeros(n), target + Zeros(n);
    assert Same(more, have) && Same(longer, target);
    ComparesMeans(have, target);
    ComparesMeans(more, target);
    ComparesMeans(have, longer);
    SameCompares(more, have, target);
    SameCompares(longer, target, have);
  }

  lemma SameCompares(a: seq<nat>, b: seq<nat>, c: seq<nat>)
    requires Same(a, b)
    ensures Before(a, c) <==> Before(b, c)
    ensures Before(c, a) <==> Before(c, b)
    ensures Same(a, c) <==> Same(b, c)
    ensures Same(c, a) <==> Same(c, b)
  {
    assert Same(b, a);
    TotalPreorder(a, b, c);
    TotalPreorder(b, a, c);
    TotalPreorder(c, a, b);
    TotalPreorder(c, b, a);
  }

  /** `!=` is the complement of `==`, plain and by prefix. */
  lemma NotEqualComplements(have: Release, target: Release)
    ensures Holds(have, Compare(NotEqual, Some(target))) <==> !Holds(have, Compare(Equal, Some(target)))
    ensures Holds(have, Prefix(false, Some(target))) <==> !Holds(have, Prefix(true, Some(target)))
  {
  }

  /** `~=X.Y.Z` is `>=X.Y.Z` with `==X.Y.*`, as PEP 440, "Compatible release", defines it. */
  lemma CompatibleRelease(have: Release, target: Release)
    requires |target| >= 2
    ensures Meaning(Some(have), [Compare(Compatible, Some(target))])
            == Meaning(Some(have), [Compare(AtLeast, Some(target)), Prefix(true, Some(target[..|target| - 1]))])
  {
    var atLeast, prefix := Compare(AtLeast, Some(target)), Prefix(true, Some(target[..|target| - 1]));
    var both := [atLeast, prefix];
    assert both[1..] == [prefix] && [prefix][1..] == [];
    assert Meaning(Some(have), both[1..]) == if Holds(have, prefix) then Meets else Fails;
  }

  /** A one-part `~=`, which PEP 440 does not allow, is read as `>=`. */
  lemma CompatibleSingle(have: Release, target: Release)
    requires |target| == 1
    ensures Holds(have, Compare(Compatible, Some(target))) <==> Holds(have, Compare(AtLeast, Some(target)))
  {
    assert target[..0] == [];
  }

  /** What PEP 440, "Version matching", means by a prefix: the version's parts, padded
      with zeros, begin with it. */
  predicate BeginsWith(have: Release, prefix: seq<nat>) {
    forall k :: 0 <= k < |prefix| ==> Part(have, k) == prefix[k]
  }

  /** The prefix is compared unpadded, so a version written shorter than the prefix
      never matches; that is wrong exactly when the prefix ends in zeros it lacks. */
  lemma PrefixIsUnpadded(have: Release, prefix: Release)
    ensures Matches(have, prefix) ==> BeginsWith(have, prefix)
    ensures Matches(have, prefix) != BeginsWith(have, prefix) <==> ShortOf(have, prefix)
  {
    if |have| < |prefix| {
      if BeginsWith(have, prefix) {
        forall k | 0 <= k < |prefix| ensures Part(have, k) == prefix[k] {
        }
        assert have == prefix[..|have|];
        assert prefix[|have|..] == Zeros(|prefix| - |have|);
      } else {
        var k :| 0 <= k < |prefix| && Part(have, k) != prefix[k];
        if k >= |have| {
          assert prefix[|have|..][k - |have|] == prefix[k];
        }
      }
    } else if BeginsWith(have, prefix) {
      assert have[..|prefix|] == prefix;
    }
  }

  /** The version is written shorter than the prefix and is the prefix up to zeros. */
  predicate ShortOf(have: Release, prefix: seq<nat>) {
    |have| < |prefix| && have == prefix[..|have|] && prefix[|have|..] == Zeros(|prefix| - |have|)
  }

  /** What PEP 440, "Compatible release", means by `~=X.Y.Z`. */
  predicate IsCompatible(have: Release, target: Release) {
    Compares(AtLeast, have, target) && BeginsWith(have, target[..|target| - 1])
  }

  /** So `~=` departs from its meaning exactly where, moreover, the version is high
      enough: one that is too low is rightly refused whatever the prefix says. */
  lemma CompatibleDeparts(have: Release, target: Release)
    requires |target| >= 2
    ensures Compares(Compatible, have, target) ==> IsCompatible(have, target)
    ensures Compares(Compatible, have, target) != IsCompatible(have, target) <==>
      ShortOf(have, target[..|target| - 1]) && Compares(AtLeast, have, target)
  {
    PrefixIsUnpadded(have, target[..|target| - 1]);
  }

  /** Version 1 is not found to meet `==1.0.*`, nor version 2 to meet `~=2.0.0`. */
  lemma ShortVersionMissed()
    ensures Meaning(Some([1]), [Prefix(true, Some([1, 0]))]) == Fails && BeginsWith([1], [1, 0])
    ensures Meaning(Some([2]), [Compare(Compatible, Some([2, 0, 0]))]) == Fails && BeginsWith([2], [2, 0])
  {
    assert !Matches([1], [1, 0]);
    assert !Matches([2], [2, 0, 0][..2]);
  }
}
