/** Moving version requirements to a newer release without changing how they pin. */
module Requirements {
  import opened Basics

  /** A release with its segments, and the rank of its pre-release part if it has one. */
  datatype Version = Version(release: seq<nat>, pre: Option<nat>)

  datatype Op = ArbitraryEqual | Equal | Compatible | NotEqual | AtLeast | AtMost | Above | Below

  /** A version with `wildcard` is a prefix such as 1.4.* */
  datatype Clause = Clause(op: Op, version: Version, wildcard: bool)

  datatype Rewrite = Unchanged | Excluded(blocker: Clause) | Rewritten(clauses: seq<Clause>)

  // ---- Ordering versions (PEP 440) -------------------------------------------------------

  function Segment(release: seq<nat>, i: nat): nat { if i < |release| then release[i] else 0 }

  /** Segment by segment, a missing segment counting as zero. */
  function CompareReleases(a: seq<nat>, b: seq<nat>): int
    decreases |a| + |b|
  {
    if a == [] && b == [] then 0
    else if Segment(a, 0) != Segment(b, 0) then (if Segment(a, 0) < Segment(b, 0) then -1 else 1)
    else CompareReleases(if a == [] then [] else a[1..], if b == [] then [] else b[1..])
  }

  /** A pre-release comes before its release. */
  function ComparePre(a: Option<nat>, b: Option<nat>): int
  {
    if a == b then 0
    else if a.None? then 1
    else if b.None? then -1
    else if a.value < b.value then -1 else 1
  }

  function Compare(a: Version, b: Version): int
  {
    var c := CompareReleases(a.release, b.release);
    if c != 0 then c else ComparePre(a.pre, b.pre)
  }

  lemma {:induction false} ReleasesOpposite(a: seq<nat>, b: seq<nat>)
    ensures CompareReleases(a, b) == -CompareReleases(b, a)
    ensures a == b ==> CompareReleases(a, b) == 0
    decreases |a| + |b|
  {
    if !(a == [] && b == []) && Segment(a, 0) == Segment(b, 0) {
      ReleasesOpposite(if a == [] then [] else a[1..], if b == [] then [] else b[1..]);
    }
  }

  lemma {:induction false} ReleasesTransitive(a: seq<nat>, b: seq<nat>, c: seq<nat>)
    requires CompareReleases(a, b) <= 0 && CompareReleases(b, c) <= 0
    ensures CompareReleases(a, c) <= 0
    ensures CompareReleases(a, c) == 0 ==> CompareReleases(a, b) == 0 && CompareReleases(b, c) == 0
    decreases |a| + |b| + |c|
  {
    if !(a == [] && b == [] && c == []) && Segment(a, 0) == Segment(b, 0) == Segment(c, 0) {
      ReleasesTransitive(if a == [] then [] else a[1..], if b == [] then [] else b[1..],
        if c == [] then [] else c[1..]);
    }
  }

  /** The order of versions is a total preorder. */
  lemma CompareOpposite(a: Version, b: Version)
    ensures Compare(a, b) == -Compare(b, a) && Compare(a, a) == 0
  {
    ReleasesOpposite(a.release, b.release);
    ReleasesOpposite(a.release, a.release);
  }

  lemma CompareTransitive(a: Version, b: Version, c: Version)
    requires Compare(a, b) <= 0 && Compare(b, c) <= 0
    ensures Compare(a, c) <= 0
  {
    ReleasesTransitive(a.release, b.release, c.release);
  }

  // ---- What a clause means (PEP 440, "Version specifiers") ---------------------------------

  /** The release begins with the prefix, padded with zeros where it is shorter. */
  ghost predicate HasPrefix(prefix: seq<nat>, release: seq<nat>)
  {
    forall i :: 0 <= i < |prefix| ==> Segment(release, i) == prefix[i]
  }

  /** Below a final release, its own pre-releases do not count. */
  ghost predicate StrictlyBelow(x: Version, v: Version)
  {
    Compare(x, v) < 0 && !(v.pre.None? && x.pre.Some? && CompareReleases(x.release, v.release) == 0)
  }

  ghost predicate Satisfies(x: Version, c: Clause)
  {
    match c.op
    case ArbitraryEqual => x == c.version && !c.wildcard
    case Equal => if c.wildcard then HasPrefix(c.version.release, x.release) else Compare(x, c.version) == 0
    case NotEqual => if c.wildcard then !HasPrefix(c.version.release, x.release) else Compare(x, c.version) != 0
    case Compatible =>
      |c.version.release| >= 2 && Compare(x, c.version) >= 0 &&
      HasPrefix(c.version.release[..|c.version.release| - 1], x.release)
    case AtLeast => Compare(x, c.version) >= 0
    case AtMost => Compare(x, c.version) <= 0
    case Above => Compare(x, c.version) > 0
    case Below => StrictlyBelow(x, c.version)
  }

  /** Only == and != take a wildcard. */
  predicate WellFormed(c: Clause) { |c.version.release| >= 1 && (c.wildcard ==> c.op == Equal || c.op == NotEqual) }

  // ---- The rewrite -----------------------------------------------------------------------

  function MatchesPrefix(prefix: seq<nat>, release: seq<nat>): (r: bool)
    ensures r == HasPrefix(prefix, release)
  {
    if prefix == [] then true
    else
      var n := |prefix| - 1;
      assert forall i :: 0 <= i < n ==> prefix[..n][i] == prefix[i];
      MatchesPrefix(prefix[..n], release) && Segment(release, n) == prefix[n]
  }

  predicate Floor(op: Op) { op.ArbitraryEqual? || op.Equal? || op.AtLeast? }

  /** The prefix that a compatible-release clause implies. */
  function CompatibleBand(v: Version): Option<seq<nat>>
  {
    if |v.release| < 2 then None else Some(v.release[..|v.release| - 1])
  }

  /** Would the clause, once rewritten, still let `latest` in? */
  function Allows(c: Clause, latest: Version): bool
  {
    if Floor(c.op) && !c.wildcard then true
    else if c.wildcard then
      var inside := MatchesPrefix(c.version.release, latest.release);
      if c.op.Equal? || c.op.ArbitraryEqual? then inside else !inside
    else
      match c.op
      case Compatible =>
        var band := CompatibleBand(c.version);
        band.Some? && MatchesPrefix(band.value, latest.release)
      case Below =>
        Compare(latest, c.version) < 0 &&
        !(c.version.pre.None? && latest.pre.Some? && CompareReleases(latest.release, c.version.release) == 0)
      case AtMost => Compare(latest, c.version) <= 0
      case NotEqual => Compare(latest, c.version) != 0
      case _ => true
  }

  /** The first clause that rules `latest` out. */
  function ExcludedBy(clauses: seq<Clause>, latest: Version): (r: Option<Clause>)
    ensures r.None? <==> forall c :: c in clauses ==> Allows(c, latest)
    ensures r.Some? ==> r.value in clauses && !Allows(r.value, latest)
  {
    if clauses == [] then None
    else if !Allows(clauses[0], latest) then Some(clauses[0])
    else
      assert clauses == [clauses[0]] + clauses[1..];
      ExcludedBy(clauses[1..], latest)
  }

  lemma {:induction false} ExcludedByFirst(clauses: seq<Clause>, latest: Version) returns (k: nat)
    requires ExcludedBy(clauses, latest).Some?
    ensures k < |clauses| && clauses[k] == ExcludedBy(clauses, latest).value
    ensures forall j :: 0 <= j < k ==> Allows(clauses[j], latest)
  {
    if !Allows(clauses[0], latest) {
      k := 0;
    } else {
      var rest := ExcludedByFirst(clauses[1..], latest);
      k := rest + 1;
    }
  }

  /** The first `n` segments; a pre-release part goes with the last segment. */
  function Truncate(v: Version, n: nat): Version
  {
    if n >= |v.release| then v else Version(v.release[..n], None)
  }

  /** The version the clause carries afterwards. */
  function Bump(c: Clause, latest: Version): Version
  {
    if c.wildcard then c.version
    else if c.op.Compatible? then
      if |latest.release| < |c.version.release| then c.version
      else
        var candidate := Truncate(latest, |c.version.release|);
        if Compare(candidate, c.version) > 0 && Compare(candidate, latest) <= 0 then candidate else c.version
    else if Floor(c.op) then (if Compare(latest, c.version) > 0 then latest else c.version)
    else c.version
  }

  function Bumped(clauses: seq<Clause>, latest: Version): (r: seq<Clause>)
    ensures |r| == |clauses|
    ensures forall i :: 0 <= i < |r| ==> r[i] == clauses[i].(version := Bump(clauses[i], latest))
  {
    if clauses == [] then []
    else [clauses[0].(version := Bump(clauses[0], latest))] + Bumped(clauses[1..], latest)
  }

  function RewriteRequirement(clauses: seq<Clause>, latest: Version, loosen: bool): Rewrite
  {
    if loosen || clauses == [] then
      var floor := [Clause(AtLeast, latest, false)];
      if floor == clauses then Unchanged else Rewritten(floor)
    else
      var blocker := ExcludedBy(clauses, latest);
      if blocker.Some? then Excluded(blocker.value)
      else
        var bumped := Bumped(clauses, latest);
        if bumped == clauses then Unchanged else Rewritten(bumped)
  }

  // ---- What it keeps ---------------------------------------------------------------------

  /** The clauses a rewrite leaves in force. */
  function Result(r: Rewrite, clauses: seq<Clause>): seq<Clause> { if r.Rewritten? then r.clauses else clauses }

  /** `latest` is no older than any floor, newer than any exclusive bound, and spelled as `===` has it unless newer. */
  ghost predicate MeetsFloors(clauses: seq<Clause>, latest: Version)
  {
    forall c :: c in clauses && !c.wildcard ==> MeetsFloor(c, latest)
  }

  ghost predicate MeetsFloor(c: Clause, latest: Version)
  {
    && (c.op.Equal? || c.op.AtLeast? || c.op.Compatible? ==> Compare(latest, c.version) >= 0)
    && (c.op.Above? ==> Compare(latest, c.version) > 0)
    && (c.op.ArbitraryEqual? ==> latest == c.version || Compare(latest, c.version) > 0)
  }

  lemma BumpNeverLowers(c: Clause, latest: Version)
    ensures Compare(Bump(c, latest), c.version) >= 0
    ensures Bump(c, latest) != c.version ==> Compare(Bump(c, latest), c.version) > 0
    ensures c.op.Compatible? ==> |Bump(c, latest).release| == |c.version.release|
  {
    CompareOpposite(c.version, c.version);
  }

  /** A rewrite without loosening keeps every operator, every wildcard and their number, and lowers nothing. */
  lemma KeepsPinStyle(clauses: seq<Clause>, latest: Version)
    requires clauses != []
    ensures var r := Result(RewriteRequirement(clauses, latest, false), clauses);
      && |r| == |clauses|
      && forall i :: 0 <= i < |r| ==>
           r[i].op == clauses[i].op && r[i].wildcard == clauses[i].wildcard
             && Compare(r[i].version, clauses[i].version) >= 0
  {
    forall i | 0 <= i < |clauses| ensures Compare(Bump(clauses[i], latest), clauses[i].version) >= 0 {
      BumpNeverLowers(clauses[i], latest);
    }
    forall v: Version ensures Compare(v, v) == 0 {
      CompareOpposite(v, v);
    }
  }

  lemma PrefixAgain(a: seq<nat>, b: seq<nat>, n: nat)
    requires n <= |a| && |a| <= |b| && a == b[..|a|]
    ensures HasPrefix(a[..n], b)
  {
  }

  /** A bumped clause lets `latest` in as the original did, and stays where it is when bumped again. */
  lemma BumpSettles(c: Clause, latest: Version)
    requires Allows(c, latest)
    ensures var d := c.(version := Bump(c, latest)); Allows(d, latest) && Bump(d, latest) == d.version
  {
    CompareOpposite(latest, latest);
    if c.op.Compatible? && !c.wildcard && Bump(c, latest) != c.version {
      var n := |c.version.release|;
      var candidate := Truncate(latest, n);
      CompareOpposite(candidate, candidate);
      assert candidate.release == latest.release[..n];
      PrefixAgain(candidate.release, latest.release, n - 1);
    }
  }

  /** Rewriting a second time changes nothing. */
  lemma RewriteSettles(clauses: seq<Clause>, latest: Version, loosen: bool)
    requires !RewriteRequirement(clauses, latest, loosen).Excluded?
    ensures RewriteRequirement(Result(RewriteRequirement(clauses, latest, loosen), clauses), latest, loosen) ==
      Unchanged
  {
    var r := Result(RewriteRequirement(clauses, latest, loosen), clauses);
    CompareOpposite(latest, latest);
    if loosen || clauses == [] {
      assert r == [Clause(AtLeast, latest, false)];
      assert Bumped(r, latest) == r;
    } else {
      forall i | 0 <= i < |clauses|
        ensures Allows(Bumped(clauses, latest)[i], latest)
        ensures Bump(Bumped(clauses, latest)[i], latest) == Bumped(clauses, latest)[i].version
      {
        BumpSettles(clauses[i], latest);
      }
      assert r == Bumped(clauses, latest);
      assert Bumped(r, latest) == r;
    }
  }

  // ---- Where each clause ends ------------------------------------------------------------

  /** The greatest version as wide as `c` that is neither below `c` nor above `latest`, or `c` if there is none. */
  ghost predicate GreatestOfWidth(v: Version, c: Version, latest: Version)
  {
    && |v.release| == |c.release| && Compare(c, v) <= 0 && (v == c || Compare(v, latest) <= 0)
    && forall x: Version :: |x.release| == |c.release| && Compare(c, x) <= 0 && Compare(x, latest) <= 0 ==>
      Compare(x, v) <= 0
  }

  /** `latest` is newer than `c` but cannot be cut to the width of `c`: it is shorter, or it is a pre-release of
      what it would be cut to. */
  predicate Uncut(c: Version, latest: Version)
  {
    Compare(latest, c) > 0 &&
    (|latest.release| < |c.release| ||
     (|latest.release| > |c.release| && latest.pre.Some? &&
      CompareReleases(latest.release[..|c.release|], latest.release) == 0))
  }

  lemma {:induction false} CutBelow(x: seq<nat>, l: seq<nat>)
    requires |x| <= |l| && CompareReleases(x, l) <= 0
    ensures CompareReleases(x, l[..|x|]) <= 0
  {
    if x != [] && x[0] == l[0] {
      assert l[..|x|][1..] == l[1..][..|x| - 1];
      CutBelow(x[1..], l[1..]);
    }
  }

  lemma {:induction false} CutNotAbove(l: seq<nat>, n: nat)
    requires n <= |l|
    ensures CompareReleases(l[..n], l) <= 0
    decreases |l|
  {
    if l != [] {
      if n == 0 {
        assert l[..0] == [];
        ZeroNotAbove(l);
      } else {
        assert l[..n][1..] == l[1..][..n - 1];
        CutNotAbove(l[1..], n - 1);
      }
    }
  }

  lemma {:induction false} ZeroNotAbove(l: seq<nat>)
    ensures CompareReleases([], l) <= 0
  {
    if l != [] && l[0] == 0 {
      ZeroNotAbove(l[1..]);
    }
  }

  function Zeros(n: nat): seq<nat> { seq(n, _ => 0) }

  lemma {:induction false} PaddedSame(l: seq<nat>, n: nat)
    ensures CompareReleases(l + Zeros(n), l) == 0
    decreases |l| + n
  {
    if l != [] {
      assert (l + Zeros(n))[1..] == l[1..] + Zeros(n);
      PaddedSame(l[1..], n);
    } else if n > 0 {
      assert (l + Zeros(n))[1..] == [] + Zeros(n - 1);
      PaddedSame([], n - 1);
    } else {
      assert l + Zeros(n) == [];
    }
  }

  lemma NothingNewer(c: Version, latest: Version)
    requires Compare(latest, c) <= 0
    ensures GreatestOfWidth(c, c, latest)
  {
    CompareOpposite(c, c);
    forall x | Compare(x, latest) <= 0 ensures Compare(x, c) <= 0 {
      CompareTransitive(x, latest, c);
    }
  }

  lemma SameNewer(c: Version, latest: Version, x: Version)
    requires Compare(latest, c) > 0 && |x.release| == |c.release| && Compare(x, latest) == 0
    ensures !GreatestOfWidth(c, c, latest)
  {
    CompareOpposite(x, latest);
    CompareOpposite(latest, c);
    CompareTransitive(c, latest, x);
    if Compare(x, c) <= 0 {
      CompareTransitive(latest, x, c);
    }
  }

  lemma CutIsGreatest(c: Version, latest: Version, v: Version)
    requires |latest.release| >= |c.release| && v.release == latest.release[..|c.release|]
    requires if |latest.release| == |c.release| then v.pre == latest.pre else v.pre.None?
    requires Compare(v, latest) <= 0
    ensures Compare(v, c) > 0 ==> GreatestOfWidth(v, c, latest)
    ensures Compare(v, c) <= 0 ==> GreatestOfWidth(c, c, latest)
  {
    CompareOpposite(c, v);
    CompareOpposite(c, c);
    forall x: Version | |x.release| == |c.release| && Compare(x, latest) <= 0 ensures Compare(x, v) <= 0 {
      CutBelow(x.release, latest.release);
      if |latest.release| == |c.release| {
        assert latest.release[..|c.release|] == latest.release && v == latest;
      }
    }
    if Compare(v, c) <= 0 {
      forall x: Version | |x.release| == |c.release| && Compare(x, latest) <= 0 ensures Compare(x, c) <= 0 {
        CompareTransitive(x, v, c);
      }
    }
  }

  /** A compatible-release clause moves to the greatest version of its own width up to `latest`, exactly if `latest`
      can be cut to that width; otherwise it stays. */
  lemma CompatibleMoves(c: Clause, latest: Version)
    requires c.op.Compatible? && !c.wildcard
    ensures GreatestOfWidth(Bump(c, latest), c.version, latest) <==> !Uncut(c.version, latest)
    ensures Uncut(c.version, latest) ==> Bump(c, latest) == c.version
  {
    var v, n, l := c.version, |c.version.release|, latest.release;
    CutNotAbove(l, if n <= |l| then n else 0);
    CompareOpposite(latest, latest);
    if |l| < n {
      if Compare(latest, v) > 0 {
        PaddedSame(l, n - |l|);
        SameNewer(v, latest, Version(l + Zeros(n - |l|), latest.pre));
      } else {
        NothingNewer(v, latest);
      }
    } else if |l| > n && latest.pre.Some? && CompareReleases(l[..n], l) == 0 {
      if Compare(latest, v) > 0 {
        SameNewer(v, latest, Version(l[..n], latest.pre));
      } else {
        NothingNewer(v, latest);
      }
    } else {
      assert |l| == n ==> l[..n] == l;
      CutIsGreatest(v, latest, Truncate(latest, n));
    }
  }

  /** The version a clause that is not excluded carries afterwards. */
  ghost predicate EndsAt(c: Clause, latest: Version, v: Version)
  {
    if c.wildcard || c.op in {NotEqual, AtMost, Above, Below} then v == c.version
    else if c.op.Compatible? then
      (GreatestOfWidth(v, c.version, latest) <==> !Uncut(c.version, latest)) &&
      (Uncut(c.version, latest) ==> v == c.version)
    else v == if Compare(c.version, latest) < 0 then latest else c.version
  }

  /** A rewrite moves every floor that is older than `latest` to it, every compatible release as far as its width
      lets it, and nothing else. */
  lemma RewriteMoves(clauses: seq<Clause>, latest: Version, i: nat)
    requires i < |clauses| && !RewriteRequirement(clauses, latest, false).Excluded?
    ensures var r := Result(RewriteRequirement(clauses, latest, false), clauses);
      && |r| == |clauses| && r[i] == clauses[i].(version := r[i].version)
      && EndsAt(clauses[i], latest, r[i].version)
  {
    var c := clauses[i];
    CompareOpposite(latest, c.version);
    if c.op.Compatible? && !c.wildcard {
      CompatibleMoves(c, latest);
    }
  }

  /** Cutting falls short at one input: the pre-release 1.6.0rc1 leaves ~=1.4 alone, although 1.5 is not above it. */
  lemma UncutStays()
    ensures var (c, latest) := (Version([1, 4], None), Version([1, 6, 0], Some(0)));
      && RewriteRequirement([Clause(Compatible, c, false)], latest, false) == Unchanged
      && Compare(c, Version([1, 5], None)) < 0 && Compare(Version([1, 5], None), latest) <= 0
  {
    var c, latest := Version([1, 4], None), Version([1, 6, 0], Some(0));
    CompareOpposite(c, c);
    UncutReleases();
    var clause := Clause(Compatible, c, false);
    assert Allows(clause, latest) by {
      assert c.release[..1] == [1] && HasPrefix([1], latest.release);
    }
    assert Truncate(latest, 2) == Version([1, 6], None) by {
      assert latest.release[..2] == [1, 6];
    }
    assert Bump(clause, latest) == c;
    assert Bumped([clause], latest) == [clause];
  }

  lemma UncutReleases()
    ensures CompareReleases([1, 4], [1, 5]) < 0 && CompareReleases([1, 5], [1, 6, 0]) < 0
    ensures CompareReleases([1, 6], [1, 6, 0]) == 0
  {
    assert [1, 4][1..] == [4] && [1, 5][1..] == [5] && [1, 6][1..] == [6] && [1, 6, 0][1..] == [6, 0];
    assert CompareReleases([6], [6, 0]) == CompareReleases([], [0]) by {
      assert [6][1..] == [] && [6, 0][1..] == [0];
    }
    assert CompareReleases([], [0]) == 0 by {
      assert [0][1..] == [];
    }
  }

  /** Without a pin style to keep, the result admits exactly the versions from `latest` up. */
  lemma FloorAdmits(clauses: seq<Clause>, latest: Version, loosen: bool, x: Version)
    requires loosen || clauses == []
    ensures var r := RewriteRequirement(clauses, latest, loosen);
      && !r.Excluded?
      && ((forall c :: c in Result(r, clauses) ==> Satisfies(x, c)) <==> Compare(latest, x) <= 0)
  {
    var floor := [Clause(AtLeast, latest, false)];
    assert Result(RewriteRequirement(clauses, latest, loosen), clauses) == floor && floor[0] in floor;
    CompareOpposite(x, latest);
  }

  // ---- What it allows --------------------------------------------------------------------

  /** A clause that is not a plain floor or an exclusive lower bound rules out what does not satisfy it. */
  lemma ExclusionIsViolation(c: Clause, latest: Version)
    requires WellFormed(c) && !Allows(c, latest)
    ensures !Satisfies(latest, c)
  {
  }

  /** `latest` satisfies a bumped clause exactly when it is not below the original's floor. */
  lemma BumpedSatisfiedIff(c: Clause, latest: Version)
    requires WellFormed(c) && Allows(c, latest)
    ensures Satisfies(latest, c.(version := Bump(c, latest))) <==> (!c.wildcard ==> MeetsFloor(c, latest))
  {
    CompareOpposite(latest, latest);
    CompareOpposite(latest, c.version);
    if c.op.Compatible? {
      BumpSettles(c, latest);
      var candidate := Truncate(latest, |c.version.release|);
      CompareOpposite(candidate, latest);
      if Bump(c, latest) != c.version && Compare(latest, c.version) < 0 {
        CompareOpposite(candidate, c.version);
        CompareTransitive(candidate, latest, c.version);
      }
    }
  }

  /** Unless it is excluded, `latest` satisfies the rewritten requirement exactly when it meets every floor. */
  lemma LatestSatisfiesIff(clauses: seq<Clause>, latest: Version)
    requires clauses != [] && forall c :: c in clauses ==> WellFormed(c)
    requires !RewriteRequirement(clauses, latest, false).Excluded?
    ensures var r := Result(RewriteRequirement(clauses, latest, false), clauses);
      (forall c :: c in r ==> Satisfies(latest, c)) <==> MeetsFloors(clauses, latest)
  {
    var r := Bumped(clauses, latest);
    assert r == Result(RewriteRequirement(clauses, latest, false), clauses);
    forall i | 0 <= i < |clauses|
      ensures Satisfies(latest, r[i]) <==> (!clauses[i].wildcard ==> MeetsFloor(clauses[i], latest))
    {
      BumpedSatisfiedIff(clauses[i], latest);
    }
    if forall c :: c in r ==> Satisfies(latest, c) {
      forall c | c in clauses && !c.wildcard ensures MeetsFloor(c, latest) {
        var i :| 0 <= i < |clauses| && clauses[i] == c;
        assert r[i] in r;
      }
    }
  }

  /** The clause keeps `latest` out for good: `latest` breaks it, and it is neither a floor that moves up, nor an
      exclusive one, nor a compatible release of the same band. */
  ghost predicate RulesOut(c: Clause, latest: Version)
  {
    && !Satisfies(latest, c)
    && (c.wildcard || c.op in {NotEqual, AtMost, Below, Compatible})
    && (c.op.Compatible? && |c.version.release| >= 2 ==>
      !HasPrefix(c.version.release[..|c.version.release| - 1], latest.release))
  }

  lemma RulesOutIff(c: Clause, latest: Version)
    requires WellFormed(c)
    ensures Allows(c, latest) <==> !RulesOut(c, latest)
  {
    if !Allows(c, latest) {
      ExclusionIsViolation(c, latest);
    }
  }

  /** A requirement is reported as excluding `latest` exactly if one of its clauses rules it out, and the first one
      that does is named. */
  lemma ExcludedIff(clauses: seq<Clause>, latest: Version)
    requires clauses != [] && forall c :: c in clauses ==> WellFormed(c)
    ensures var r := RewriteRequirement(clauses, latest, false);
      && (r.Excluded? <==> exists c :: c in clauses && RulesOut(c, latest))
      && (r.Excluded? ==> exists k ::
        0 <= k < |clauses| && clauses[k] == r.blocker && RulesOut(clauses[k], latest) &&
        forall j :: 0 <= j < k ==> !RulesOut(clauses[j], latest))
  {
    forall c | c in clauses ensures Allows(c, latest) <==> !RulesOut(c, latest) {
      RulesOutIff(c, latest);
    }
    if ExcludedBy(clauses, latest).Some? {
      var k := ExcludedByFirst(clauses, latest);
      assert forall j :: 0 <= j < k ==> clauses[j] in clauses;
    }
  }

  lemma SamePrefix(v: seq<nat>, latest: seq<nat>, n: nat)
    requires n <= |v| <= |latest| && HasPrefix(v[..n], latest)
    ensures latest[..n] == v[..n]
  {
    forall i | 0 <= i < n ensures latest[..n][i] == v[..n][i] {
      assert Segment(latest, i) == v[..n][i];
    }
  }

  /** Except for an exact pin, whatever satisfies a rewritten clause satisfied the original. */
  lemma BumpOnlyNarrows(c: Clause, latest: Version, x: Version)
    requires WellFormed(c) && Allows(c, latest) && (c.op.Equal? || c.op.ArbitraryEqual? ==> c.wildcard)
    requires Satisfies(x, c.(version := Bump(c, latest)))
    ensures Satisfies(x, c)
  {
    var bumped := Bump(c, latest);
    if bumped != c.version {
      BumpNeverLowers(c, latest);
      CompareOpposite(bumped, c.version);
      CompareOpposite(x, bumped);
      CompareTransitive(c.version, bumped, x);
      CompareOpposite(c.version, x);
      if c.op.Compatible? {
        var n := |c.version.release|;
        SamePrefix(c.version.release, latest.release, n - 1);
        assert bumped.release[..n - 1] == latest.release[..n - 1];
      }
    }
  }
}
