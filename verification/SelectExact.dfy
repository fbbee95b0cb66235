/** Exactness of one scoped SELECT: its FROM rows, filtered by what scoping adds to WHERE,
  are the FROM rows of the original SELECT over pre-filtered tables. */
module SelectExact {
  import opened Sql
  import opened JoinAlgebra
  import opened JoinScope
  import opened JoinMeaning
  import opened CoreScope
  import opened SelectSafety

  // ---- Joins -----------------------------------------------------------------------

  /** How a join's scoped condition `n` relates to the original condition `m`. */
  ghost predicate Tests(pol: Policy, l: Rel, r: Rel, n: Env -> bool, m: Env -> bool, kind: Kind)
  {
    forall a, b :: a in l.rows && b in r.rows ==>
      var (ca, cb) := (Clean(pol)(a), Clean(pol)(b));
      match kind
      case Inner => ca && cb ==> n(a + b) == m(a + b)
      case LeftOuter => ca ==> n(a + b) == (cb && m(a + b))
      case FullOuter => n(a + b) == (ca && cb && m(a + b))
  }

  /** Cleaning a scoped join is joining the clean sides. */
  lemma CleanJoin(pol: Policy, l: Rel, r: Rel, n: Env -> bool, m: Env -> bool, kind: Kind, cl: Rel, cr: Rel)
    requires Sound(pol, l, {}) && Sound(pol, r, {}) && l.leaves !! r.leaves
    requires Tests(pol, l, r, n, m, kind)
    requires cl == Rel(Filter(l.rows, Clean(pol)), l.leaves) && cr == Rel(Filter(r.rows, Clean(pol)), r.leaves)
    ensures Filter(JoinRel(l, r, n, kind).rows, Clean(pol)) == JoinRel(cl, cr, m, kind).rows
  {
    CleanPairs(pol, l, r);
    JoinPush(l, r, n, m, kind, Clean(pol));
  }

  /** A joined or padded row is clean when its parts are. */
  lemma CleanPairs(pol: Policy, l: Rel, r: Rel)
    requires Sound(pol, l, {}) && Sound(pol, r, {}) && l.leaves !! r.leaves
    ensures forall a, b :: a in l.rows && b in r.rows ==> Clean(pol)(a + b) == (Clean(pol)(a) && Clean(pol)(b))
    ensures forall a :: a in l.rows ==> Clean(pol)(a + Padding(r.leaves)) == Clean(pol)(a)
    ensures forall b :: b in r.rows ==> Clean(pol)(Padding(l.leaves) + b) == Clean(pol)(b)
  {
    forall a, b | a in l.rows && b in r.rows ensures Clean(pol)(a + b) == (Clean(pol)(a) && Clean(pol)(b)) {
      CleanSplits(pol, a, b);
    }
    forall a | a in l.rows ensures Clean(pol)(a + Padding(r.leaves)) == Clean(pol)(a) {
      CleanSplits(pol, a, Padding(r.leaves));
    }
    forall b | b in r.rows ensures Clean(pol)(Padding(l.leaves) + b) == Clean(pol)(b) {
      CleanSplits(pol, Padding(l.leaves), b);
    }
  }

  lemma FlattenAppend(a: seq<Owed>, b: seq<Owed>, env: Env, w: World)
    ensures AllTrue(Flatten(a + b), env, w) <==> AllTrue(Flatten(a), env, w) && AllTrue(Flatten(b), env, w)
  {
    FlattenTrue(a, env, w);
    FlattenTrue(b, env, w);
    FlattenTrue(a + b, env, w);
    assert forall o :: o in a + b <==> o in a || o in b;
  }

  lemma TestedMeans(pol: Policy, l: From, r: From, kind: Kind, env: Env, w: World)
    ensures AllTrue(Flatten(TestedIn(pol, l, r, kind)), env, w) <==>
      (kind == FullOuter ==> AllTrue(Flatten(OwedBy(pol, l)), env, w))
        && (kind != Inner ==> AllTrue(Flatten(OwedBy(pol, r)), env, w))
  {
    FlattenAppend(OwedBy(pol, l), OwedBy(pol, r), env, w);
  }

  /** On clean sides the condition `on` is the test `m`. */
  ghost predicate Agrees(pol: Policy, l: Rel, r: Rel, on: Expr, m: Env -> bool, env: Env, w: World)
  {
    forall a, b :: a in l.rows && b in r.rows && Clean(pol)(a) && Clean(pol)(b) ==>
      IsTrue(EvalE(on, env + (a + b), w)) == m(a + b)
  }

  /** The ON of a scoped tree tests exactly what its kind of join needs. */
  lemma TreeTests(pol: Policy, l: From, r: From, on: Expr, kind: Kind, m: Env -> bool, env: Env, w: World)
    requires Distinct(l) && Distinct(r) && Leaves(l) !! Leaves(r) && TreeKeyed(pol, l) && TreeKeyed(pol, r) && w.Valid()
    requires w.policy == pol
    requires Agrees(pol, EvalF(Scoped(pol, l), env, w), EvalF(Scoped(pol, r), env, w), on, m, env, w)
    ensures Tests(pol, EvalF(Scoped(pol, l), env, w), EvalF(Scoped(pol, r), env, w),
                  Matcher(Conjoin(on, TestedIn(pol, l, r, kind)), env, w), m, kind)
  {
    var lr, rr := EvalF(Scoped(pol, l), env, w), EvalF(Scoped(pol, r), env, w);
    var tested := TestedIn(pol, l, r, kind);
    TreeSettled(pol, l, env, w);
    TreeSettled(pol, r, env, w);
    forall a, b | a in lr.rows && b in rr.rows
      ensures Matcher(Conjoin(on, tested), env, w)(a + b) ==
        (IsTrue(EvalE(on, env + (a + b), w)) && (kind == FullOuter ==> Clean(pol)(a))
          && (kind != Inner ==> Clean(pol)(b)))
    {
      TreeTestsPair(pol, l, r, on, kind, lr, rr, a, b, env + (a + b), w);
    }
  }

  lemma TreeTestsPair(pol: Policy, l: From, r: From, on: Expr, kind: Kind, lr: Rel, rr: Rel, a: Env, b: Env,
      scope: Env, w: World)
    requires TreeKeyed(pol, l) && TreeKeyed(pol, r) && lr.leaves == Leaves(l) && rr.leaves == Leaves(r)
    requires Sound(pol, lr, Certain(l)) && Settled(pol, lr, DebtOf(OwedBy(pol, l))) && a in lr.rows && Shows(scope, a)
    requires Sound(pol, rr, Certain(r)) && Settled(pol, rr, DebtOf(OwedBy(pol, r))) && b in rr.rows && Shows(scope, b)
    ensures IsTrue(EvalE(Conjoin(on, TestedIn(pol, l, r, kind)), scope, w)) ==
      (IsTrue(EvalE(on, scope, w)) && (kind == FullOuter ==> Clean(pol)(a)) && (kind != Inner ==> Clean(pol)(b)))
  {
    ConjoinMeans(on, TestedIn(pol, l, r, kind), scope, w);
    TestsClean(pol, l, lr, a, scope, w);
    TestsClean(pol, r, rr, b, scope, w);
    TestedMeans(pol, l, r, kind, scope, w);
  }

  lemma {:induction false} CleanOccurrences(pol: Policy, x: Leaf, rows: seq<Row>)
    ensures Filter(Occurrences(x, rows), Clean(pol)) ==
      Occurrences(x, if x.plain then Filter(rows, Admitted(pol, x.table)) else rows)
  {
    if rows != [] {
      var first: Env := map[x := Present(rows[0])];
      CleanOccurrences(pol, x, rows[1..]);
      FilterCons(first, Occurrences(x, rows[1..]), Clean(pol));
      assert first[x] == Present(rows[0]);
      assert Clean(pol)(first) == (x.plain ==> pol.Admits(x.table, rows[0]));
      if x.plain {
        OccurrencesCons(x, rows[0], Filter(rows[1..], Admitted(pol, x.table)));
      }
    }
  }

  lemma OccurrencesCons(x: Leaf, row: Row, rows: seq<Row>)
    ensures Occurrences(x, [row] + rows) == [map[x := Present(row)]] + Occurrences(x, rows)
  {
    assert ([row] + rows)[1..] == rows;
  }

  // ---- `.join()` steps -------------------------------------------------------------

  /** What a FULL step finds to test of its left side. */
  function FoundOn(pol: Policy, s: Step, left: From, led: Ledger): seq<Owed>
  {
    LeftOwed(pol, PlainLeaves(left), led.(covered := led.covered + CoveredBy(pol, s.target))).0
  }

  /** SQLAlchemy can build the join for every step that needs its left side or its ON, and a
      FULL step hands on only what can be padded. */
  ghost predicate ResolvesStep(pol: Policy, s: Step, left: From, led: Ledger)
  {
    && TreeKeyed(pol, s.target)
    && match s.kind
       case Inner => true
       case LeftOuter => s.explicit || s.resolvable || OwedBy(pol, s.target) == []
       case FullOuter =>
         && (forall o :: o in OwedBy(pol, s.target) + FoundOn(pol, s, left, led) ==> HasKey(pol, o.leaf))
         && (s.resolvable || (FoundOn(pol, s, left, led) == [] && (s.explicit || OwedBy(pol, s.target) == [])))
  }

  ghost predicate ResolvesSteps(pol: Policy, steps: seq<Step>, built: seq<From>, led: Ledger)
    decreases |steps|
  {
    steps == [] ||
    (var s, left := steps[0], LeftSide(built, steps[0]);
     ResolvesStep(pol, s, left, led) && ResolvesSteps(pol, steps[1..], Built(built, s), ScopeStep(pol, s, left, led).1))
  }

  lemma {:induction false} NothingFound(pol: Policy, leaves: seq<Leaf>, led: Ledger)
    requires LeftOwed(pol, leaves, led).0 == []
    ensures LeftOwed(pol, leaves, led).1 == led
  {
    if leaves != [] {
      NothingFound(pol, leaves[1..], LeafOwed(pol, leaves[0], led).1);
    }
  }

  /** Where there is nothing to look for, not finding the join makes no difference. */
  lemma AsResolved(pol: Policy, s: Step, left: From, led: Ledger)
    requires ResolvesStep(pol, s, left, led) && s.kind == FullOuter
    ensures var t := s.(resolvable := true);
      && ResolvesStep(pol, t, left, led) && FoundOn(pol, t, left, led) == FoundOn(pol, s, left, led)
      && ScopeStep(pol, s, left, led).1 == ScopeStep(pol, t, left, led).1
      && ScopeStep(pol, s, left, led).0.on == ScopeStep(pol, t, left, led).0.on
  {
    if !s.resolvable {
      NothingFound(pol, PlainLeaves(left), led.(covered := led.covered + CoveredBy(pol, s.target)));
    }
  }

  /** An entry that will reach WHERE unpadded is about a leaf present in every row, a bare table not yet taken
      care of is present in every row, and nothing scoped has been forgotten. */
  ghost predicate Tight(pol: Policy, led: Ledger, spans: seq<Span>, bare: set<Leaf>, full: bool)
  {
    && (forall o :: o in led.owed ==> o.padded || (full && HasKey(pol, o.leaf)) || o.leaf in AllCertain(spans))
    && (forall x :: x in bare && pol.Scopes(x) && x !in led.covered ==> x in AllCertain(spans))
    && (forall x :: x in AllLeaves(spans) && pol.Scopes(x) ==> x in led.covered || x in bare)
    && (forall o :: o in led.owed ==> o.leaf.plain && o.leaf in led.covered)
  }

  lemma CertainStep(spans: seq<Span>, s: Step, x: Leaf)
    requires Apart(spans) && DistinctStep(s, spans)
    ensures s.kind != FullOuter && x in AllCertain(spans) ==> x in AllCertain(SpanStep(spans, s))
    ensures s.kind == Inner && x in Certain(s.target) ==> x in AllCertain(SpanStep(spans, s))
    ensures x in AllCertain(spans) && x !in spans[s.at].leaves ==> x in AllCertain(SpanStep(spans, s))
  {
    var r := SpanStep(spans, s);
    if x in AllCertain(spans) {
      var i :| 0 <= i < |spans| && x in spans[i].certain;
      assert i != s.at || s.kind != FullOuter ==> x in r[i].certain;
    }
    assert s.kind == Inner && x in Certain(s.target) ==> x in r[s.at].certain;
  }

  /** Where the entries of a step's ledger come from, and what it covers. */
  lemma StepEntries(pol: Policy, s: Step, left: From, led: Ledger)
    requires Distinct(s.target) && Distinct(left)
    ensures var end := ScopeStep(pol, s, left, led).1;
      && (forall o :: o in end.owed ==>
        o in led.owed || o in OwedBy(pol, s.target) || (s.kind == FullOuter && o in FoundOn(pol, s, left, led)))
      && (ResolvesStep(pol, s, left, led) && s.kind == LeftOuter ==> end.owed == led.owed)
      && (forall x :: x in led.covered ==> x in end.covered)
      && (forall x :: x in Leaves(s.target) && pol.Scopes(x) ==> x in end.covered)
      && (forall o :: o in end.owed ==> o in led.owed || o.leaf in end.covered)
      && (ResolvesStep(pol, s, left, led) && s.kind == FullOuter ==>
           forall x :: x in Leaves(left) && pol.Scopes(x) ==> x in end.covered || Owes(led.owed, x))
  {
    if s.kind == FullOuter && !s.resolvable && ResolvesStep(pol, s, left, led) {
      AsResolved(pol, s, left, led);
      StepEntriesDirect(pol, s.(resolvable := true), left, led);
    } else {
      StepEntriesDirect(pol, s, left, led);
    }
  }

  lemma StepEntriesDirect(pol: Policy, s: Step, left: From, led: Ledger)
    requires Distinct(s.target) && Distinct(left)
    ensures var end := ScopeStep(pol, s, left, led).1;
      && (forall o :: o in end.owed ==>
        o in led.owed || o in OwedBy(pol, s.target) || (s.kind == FullOuter && o in FoundOn(pol, s, left, led)))
      && (ResolvesStep(pol, s, left, led) && s.kind == LeftOuter ==> end.owed == led.owed)
      && (forall x :: x in led.covered ==> x in end.covered)
      && (forall x :: x in Leaves(s.target) && pol.Scopes(x) ==> x in end.covered)
      && (forall o :: o in end.owed ==> o in led.owed || o.leaf in end.covered)
      && (s.resolvable && s.kind == FullOuter ==>
           forall x :: x in Leaves(left) && pol.Scopes(x) ==> x in end.covered || Owes(led.owed, x))
  {
    var (step, end) := ScopeStep(pol, s, left, led);
    var seen := led.(covered := led.covered + CoveredBy(pol, s.target));
    CoveredByIs(pol, s.target);
    OwedByWithin(pol, s.target);
    if s.kind == FullOuter && Resolved(pol, s) {
      PlainLeavesIs(left);
      LeftOwedIs(pol, PlainLeaves(left), seen);
      LeftOwedNew(pol, PlainLeaves(left), seen);
      LeftOwedCovers(pol, PlainLeaves(left), seen);
    }
  }

  lemma {:induction false} LeftOwedNew(pol: Policy, leaves: seq<Leaf>, led: Ledger)
    ensures var (found, end) := LeftOwed(pol, leaves, led);
      forall o :: o in end.owed ==> o in led.owed || (o in found && o.leaf !in led.covered)
  {
    if leaves != [] {
      LeftOwedNew(pol, leaves[1..], LeafOwed(pol, leaves[0], led).1);
    }
  }

  lemma {:induction false} LeftOwedCovers(pol: Policy, leaves: seq<Leaf>, led: Ledger)
    ensures var end := LeftOwed(pol, leaves, led).1;
      && (forall x :: x in led.covered ==> x in end.covered)
      && (forall o :: o in end.owed ==> o in led.owed || o.leaf in end.covered)
      && (forall x :: x in leaves && pol.Scopes(x) ==> x in end.covered || Owes(led.owed, x))
  {
    if leaves != [] {
      var x := leaves[0];
      var next := LeafOwed(pol, x, led).1;
      LeftOwedCovers(pol, leaves[1..], next);
      EntriesOfIs(led.owed, x);
      PredicatesExist(pol, x);
      var end := LeftOwed(pol, leaves[1..], next).1;
      forall y | Owes(next.owed, y) && !Owes(led.owed, y) ensures y == x && x in next.covered {
        var o :| o in next.owed && o.leaf == y;
      }
    }
  }

  // ---- Leaves still open -----------------------------------------------------------

  /** The scoped leaves of a FROM list that owe their predicates, or that nobody has looked at. */
  function OpenOf(pol: Policy, froms: seq<From>): set<Leaf>
  {
    if froms == [] then {} else
    var f := froms[0];
    (if f.Base? && pol.Scopes(f.leaf) then {f.leaf} else {}) + DebtOf(ElementOwed(pol, f)) + OpenOf(pol, froms[1..])
  }

  /** A LEFT step closes its target's leaves in its ON; any other leaves them owing. */
  function OpenStep(pol: Policy, s: Step, open: set<Leaf>): set<Leaf>
  {
    if s.kind == LeftOuter then open else open + DebtOf(OwedBy(pol, s.target))
  }

  /** Every scoped leaf that is not open has been taken care of and owes nothing. */
  ghost predicate OpenOk(pol: Policy, led: Ledger, leaves: set<Leaf>, open: set<Leaf>)
  {
    forall x :: x in leaves && pol.Scopes(x) && x !in open ==> x in led.covered && !Owes(led.owed, x)
  }

  /** What lets a step be scoped exactly, said of its element's leaves. */
  ghost predicate Resolves(pol: Policy, s: Step, leaves: set<Leaf>, open: set<Leaf>)
  {
    match s.kind
    case Inner => true
    case LeftOuter => s.explicit || s.resolvable || OwedBy(pol, s.target) == []
    case FullOuter =>
      && (forall x :: (x in leaves && x in open) || x in DebtOf(OwedBy(pol, s.target)) ==> HasKey(pol, x))
      && (s.resolvable || (leaves !! open && (s.explicit || OwedBy(pol, s.target) == [])))
  }

  lemma {:induction false} OpenOfIs(pol: Policy, froms: seq<From>)
    ensures forall x :: x in OpenOf(pol, froms) <==>
      exists i :: 0 <= i < |froms| && ((froms[i].Base? && froms[i].leaf == x && pol.Scopes(x))
        || x in DebtOf(ElementOwed(pol, froms[i])))
  {
    if froms != [] {
      var f, rest := froms[0], froms[1..];
      OpenOfIs(pol, rest);
      forall x | exists i ::
        0 <= i < |froms| &&
        ((froms[i].Base? && froms[i].leaf == x && pol.Scopes(x)) || x in DebtOf(ElementOwed(pol, froms[i])))
        ensures x in OpenOf(pol, froms)
      {
        var i :| 0 <= i < |froms| && ((froms[i].Base? && froms[i].leaf == x && pol.Scopes(x))
          || x in DebtOf(ElementOwed(pol, froms[i])));
        assert i > 0 ==> froms[i] == rest[i - 1];
      }
      forall x | x in OpenOf(pol, rest)
        ensures exists i ::
          0 <= i < |froms| &&
          ((froms[i].Base? && froms[i].leaf == x && pol.Scopes(x)) || x in DebtOf(ElementOwed(pol, froms[i])))
      {
        var i :| 0 <= i < |rest| && ((rest[i].Base? && rest[i].leaf == x && pol.Scopes(x))
          || x in DebtOf(ElementOwed(pol, rest[i])));
        assert froms[i + 1] == rest[i];
      }
    }
  }

  lemma OpenStarts(pol: Policy, froms: seq<From>)
    requires DistinctFroms(froms)
    ensures OpenOk(pol, ScopeFroms(pol, froms, Ledger([], [])).1, AllLeaves(SpansOf(froms)), OpenOf(pol, froms))
  {
    var led, spans := ScopeFroms(pol, froms, Ledger([], [])).1, SpansOf(froms);
    forall x | x in AllLeaves(spans) && pol.Scopes(x) && x !in OpenOf(pol, froms)
      ensures x in led.covered && !Owes(led.owed, x)
    {
      OpenStartsAt(pol, froms, x);
    }
  }

  lemma OpenStartsAt(pol: Policy, froms: seq<From>, x: Leaf)
    requires DistinctFroms(froms) && x in AllLeaves(SpansOf(froms)) && pol.Scopes(x) && x !in OpenOf(pol, froms)
    ensures var led := ScopeFroms(pol, froms, Ledger([], [])).1; x in led.covered && !Owes(led.owed, x)
  {
    var led, spans := ScopeFroms(pol, froms, Ledger([], [])).1, SpansOf(froms);
    OpenOfIs(pol, froms);
    ScopeFromsEach(pol, froms, Ledger([], []));
    var i :| 0 <= i < |froms| && x in spans[i].leaves;
    assert froms[i].Join?;
    CoveredByIs(pol, froms[i]);
    assert x in ElementCovered(pol, froms[i]);
    forall o | o in led.owed ensures o.leaf in OpenOf(pol, froms) {
      var j :| 0 <= j < |froms| && o in ElementOwed(pol, froms[j]);
      DebtIsOwes(ElementOwed(pol, froms[j]));
      assert o.leaf in DebtOf(ElementOwed(pol, froms[j]));
    }
  }

  /** What a FULL step finds on its left is open there. */
  lemma FoundIsOpen(pol: Policy, s: Step, left: From, led: Ledger, leaves: set<Leaf>, open: set<Leaf>)
    requires Distinct(left) && Leaves(left) <= leaves && OpenOk(pol, led, leaves, open)
    requires forall o :: o in led.owed ==> pol.Scopes(o.leaf)
    ensures forall o :: o in FoundOn(pol, s, left, led) ==> o.leaf in Leaves(left) && o.leaf in open
  {
    var seen := led.(covered := led.covered + CoveredBy(pol, s.target));
    PlainLeavesIs(left);
    LeftOwedIs(pol, PlainLeaves(left), seen);
    LeftOwedNew(pol, PlainLeaves(left), seen);
    forall o | o in FoundOn(pol, s, left, led) ensures o.leaf in Leaves(left) && o.leaf in open {
      assert o in led.owed ==> Owes(led.owed, o.leaf);
    }
  }

  lemma ResolvesHere(pol: Policy, s: Step, left: From, led: Ledger, leaves: set<Leaf>, open: set<Leaf>)
    requires Resolves(pol, s, Leaves(left), open) && TreeKeyed(pol, s.target)
    requires Distinct(left) && Leaves(left) <= leaves && OpenOk(pol, led, leaves, open)
    requires forall o :: o in led.owed ==> pol.Scopes(o.leaf)
    ensures ResolvesStep(pol, s, left, led)
  {
    FoundIsOpen(pol, s, left, led, leaves, open);
    DebtIsOwes(OwedBy(pol, s.target));
    if s.kind == FullOuter && FoundOn(pol, s, left, led) != [] {
      assert FoundOn(pol, s, left, led)[0] in FoundOn(pol, s, left, led);
    }
  }

  lemma OpenStays(pol: Policy, s: Step, left: From, led: Ledger, spans: seq<Span>, open: set<Leaf>)
    requires OpenOk(pol, led, AllLeaves(spans), open) && Entries(pol, led.owed, AllLeaves(spans))
    requires DistinctStep(s, spans) && Apart(spans) && Distinct(left) && Leaves(left) == spans[s.at].leaves
    requires ResolvesStep(pol, s, left, led)
    ensures OpenOk(pol, ScopeStep(pol, s, left, led).1, AllLeaves(SpanStep(spans, s)), OpenStep(pol, s, open))
  {
    var end := ScopeStep(pol, s, left, led).1;
    assert Leaves(left) <= AllLeaves(spans);
    StepEntries(pol, s, left, led);
    FoundIsOpen(pol, s, left, led, AllLeaves(spans), open);
    SpanStepApart(spans, s);
    DebtIsOwes(OwedBy(pol, s.target));
    OwedByWithin(pol, s.target);
    forall x | x in AllLeaves(SpanStep(spans, s)) && pol.Scopes(x) && x !in OpenStep(pol, s, open)
      ensures x in end.covered && !Owes(end.owed, x)
    {
      forall o | o in end.owed ensures o.leaf != x {
        assert o in led.owed ==> Owes(led.owed, o.leaf);
        assert o in OwedBy(pol, s.target) ==> Owes(OwedBy(pol, s.target), o.leaf);
      }
    }
  }

  lemma StepTight(pol: Policy, s: Step, left: From, led: Ledger, spans: seq<Span>, bare: set<Leaf>, full: bool)
    requires Tight(pol, led, spans, bare, full) && ResolvesStep(pol, s, left, led) && (s.kind == FullOuter ==> full)
    requires DistinctStep(s, spans) && Apart(spans)
    requires Distinct(left) && Leaves(left) == spans[s.at].leaves
    ensures Tight(pol, ScopeStep(pol, s, left, led).1, SpanStep(spans, s), bare, full)
  {
    var end, next := ScopeStep(pol, s, left, led).1, SpanStep(spans, s);
    StepEntries(pol, s, left, led);
    SpanStepApart(spans, s);
    OwedByWithin(pol, s.target);
    if s.kind == FullOuter {
      PlainLeavesIs(left);
      LeftOwedIs(pol, PlainLeaves(left), led.(covered := led.covered + CoveredBy(pol, s.target)));
    }
    forall o | o in end.owed ensures o.padded || (full && HasKey(pol, o.leaf)) || o.leaf in AllCertain(next) {
      CertainStep(spans, s, o.leaf);
      if o in led.owed && s.kind == FullOuter && o.leaf in spans[s.at].leaves {
        assert Owes(led.owed, o.leaf) && o.leaf in PlainLeaves(left);
        var f :| f in FoundOn(pol, s, left, led) && f.leaf == o.leaf;
      }
    }
    forall x | x in bare && pol.Scopes(x) && x !in end.covered ensures x in AllCertain(next) {
      CertainStep(spans, s, x);
    }
  }

  /** What a step tests in its ON, once SQLAlchemy can build its join. */
  function StepTested(pol: Policy, s: Step, left: From, led: Ledger): seq<Owed>
  {
    match s.kind
    case Inner => []
    case LeftOuter => OwedBy(pol, s.target)
    case FullOuter => OwedBy(pol, s.target) + OrPaddedAll(pol, FoundOn(pol, s, left, led))
  }

  lemma StepOn(pol: Policy, s: Step, left: From, led: Ledger)
    requires ResolvesStep(pol, s, left, led)
    ensures ScopeStep(pol, s, left, led).0.on == Conjoin(s.on, StepTested(pol, s, left, led))
  {
    if s.kind == FullOuter {
      AsResolved(pol, s, left, led);
    }
    assert OwedBy(pol, s.target) + [] == OwedBy(pol, s.target);
  }

  /** The padded entries of a FULL step's left side hold exactly of its clean rows. */
  lemma FoundDecides(pol: Policy, s: Step, left: From, led: Ledger, l: Rel, bare: set<Leaf>, row: Env, scope: Env,
      w: World)
    requires Distinct(s.target) && Distinct(left) && l.leaves == Leaves(left) && Leaves(left) !! Leaves(s.target)
    requires Sound(pol, l, {}) && Settled(pol, l, Outstanding(led, bare))
    requires forall o :: o in led.owed ==> Proper(pol, o) && pol.Scopes(o.leaf)
    requires forall o :: o in FoundOn(pol, s, left, led) ==> HasKey(pol, o.leaf)
    requires row in l.rows && Shows(scope, row)
    ensures AllTrue(Flatten(OrPaddedAll(pol, FoundOn(pol, s, left, led))), scope, w) <==> Clean(pol)(row)
  {
    var seen := led.(covered := led.covered + CoveredBy(pol, s.target));
    var found := FoundOn(pol, s, left, led);
    PlainLeavesIs(left);
    LeftOwedIs(pol, PlainLeaves(left), seen);
    CoveredByIs(pol, s.target);
    DebtIsOwes(led.owed);
    PaddedWithin(pol, found, row.Keys, row.Keys, true);
    PaddedSame(pol, found);
    forall x | x in row && !Owes(OrPaddedAll(pol, found), x) ensures Passes(pol, x, row[x]) {
      assert !Owes(found, x);
      assert x.plain ==> x in PlainLeaves(left);
    }
    OwedDecides(pol, OrPaddedAll(pol, found), row, {}, true, scope, w);
  }

  lemma StepTests(pol: Policy, s: Step, left: From, led: Ledger, l: Rel, bare: set<Leaf>, m: Env -> bool, env: Env,
      w: World)
    requires Distinct(s.target) && Distinct(left) && l.leaves == Leaves(left) && Leaves(left) !! Leaves(s.target)
    requires Sound(pol, l, {}) && Settled(pol, l, Outstanding(led, bare))
    requires forall o :: o in led.owed ==> Proper(pol, o) && pol.Scopes(o.leaf)
    requires ResolvesStep(pol, s, left, led) && w.Valid() && w.policy == pol
    requires Agrees(pol, l, EvalF(Scoped(pol, s.target), env, w), s.on, m, env, w)
    ensures Tests(pol, l, EvalF(Scoped(pol, s.target), env, w),
      Matcher(ScopeStep(pol, s, left, led).0.on, env, w), m, s.kind)
  {
    var r, owing := EvalF(Scoped(pol, s.target), env, w), OwedBy(pol, s.target);
    var found, tested := OrPaddedAll(pol, FoundOn(pol, s, left, led)), StepTested(pol, s, left, led);
    TreeSettled(pol, s.target, env, w);
    StepOn(pol, s, left, led);
    forall a, b | a in l.rows && b in r.rows
      ensures IsTrue(EvalE(Conjoin(s.on, tested), env + (a + b), w)) ==
        (IsTrue(EvalE(s.on, env + (a + b), w)) && (s.kind == FullOuter ==> Clean(pol)(a))
          && (s.kind != Inner ==> Clean(pol)(b)))
    {
      var scope := env + (a + b);
      ConjoinMeans(s.on, tested, scope, w);
      TestsClean(pol, s.target, r, b, scope, w);
      if s.kind == FullOuter {
        FoundDecides(pol, s, left, led, l, bare, a, scope, w);
      }
      FlattenAppend(owing, found, scope, w);
    }
  }

  lemma FromsTight(pol: Policy, froms: seq<From>, full: bool)
    requires DistinctFroms(froms) && forall i :: 0 <= i < |froms| ==> TreeKeyed(pol, froms[i])
    ensures Tight(pol, ScopeFroms(pol, froms, Ledger([], [])).1, SpansOf(froms), Bare(froms), full)
  {
    var led, spans := ScopeFroms(pol, froms, Ledger([], [])).1, SpansOf(froms);
    ScopeFromsEach(pol, froms, Ledger([], []));
    forall o | o in led.owed ensures (o.padded || o.leaf in AllCertain(spans)) && o.leaf.plain && o.leaf in led.covered
    {
      var i :| 0 <= i < |froms| && o in ElementOwed(pol, froms[i]);
      OwedByWithin(pol, froms[i]);
      CoveredByIs(pol, froms[i]);
      assert o.leaf in ElementCovered(pol, froms[i]);
      assert o.leaf in Certain(froms[i]) ==> o.leaf in spans[i].certain;
    }
    forall x | x in Bare(froms) ensures x in AllCertain(spans) {
      var i :| 0 <= i < |froms| && froms[i].Base? && froms[i].leaf == x;
      assert x in spans[i].certain;
    }
    forall x | x in AllLeaves(spans) && pol.Scopes(x) ensures x in led.covered || x in Bare(froms) {
      var i :| 0 <= i < |froms| && x in spans[i].leaves;
      CoveredByIs(pol, froms[i]);
      assert froms[i].Join? ==> x in ElementCovered(pol, froms[i]);
    }
  }

  lemma {:induction false} StepsTight(pol: Policy, steps: seq<Step>, built: seq<From>, led: Ledger, spans: seq<Span>,
      bare: set<Leaf>, full: bool)
    requires Tight(pol, led, spans, bare, full) && ResolvesSteps(pol, steps, built, led)
    requires DistinctSteps(steps, spans) && Apart(spans) && BuiltIs(built, spans)
    requires forall i :: 0 <= i < |steps| ==> steps[i].kind == FullOuter ==> full
    ensures Tight(pol, ScopeSteps(pol, steps, built, led).1, SpansAfter(steps, spans), bare, full)
    decreases |steps|
  {
    if steps != [] {
      var s := steps[0];
      BuiltStep(built, spans, s);
      StepTight(pol, s, LeftSide(built, s), led, spans, bare, full);
      SpanStepApart(spans, s);
      StepsTight(pol, steps[1..], Built(built, s), ScopeStep(pol, s, LeftSide(built, s), led).1,
        SpanStep(spans, s), bare, full);
    }
  }

  /** A clean row passes everything scoping adds to WHERE. */
  lemma CleanPassesAdded(pol: Policy, q: Query, row: Env, scope: Env, w: World)
    requires q.Select? && Clean(pol)(row) && Genuine(pol, row) && Shows(scope, row)
    requires row.Keys == AllLeaves(FinalSpans(q)) && forall x :: x in AllCertain(FinalSpans(q)) ==>
      x in row && row[x].Present?
    requires Tight(pol, FinalLedger(pol, q), FinalSpans(q), Bare(q.froms), AnyFull(q.steps))
    requires Entries(pol, FinalLedger(pol, q).owed, row.Keys)
    requires forall x :: x in FromsRead(q.cols, q.froms, q.where) && pol.Scopes(x) && x !in row ==>
      x in scope && scope[x].Present? && Passes(pol, x, scope[x])
    ensures AllTrue(Added(pol, q), scope, w)
  {
    var led, owed, read := FinalLedger(pol, q), FinalOwed(pol, q), FromsRead(q.cols, q.froms, q.where);
    FinalEntries(pol, q, row.Keys);
    forall o | o in owed ensures AllTrue(o.preds, scope, w) {
      OwedOnRow(pol, o, row, scope, w);
      if AnyFull(q.steps) {
        var i :| 0 <= i < |owed| && OrPadded(pol, led.owed[i]) == o;
        assert led.owed[i] in led.owed;
      }
    }
    forall x | x in read && x.plain && x !in led.covered ensures AllTrue(PredicatesFor(pol, x), scope, w) {
      if pol.Scopes(x) {
        PredicatesMean(pol, x, scope, w);
        assert x in row ==> x in AllCertain(FinalSpans(q));
      }
    }
    FlattenTrue(owed, scope, w);
    CandidatesMean(pol, read, led.covered, scope, w);
    TrueAppend(Flatten(owed), CandidatePreds(pol, read, led.covered), scope, w);
  }

  // ---- The FROM list ---------------------------------------------------------------

  ghost predicate Cleaned(pol: Policy, scoped: Rel, original: Rel)
  {
    original == Rel(Filter(scoped.rows, Clean(pol)), scoped.leaves)
  }

  ghost predicate AllCleaned(pol: Policy, scoped: seq<Rel>, original: seq<Rel>)
  {
    |scoped| == |original| && forall i :: 0 <= i < |scoped| ==> Cleaned(pol, scoped[i], original[i])
  }

  /** One step: cleaning the scoped FROM list is the original FROM list. */
  lemma StepCleaned(pol: Policy, s: Step, left: From, led: Ledger, scoped: seq<Rel>, original: seq<Rel>,
      spans: seq<Span>, target: Rel, bare: set<Leaf>, m: Env -> bool, env: Env, w: World)
    requires AllCleaned(pol, scoped, original) && Cleaned(pol, EvalF(Scoped(pol, s.target), env, w), target)
    requires Held(pol, scoped, spans, Outstanding(led, bare)) && DistinctStep(s, spans)
    requires ResolvesStep(pol, s, left, led)
    requires Distinct(left) && Leaves(left) == spans[s.at].leaves && Entries(pol, led.owed, AllLeaves(spans))
    requires w.Valid() && w.policy == pol
    requires Agrees(pol, scoped[s.at], EvalF(Scoped(pol, s.target), env, w), s.on, m, env, w)
    ensures AllCleaned(pol, EvalStep(ScopeStep(pol, s, left, led).0, scoped, env, w),
                       original[s.at := JoinRel(original[s.at], target, m, s.kind)])
  {
    var l, r := scoped[s.at], EvalF(Scoped(pol, s.target), env, w);
    assert spans[s.at].leaves <= AllLeaves(spans);
    TreeSettled(pol, s.target, env, w);
    StepTests(pol, s, left, led, l, bare, m, env, w);
    CleanJoin(pol, l, r, Matcher(ScopeStep(pol, s, left, led).0.on, env, w), m, s.kind, original[s.at], target);
  }

  lemma {:induction false} ProductCleaned(pol: Policy, scoped: seq<Rel>, original: seq<Rel>, spans: seq<Span>,
      debt: set<Leaf>)
    requires AllCleaned(pol, scoped, original) && Held(pol, scoped, spans, debt)
    ensures Cleaned(pol, Product(scoped), Product(original))
  {
    if scoped != [] {
      var rest, restOriginal := scoped[1..], original[1..];
      ApartSplit(spans);
      assert forall i :: 0 <= i < |rest| ==>
        rest[i] == scoped[i + 1] && restOriginal[i] == original[i + 1] && spans[1..][i] == spans[i + 1];
      ProductCleaned(pol, rest, restOriginal, spans[1..], debt);
      ProductHeld(pol, rest, spans[1..], debt);
      CleanJoin(pol, scoped[0], Product(rest), Always(), Always(), Inner, original[0], Product(restOriginal));
    }
  }
}
