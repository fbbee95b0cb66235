/** Safety of one scoped SELECT: no row it keeps shows a plain leaf its policy rejects. */
module SelectSafety {
  import opened Sql
  import opened JoinAlgebra
  import opened JoinScope
  import opened JoinMeaning
  import opened CoreScope

  // ---- The leaves of a FROM list ---------------------------------------------------

  /** The leaves of one FROM element, and those present in each of its rows. */
  datatype Span = Span(leaves: set<Leaf>, certain: set<Leaf>)

  function SpanOf(f: From): Span { Span(Leaves(f), Certain(f)) }

  function SpansOf(froms: seq<From>): (r: seq<Span>)
    ensures |r| == |froms|
    ensures forall i :: 0 <= i < |r| ==> r[i] == SpanOf(froms[i])
  {
    if froms == [] then [] else [SpanOf(froms[0])] + SpansOf(froms[1..])
  }

  function SpanStep(spans: seq<Span>, s: Step): (r: seq<Span>)
    ensures |r| == |spans|
  {
    if s.at >= |spans| then spans else
    var l := spans[s.at];
    spans[s.at := Span(l.leaves + Leaves(s.target), CertainOf(l.certain, Certain(s.target), s.kind))]
  }

  function SpansAfter(steps: seq<Step>, spans: seq<Span>): (r: seq<Span>)
    ensures |r| == |spans|
  {
    if steps == [] then spans else SpansAfter(steps[1..], SpanStep(spans, steps[0]))
  }

  function AllLeaves(spans: seq<Span>): set<Leaf> { set i, x | 0 <= i < |spans| && x in spans[i].leaves :: x }

  function AllCertain(spans: seq<Span>): set<Leaf> { set i, x | 0 <= i < |spans| && x in spans[i].certain :: x }

  ghost predicate Apart(spans: seq<Span>)
  {
    && (forall i :: 0 <= i < |spans| ==> spans[i].certain <= spans[i].leaves)
    && (forall i, j :: 0 <= i < j < |spans| ==> spans[i].leaves !! spans[j].leaves)
  }

  /** FROM elements are tables, derived tables and joins of them (a join is grouped only as
      a side of another join), and every occurrence has an identity of its own. */
  ghost predicate DistinctFroms(froms: seq<From>)
  {
    (forall i :: 0 <= i < |froms| ==> Distinct(froms[i]) && !froms[i].Grouping?) && Apart(SpansOf(froms))
  }

  ghost predicate DistinctSteps(steps: seq<Step>, spans: seq<Span>)
  {
    steps == [] || (DistinctStep(steps[0], spans) && DistinctSteps(steps[1..], SpanStep(spans, steps[0])))
  }

  ghost predicate DistinctStep(s: Step, spans: seq<Span>)
  {
    s.at < |spans| && Distinct(s.target) && Leaves(s.target) !! AllLeaves(spans)
  }

  lemma SpanStepApart(spans: seq<Span>, s: Step)
    requires Apart(spans) && DistinctStep(s, spans)
    ensures Apart(SpanStep(spans, s))
    ensures AllLeaves(SpanStep(spans, s)) == AllLeaves(spans) + Leaves(s.target)
  {
    var r := SpanStep(spans, s);
    assert forall i :: 0 <= i < |spans| ==> spans[i].leaves <= AllLeaves(spans);
    forall x | x in AllLeaves(spans) + Leaves(s.target) ensures x in AllLeaves(r) {
      if x in Leaves(s.target) {
        assert x in r[s.at].leaves;
      } else {
        var i :| 0 <= i < |spans| && x in spans[i].leaves;
        assert x in r[i].leaves;
      }
    }
  }

  // ---- What is still outstanding ---------------------------------------------------

  /** The leaves some predicate still has to be put into WHERE for. */
  function Outstanding(led: Ledger, bare: set<Leaf>): set<Leaf>
  {
    DebtOf(led.owed) + set x | x in bare && x !in led.covered
  }

  ghost predicate Entries(pol: Policy, owed: seq<Owed>, leaves: set<Leaf>)
  {
    forall o :: o in owed ==> Proper(pol, o) && pol.Scopes(o.leaf) && o.leaf in leaves
  }

  /** A ledger only ever takes a bare leaf off the list by owing its predicates. */
  ghost predicate Grows(led: Ledger, next: Ledger, bare: set<Leaf>)
  {
    && (forall o :: o in led.owed ==> o in next.owed)
    && (forall x :: x in led.covered ==> x in next.covered)
    && (forall x :: x in next.covered ==> x in led.covered || x !in bare || Owes(next.owed, x))
  }

  lemma GrowsOutstanding(led: Ledger, next: Ledger, bare: set<Leaf>)
    requires Grows(led, next, bare)
    ensures Outstanding(led, bare) <= Outstanding(next, bare)
  {
    DebtIsOwes(led.owed);
    DebtIsOwes(next.owed);
  }

  ghost predicate Held(pol: Policy, rels: seq<Rel>, spans: seq<Span>, debt: set<Leaf>)
  {
    && |rels| == |spans| && Apart(spans)
    && forall i :: 0 <= i < |rels| ==>
      && rels[i].leaves == spans[i].leaves
      && Sound(pol, rels[i], spans[i].certain)
      && Settled(pol, rels[i], debt)
  }

  lemma HeldReplaced(pol: Policy, rels: seq<Rel>, spans: seq<Span>, at: nat, rel: Rel, span: Span, debt: set<Leaf>)
    requires Held(pol, rels, spans, debt) && at < |spans| && Apart(spans[at := span])
    requires rel.leaves == span.leaves && Sound(pol, rel, span.certain) && Settled(pol, rel, debt)
    ensures Held(pol, rels[at := rel], spans[at := span], debt)
  {
  }

  lemma HeldMore(pol: Policy, rels: seq<Rel>, spans: seq<Span>, debt: set<Leaf>, more: set<Leaf>)
    requires Held(pol, rels, spans, debt) && debt <= more
    ensures Held(pol, rels, spans, more)
  {
  }

  lemma PredicatesExist(pol: Policy, x: Leaf)
    ensures PredicatesFor(pol, x) != [] <==> pol.Scopes(x)
  {
  }

  lemma {:induction false} CoveredByIs(pol: Policy, f: From)
    requires Distinct(f)
    ensures forall x :: x in CoveredBy(pol, f) <==> x in Leaves(f) && pol.Scopes(x)
  {
    match f
    case Base(x) => PredicatesExist(pol, x);
    case Derived(_, _) =>
    case Grouping(g) => CoveredByIs(pol, g);
    case Join(l, r, _, _) =>
      CoveredByIs(pol, l);
      CoveredByIs(pol, r);
  }

  // ---- The FROM joins --------------------------------------------------------------

  function Bare(froms: seq<From>): set<Leaf> { set i | 0 <= i < |froms| && froms[i].Base? :: froms[i].leaf }

  function Element(pol: Policy, f: From): From { if f.Join? then Scoped(pol, f) else f }

  function ElementOwed(pol: Policy, f: From): seq<Owed> { if f.Join? then OwedBy(pol, f) else [] }

  function ElementCovered(pol: Policy, f: From): seq<Leaf> { if f.Join? then CoveredBy(pol, f) else [] }

  lemma {:induction false} ScopeFromsOwed(pol: Policy, froms: seq<From>, led: Ledger)
    ensures var end := ScopeFroms(pol, froms, led).1;
      && (forall o :: o in led.owed ==> o in end.owed)
      && (forall i, o :: 0 <= i < |froms| && o in ElementOwed(pol, froms[i]) ==> o in end.owed)
      && (forall o :: o in end.owed ==> o in led.owed || exists i ::
        0 <= i < |froms| && o in ElementOwed(pol, froms[i]))
  {
    if froms != [] {
      var f, rest := froms[0], froms[1..];
      var next := if f.Join? then Ledger(led.owed + OwedBy(pol, f), led.covered + CoveredBy(pol, f)) else led;
      ScopeFromsOwed(pol, rest, next);
      var end := ScopeFroms(pol, froms, led).1;
      assert end == ScopeFroms(pol, rest, next).1;
      assert forall o :: o in led.owed ==> o in next.owed;
      forall o | o in end.owed ensures o in led.owed || exists i :: 0 <= i < |froms| && o in ElementOwed(pol, froms[i])
      {
        if o !in led.owed && o !in ElementOwed(pol, f) {
          var i :| 0 <= i < |rest| && o in ElementOwed(pol, rest[i]);
          assert froms[i + 1] == rest[i];
        }
      }
      assert forall i :: 1 <= i < |froms| ==> froms[i] == rest[i - 1];
    }
  }

  lemma {:induction false} ScopeFromsCovered(pol: Policy, froms: seq<From>, led: Ledger)
    ensures var end := ScopeFroms(pol, froms, led).1;
      && (forall x :: x in led.covered ==> x in end.covered)
      && (forall i, x :: 0 <= i < |froms| && x in ElementCovered(pol, froms[i]) ==> x in end.covered)
      && (forall x :: x in end.covered ==> x in led.covered || exists i ::
        0 <= i < |froms| && x in ElementCovered(pol, froms[i]))
  {
    if froms != [] {
      var f, rest := froms[0], froms[1..];
      var next := if f.Join? then Ledger(led.owed + OwedBy(pol, f), led.covered + CoveredBy(pol, f)) else led;
      ScopeFromsCovered(pol, rest, next);
      var end := ScopeFroms(pol, froms, led).1;
      assert end == ScopeFroms(pol, rest, next).1;
      assert forall x :: x in led.covered ==> x in next.covered;
      forall x | x in end.covered ensures x in led.covered || exists i ::
        0 <= i < |froms| && x in ElementCovered(pol, froms[i])
      {
        if x !in led.covered && x !in ElementCovered(pol, f) {
          var i :| 0 <= i < |rest| && x in ElementCovered(pol, rest[i]);
          assert froms[i + 1] == rest[i];
        }
      }
      assert forall i :: 1 <= i < |froms| ==> froms[i] == rest[i - 1];
    }
  }

  lemma {:induction false} ScopeFromsElements(pol: Policy, froms: seq<From>, led: Ledger)
    ensures forall i :: 0 <= i < |froms| ==> ScopeFroms(pol, froms, led).0[i] == Element(pol, froms[i])
  {
    if froms != [] {
      var f, rest := froms[0], froms[1..];
      ScopeFromsElements(pol, rest, if f.Join? then Ledger(led.owed + OwedBy(pol, f),
        led.covered + CoveredBy(pol, f)) else led);
      assert forall i :: 1 <= i < |froms| ==> froms[i] == rest[i - 1];
    }
  }

  /** Everything the FROM joins owe and cover, element by element. */
  lemma ScopeFromsEach(pol: Policy, froms: seq<From>, led: Ledger)
    ensures var (scoped, end) := ScopeFroms(pol, froms, led);
      && (forall i :: 0 <= i < |froms| ==> scoped[i] == Element(pol, froms[i]))
      && (forall o :: o in led.owed ==> o in end.owed)
      && (forall i, o :: 0 <= i < |froms| && o in ElementOwed(pol, froms[i]) ==> o in end.owed)
      && (forall o :: o in end.owed ==> o in led.owed || exists i ::
        0 <= i < |froms| && o in ElementOwed(pol, froms[i]))
      && (forall x :: x in led.covered ==> x in end.covered)
      && (forall i, x :: 0 <= i < |froms| && x in ElementCovered(pol, froms[i]) ==> x in end.covered)
      && (forall x :: x in end.covered ==> x in led.covered || exists i ::
        0 <= i < |froms| && x in ElementCovered(pol, froms[i]))
  {
    ScopeFromsElements(pol, froms, led);
    ScopeFromsOwed(pol, froms, led);
    ScopeFromsCovered(pol, froms, led);
  }

  lemma {:induction false} EvalEach(fs: seq<From>, env: Env, w: World)
    ensures forall i :: 0 <= i < |fs| ==> EvalFs(fs, env, w)[i] == EvalF(fs[i], env, w)
  {
    if fs != [] {
      EvalEach(fs[1..], env, w);
    }
  }

  lemma ElementHeld(pol: Policy, f: From, debt: set<Leaf>, env: Env, w: World)
    requires Distinct(f) && !f.Grouping? && w.Valid() && w.policy == pol
    requires forall o :: o in ElementOwed(pol, f) ==> o.leaf in debt
    requires f.Base? ==> f.leaf in debt
    ensures Sound(pol, EvalF(Element(pol, f), env, w), Certain(f))
    ensures Settled(pol, EvalF(Element(pol, f), env, w), debt)
  {
    if f.Join? {
      TreeSettled(pol, f, env, w);
      DebtIsOwes(OwedBy(pol, f));
    } else {
      TreeSound(pol, f, env, w);
    }
  }

  lemma CoveredNotBare(pol: Policy, froms: seq<From>, i: nat, x: Leaf)
    requires DistinctFroms(froms) && i < |froms| && x in ElementCovered(pol, froms[i])
    ensures x !in Bare(froms)
  {
    var spans := SpansOf(froms);
    CoveredByIs(pol, froms[i]);
    assert x in spans[i].leaves;
    forall j | 0 <= j < |froms| && froms[j].Base? ensures froms[j].leaf != x {
      assert froms[j].leaf in spans[j].leaves;
    }
  }

  lemma JoinsCoverNoBare(pol: Policy, froms: seq<From>)
    requires DistinctFroms(froms)
    ensures forall x :: x in ScopeFroms(pol, froms, Ledger([], [])).1.covered ==> x !in Bare(froms)
  {
    ScopeFromsEach(pol, froms, Ledger([], []));
    forall x | x in ScopeFroms(pol, froms, Ledger([], [])).1.covered ensures x !in Bare(froms) {
      var i :| 0 <= i < |froms| && x in ElementCovered(pol, froms[i]);
      CoveredNotBare(pol, froms, i, x);
    }
  }

  /** After the FROM joins are scoped, only what they owe and the bare tables are outstanding. */
  lemma FromsHeld(pol: Policy, froms: seq<From>, env: Env, w: World)
    requires DistinctFroms(froms) && w.Valid() && w.policy == pol
    ensures var (scoped, led) := ScopeFroms(pol, froms, Ledger([], []));
      && Held(pol, EvalFs(scoped, env, w), SpansOf(froms), Outstanding(led, Bare(froms)))
      && Entries(pol, led.owed, AllLeaves(SpansOf(froms)))
  {
    var (scoped, led) := ScopeFroms(pol, froms, Ledger([], []));
    var debt, spans := Outstanding(led, Bare(froms)), SpansOf(froms);
    ScopeFromsEach(pol, froms, Ledger([], []));
    EvalEach(scoped, env, w);
    forall i | 0 <= i < |froms|
      ensures EvalFs(scoped, env, w)[i].leaves == spans[i].leaves
      ensures Sound(pol, EvalFs(scoped, env, w)[i], spans[i].certain)
      ensures Settled(pol, EvalFs(scoped, env, w)[i], debt)
    {
      FromOutstanding(pol, froms, i);
      ElementHeld(pol, froms[i], debt, env, w);
    }
    FromsEntries(pol, froms);
  }

  lemma FromOutstanding(pol: Policy, froms: seq<From>, i: nat)
    requires DistinctFroms(froms) && i < |froms|
    ensures var led := ScopeFroms(pol, froms, Ledger([], [])).1;
      && (forall o :: o in ElementOwed(pol, froms[i]) ==> o.leaf in Outstanding(led, Bare(froms)))
      && (froms[i].Base? ==> froms[i].leaf in Outstanding(led, Bare(froms)))
  {
    ScopeFromsEach(pol, froms, Ledger([], []));
    var led := ScopeFroms(pol, froms, Ledger([], [])).1;
    DebtIsOwes(led.owed);
    JoinsCoverNoBare(pol, froms);
    assert forall o :: o in led.owed ==> o.leaf in DebtOf(led.owed);
  }

  lemma FromsEntries(pol: Policy, froms: seq<From>)
    requires DistinctFroms(froms)
    ensures Entries(pol, ScopeFroms(pol, froms, Ledger([], [])).1.owed, AllLeaves(SpansOf(froms)))
  {
    ScopeFromsEach(pol, froms, Ledger([], []));
    forall o | o in ScopeFroms(pol, froms, Ledger([], [])).1.owed
      ensures Proper(pol, o) && pol.Scopes(o.leaf) && o.leaf in AllLeaves(SpansOf(froms))
    {
      var i :| 0 <= i < |froms| && o in ElementOwed(pol, froms[i]);
      OwedByWithin(pol, froms[i]);
      assert o.leaf in SpansOf(froms)[i].leaves;
    }
  }

  // ---- The `.join()` steps ---------------------------------------------------------

  lemma {:induction false} EntriesOfIs(owed: seq<Owed>, x: Leaf)
    ensures forall o :: o in EntriesOf(owed, x) <==> o in owed && o.leaf == x
    ensures EntriesOf(owed, x) != [] <==> Owes(owed, x)
  {
    if owed != [] {
      EntriesOfIs(owed[1..], x);
      assert owed == [owed[0]] + owed[1..];
      if EntriesOf(owed, x) != [] {
        assert EntriesOf(owed, x)[0] in EntriesOf(owed, x);
      }
    }
  }

  /** Everything outstanding on the left of a FULL step is found and stays owed. */
  lemma {:induction false} LeftOwedIs(pol: Policy, leaves: seq<Leaf>, led: Ledger)
    requires forall x :: x in leaves ==> x.plain
    ensures var (found, end) := LeftOwed(pol, leaves, led);
      && (forall o :: o in found ==> o in end.owed && o.leaf in leaves)
      && (forall o :: o in led.owed ==> o in end.owed)
      && (forall o :: o in end.owed ==>
        o in led.owed || (o == Plainly(pol, o.leaf) && pol.Scopes(o.leaf) && o.leaf in leaves))
      && (forall x :: x in led.covered ==> x in end.covered)
      && (forall x :: x in end.covered ==> x in led.covered || (Owes(end.owed, x) && x in leaves))
      && (forall x :: x in leaves && (Owes(led.owed, x) || (pol.Scopes(x) && x !in led.covered)) ==> Owes(found, x))
  {
    if leaves != [] {
      var x, rest := leaves[0], leaves[1..];
      var (mine, next) := LeafOwed(pol, x, led);
      var (more, end) := LeftOwed(pol, rest, next);
      LeftOwedIs(pol, rest, next);
      EntriesOfIs(led.owed, x);
      PredicatesExist(pol, x);
      assert Plainly(pol, x) in [Plainly(pol, x)];
      forall y | y in leaves && (Owes(led.owed, y) || (pol.Scopes(y) && y !in led.covered)) ensures Owes(mine + more, y)
      {
        if y == x {
          assert mine[0] in mine + more;
        } else {
          assert Owes(led.owed, y) ==> Owes(next.owed, y);
          var o :| o in more && o.leaf == y;
          assert o in mine + more;
        }
      }
    }
  }

  lemma PlainLeavesIs(f: From)
    requires Distinct(f)
    ensures forall x :: x in PlainLeaves(f) <==> x in Leaves(f) && x.plain
  {
  }

  /** The FROM built so far, element by element. */
  ghost predicate BuiltIs(built: seq<From>, spans: seq<Span>)
  {
    |built| == |spans| && forall i :: 0 <= i < |built| ==> Distinct(built[i]) && Leaves(built[i]) == spans[i].leaves
  }

  lemma BuiltStep(built: seq<From>, spans: seq<Span>, s: Step)
    requires BuiltIs(built, spans) && DistinctStep(s, spans)
    ensures BuiltIs(Built(built, s), SpanStep(spans, s))
    ensures Distinct(LeftSide(built, s)) && Leaves(LeftSide(built, s)) == spans[s.at].leaves
  {
    assert forall x :: x in spans[s.at].leaves ==> x in AllLeaves(spans);
  }

  /** The ledger after a step's left side has been looked at, before the target's entries. */
  function StepNext(pol: Policy, s: Step, left: From, led: Ledger): Ledger
  {
    var seen := led.(covered := led.covered + CoveredBy(pol, s.target));
    if s.kind == FullOuter && Resolved(pol, s) then LeftOwed(pol, PlainLeaves(left), seen).1 else seen
  }

  lemma StepEnd(pol: Policy, s: Step, left: From, led: Ledger)
    ensures var end, next := ScopeStep(pol, s, left, led).1, StepNext(pol, s, left, led);
      end.covered == next.covered && (end.owed == next.owed || end.owed == next.owed + OwedBy(pol, s.target))
  {
  }

  lemma StepLeft(pol: Policy, s: Step, left: From, led: Ledger, leaves: set<Leaf>)
    requires Distinct(left) && Leaves(left) <= leaves
    ensures var next := StepNext(pol, s, left, led);
      && (forall o :: o in led.owed ==> o in next.owed)
      && (forall o :: o in next.owed ==>
        o in led.owed || (o == Plainly(pol, o.leaf) && pol.Scopes(o.leaf) && o.leaf in leaves))
      && (forall x :: x in led.covered || x in CoveredBy(pol, s.target) ==> x in next.covered)
      && (forall x :: x in next.covered ==> x in led.covered || x in CoveredBy(pol, s.target) || Owes(next.owed, x))
  {
    if s.kind == FullOuter && Resolved(pol, s) {
      PlainLeavesIs(left);
      LeftOwedIs(pol, PlainLeaves(left), led.(covered := led.covered + CoveredBy(pol, s.target)));
    }
  }

  /** What a step adds to the ledger concerns the leaves joined so far and its target. */
  lemma StepLedger(pol: Policy, s: Step, left: From, led: Ledger, spans: seq<Span>, bare: set<Leaf>)
    requires DistinctStep(s, spans) && Distinct(left) && Leaves(left) == spans[s.at].leaves
    requires Apart(spans) && Entries(pol, led.owed, AllLeaves(spans)) && bare <= AllLeaves(spans)
    ensures Grows(led, ScopeStep(pol, s, left, led).1, bare)
    ensures Entries(pol, ScopeStep(pol, s, left, led).1.owed, AllLeaves(SpanStep(spans, s)))
  {
    var leaves := AllLeaves(spans);
    StepLeft(pol, s, left, led, leaves) by {
      assert forall x :: x in spans[s.at].leaves ==> x in leaves;
    }
    StepEnd(pol, s, left, led);
    CoveredByIs(pol, s.target);
    OwedByWithin(pol, s.target);
    SpanStepApart(spans, s);
    assert Leaves(s.target) !! leaves;
  }

  /** Once joined on, a step's target owes nothing that is not in the ledger or tested in ON. */
  lemma TargetSettled(pol: Policy, s: Step, left: From, led: Ledger, l: Rel, before: set<Leaf>, debt: set<Leaf>,
      env: Env, w: World)
    requires Distinct(s.target) && w.Valid() && w.policy == pol && l.leaves !! Leaves(s.target)
    requires Sound(pol, l, {}) && Settled(pol, l, before) && before <= debt
    requires DebtOf(ScopeStep(pol, s, left, led).1.owed) <= debt
    ensures Settled(pol, JoinRel(l, EvalF(Scoped(pol, s.target), env, w),
      Matcher(ScopeStep(pol, s, left, led).0.on, env, w), s.kind), debt)
  {
    var (step, end) := ScopeStep(pol, s, left, led);
    var owing, r, m := OwedBy(pol, s.target), EvalF(Scoped(pol, s.target), env, w), Matcher(step.on, env, w);
    TreeSettled(pol, s.target, env, w);
    if o :| o in owing && o !in end.owed {
      StepTestsTarget(pol, s, left, led);
      assert owing + [] == owing;
      forall a, b | a in l.rows && b in r.rows && m(a + b) ensures Clean(pol)(b) {
        ConjoinMeans(s.on, owing, env + (a + b), w);
        TestsClean(pol, s.target, r, b, env + (a + b), w);
      }
    } else {
      DebtIsOwes(owing);
      DebtIsOwes(end.owed);
    }
    JoinSettled(pol, l, r, m, s.kind, before, DebtOf(owing), debt);
  }

  lemma StepJoined(pol: Policy, l: Rel, span: Span, s: Step, left: From, led: Ledger, before: set<Leaf>,
      debt: set<Leaf>, env: Env, w: World)
    requires Distinct(s.target) && w.Valid() && w.policy == pol
    requires l.leaves == span.leaves && Sound(pol, l, span.certain) && Settled(pol, l, before)
    requires l.leaves !! Leaves(s.target) && span.certain <= l.leaves && before <= debt
    requires DebtOf(ScopeStep(pol, s, left, led).1.owed) <= debt
    ensures var j := JoinRel(l, EvalF(Scoped(pol, s.target), env, w),
      Matcher(ScopeStep(pol, s, left, led).0.on, env, w), s.kind);
      && j.leaves == l.leaves + Leaves(s.target)
      && Sound(pol, j, CertainOf(span.certain, Certain(s.target), s.kind)) && Settled(pol, j, debt)
  {
    var step, r := ScopeStep(pol, s, left, led).0, EvalF(Scoped(pol, s.target), env, w);
    TreeSettled(pol, s.target, env, w);
    JoinSound(pol, l, r, Matcher(step.on, env, w), s.kind, span.certain, Certain(s.target));
    TargetSettled(pol, s, left, led, l, before, debt, env, w);
  }

  lemma StepHeld(pol: Policy, rels: seq<Rel>, spans: seq<Span>, s: Step, left: From, led: Ledger, bare: set<Leaf>,
      env: Env, w: World)
    requires Held(pol, rels, spans, Outstanding(led, bare)) && DistinctStep(s, spans)
    requires Grows(led, ScopeStep(pol, s, left, led).1, bare) && w.Valid() && w.policy == pol
    ensures var (step, end) := ScopeStep(pol, s, left, led);
      Held(pol, EvalStep(step, rels, env, w), SpanStep(spans, s), Outstanding(end, bare))
  {
    var (step, end) := ScopeStep(pol, s, left, led);
    var before, debt := Outstanding(led, bare), Outstanding(end, bare);
    assert spans[s.at].leaves <= AllLeaves(spans);
    GrowsOutstanding(led, end, bare);
    SpanStepApart(spans, s);
    StepJoined(pol, rels[s.at], spans[s.at], s, left, led, before, debt, env, w);
    HeldMore(pol, rels, spans, before, debt);
    var joined := JoinRel(rels[s.at], EvalF(Scoped(pol, s.target), env, w), Matcher(step.on, env, w), s.kind);
    HeldReplaced(pol, rels, spans, s.at, joined, SpanStep(spans, s)[s.at], debt);
  }

  /** A step that does not leave its target's predicates to WHERE is a LEFT step that tests
      them in ON. */
  lemma StepTestsTarget(pol: Policy, s: Step, left: From, led: Ledger)
    requires exists o :: o in OwedBy(pol, s.target) && o !in ScopeStep(pol, s, left, led).1.owed
    ensures s.kind == LeftOuter && ScopeStep(pol, s, left, led).0.on == Conjoin(s.on, OwedBy(pol, s.target) + [])
  {
  }

  lemma {:induction false} StepsHeld(pol: Policy, steps: seq<Step>, rels: seq<Rel>, spans: seq<Span>, built: seq<From>,
      led: Ledger, bare: set<Leaf>, env: Env, w: World)
    requires Held(pol, rels, spans, Outstanding(led, bare)) && DistinctSteps(steps, spans) && BuiltIs(built, spans)
    requires Entries(pol, led.owed, AllLeaves(spans)) && bare <= AllLeaves(spans)
    requires w.Valid() && w.policy == pol
    ensures var (scoped, end) := ScopeSteps(pol, steps, built, led);
      && Held(pol, EvalSteps(scoped, rels, env, w), SpansAfter(steps, spans), Outstanding(end, bare))
      && Entries(pol, end.owed, AllLeaves(SpansAfter(steps, spans)))
    decreases |steps|
  {
    if steps != [] {
      var s := steps[0];
      var left := LeftSide(built, s);
      var (step, next) := ScopeStep(pol, s, left, led);
      BuiltStep(built, spans, s);
      StepLedger(pol, s, left, led, spans, bare);
      StepHeld(pol, rels, spans, s, left, led, bare, env, w);
      SpanStepApart(spans, s);
      StepsHeld(pol, steps[1..], EvalStep(step, rels, env, w), SpanStep(spans, s), Built(built, s), next, bare, env, w);
      var (rest, end) := ScopeSteps(pol, steps[1..], Built(built, s), next);
      assert ([step] + rest)[1..] == rest;
    }
  }

  // ---- The product of the FROM list and the whole SELECT ---------------------------

  lemma AllSplit(spans: seq<Span>)
    requires spans != []
    ensures AllLeaves(spans) == spans[0].leaves + AllLeaves(spans[1..])
    ensures AllCertain(spans) == spans[0].certain + AllCertain(spans[1..])
  {
    var rest := spans[1..];
    forall x ensures x in AllLeaves(spans) <==> x in spans[0].leaves || x in AllLeaves(rest) {
      if i :| 0 <= i < |rest| && x in rest[i].leaves {
        assert x in spans[i + 1].leaves;
      }
      if i :| 0 < i < |spans| && x in spans[i].leaves {
        assert x in rest[i - 1].leaves;
      }
    }
    forall x ensures x in AllCertain(spans) <==> x in spans[0].certain || x in AllCertain(rest) {
      if i :| 0 <= i < |rest| && x in rest[i].certain {
        assert x in spans[i + 1].certain;
      }
      if i :| 0 < i < |spans| && x in spans[i].certain {
        assert x in rest[i - 1].certain;
      }
    }
  }

  lemma ApartSplit(spans: seq<Span>)
    requires Apart(spans) && spans != []
    ensures Apart(spans[1..]) && spans[0].leaves !! AllLeaves(spans[1..])
    ensures AllCertain(spans[1..]) <= AllLeaves(spans[1..])
  {
    var rest := spans[1..];
    assert forall i :: 0 <= i < |rest| ==> rest[i] == spans[i + 1];
    forall x | x in AllCertain(rest) ensures x in AllLeaves(rest) {
      var i :| 0 <= i < |rest| && x in rest[i].certain;
      assert x in rest[i].leaves;
    }
  }

  lemma {:induction false} ProductHeld(pol: Policy, rels: seq<Rel>, spans: seq<Span>, debt: set<Leaf>)
    requires Held(pol, rels, spans, debt)
    ensures Product(rels).leaves == AllLeaves(spans)
    ensures Sound(pol, Product(rels), AllCertain(spans)) && Settled(pol, Product(rels), debt)
  {
    if rels != [] {
      AllSplit(spans);
      ApartSplit(spans);
      assert forall i :: 0 <= i < |rels[1..]| ==> rels[1..][i] == rels[i + 1] && spans[1..][i] == spans[i + 1];
      ProductHeld(pol, rels[1..], spans[1..], debt);
      var rest := Product(rels[1..]);
      JoinSound(pol, rels[0], rest, Always(), Inner, spans[0].certain, AllCertain(spans[1..]));
      JoinSettled(pol, rels[0], rest, Always(), Inner, debt, debt, debt);
    }
  }

  lemma {:induction false} CandidatesMean(pol: Policy, candidates: seq<Leaf>, skip: seq<Leaf>, env: Env, w: World)
    ensures AllTrue(CandidatePreds(pol, candidates, skip), env, w) <==>
      forall x :: x in candidates && x.plain && x !in skip ==> AllTrue(PredicatesFor(pol, x), env, w)
  {
    if candidates != [] {
      var x, rest := candidates[0], candidates[1..];
      assert candidates == [x] + rest;
      if !x.plain || x in skip {
        CandidatesMean(pol, rest, skip, env, w);
      } else {
        CandidatesMean(pol, rest, skip + [x], env, w);
        TrueAppend(PredicatesFor(pol, x), CandidatePreds(pol, rest, skip + [x]), env, w);
      }
    }
  }

  ghost predicate DistinctSelect(q: Query)
    requires q.Select?
  {
    DistinctFroms(q.froms) && DistinctSteps(q.steps, SpansOf(q.froms))
  }

  function FinalSpans(q: Query): seq<Span>
    requires q.Select?
  {
    SpansAfter(q.steps, SpansOf(q.froms))
  }

  /** The entries WHERE is given in the end. */
  function FinalOwed(pol: Policy, q: Query): seq<Owed>
    requires q.Select?
  {
    var owed := FinalLedger(pol, q).owed;
    if AnyFull(q.steps) then OrPaddedAll(pol, owed) else owed
  }

  function FinalLedger(pol: Policy, q: Query): Ledger
    requires q.Select?
  {
    ScopeSteps(pol, q.steps, q.froms, ScopeFroms(pol, q.froms, Ledger([], [])).1).1
  }

  /** The FROM list of the scoped SELECT: with nothing covered it is the original one. */
  lemma ScopedParts(pol: Policy, q: Query)
    requires q.Select?
    ensures var joined := ScopeJoins(pol, q.froms, q.steps);
      && ScopeSelect(pol, q).froms == joined.froms && ScopeSelect(pol, q).steps == joined.steps
      && joined.where == Flatten(FinalOwed(pol, q)) && joined.covered == FinalLedger(pol, q).covered
  {
    var (froms, led) := ScopeFroms(pol, q.froms, Ledger([], []));
    UntouchedSteps(pol, q.steps, q.froms, led);
    if led.covered == [] {
      UntouchedFroms(pol, q.froms, Ledger([], []));
    }
  }

  lemma UntouchedTree(pol: Policy, f: From)
    requires CoveredBy(pol, f) == []
    ensures OwedBy(pol, f) == [] && Scoped(pol, f) == f
  {
  }

  lemma {:induction false} UntouchedFroms(pol: Policy, froms: seq<From>, led: Ledger)
    requires ScopeFroms(pol, froms, led).1.covered == []
    ensures led.covered == [] && ScopeFroms(pol, froms, led).0 == froms
    ensures ScopeFroms(pol, froms, led).1 == led
  {
    if froms != [] {
      var f := froms[0];
      UntouchedFroms(pol, froms[1..], if f.Join? then Ledger(led.owed + OwedBy(pol, f),
        led.covered + CoveredBy(pol, f)) else led);
      if f.Join? {
        UntouchedTree(pol, f);
      }
    }
  }

  lemma {:induction false} UntouchedLeft(pol: Policy, leaves: seq<Leaf>, led: Ledger)
    requires LeftOwed(pol, leaves, led).1.covered == []
    ensures LeftOwed(pol, leaves, led).1 == led
    ensures led.owed == [] ==> LeftOwed(pol, leaves, led).0 == []
  {
    if leaves != [] {
      UntouchedLeft(pol, leaves[1..], LeafOwed(pol, leaves[0], led).1);
    }
  }

  lemma {:induction false} UntouchedSteps(pol: Policy, steps: seq<Step>, built: seq<From>, led: Ledger)
    ensures ScopeSteps(pol, steps, built, led).1.covered == [] ==> led.covered == []
    ensures ScopeSteps(pol, steps, built, led).1.covered == [] && led.owed == [] ==>
      ScopeSteps(pol, steps, built, led).0 == steps
    decreases |steps|
  {
    if steps != [] {
      var s, left := steps[0], LeftSide(built, steps[0]);
      var (step, next) := ScopeStep(pol, s, left, led);
      UntouchedSteps(pol, steps[1..], Built(built, s), next);
      if next.covered == [] {
        var seen := led.(covered := led.covered + CoveredBy(pol, s.target));
        if s.kind == FullOuter && Resolved(pol, s) {
          UntouchedLeft(pol, PlainLeaves(left), seen);
        }
        UntouchedTree(pol, s.target);
      }
    }
  }

  /** A scoped SELECT's FROM rows, before WHERE: well formed, and nothing is outstanding but
      what the ledger says. */
  lemma ScopedProduct(pol: Policy, q: Query, env: Env, w: World)
    requires q.Select? && DistinctSelect(q) && w.Valid() && w.policy == pol
    ensures var (scoped, spans) := (ScopeSelect(pol, q), FinalSpans(q));
      var rows := Product(EvalSteps(scoped.steps, EvalFs(scoped.froms, env, w), env, w));
      && rows.leaves == AllLeaves(spans) && Sound(pol, rows, AllCertain(spans))
      && Settled(pol, rows, Outstanding(FinalLedger(pol, q), Bare(q.froms)))
      && Entries(pol, FinalLedger(pol, q).owed, AllLeaves(spans))
  {
    var (froms, led) := ScopeFroms(pol, q.froms, Ledger([], []));
    var spans := SpansOf(q.froms);
    ScopedParts(pol, q);
    FromsHeld(pol, q.froms, env, w);
    forall x | x in Bare(q.froms) ensures x in AllLeaves(spans) {
      var i :| 0 <= i < |q.froms| && q.froms[i].Base? && q.froms[i].leaf == x;
      assert x in spans[i].leaves;
    }
    StepsHeld(pol, q.steps, EvalFs(froms, env, w), spans, q.froms, led, Bare(q.froms), env, w);
    var (steps, end) := ScopeSteps(pol, q.steps, q.froms, led);
    ProductHeld(pol, EvalSteps(steps, EvalFs(froms, env, w), env, w), FinalSpans(q), Outstanding(end, Bare(q.froms)));
  }

  /** What scoping adds to WHERE. */
  function Added(pol: Policy, q: Query): seq<Expr>
    requires q.Select?
  {
    Flatten(FinalOwed(pol, q)) + CandidatePreds(pol, FromsRead(q.cols, q.froms, q.where), FinalLedger(pol, q).covered)
  }

  lemma {:induction false} BareLeavesIs(froms: seq<From>)
    ensures forall x :: x in BareLeaves(froms) <==> x in Bare(froms)
  {
    if froms != [] {
      var rest := froms[1..];
      BareLeavesIs(rest);
      forall x ensures x in Bare(froms) <==> (froms[0].Base? && froms[0].leaf == x) || x in Bare(rest) {
        if i :| 0 <= i < |rest| && rest[i].Base? && rest[i].leaf == x {
          assert froms[i + 1] == rest[i];
        }
        if i :| 0 < i < |froms| && froms[i].Base? && froms[i].leaf == x {
          assert rest[i - 1] == froms[i];
        }
      }
    }
  }

  lemma PaddedSame(pol: Policy, owed: seq<Owed>)
    ensures forall x :: Owes(OrPaddedAll(pol, owed), x) <==> Owes(owed, x)
  {
    var r := OrPaddedAll(pol, owed);
    forall x | Owes(owed, x) ensures Owes(r, x) {
      var o :| o in owed && o.leaf == x;
      var i :| 0 <= i < |owed| && owed[i] == o;
      assert r[i] in r;
    }
    forall x | Owes(r, x) ensures Owes(owed, x) {
      var o :| o in r && o.leaf == x;
      var i :| 0 <= i < |r| && r[i] == o;
      assert owed[i] in owed;
    }
  }

  lemma FinalEntries(pol: Policy, q: Query, leaves: set<Leaf>)
    requires q.Select? && Entries(pol, FinalLedger(pol, q).owed, leaves)
    ensures Entries(pol, FinalOwed(pol, q), leaves)
    ensures forall x :: Owes(FinalOwed(pol, q), x) <==> Owes(FinalLedger(pol, q).owed, x)
  {
    var owed := FinalLedger(pol, q).owed;
    PaddedSame(pol, owed);
    forall o | o in OrPaddedAll(pol, owed) ensures Proper(pol, o) && pol.Scopes(o.leaf) && o.leaf in leaves {
      var i :| 0 <= i < |owed| && OrPaddedAll(pol, owed)[i] == o;
      assert owed[i] in owed;
    }
  }

  /** Passing the added criteria makes a row clean, whatever its leaves look like. */
  lemma AddedCleans(pol: Policy, q: Query, rows: Rel, row: Env, scope: Env, w: World)
    requires q.Select? && row in rows.rows && Shows(scope, row) && AllTrue(Added(pol, q), scope, w)
    requires Sound(pol, rows, {}) && rows.leaves == AllLeaves(FinalSpans(q))
    requires Settled(pol, rows, Outstanding(FinalLedger(pol, q), Bare(q.froms)))
    requires Entries(pol, FinalLedger(pol, q).owed, AllLeaves(FinalSpans(q)))
    ensures Clean(pol)(row)
  {
    var led, owed := FinalLedger(pol, q), FinalOwed(pol, q);
    var candidates := FromsRead(q.cols, q.froms, q.where);
    FinalEntries(pol, q, AllLeaves(FinalSpans(q)));
    TrueAppend(Flatten(owed), CandidatePreds(pol, candidates, led.covered), scope, w);
    FlattenTrue(owed, scope, w);
    CandidatesMean(pol, candidates, led.covered, scope, w);
    BareLeavesIs(q.froms);
    DebtIsOwes(led.owed);
    forall x | x in row ensures Passes(pol, x, row[x]) {
      if Owes(led.owed, x) {
        var o :| o in owed && o.leaf == x;
        OwedOnRow(pol, o, row, scope, w);
      } else if x in Bare(q.froms) && x !in led.covered {
        assert x in candidates;
        PredicatesMean(pol, x, scope, w);
      }
    }
  }

  /** Safety: whatever the joins, steps and conditions are, every row a scoped SELECT keeps
      shows, of each plain table that is present in it, only rows the policy admits.  No
      primary key is needed, and no ON clause has to be resolvable. */
  lemma SelectIsSafe(pol: Policy, q: Query, env: Env, w: World, row: Env)
    requires q.Select? && DistinctSelect(q) && w.Valid() && w.policy == pol
    requires row in Survivors(ScopeSelect(pol, q), env, w)
    ensures row.Keys == AllLeaves(FinalSpans(q)) && Clean(pol)(row)
  {
    var scoped := ScopeSelect(pol, q);
    var rows := Product(EvalSteps(scoped.steps, EvalFs(scoped.froms, env, w), env, w));
    ScopedProduct(pol, q, env, w);
    ScopedParts(pol, q);
    FilterMember(rows.rows, Where(scoped.where, env, w), row);
    assert scoped.where == q.where + Added(pol, q);
    TrueAppend(q.where, Added(pol, q), env + row, w);
    AddedCleans(pol, q, rows, row, env + row, w);
  }
}
