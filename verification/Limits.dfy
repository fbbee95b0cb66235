/** Where exactness stops: for three families of statements, the exact condition under which
  scoping preserves their meaning over every database. */
module Limits {
  import opened Sql
  import opened JoinAlgebra
  import opened JoinScope
  import opened JoinMeaning
  import opened CoreScope
  import opened SelectSafety
  import opened SelectExact
  import opened CoreExact
  import opened CorePass

  ghost predicate ExactIn(pol: Policy, q: Query, w: World)
  {
    EvalQ(ScopeCore(pol, q), map[], w) == EvalQ(q, map[], Prefiltered(w))
  }

  /** The scoped statement is exact over every database with the given policy. */
  ghost predicate ExactEverywhere(pol: Policy, q: Query)
  {
    forall w: World :: w.Valid() && w.policy == pol && !w.prefilter ==> ExactIn(pol, q, w)
  }

  function Same(): seq<Row> -> seq<Row> { rows => rows }

  function AlwaysTrue(): seq<Value> -> Value { _ => Val(1) }

  /** A row the policy admits and the table can store. */
  ghost predicate Storable(pol: Policy, table: string, row: Row)
  {
    pol.Admits(table, row) && forall c :: c in pol.Key(table) ==> At(row, c) != Null
  }

  /** The policy's tests reject NULL, so no padded row passes them. */
  ghost predicate RejectsPadding(pol: Policy) { forall t :: pol.Preds(t) != [] ==> !pol.Admits(t, []) }

  function Holding(pol: Policy, table: string, row: Row): World { World(map[table := [row]], pol, false) }

  lemma HoldingReads(pol: Policy, x: Leaf, row: Row, other: Leaf)
    requires Storable(pol, x.table, row) && other.table != x.table
    ensures Holding(pol, x.table, row).Valid()
    ensures forall pre :: Holding(pol, x.table, row).(prefilter := pre).Rows(x) == [row]
    ensures forall pre :: Holding(pol, x.table, row).(prefilter := pre).Rows(other) == []
  {
    assert Filter([row], Admitted(pol, x.table)) == [row];
  }

  /** Two leaves over different tables, the only ones the policy may scope. */
  ghost predicate Pair(pol: Policy, a: Leaf, b: Leaf)
  {
    a.plain && b.plain && a.table != b.table && pol.preds.Keys <= {a.table, b.table} && RejectsPadding(pol)
  }

  // ---- FULL joins and primary keys -------------------------------------------------

  function FullJoin(a: Leaf, b: Leaf, on: Expr): Query { Over(Join(Base(a), Base(b), on, FullOuter), []) }

  /** The join of two tables of which exactly one holds exactly one row. */
  lemma LoneRow(l: Rel, r: Rel, m: Env -> bool, kind: Kind)
    requires l.leaves !! r.leaves
    ensures |l.rows| == 1 && r.rows == [] && kind != Inner ==>
      JoinRel(l, r, m, kind).rows == [l.rows[0] + Padding(r.leaves)]
    ensures l.rows == [] && |r.rows| == 1 && kind == FullOuter ==>
      JoinRel(l, r, m, kind).rows == [Padding(l.leaves) + r.rows[0]]
  {
    if |l.rows| == 1 && r.rows == [] && kind != Inner {
      assert l.rows[1..] == [] && Matches(l.rows[0], r.rows, m) == [];
      assert LeftPart(l.rows, r.rows, m, true, Padding(r.leaves)) == [l.rows[0] + Padding(r.leaves)];
    }
    if l.rows == [] && |r.rows| == 1 {
      assert r.rows[1..] == [];
      assert Unmatched(l.rows, r.rows, m, Padding(l.leaves)) == [Padding(l.leaves) + r.rows[0]];
    }
  }

  lemma ProductOne(rel: Rel)
    ensures Product([rel]).rows == rel.rows
  {
    var m := Always();
    assert [rel][1..] == [];
    OneByOne(rel.rows, m);
  }

  lemma {:induction false} OneByOne(rows: seq<Env>, m: Env -> bool)
    requires m == Always()
    ensures LeftPart(rows, [map[]], m, false, map[]) == rows
  {
    if rows != [] {
      OneByOne(rows[1..], m);
      var row := rows[0];
      assert row + map[] == row;
      var none: Env := map[];
      assert [none][1..] == [];
      assert Matches(row, [none], m) == [row];
    }
  }

  function Over(f: From, where: seq<Expr>): Query { Select([], [f], [], where, Same()) }

  /** What a statement over one FROM tree keeps of its rows. */
  lemma OneTree(f: From, where: seq<Expr>, env: Env, w: World)
    ensures Survivors(Over(f, where), env, w) == Filter(EvalF(f, env, w).rows, Where(where, env, w))
  {
    assert [f][1..] == [];
    assert EvalFs([f], env, w) == [EvalF(f, env, w)];
    ProductOne(EvalF(f, env, w));
  }

  /** What scoping makes of a statement over one join tree. */
  lemma OneTreeScoped(pol: Policy, f: From, where: seq<Expr>)
    requires f.Join?
    ensures ScopeSelect(pol, Over(f, where)) == Over(Scoped(pol, f), where + Added(pol, Over(f, where)))
    ensures FinalOwed(pol, Over(f, where)) == OwedBy(pol, f)
  {
    var q := Over(f, where);
    ScopedParts(pol, q);
    assert [f][1..] == [];
    assert [] + OwedBy(pol, f) == OwedBy(pol, f) && [] + CoveredBy(pol, f) == CoveredBy(pol, f);
    assert ScopeFroms(pol, [f], Ledger([], [])).0 == [Scoped(pol, f)];
  }

  /** A FULL join of two tables is scoped exactly over every database if and only if each of
      its scoped tables has a primary key. */
  lemma FullJoinExactIff(pol: Policy, a: Leaf, b: Leaf, on: Expr, ra: Row, rb: Row)
    requires Pair(pol, a, b) && Storable(pol, a.table, ra) && Storable(pol, b.table, rb) && FitsE(pol, on, {a, b})
    ensures ExactEverywhere(pol, FullJoin(a, b, on)) <==> pol.Keyed()
  {
    var q := FullJoin(a, b, on);
    if pol.Keyed() {
      forall w: World | w.Valid() && w.policy == pol && !w.prefilter ensures ExactIn(pol, q, w) {
        FitsPair(pol, Join(Base(a), Base(b), on, FullOuter));
        CoreIsExact(pol, q, w);
      }
    } else {
      var t :| t in pol.preds && pol.preds[t] != [] && pol.Key(t) == [];
      FullJoinDrops(pol, a, b, on, if t == a.table then b else a, if t == a.table then rb else ra);
    }
  }

  lemma FitsPair(pol: Policy, f: From)
    requires f.Join? && f.left.Base? && f.right.Base? && f.left.leaf != f.right.leaf
    requires FitsE(pol, f.on, {f.left.leaf, f.right.leaf})
    requires f.kind == FullOuter ==> pol.Keyed()
    ensures FitsQ(pol, Over(f, []), {})
  {
    assert [f][1..] == [];
    assert Inside({}, Leaves(f), Certain(f.left) + Certain(f.right)) == {f.left.leaf, f.right.leaf};
    assert FitsF(pol, f.left, {}) && FitsF(pol, f.right, {});
    PredicatesExist(pol, f.left.leaf);
    PredicatesExist(pol, f.right.leaf);
    assert Distinct(f.left) && Distinct(f.right) && Distinct(f);
    assert DistinctSelect(Over(f, []));
  }

  /** Without a primary key the padded row of a FULL join is dropped. */
  lemma FullJoinDrops(pol: Policy, a: Leaf, b: Leaf, on: Expr, kept: Leaf, row: Row)
    requires Pair(pol, a, b) && (kept == a || kept == b) && Storable(pol, kept.table, row)
    requires var lost := if kept == a then b else a; pol.Scopes(lost) && pol.Key(lost.table) == []
    ensures !ExactEverywhere(pol, FullJoin(a, b, on))
  {
    var q, f, lost := FullJoin(a, b, on), Join(Base(a), Base(b), on, FullOuter), if kept == a then b else a;
    var w := Holding(pol, kept.table, row);
    HoldingReads(pol, kept, row, lost);
    PredicatesExist(pol, lost);
    LoneSurvivor(f, w.(prefilter := true));
    LoneRow(EvalF(Base(a), map[], Prefiltered(w)), EvalF(Base(b), map[], Prefiltered(w)),
      Matcher(on, map[], Prefiltered(w)), FullOuter);
    assert |EvalQ(q, map[], Prefiltered(w))| == 1;
    var g := Join(Base(a), Base(b), ScopeE(pol, on), FullOuter);
    var n, scoped := Over(g, []), Scoped(pol, g);
    NestedJoin(pol, f, []);
    OneTreeScoped(pol, g, []);
    OneTree(scoped, [] + Added(pol, n), map[], w);
    LoneRow(EvalF(Base(a), map[], w), EvalF(Base(b), map[], w), Matcher(scoped.on, map[], w), FullOuter);
    forall r | r in EvalF(scoped, map[], w).rows ensures !Where([] + Added(pol, n), map[], w)(r) {
      LostRow(pol, n, g, lost, r, w);
    }
    FilterAll(EvalF(scoped, map[], w).rows, Where([] + Added(pol, n), map[], w), false);
    assert EvalQ(ScopeQ(pol, q), map[], w) == [];
    ReadsScoped(pol, f, []);
    assert !ExactIn(pol, q, w);
  }

  lemma NestedJoin(pol: Policy, f: From, where: seq<Expr>)
    requires f.Join? && f.left.Base? && f.right.Base?
    ensures Nested(pol, Over(f, where)) == Over(Join(f.left, f.right, ScopeE(pol, f.on), f.kind), ScopeEs(pol, where))
  {
    NestedShape(pol, f.left);
    NestedShape(pol, f.right);
    assert [f][1..] == [];
    assert ScopeF(pol, f) == Join(f.left, f.right, ScopeE(pol, f.on), f.kind);
    assert ScopeFs(pol, [f]) == [ScopeF(pol, f)];
  }

  /** With no WHERE, each FROM row is one row of the result. */
  lemma LoneSurvivor(f: From, w: World)
    ensures Survivors(Over(f, []), map[], w) == EvalF(f, map[], w).rows
    ensures |EvalF(f, map[], w).rows| == 1 ==> |EvalQ(Over(f, []), map[], w)| == 1
  {
    OneTree(f, [], map[], w);
    FilterAll(EvalF(f, map[], w).rows, Where([], map[], w), true);
  }

  lemma ReadsScoped(pol: Policy, f: From, where: seq<Expr>)
    requires f.Join? && f.left.Base? && f.right.Base? && (pol.Scopes(f.left.leaf) || pol.Scopes(f.right.leaf))
    ensures !UnscopedQ(pol, Over(f, where))
  {
    assert UnscopedF(pol, f.left) == !pol.Scopes(f.left.leaf) && UnscopedF(pol, f.right) == !pol.Scopes(f.right.leaf);
    assert !UnscopedF(pol, f);
    assert !UnscopedFs(pol, [f]);
  }

  lemma LostRow(pol: Policy, n: Query, g: From, lost: Leaf, r: Env, w: World)
    requires n.Select? && FinalOwed(pol, n) == OwedBy(pol, g) && g.Join? && g.kind == FullOuter && g.left.Base?
    requires g.right.Base?
    requires (g.left.leaf == lost || g.right.leaf == lost) && pol.Scopes(lost) && pol.Key(lost.table) == []
    requires RejectsPadding(pol)
    requires lost in r && r[lost] == Padded
    ensures !Where([] + Added(pol, n), map[], w)(r)
  {
    var scope := map[] + r;
    var owed := OwedBy(pol, g);
    PredicatesExist(pol, lost);
    assert Plainly(pol, lost) in owed by {
      var both := OwedBy(pol, g.left) + OwedBy(pol, g.right);
      assert Plainly(pol, lost) in both;
      var i :| 0 <= i < |both| && both[i] == Plainly(pol, lost);
      assert owed[i] == OrPadded(pol, both[i]);
    }
    TrueAppend([], Added(pol, n), scope, w);
    TrueAppend(Flatten(owed), CandidatePreds(pol, FromsRead(n.cols, n.froms, n.where), FinalLedger(pol, n).covered),
      scope, w);
    FlattenTrue(owed, scope, w);
    PredicatesMean(pol, lost, scope, w);
  }

  // ---- `.join()` steps whose ON cannot be resolved ----------------------------------

  function LeftStep(a: Leaf, b: Leaf, on: Expr, resolvable: bool): Query
  {
    Select([], [Base(a)], [Step(Base(b), on, LeftOuter, false, resolvable, 0)], [], Same())
  }

  /** An `.outerjoin(b)` step without an explicit ON is scoped exactly over every database if
      and only if SQLAlchemy's own ON is found or `b` is not scoped. */
  lemma LeftStepExactIff(pol: Policy, a: Leaf, b: Leaf, on: Expr, resolvable: bool, ra: Row)
    requires Pair(pol, a, b) && Storable(pol, a.table, ra) && FitsE(pol, on, {a, b})
    ensures ExactEverywhere(pol, LeftStep(a, b, on, resolvable)) <==> resolvable || !pol.Scopes(b)
  {
    var q := LeftStep(a, b, on, resolvable);
    if resolvable || !pol.Scopes(b) {
      FitsLeftStep(pol, a, b, on, resolvable);
      forall w: World | w.Valid() && w.policy == pol && !w.prefilter ensures ExactIn(pol, q, w) {
        CoreIsExact(pol, q, w);
      }
    } else {
      LeftStepDrops(pol, a, b, on, ra);
    }
  }

  lemma FitsLeftStep(pol: Policy, a: Leaf, b: Leaf, on: Expr, resolvable: bool)
    requires a != b && FitsE(pol, on, {a, b}) && (resolvable || !pol.Scopes(b))
    ensures FitsQ(pol, LeftStep(a, b, on, resolvable), {})
  {
    var q := LeftStep(a, b, on, resolvable);
    var s, spans := q.steps[0], SpansOf([Base(a)]);
    assert [Base(a)][1..] == [] && [s][1..] == [];
    PredicatesExist(pol, b);
    assert spans == [Span({a}, {a})];
    assert Inside({}, {a} + Leaves(s.target), {a} + Certain(s.target)) == {a, b};
    assert AllLeaves(spans) == {a};
    assert FitsF(pol, Base(a), {}) && FitsF(pol, Base(b), {});
    var open := OpenOf(pol, [Base(a)]);
    assert FitsS(pol, s, spans[0], open, {});
    assert FitsSs(pol, [], SpanStep(spans, s), OpenStep(pol, s, open), {});
    assert FitsSs(pol, [s], spans, open, {});
    assert DistinctStep(s, spans) && DistinctSteps([], SpanStep(spans, s));
    assert DistinctSteps([s], spans);
    assert FitsFs(pol, [Base(a)], {});
  }

  lemma LeftStepDrops(pol: Policy, a: Leaf, b: Leaf, on: Expr, ra: Row)
    requires Pair(pol, a, b) && Storable(pol, a.table, ra) && pol.Scopes(b)
    ensures !ExactEverywhere(pol, LeftStep(a, b, on, false))
  {
    var q, w := LeftStep(a, b, on, false), Holding(pol, a.table, ra);
    var s := q.steps[0];
    HoldingReads(pol, a, ra, b);
    StepRows(a, s, [], Prefiltered(w));
    LoneRow(EvalF(Base(a), map[], Prefiltered(w)), EvalF(Base(b), map[], Prefiltered(w)),
      Matcher(on, map[], Prefiltered(w)), LeftOuter);
    assert |EvalQ(q, map[], Prefiltered(w))| == 1;
    var n, t := Nested(pol, q), Step(Base(b), ScopeE(pol, on), LeftOuter, false, false, 0);
    StepScoped(pol, a, b, on);
    StepRows(a, t, [] + Added(pol, n), w);
    LoneRow(EvalF(Base(a), map[], w), EvalF(Base(b), map[], w), Matcher(t.on, map[], w), LeftOuter);
    var rows := JoinRel(EvalF(Base(a), map[], w), EvalF(Base(b), map[], w), Matcher(t.on, map[], w), LeftOuter).rows;
    forall r | r in rows ensures !Where([] + Added(pol, n), map[], w)(r) {
      LostToWhere(pol, n, b, r, w);
    }
    FilterAll(rows, Where([] + Added(pol, n), map[], w), false);
    assert EvalQ(ScopeQ(pol, q), map[], w) == [];
    assert !UnscopedQ(pol, q) by {
      assert !UnscopedF(pol, Base(b));
      assert !UnscopedS(pol, s);
      assert !UnscopedSs(pol, [s]);
    }
    assert !ExactIn(pol, q, w);
  }

  lemma StepRows(a: Leaf, s: Step, where: seq<Expr>, w: World)
    requires s.at == 0
    ensures var rel := JoinRel(EvalF(Base(a), map[], w), EvalF(s.target, map[], w), Matcher(s.on, map[], w), s.kind);
      && Survivors(Select([], [Base(a)], [s], where, Same()), map[], w) == Filter(rel.rows, Where(where, map[], w))
      && (where == [] ==> Filter(rel.rows, Where(where, map[], w)) == rel.rows)
  {
    var rel := JoinRel(EvalF(Base(a), map[], w), EvalF(s.target, map[], w), Matcher(s.on, map[], w), s.kind);
    var fs: seq<From> := [Base(a)];
    assert fs[1..] == [] && [s][1..] == [];
    assert EvalFs(fs, map[], w) == [EvalF(Base(a), map[], w)];
    assert EvalStep(s, EvalFs(fs, map[], w), map[], w) == [rel];
    assert EvalSteps([], [rel], map[], w) == [rel];
    assert EvalSteps([s], EvalFs(fs, map[], w), map[], w) == [rel];
    ProductOne(rel);
    if where == [] {
      FilterAll(rel.rows, Where(where, map[], w), true);
    }
  }

  /** The unresolved step keeps its ON and owes its target's predicates to WHERE. */
  lemma StepScoped(pol: Policy, a: Leaf, b: Leaf, on: Expr)
    requires pol.Scopes(b)
    ensures var (n, t) := (Nested(pol, LeftStep(a, b, on, false)),
      Step(Base(b), ScopeE(pol, on), LeftOuter, false, false, 0));
      && ScopeQ(pol, LeftStep(a, b, on, false)) == Select([], [Base(a)], [t], [] + Added(pol, n), Same())
      && FinalOwed(pol, n) == [Plainly(pol, b)]
  {
    var q := LeftStep(a, b, on, false);
    var t := Step(Base(b), ScopeE(pol, on), LeftOuter, false, false, 0);
    var fs: seq<From> := [Base(a)];
    var n := Select([], fs, [t], [], Same());
    PredicatesExist(pol, b);
    assert fs[1..] == [] && q.steps[1..] == [] && [t][1..] == [];
    assert ScopeFs(pol, fs) == fs;
    assert ScopeF(pol, Base(b)) == Base(b) && ScopeS(pol, q.steps[0]) == t;
    assert ScopeSs(pol, q.steps) == [t];
    assert Nested(pol, q) == n;
    ScopedParts(pol, n);
    assert ScopeFroms(pol, fs, Ledger([], [])).0 == fs && ScopeFroms(pol, fs, Ledger([], [])).1 == Ledger([], []);
    assert ScopeStep(pol, t, LeftSide(fs, t), Ledger([], [])).0 == t;
    assert [] + [Plainly(pol, b)] == [Plainly(pol, b)];
    assert ScopeSteps(pol, [t], fs, Ledger([], [])).0 == [t];
  }

  lemma LostToWhere(pol: Policy, n: Query, lost: Leaf, r: Env, w: World)
    requires n.Select? && FinalOwed(pol, n) == [Plainly(pol, lost)] && pol.Scopes(lost) && RejectsPadding(pol)
    requires lost in r && r[lost] == Padded
    ensures !Where([] + Added(pol, n), map[], w)(r)
  {
    var scope := map[] + r;
    var owed := FinalOwed(pol, n);
    TrueAppend([], Added(pol, n), scope, w);
    TrueAppend(Flatten(owed), CandidatePreds(pol, FromsRead(n.cols, n.froms, n.where), FinalLedger(pol, n).covered),
      scope, w);
    FlattenTrue(owed, scope, w);
    assert Plainly(pol, lost) in owed;
    PredicatesMean(pol, lost, scope, w);
  }

  // ---- FULL steps -------------------------------------------------------------------

  function FullStep(a: Leaf, b: Leaf, on: Expr, explicit: bool, resolvable: bool): Query
  {
    Select([], [Base(a)], [Step(Base(b), on, FullOuter, explicit, resolvable, 0)], [], Same())
  }

  /** ON joins the two rows, whatever is stored. */
  ghost predicate Joins(pol: Policy, on: Expr, a: Leaf, ra: Row, b: Leaf, rb: Row)
  {
    forall w: World :: IsTrue(EvalE(ScopeE(pol, on), map[] + (map[a := Present(ra)] + map[b := Present(rb)]), w))
  }

  /** A `.join(b, full=True)` step is scoped exactly over every keyed database if and only if the
      join it makes is found, or its left side is not scoped and its own side needs no inferred ON. */
  lemma FullStepExactIff(pol: Policy, a: Leaf, b: Leaf, on: Expr, explicit: bool, resolvable: bool, ra: Row, rb: Row,
      bad: Row)
    requires Pair(pol, a, b) && pol.Keyed() && Storable(pol, a.table, ra) && Storable(pol, b.table, rb)
    requires FitsE(pol, on, {a, b})
    requires pol.Scopes(b) ==> Rejected(pol, b.table, bad) && Joins(pol, on, a, ra, b, bad)
    ensures ExactEverywhere(pol, FullStep(a, b, on, explicit, resolvable)) <==>
      resolvable || (!pol.Scopes(a) && (explicit || !pol.Scopes(b)))
  {
    var q := FullStep(a, b, on, explicit, resolvable);
    if resolvable || (!pol.Scopes(a) && (explicit || !pol.Scopes(b))) {
      FitsFullStep(pol, a, b, on, explicit, resolvable);
      forall w: World | w.Valid() && w.policy == pol && !w.prefilter ensures ExactIn(pol, q, w) {
        CoreIsExact(pol, q, w);
      }
    } else if pol.Scopes(a) {
      FullStepDropsLeft(pol, a, b, on, explicit, rb);
    } else {
      FullStepDropsMatch(pol, a, b, on, ra, bad);
    }
  }

  /** A row the table can store and the policy does not admit. */
  ghost predicate Rejected(pol: Policy, table: string, row: Row)
  {
    !pol.Admits(table, row) && forall c :: c in pol.Key(table) ==> At(row, c) != Null
  }

  lemma FitsFullStep(pol: Policy, a: Leaf, b: Leaf, on: Expr, explicit: bool, resolvable: bool)
    requires a != b && FitsE(pol, on, {a, b}) && pol.Keyed()
    requires resolvable || (!pol.Scopes(a) && (explicit || !pol.Scopes(b)))
    ensures FitsQ(pol, FullStep(a, b, on, explicit, resolvable), {})
  {
    var q := FullStep(a, b, on, explicit, resolvable);
    var s, spans, open := q.steps[0], SpansOf([Base(a)]), OpenOf(pol, [Base(a)]);
    assert [Base(a)][1..] == [] && [s][1..] == [];
    PredicatesExist(pol, a);
    PredicatesExist(pol, b);
    assert spans == [Span({a}, {a})];
    assert Inside({}, {a} + Leaves(s.target), {a} + Certain(s.target)) == {a, b};
    assert AllLeaves(spans) == {a};
    assert ElementOwed(pol, Base(a)) == [] && DebtOf([]) == {} && OpenOf(pol, []) == {};
    assert open == if pol.Scopes(a) then {a} else {};
    assert FitsF(pol, Base(a), {}) && FitsF(pol, Base(b), {});
    assert FitsS(pol, s, spans[0], open, {});
    assert FitsSs(pol, [], SpanStep(spans, s), OpenStep(pol, s, open), {});
    assert FitsSs(pol, [s], spans, open, {});
    assert DistinctStep(s, spans) && DistinctSteps([], SpanStep(spans, s));
    assert DistinctSteps([s], spans);
    assert FitsFs(pol, [Base(a)], {});
  }

  /** What scoping makes of an unresolved FULL step. */
  lemma FullStepScoped(pol: Policy, a: Leaf, b: Leaf, on: Expr, explicit: bool) returns (n: Query, t: Step)
    requires a != b
    ensures n == Nested(pol, FullStep(a, b, on, explicit, false)) && n.Select? && n.cols == [] && n.froms == [Base(a)]
    ensures n.where == []
    ensures ScopeQ(pol, FullStep(a, b, on, explicit, false)) == Select([], [Base(a)], [t], [] + Added(pol, n), Same())
    ensures t.target == Base(b) && t.kind == FullOuter && t.at == 0 && (!explicit ==> t.on == ScopeE(pol, on))
    ensures FinalLedger(pol, n) ==
      Ledger(if explicit || pol.Scopes(b) then OwedBy(pol, Base(b)) else [], CoveredBy(pol, Base(b)))
    ensures AnyFull(n.steps)
  {
    var q := FullStep(a, b, on, explicit, false);
    var plain := Step(Base(b), ScopeE(pol, on), FullOuter, explicit, false, 0);
    var fs: seq<From> := [Base(a)];
    n := Select([], fs, [plain], [], Same());
    PredicatesExist(pol, b);
    assert fs[1..] == [] && q.steps[1..] == [] && [plain][1..] == [];
    assert ScopeFs(pol, fs) == fs;
    assert ScopeF(pol, Base(b)) == Base(b) && ScopeS(pol, q.steps[0]) == plain;
    assert ScopeSs(pol, q.steps) == [plain];
    assert Nested(pol, q) == n;
    ScopedParts(pol, n);
    assert ScopeFroms(pol, fs, Ledger([], [])).0 == fs && ScopeFroms(pol, fs, Ledger([], [])).1 == Ledger([], []);
    t := ScopeStep(pol, plain, LeftSide(fs, plain), Ledger([], [])).0;
    assert [] + OwedBy(pol, Base(b)) == OwedBy(pol, Base(b)) && [] + CoveredBy(pol, Base(b)) == CoveredBy(pol, Base(b));
    assert ScopeSteps(pol, [plain], fs, Ledger([], [])).0 == [t];
    assert AnyFull(n.steps) by {
      assert n.steps[0].kind == FullOuter;
    }
  }

  lemma ReadsFullStep(pol: Policy, a: Leaf, b: Leaf, on: Expr, explicit: bool)
    requires pol.Scopes(a) || pol.Scopes(b)
    ensures !UnscopedQ(pol, FullStep(a, b, on, explicit, false))
  {
    var q := FullStep(a, b, on, explicit, false);
    assert UnscopedF(pol, Base(a)) == !pol.Scopes(a) && UnscopedF(pol, Base(b)) == !pol.Scopes(b);
    assert UnscopedFs(pol, q.froms) ==> UnscopedF(pol, Base(a)) by {
      assert q.froms[0] == Base(a);
    }
    assert UnscopedSs(pol, q.steps) ==> UnscopedS(pol, q.steps[0]);
  }

  /** Left to WHERE, the predicates of a FULL step's left side drop the right rows that match nothing. */
  lemma FullStepDropsLeft(pol: Policy, a: Leaf, b: Leaf, on: Expr, explicit: bool, rb: Row)
    requires Pair(pol, a, b) && Storable(pol, b.table, rb) && pol.Scopes(a)
    ensures !ExactEverywhere(pol, FullStep(a, b, on, explicit, false))
  {
    var q, w := FullStep(a, b, on, explicit, false), Holding(pol, b.table, rb);
    var s := q.steps[0];
    HoldingReads(pol, b, rb, a);
    StepRows(a, s, [], Prefiltered(w));
    LoneRow(EvalF(Base(a), map[], Prefiltered(w)), EvalF(Base(b), map[], Prefiltered(w)),
      Matcher(on, map[], Prefiltered(w)), FullOuter);
    assert |EvalQ(q, map[], Prefiltered(w))| == 1;
    var n, t := FullStepScoped(pol, a, b, on, explicit);
    StepRows(a, t, [] + Added(pol, n), w);
    LoneRow(EvalF(Base(a), map[], w), EvalF(Base(b), map[], w), Matcher(t.on, map[], w), FullOuter);
    var rows := JoinRel(EvalF(Base(a), map[], w), EvalF(Base(b), map[], w), Matcher(t.on, map[], w), FullOuter).rows;
    forall row | row in rows ensures !Where([] + Added(pol, n), map[], w)(row) {
      LostBare(pol, n, a, row, w);
    }
    FilterAll(rows, Where([] + Added(pol, n), map[], w), false);
    assert EvalQ(ScopeQ(pol, q), map[], w) == [];
    ReadsFullStep(pol, a, b, on, explicit);
    assert !ExactIn(pol, q, w);
  }

  /** A bare FROM nobody took care of is tested in WHERE, where padding fails. */
  lemma LostBare(pol: Policy, n: Query, lost: Leaf, row: Env, w: World)
    requires n.Select? && n.froms == [Base(lost)] && pol.Scopes(lost) && RejectsPadding(pol)
    requires lost !in FinalLedger(pol, n).covered && lost in row && row[lost] == Padded
    ensures !Where([] + Added(pol, n), map[], w)(row)
  {
    var scope := map[] + row;
    var read, covered := FromsRead(n.cols, n.froms, n.where), FinalLedger(pol, n).covered;
    assert lost in read by {
      BareLeavesIs(n.froms);
      assert n.froms[0] == Base(lost);
    }
    TrueAppend([], Added(pol, n), scope, w);
    TrueAppend(Flatten(FinalOwed(pol, n)), CandidatePreds(pol, read, covered), scope, w);
    CandidatesMean(pol, read, covered, scope, w);
    PredicatesMean(pol, lost, scope, w);
  }

  function Both(pol: Policy, a: Leaf, b: Leaf, ra: Row, rb: Row): World
  {
    World(map[a.table := [ra], b.table := [rb]], pol, false)
  }

  /** Left out of ON, the predicates of a FULL step's target let a rejected row match, and WHERE drops the match. */
  lemma FullStepDropsMatch(pol: Policy, a: Leaf, b: Leaf, on: Expr, ra: Row, bad: Row)
    requires Pair(pol, a, b) && Storable(pol, a.table, ra) && pol.Scopes(b) && !pol.Scopes(a) && pol.Keyed()
    requires Rejected(pol, b.table, bad) && Joins(pol, on, a, ra, b, bad)
    ensures !ExactEverywhere(pol, FullStep(a, b, on, false, false))
  {
    var q, w := FullStep(a, b, on, false, false), Both(pol, a, b, ra, bad);
    BothHeld(pol, a, b, ra, bad);
    MatchIsGone(pol, a, b, on, ra, bad);
    MatchIsDropped(pol, a, b, on, ra, bad);
    ReadsFullStep(pol, a, b, on, false);
    assert !ExactIn(pol, q, w);
  }

  lemma MatchIsGone(pol: Policy, a: Leaf, b: Leaf, on: Expr, ra: Row, bad: Row)
    requires Pair(pol, a, b) && Storable(pol, a.table, ra) && Rejected(pol, b.table, bad)
    ensures |EvalQ(FullStep(a, b, on, false, false), map[], Prefiltered(Both(pol, a, b, ra, bad)))| == 1
  {
    var q, w := FullStep(a, b, on, false, false), Prefiltered(Both(pol, a, b, ra, bad));
    BothHeld(pol, a, b, ra, bad);
    StepRows(a, q.steps[0], [], w);
    LoneRow(EvalF(Base(a), map[], w), EvalF(Base(b), map[], w), Matcher(on, map[], w), FullOuter);
  }

  lemma MatchIsDropped(pol: Policy, a: Leaf, b: Leaf, on: Expr, ra: Row, bad: Row)
    requires Pair(pol, a, b) && Storable(pol, a.table, ra) && pol.Scopes(b) && !pol.Scopes(a) && pol.Keyed()
    requires Rejected(pol, b.table, bad) && Joins(pol, on, a, ra, b, bad)
    ensures EvalQ(ScopeQ(pol, FullStep(a, b, on, false, false)), map[], Both(pol, a, b, ra, bad)) == []
  {
    var w := Both(pol, a, b, ra, bad);
    BothHeld(pol, a, b, ra, bad);
    var n, t := FullStepScoped(pol, a, b, on, false);
    StepRows(a, t, [] + Added(pol, n), w);
    var l, r, m := EvalF(Base(a), map[], w), EvalF(Base(b), map[], w), Matcher(t.on, map[], w);
    assert l.rows == [map[a := Present(ra)]] && r.rows == [map[b := Present(bad)]];
    OneMatch(l, r, m, map[a := Present(ra)], map[b := Present(bad)]);
    var rows := JoinRel(l, r, m, FullOuter).rows;
    forall row | row in rows ensures !Where([] + Added(pol, n), map[], w)(row) {
      LostMatch(pol, n, b, bad, row, w);
    }
    FilterAll(rows, Where([] + Added(pol, n), map[], w), false);
  }

  lemma BothHeld(pol: Policy, a: Leaf, b: Leaf, ra: Row, bad: Row)
    requires Pair(pol, a, b) && Storable(pol, a.table, ra) && Rejected(pol, b.table, bad)
    ensures var w := Both(pol, a, b, ra, bad);
      && w.Valid() && w.Rows(a) == [ra] && w.Rows(b) == [bad] && Prefiltered(w).Rows(a) == [ra]
      && Prefiltered(w).Rows(b) == []
  {
    var p, none := Admitted(pol, b.table), [bad][1..];
    assert Filter([ra], Admitted(pol, a.table)) == [ra];
    assert !p(bad) && none == [] && Filter([bad], p) == Filter(none, p);
  }

  /** Two rows that match. */
  lemma OneMatch(l: Rel, r: Rel, m: Env -> bool, a: Env, b: Env)
    requires l.rows == [a] && r.rows == [b] && m(a + b)
    ensures JoinRel(l, r, m, FullOuter).rows == [a + b]
  {
    assert l.rows[1..] == [] && r.rows[1..] == [];
    assert Matches(a, r.rows, m) == [a + b];
    assert LeftPart(l.rows, r.rows, m, true, Padding(r.leaves)) == [a + b];
    assert a in l.rows;
    assert Unmatched(l.rows, r.rows, m, Padding(l.leaves)) == [];
  }

  lemma LostMatch(pol: Policy, n: Query, lost: Leaf, bad: Row, row: Env, w: World)
    requires n.Select? && AnyFull(n.steps) && FinalLedger(pol, n).owed == OwedBy(pol, Base(lost)) && pol.Scopes(lost)
    requires pol.Keyed()
    requires Rejected(pol, lost.table, bad) && lost in row && row[lost] == Present(bad)
    ensures !Where([] + Added(pol, n), map[], w)(row)
  {
    var scope := map[] + row;
    PredicatesExist(pol, lost);
    var o := OrPadded(pol, Plainly(pol, lost));
    assert FinalOwed(pol, n) == [o];
    TrueAppend([], Added(pol, n), scope, w);
    TrueAppend(Flatten([o]), CandidatePreds(pol, FromsRead(n.cols, n.froms, n.where), FinalLedger(pol, n).covered),
      scope, w);
    FlattenTrue([o], scope, w);
    assert o in [o];
    OwedMeans(pol, o, scope, w);
    assert pol.Key(lost.table)[0] in pol.Key(lost.table);
  }
}
