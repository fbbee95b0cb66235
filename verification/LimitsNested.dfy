/** Where exactness of nested SELECTs stops: a correlated subquery may name a scoped leaf of
  the enclosing SELECT only where that leaf is certainly present. */
module LimitsNested {
  import opened Sql
  import opened JoinAlgebra
  import opened JoinScope
  import opened JoinMeaning
  import opened CoreScope
  import opened SelectSafety
  import opened SelectExact
  import opened CoreExact
  import opened CorePass
  import opened Limits

  function NoRows(): (seq<Value>, seq<Row>) -> Value { (_, rows: seq<Row>) => Truth(|rows| == 0) }

  /** `SELECT FROM c WHERE <true, but naming b>`: `b` is correlated to the enclosing SELECT. */
  function Probe(b: Leaf, c: Leaf): Query { Select([], [Base(c)], [], [Apply(AlwaysTrue(), [Col(b, 0)])], Same()) }

  function Tree(a: Leaf, b: Leaf, kind: Kind): From { Join(Base(a), Base(b), Apply(AlwaysTrue(), []), kind) }

  /** `SELECT FROM a JOIN b WHERE NOT EXISTS (probe)`. */
  function NotExistsOver(a: Leaf, b: Leaf, c: Leaf, kind: Kind): Query
  {
    Over(Tree(a, b, kind), [Subquery(NoRows(), [], Probe(b, c))])
  }

  ghost predicate Triple(pol: Policy, a: Leaf, b: Leaf, c: Leaf)
  {
    && a.plain && b.plain && c.plain && a.table != b.table && a.table != c.table && b.table != c.table
    && pol.preds.Keys <= {b.table} && RejectsPadding(pol) && pol.Keyed()
  }

  /** With a subquery in WHERE that names `b`, scoping `a JOIN b` is exact over every database
      if and only if `b` is not on a nullable side or is not scoped: the subquery is given
      `b`'s predicates too, and on a padded row they empty it. */
  lemma NotExistsExactIff(pol: Policy, a: Leaf, b: Leaf, c: Leaf, kind: Kind, ra: Row, rc: Row)
    requires Triple(pol, a, b, c) && Storable(pol, a.table, ra) && Storable(pol, c.table, rc)
    ensures ExactEverywhere(pol, NotExistsOver(a, b, c, kind)) <==> kind == Inner || !pol.Scopes(b)
  {
    var q := NotExistsOver(a, b, c, kind);
    if kind == Inner || !pol.Scopes(b) {
      FitsNotExists(pol, a, b, c, kind);
      forall w: World | w.Valid() && w.policy == pol && !w.prefilter ensures ExactIn(pol, q, w) {
        CoreIsExact(pol, q, w);
      }
    } else {
      NotExistsKeeps(pol, a, b, c, kind, ra, rc);
    }
  }

  lemma FitsNotExists(pol: Policy, a: Leaf, b: Leaf, c: Leaf, kind: Kind)
    requires Triple(pol, a, b, c) && (kind == Inner || !pol.Scopes(b))
    ensures FitsQ(pol, NotExistsOver(a, b, c, kind), {})
  {
    var f, sub := Tree(a, b, kind), Subquery(NoRows(), [], Probe(b, c));
    var spans := SpansOf([f]);
    var inner := Inside({}, AllLeaves(spans), AllCertain(spans));
    assert [f][1..] == [] && [sub][1..] == [];
    assert Distinct(f.left) && Distinct(f.right) && Distinct(f);
    FitsProbe(pol, b, c, inner) by {
      assert spans == [SpanOf(f)] && Certain(f.left) == {a} && Certain(f.right) == {b};
      assert Certain(f) == CertainOf({a}, {b}, kind);
      assert kind == Inner ==> b in spans[0].certain;
    }
    assert FitsE(pol, sub, inner) && FitsEs(pol, [], inner);
    assert FitsEs(pol, [sub], inner);
    assert FitsEs(pol, [], Inside({}, Leaves(f), Certain(f.left) + Certain(f.right)));
    assert FitsE(pol, f.on, Inside({}, Leaves(f), Certain(f.left) + Certain(f.right)));
    assert FitsF(pol, f.left, {}) && FitsF(pol, f.right, {});
    assert FitsF(pol, f, {});
    assert FitsFs(pol, [], {}) && FitsFs(pol, [f], {});
    assert ReadsAll([sub]) == [];
    assert DistinctSelect(NotExistsOver(a, b, c, kind));
  }

  lemma FitsProbe(pol: Policy, b: Leaf, c: Leaf, present: set<Leaf>)
    requires b != c && (pol.Scopes(b) ==> b in present)
    ensures FitsQ(pol, Probe(b, c), present)
  {
    var q := Probe(b, c);
    var fs: seq<From> := [Base(c)];
    var inner := Inside(present, AllLeaves(SpansOf(fs)), AllCertain(SpansOf(fs)));
    assert fs[1..] == [] && [Col(b, 0)][1..] == [] && q.where[1..] == [];
    assert FitsF(pol, Base(c), present) && FitsFs(pol, [], present) && FitsFs(pol, fs, present);
    assert FitsE(pol, Col(b, 0), inner) && FitsEs(pol, [], inner);
    assert FitsEs(pol, [Col(b, 0)], inner) && FitsE(pol, q.where[0], inner);
    assert FitsEs(pol, q.where, inner);
    assert ReadsAll([Col(b, 0)]) == [b];
    assert Reads(q.where[0]) == ReadsAll([Col(b, 0)]);
    assert ReadsAll(q.where) == [b];
    assert DistinctSelect(q);
  }

  function TwoRows(pol: Policy, a: Leaf, ra: Row, c: Leaf, rc: Row): World
  {
    World(map[a.table := [ra], c.table := [rc]], pol, false)
  }

  lemma NotExistsKeeps(pol: Policy, a: Leaf, b: Leaf, c: Leaf, kind: Kind, ra: Row, rc: Row)
    requires Triple(pol, a, b, c) && Storable(pol, a.table, ra) && Storable(pol, c.table, rc)
    requires kind != Inner && pol.Scopes(b)
    ensures !ExactEverywhere(pol, NotExistsOver(a, b, c, kind))
  {
    var q, f, w := NotExistsOver(a, b, c, kind), Tree(a, b, kind), TwoRows(pol, a, ra, c, rc);
    assert w.Valid();
    OriginalDrops(pol, a, b, c, kind, ra, rc);
    ScopedKeeps(pol, a, b, c, kind, ra, rc);
    ReadsScoped(pol, f, q.where);
    assert !ExactIn(pol, q, w);
  }

  lemma TwoRowsReads(pol: Policy, a: Leaf, b: Leaf, c: Leaf, ra: Row, rc: Row, pre: bool)
    requires Triple(pol, a, b, c) && Storable(pol, a.table, ra) && Storable(pol, c.table, rc)
    ensures var w := TwoRows(pol, a, ra, c, rc).(prefilter := pre);
      && w.Valid() && w.Rows(a) == [ra] && w.Rows(b) == [] && w.Rows(c) == [rc]
      && EvalF(Base(a), map[], w).rows == [map[a := Present(ra)]] && EvalF(Base(b), map[], w).rows == []
  {
    assert [ra][1..] == [] && [rc][1..] == [];
    assert Filter([ra], Admitted(pol, a.table)) == [ra];
    assert Filter([rc], Admitted(pol, c.table)) == [rc];
  }

  /** The original: the one row of `a` is padded, the probe sees the row of `c`, and NOT EXISTS fails. */
  lemma OriginalDrops(pol: Policy, a: Leaf, b: Leaf, c: Leaf, kind: Kind, ra: Row, rc: Row)
    requires Triple(pol, a, b, c) && Storable(pol, a.table, ra) && Storable(pol, c.table, rc)
    ensures EvalQ(NotExistsOver(a, b, c, kind), map[], Prefiltered(TwoRows(pol, a, ra, c, rc))) == []
  {
    var q, f, w := NotExistsOver(a, b, c, kind), Tree(a, b, kind), Prefiltered(TwoRows(pol, a, ra, c, rc));
    TwoRowsReads(pol, a, b, c, ra, rc, true);
    OneTree(f, q.where, map[], w);
    forall r | r in EvalF(f, map[], w).rows ensures !Where(q.where, map[], w)(r) {
      ProbeCounts(b, c, map[] + r, w);
      SingleTrue(q.where[0], map[] + r, w);
    }
    FilterAll(EvalF(f, map[], w).rows, Where(q.where, map[], w), false);
  }

  /** Unscoped, the probe returns one row for each row of `c`. */
  lemma ProbeCounts(b: Leaf, c: Leaf, env: Env, w: World)
    ensures |EvalQ(Probe(b, c), env, w)| == |w.Rows(c)|
  {
    var e := Apply(AlwaysTrue(), [Col(b, 0)]);
    ProbeSees(b, c, [e], env, w);
    forall s ensures Where([e], env, w)(s) {
      SingleTrue(e, env + s, w);
    }
    FilterAll(Occurrences(c, w.Rows(c)), Where([e], env, w), true);
  }

  lemma ProbeSees(b: Leaf, c: Leaf, where: seq<Expr>, env: Env, w: World)
    ensures Survivors(Select([], [Base(c)], [], where, Same()), env, w) ==
      Filter(Occurrences(c, w.Rows(c)), Where(where, env, w))
  {
    OneTree(Base(c), where, env, w);
  }

  /** The scoped statement: the probe is given `b`'s predicates, which no padded row passes. */
  lemma ScopedKeeps(pol: Policy, a: Leaf, b: Leaf, c: Leaf, kind: Kind, ra: Row, rc: Row)
    requires Triple(pol, a, b, c) && Storable(pol, a.table, ra) && Storable(pol, c.table, rc)
    requires kind != Inner && pol.Scopes(b)
    ensures |EvalQ(ScopeQ(pol, NotExistsOver(a, b, c, kind)), map[], TwoRows(pol, a, ra, c, rc))| == 1
  {
    var f, w := Tree(a, b, kind), TwoRows(pol, a, ra, c, rc);
    var sub := Subquery(NoRows(), [], ScopeQ(pol, Probe(b, c)));
    var row: Env := map[a := Present(ra)] + Padding({b});
    NotExistsScoped(pol, a, b, c, kind);
    LonePadded(pol, a, b, c, kind, ra, rc);
    TwoRowsReads(pol, a, b, c, ra, rc, false);
    PaddedWhere(pol, f, b, c, row, w);
    KeepsOne(Scoped(pol, f), [sub] + Added(pol, Over(f, [sub])), row, w);
  }

  lemma PaddedWhere(pol: Policy, f: From, b: Leaf, c: Leaf, row: Env, w: World)
    requires f.Join? && f.left.Base? && f.right.Base? && Distinct(f) && pol.Keyed() && w.Valid() && w.policy == pol
    requires Clean(pol)(row) && row in EvalF(Scoped(pol, f), map[], w).rows && b in row && row[b] == Padded
    requires b != c && pol.Scopes(b) && RejectsPadding(pol)
    ensures var sub := Subquery(NoRows(), [], ScopeQ(pol, Probe(b, c)));
      Where([sub] + Added(pol, Over(f, [sub])), map[], w)(row)
  {
    var sub := Subquery(NoRows(), [], ScopeQ(pol, Probe(b, c)));
    assert ReadsAll([sub]) == [];
    ProbeHolds(pol, b, c, map[] + row, w);
    PaddedRowPasses(pol, f, [sub], row, w);
    TrueAppend([sub], Added(pol, Over(f, [sub])), map[] + row, w);
  }

  /** With the leaf padded, the scoped probe finds nothing and NOT EXISTS is true. */
  lemma ProbeHolds(pol: Policy, b: Leaf, c: Leaf, env: Env, w: World)
    requires b in env && env[b] == Padded && b != c && pol.Scopes(b) && RejectsPadding(pol)
    ensures AllTrue([Subquery(NoRows(), [], ScopeQ(pol, Probe(b, c)))], env, w)
  {
    var sub := Subquery(NoRows(), [], ScopeQ(pol, Probe(b, c)));
    ProbeEmpty(pol, b, c, env, w);
    SingleTrue(sub, env, w);
  }

  lemma KeepsOne(f: From, where: seq<Expr>, row: Env, w: World)
    requires EvalF(f, map[], w).rows == [row] && Where(where, map[], w)(row)
    ensures |EvalQ(Over(f, where), map[], w)| == 1
  {
    OneTree(f, where, map[], w);
    FilterAll([row], Where(where, map[], w), true);
  }

  lemma LonePadded(pol: Policy, a: Leaf, b: Leaf, c: Leaf, kind: Kind, ra: Row, rc: Row)
    requires Triple(pol, a, b, c) && Storable(pol, a.table, ra) && Storable(pol, c.table, rc) && kind != Inner
    ensures var row: Env := map[a := Present(ra)] + Padding({b});
      && EvalF(Scoped(pol, Tree(a, b, kind)), map[], TwoRows(pol, a, ra, c, rc)).rows == [row]
      && Clean(pol)(row) && row[b] == Padded
  {
    var w, g := TwoRows(pol, a, ra, c, rc), Scoped(pol, Tree(a, b, kind));
    TwoRowsReads(pol, a, b, c, ra, rc, false);
    assert Scoped(pol, Base(a)) == Base(a) && Scoped(pol, Base(b)) == Base(b);
    assert g == Join(Base(a), Base(b), g.on, kind);
    LoneRow(EvalF(Base(a), map[], w), EvalF(Base(b), map[], w), Matcher(g.on, map[], w), kind);
  }

  lemma NotExistsScoped(pol: Policy, a: Leaf, b: Leaf, c: Leaf, kind: Kind)
    ensures var (f, sub) := (Tree(a, b, kind), Subquery(NoRows(), [], ScopeQ(pol, Probe(b, c))));
      && ScopeQ(pol, NotExistsOver(a, b, c, kind)) == Over(Scoped(pol, f), [sub] + Added(pol, Over(f, [sub])))
      && ReadsAll([sub]) == []
  {
    var q, f := NotExistsOver(a, b, c, kind), Tree(a, b, kind);
    var sub := Subquery(NoRows(), [], ScopeQ(pol, Probe(b, c)));
    NestedJoin(pol, f, q.where);
    assert q.where[1..] == [] && [sub][1..] == [] && ScopeEs(pol, []) == [];
    assert ScopeE(pol, q.where[0]) == sub;
    assert ScopeEs(pol, q.where) == [sub];
    assert ScopeE(pol, f.on) == f.on;
    assert Nested(pol, q) == Over(f, [sub]);
    OneTreeScoped(pol, f, [sub]);
  }

  lemma TreeTight(pol: Policy, f: From, where: seq<Expr>)
    requires f.Join? && Distinct(f) && f.left.Base? && f.right.Base? && pol.Keyed()
    ensures DistinctSelect(Over(f, where)) && FinalSpans(Over(f, where)) == [SpanOf(f)]
    ensures Tight(pol, FinalLedger(pol, Over(f, where)), [SpanOf(f)], Bare([f]), false)
  {
    var n := Over(f, where);
    assert [f][1..] == [] && n.froms == [f] && n.steps == [];
    assert TreeKeyed(pol, f.left) && TreeKeyed(pol, f.right);
    forall o | o in OwedBy(pol, f.left) + OwedBy(pol, f.right) ensures HasKey(pol, o.leaf) {
      PredicatesExist(pol, o.leaf);
    }
    assert DistinctSelect(n);
    FinalTight(pol, n);
  }

  /** A clean row of the scoped tree passes what is added to WHERE. */
  lemma PaddedRowPasses(pol: Policy, f: From, where: seq<Expr>, row: Env, w: World)
    requires f.Join? && Distinct(f) && f.left.Base? && f.right.Base? && pol.Keyed() && w.Valid() && w.policy == pol
    requires Clean(pol)(row) && row in EvalF(Scoped(pol, f), map[], w).rows && ReadsAll(where) == []
    ensures AllTrue(Added(pol, Over(f, where)), map[] + row, w)
  {
    var n := Over(f, where);
    TreeTight(pol, f, where);
    TreeRows(pol, f, where, w);
    ReadsNothing(f, where);
    CleanPassesAdded(pol, n, row, map[] + row, w);
  }

  lemma ReadsNothing(f: From, where: seq<Expr>)
    requires f.Join? && ReadsAll(where) == []
    ensures var n := Over(f, where); FromsRead(n.cols, n.froms, n.where) == [] && Bare(n.froms) == {} && n.steps == []
  {
    assert [f][1..] == [] && BareLeaves([f]) == [];
  }

  /** The rows of the scoped tree are the FROM rows of the scoped statement. */
  lemma TreeRows(pol: Policy, f: From, where: seq<Expr>, w: World)
    requires f.Join? && DistinctSelect(Over(f, where)) && FinalSpans(Over(f, where)) == [SpanOf(f)] && w.Valid()
    requires w.policy == pol
    ensures var (n, rows) := (Over(f, where), EvalF(Scoped(pol, f), map[], w));
      && rows.leaves == AllLeaves([SpanOf(f)]) && Sound(pol, rows, AllCertain([SpanOf(f)]))
      && Entries(pol, FinalLedger(pol, n).owed, AllLeaves([SpanOf(f)]))
  {
    var n := Over(f, where);
    ScopedProduct(pol, n, map[], w);
    OneTreeScoped(pol, f, where);
    assert [Scoped(pol, f)][1..] == [];
    assert EvalFs([Scoped(pol, f)], map[], w) == [EvalF(Scoped(pol, f), map[], w)];
    ProductOne(EvalF(Scoped(pol, f), map[], w));
  }

  lemma ProbeEmpty(pol: Policy, b: Leaf, c: Leaf, env: Env, w: World)
    requires b in env && env[b] == Padded && b != c && pol.Scopes(b) && RejectsPadding(pol)
    ensures EvalQ(ScopeQ(pol, Probe(b, c)), env, w) == []
  {
    var q := Probe(b, c);
    var fs: seq<From> := [Base(c)];
    var s := ScopeQ(pol, q);
    ProbeScoped(pol, b, c);
    ProbeSees(b, c, s.where, env, w);
    forall r | r in Occurrences(c, w.Rows(c)) ensures !Where(s.where, env, w)(r) {
      OccurrenceMember(c, w.Rows(c), r);
      TrueAppend(q.where, Added(pol, q), env + r, w);
      TrueAppend(Flatten(FinalOwed(pol, q)),
        CandidatePreds(pol, FromsRead([], fs, q.where), FinalLedger(pol, q).covered), env + r, w);
      CandidatesMean(pol, FromsRead([], fs, q.where), [], env + r, w);
      PredicatesMean(pol, b, env + r, w);
    }
    FilterAll(Occurrences(c, w.Rows(c)), Where(s.where, env, w), false);
  }

  /** The probe itself is given predicates of `b`. */
  lemma ProbeScoped(pol: Policy, b: Leaf, c: Leaf)
    ensures var q := Probe(b, c);
      && ScopeQ(pol, q) == Over(Base(c), q.where + Added(pol, q))
      && FinalLedger(pol, q).covered == [] && b in FromsRead([], [Base(c)], q.where)
  {
    var q := Probe(b, c);
    var fs: seq<From> := [Base(c)];
    assert fs[1..] == [] && q.where[1..] == [] && [Col(b, 0)][1..] == [];
    assert ScopeF(pol, Base(c)) == Base(c) && ScopeFs(pol, []) == [];
    assert ScopeFs(pol, fs) == fs;
    assert ScopeE(pol, Col(b, 0)) == Col(b, 0) && ScopeEs(pol, []) == [];
    assert ScopeEs(pol, [Col(b, 0)]) == [Col(b, 0)];
    assert ScopeE(pol, q.where[0]) == q.where[0];
    assert ScopeEs(pol, q.where) == q.where;
    assert ScopeFroms(pol, fs, Ledger([], [])).1 == Ledger([], []);
    ScopedParts(pol, q);
    assert ReadsAll([Col(b, 0)]) == [b];
    assert Reads(q.where[0]) == ReadsAll([Col(b, 0)]);
    assert ReadsAll(q.where) == [b];
  }
}
