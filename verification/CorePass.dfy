/** `scope_core` as a whole: statements that read no scoped plain table come back untouched,
  all others are scoped, and either way the result is exact. */
module CorePass {
  import opened Sql
  import opened JoinAlgebra
  import opened JoinScope
  import opened JoinMeaning
  import opened CoreScope
  import opened SelectSafety
  import opened CoreExact

  // ---- Statements that read no scoped plain table ----------------------------------

  predicate UnscopedE(pol: Policy, e: Expr)
    decreases e, 1
  {
    match e
    case Col(x, _) => !pol.Scopes(x)
    case Apply(_, args) => UnscopedEs(pol, args)
    case Subquery(_, operands, q) => UnscopedEs(pol, operands) && UnscopedQ(pol, q)
  }

  predicate UnscopedEs(pol: Policy, es: seq<Expr>)
    decreases es, 0
  {
    es == [] || (UnscopedE(pol, es[0]) && UnscopedEs(pol, es[1..]))
  }

  predicate UnscopedF(pol: Policy, f: From)
    decreases f, 1
  {
    match f
    case Base(x) => !pol.Scopes(x)
    case Derived(_, q) => UnscopedQ(pol, q)
    case Grouping(g) => UnscopedF(pol, g)
    case Join(l, r, on, _) => UnscopedF(pol, l) && UnscopedF(pol, r) && UnscopedE(pol, on)
  }

  predicate UnscopedFs(pol: Policy, fs: seq<From>)
    decreases fs, 0
  {
    fs == [] || (UnscopedF(pol, fs[0]) && UnscopedFs(pol, fs[1..]))
  }

  predicate UnscopedS(pol: Policy, s: Step)
    decreases s, 1
  {
    UnscopedF(pol, s.target) && UnscopedE(pol, s.on)
  }

  predicate UnscopedSs(pol: Policy, ss: seq<Step>)
    decreases ss, 0
  {
    ss == [] || (UnscopedS(pol, ss[0]) && UnscopedSs(pol, ss[1..]))
  }

  predicate UnscopedQ(pol: Policy, q: Query)
    decreases q
  {
    match q
    case Select(cols, froms, steps, where, _) =>
      UnscopedEs(pol, cols) && UnscopedFs(pol, froms) && UnscopedSs(pol, steps) && UnscopedEs(pol, where)
    case Compound(_, a, b) => UnscopedQ(pol, a) && UnscopedQ(pol, b)
  }

  lemma {:induction false} SameE(pol: Policy, e: Expr)
    requires UnscopedE(pol, e)
    ensures ScopeE(pol, e) == e && forall x :: x in Reads(e) ==> !pol.Scopes(x)
    decreases e, 1
  {
    match e
    case Col(_, _) =>
    case Apply(_, args) => SameEs(pol, args);
    case Subquery(_, operands, q) =>
      SameEs(pol, operands);
      SameQ(pol, q);
  }

  lemma {:induction false} SameEs(pol: Policy, es: seq<Expr>)
    requires UnscopedEs(pol, es)
    ensures ScopeEs(pol, es) == es && forall x :: x in ReadsAll(es) ==> !pol.Scopes(x)
    decreases es, 0
  {
    if es != [] {
      SameE(pol, es[0]);
      SameEs(pol, es[1..]);
    }
  }

  lemma {:induction false} SameF(pol: Policy, f: From)
    requires UnscopedF(pol, f)
    ensures ScopeF(pol, f) == f && CoveredBy(pol, f) == []
    ensures forall x :: x in PlainLeaves(f) ==> !pol.Scopes(x)
    ensures f.Base? ==> !pol.Scopes(f.leaf)
    decreases f, 1
  {
    match f
    case Base(x) => PredicatesExist(pol, x);
    case Derived(_, q) => SameQ(pol, q);
    case Grouping(g) => SameF(pol, g);
    case Join(l, r, on, _) =>
      SameF(pol, l);
      SameF(pol, r);
      SameE(pol, on);
  }

  lemma {:induction false} SameFs(pol: Policy, fs: seq<From>, led: Ledger)
    requires UnscopedFs(pol, fs)
    ensures ScopeFs(pol, fs) == fs && ScopeFroms(pol, fs, led).1 == led && forall x :: x in BareLeaves(fs) ==>
      !pol.Scopes(x)
    ensures forall i :: 0 <= i < |fs| ==> forall x :: x in PlainLeaves(fs[i]) ==> !pol.Scopes(x)
    decreases fs, 0
  {
    if fs != [] {
      var f := fs[0];
      SameF(pol, f);
      UntouchedTree(pol, f);
      SameFs(pol, fs[1..], if f.Join? then Ledger(led.owed + OwedBy(pol, f), led.covered + CoveredBy(pol, f)) else led);
      assert forall i :: 1 <= i < |fs| ==> fs[i] == fs[1..][i - 1];
    }
  }

  lemma {:induction false} NothingLeft(pol: Policy, leaves: seq<Leaf>)
    requires forall x :: x in leaves ==> !pol.Scopes(x) && x.plain
    ensures LeftOwed(pol, leaves, Ledger([], [])).0 == [] && LeftOwed(pol, leaves, Ledger([], [])).1 == Ledger([], [])
  {
    if leaves != [] {
      PredicatesExist(pol, leaves[0]);
      NothingLeft(pol, leaves[1..]);
    }
  }

  lemma PlainOnly(f: From)
    ensures forall x :: x in PlainLeaves(f) ==> x.plain
  {
  }

  lemma {:induction false} SameS(pol: Policy, s: Step)
    requires UnscopedS(pol, s)
    ensures ScopeS(pol, s) == s && CoveredBy(pol, s.target) == []
    ensures forall x :: x in PlainLeaves(s.target) ==> !pol.Scopes(x)
    decreases s, 1
  {
    SameF(pol, s.target);
    SameE(pol, s.on);
  }

  lemma {:induction false} SameSs(pol: Policy, ss: seq<Step>, built: seq<From>)
    requires UnscopedSs(pol, ss)
    requires forall i :: 0 <= i < |built| ==> forall x :: x in PlainLeaves(built[i]) ==> !pol.Scopes(x)
    ensures ScopeSs(pol, ss) == ss && ScopeSteps(pol, ss, built, Ledger([], [])).1 == Ledger([], [])
    decreases ss, 0
  {
    if ss != [] {
      var s := ss[0];
      SameS(pol, s);
      UntouchedTree(pol, s.target);
      PlainOnly(LeftSide(built, s));
      NothingLeft(pol, PlainLeaves(LeftSide(built, s)));
      SameSs(pol, ss[1..], Built(built, s));
    }
  }

  lemma {:induction false} NoCandidates(pol: Policy, candidates: seq<Leaf>, skip: seq<Leaf>)
    requires forall x :: x in candidates ==> !pol.Scopes(x)
    ensures CandidatePreds(pol, candidates, skip) == []
  {
    if candidates != [] {
      PredicatesExist(pol, candidates[0]);
      NoCandidates(pol, candidates[1..], skip);
      if candidates[0].plain && candidates[0] !in skip {
        NoCandidates(pol, candidates[1..], skip + [candidates[0]]);
      }
    }
  }

  /** Full scoping changes nothing in a statement that reads no scoped plain table. */
  lemma {:induction false} SameQ(pol: Policy, q: Query)
    requires UnscopedQ(pol, q)
    ensures ScopeQ(pol, q) == q
    decreases q
  {
    match q
    case Select(cols, froms, steps, where, shape) =>
      SameEs(pol, cols);
      SameEs(pol, where);
      SameFs(pol, froms, Ledger([], []));
      SameSs(pol, steps, froms);
      NoCandidates(pol, FromsRead(cols, froms, where), []);
      assert where + ([] + []) == where;
    case Compound(_, a, b) =>
      SameQ(pol, a);
      SameQ(pol, b);
  }

  // ---- The whole pass --------------------------------------------------------------

  /** Return the statement with every plain scoped table filtered, or the statement itself. */
  function ScopeCore(pol: Policy, q: Query): Query
  {
    if UnscopedQ(pol, q) then q else ScopeQ(pol, q)
  }

  /** Exactness of the whole pass for statements that stand on their own. */
  lemma CoreIsExact(pol: Policy, q: Query, w: World)
    requires FitsQ(pol, q, {}) && Ready(pol, w)
    ensures EvalQ(ScopeCore(pol, q), map[], w) == EvalQ(q, map[], Prefiltered(w))
  {
    if UnscopedQ(pol, q) {
      SameQ(pol, q);
    }
    ExactQ(pol, q, map[], w, {});
  }

  /** An UPDATE or DELETE whose extra FROMs are the tables its WHERE and SET values name
      matches the rows it would match over pre-filtered tables (its target, scoped by the
      caller, apart). */
  lemma DmlIsExact(pol: Policy, q: Query, env: Env, w: World, present: set<Leaf>)
    requires q.Select? && q.steps == [] && FitsQ(pol, q, present) && Admissible(pol, env, present) && Ready(pol, w)
    requires forall i :: 0 <= i < |q.froms| ==> q.froms[i].Base?
    requires forall x :: x in Bare(q.froms) && pol.Scopes(x) ==> x in ReadsAll(q.where) + ReadsAll(q.cols)
    ensures Survivors(ScopeDml(pol, Nested(pol, q)), env, w) == Survivors(q, env, Prefiltered(w))
  {
    var n, s := Nested(pol, q), ScopeSelect(pol, Nested(pol, q));
    var d := ScopeDml(pol, n);
    var read, named := FromsRead(n.cols, n.froms, n.where), ReadsAll(n.where) + ReadsAll(n.cols);
    NestedSelect(pol, q, present);
    NestedEach(pol, q.froms);
    NestedReadsAll(pol, q.cols);
    NestedReadsAll(pol, q.where);
    OnlyBare(pol, n.froms, Ledger([], []));
    ExactSurvivors(pol, q, env, w, present);
    BareLeavesIs(q.froms);
    forall row ensures Where(s.where, env, w)(row) == Where(d.where, env, w)(row) {
      var scope := env + row;
      TrueAppend(n.where, CandidatePreds(pol, named, []), scope, w);
      TrueAppend(n.where, [] + CandidatePreds(pol, read, []), scope, w);
      assert [] + CandidatePreds(pol, read, []) == CandidatePreds(pol, read, []);
      CandidatesMean(pol, named, [], scope, w);
      CandidatesMean(pol, read, [], scope, w);
      forall x | x in read && x !in named ensures AllTrue(PredicatesFor(pol, x), scope, w) {
        PredicatesExist(pol, x);
      }
    }
    FilterAgree(FromRows(d.froms, d.steps, env, w).rows, Where(s.where, env, w), Where(d.where, env, w));
  }

  lemma {:induction false} OnlyBare(pol: Policy, froms: seq<From>, led: Ledger)
    requires forall i :: 0 <= i < |froms| ==> froms[i].Base?
    ensures ScopeFroms(pol, froms, led).0 == froms && ScopeFroms(pol, froms, led).1 == led
  {
    if froms != [] {
      OnlyBare(pol, froms[1..], led);
    }
  }
}
