/** What scoping a tree of joins means: the scoped tree, filtered by what it still owes,
  has the rows the original tree has over pre-filtered tables. */
module JoinMeaning {
  import opened Sql
  import opened JoinAlgebra
  import opened JoinScope

  // ---- Conjunctions of predicates --------------------------------------------------

  ghost predicate AllTrue(es: seq<Expr>, env: Env, w: World)
  {
    forall v :: v in EvalEs(es, env, w) ==> IsTrue(v)
  }

  lemma {:induction false} EvalAppend(a: seq<Expr>, b: seq<Expr>, env: Env, w: World)
    ensures EvalEs(a + b, env, w) == EvalEs(a, env, w) + EvalEs(b, env, w)
  {
    if a == [] {
      assert a + b == b;
    } else {
      assert (a + b)[1..] == a[1..] + b;
      EvalAppend(a[1..], b, env, w);
    }
  }

  lemma TrueAppend(a: seq<Expr>, b: seq<Expr>, env: Env, w: World)
    ensures AllTrue(a + b, env, w) <==> AllTrue(a, env, w) && AllTrue(b, env, w)
  {
    EvalAppend(a, b, env, w);
    var va, vb := EvalEs(a, env, w), EvalEs(b, env, w);
    assert forall v :: v in va + vb <==> v in va || v in vb;
  }

  lemma AndIsAllTrue(es: seq<Expr>, env: Env, w: World)
    ensures IsTrue(EvalE(And(es), env, w)) <==> AllTrue(es, env, w)
  {
  }

  lemma OrIsEither(l: Expr, r: Expr, env: Env, w: World)
    ensures IsTrue(EvalE(Or(l, r), env, w)) <==> IsTrue(EvalE(l, env, w)) || IsTrue(EvalE(r, env, w))
  {
    var vs := EvalEs([l, r], env, w);
    EvalAppend([l], [r], env, w);
    assert [l, r] == [l] + [r];
    assert vs == [EvalE(l, env, w), EvalE(r, env, w)];
    assert vs[0] in vs && vs[1] in vs;
  }

  lemma SingleTrue(e: Expr, env: Env, w: World)
    ensures AllTrue([e], env, w) <==> IsTrue(EvalE(e, env, w))
  {
    assert EvalEs([e], env, w) == [EvalE(e, env, w)];
    assert EvalE(e, env, w) in EvalEs([e], env, w);
  }

  lemma ConjoinMeans(on: Expr, owed: seq<Owed>, env: Env, w: World)
    ensures IsTrue(EvalE(Conjoin(on, owed), env, w)) <==> IsTrue(EvalE(on, env, w)) && AllTrue(Flatten(owed), env, w)
  {
    if owed != [] {
      AndIsAllTrue([on] + Flatten(owed), env, w);
      TrueAppend([on], Flatten(owed), env, w);
      SingleTrue(on, env, w);
    }
  }

  // ---- The meaning of one leaf's predicates ----------------------------------------

  /** The columns a slot shows: a padded row shows NULL everywhere. */
  function Shown(s: Slot): Row { if s.Present? then s.row else [] }

  /** A plain leaf whose row is there has a row its policy admits. */
  predicate Passes(pol: Policy, x: Leaf, s: Slot) { x.plain && s.Present? ==> pol.Admits(x.table, s.row) }

  function Clean(pol: Policy): Env -> bool { (row: Env) => forall x :: x in row ==> Passes(pol, x, row[x]) }

  /** A plain leaf's row comes from its table: the primary key is not NULL. */
  ghost predicate Genuine(pol: Policy, row: Env)
  {
    forall x, c :: x in row && x.plain && row[x].Present? && c in pol.Key(x.table) ==> At(row[x].row, c) != Null
  }

  lemma {:induction false} TestsMean(x: Leaf, ps: seq<ScopePred>, env: Env, w: World)
    requires x in env
    ensures AllTrue(TestsOn(x, ps), env, w) <==>
      forall i :: 0 <= i < |ps| ==> IsTrue(ps[i].test(At(Shown(env[x]), ps[i].column)))
  {
    if ps != [] {
      var e := Apply(Unary(ps[0].test), [Col(x, ps[0].column)]);
      TestsMean(x, ps[1..], env, w);
      TrueAppend([e], TestsOn(x, ps[1..]), env, w);
      SingleTrue(e, env, w);
      var seen := At(Shown(env[x]), ps[0].column);
      assert EvalEs([Col(x, ps[0].column)], env, w) == [seen];
      assert EvalE(e, env, w) == ps[0].test(seen);
      assert forall i :: 0 <= i < |ps[1..]| ==> ps[1..][i] == ps[i + 1];
      assert forall i :: 1 <= i < |ps| ==> ps[i] == ps[1..][i - 1];
    }
  }

  lemma PredicatesMean(pol: Policy, x: Leaf, env: Env, w: World)
    requires x in env
    ensures AllTrue(PredicatesFor(pol, x), env, w) <==> (x.plain ==> pol.Admits(x.table, Shown(env[x])))
  {
    if x.plain {
      TestsMean(x, pol.Preds(x.table), env, w);
    }
  }

  lemma {:induction false} KeyIsNullMeans(x: Leaf, key: seq<nat>, env: Env, w: World)
    requires x in env
    ensures AllTrue(KeyIsNull(x, key), env, w) <==> forall c :: c in key ==> At(Shown(env[x]), c) == Null
  {
    if key != [] {
      var e := IsNull(Col(x, key[0]));
      KeyIsNullMeans(x, key[1..], env, w);
      TrueAppend([e], KeyIsNull(x, key[1..]), env, w);
      SingleTrue(e, env, w);
      assert EvalEs([Col(x, key[0])], env, w) == [At(Shown(env[x]), key[0])];
      assert key == [key[0]] + key[1..];
    }
  }

  // ---- The meaning of owed predicates ----------------------------------------------

  /** An entry as scoping makes them: the policy's predicates, plain or padded once. */
  ghost predicate Proper(pol: Policy, o: Owed)
  {
    && o.leaf.plain
    && (o == Plainly(pol, o.leaf) || (pol.Key(o.leaf.table) != [] && o == OrPadded(pol, Plainly(pol, o.leaf))))
  }

  lemma OwedMeans(pol: Policy, o: Owed, env: Env, w: World)
    requires Proper(pol, o) && o.leaf in env
    ensures AllTrue(o.preds, env, w) <==>
      pol.Admits(o.leaf.table, Shown(env[o.leaf])) ||
      (o.padded && forall c :: c in pol.Key(o.leaf.table) ==> At(Shown(env[o.leaf]), c) == Null)
  {
    var x := o.leaf;
    PredicatesMean(pol, x, env, w);
    if o.padded {
      var plain, key := And(PredicatesFor(pol, x)), pol.Key(x.table);
      SingleTrue(Or(plain, PaddedTest(pol, x)), env, w);
      OrIsEither(plain, PaddedTest(pol, x), env, w);
      AndIsAllTrue(PredicatesFor(pol, x), env, w);
      AndIsAllTrue(KeyIsNull(x, key), env, w);
      KeyIsNullMeans(x, key, env, w);
    }
  }

  ghost predicate Owes(owed: seq<Owed>, x: Leaf) { exists o :: o in owed && o.leaf == x }

  /** The entries concern the given leaves; where padding could be told (`keyed`) an entry that
      is not padded concerns a leaf that is present in every row. */
  ghost predicate OwedWithin(pol: Policy, owed: seq<Owed>, leaves: set<Leaf>, certain: set<Leaf>, keyed: bool)
  {
    forall o :: o in owed ==> Proper(pol, o) && o.leaf in leaves && (keyed ==> o.padded || o.leaf in certain)
  }

  /** Padded rows of the leaf's table can be told from stored ones. */
  ghost predicate HasKey(pol: Policy, x: Leaf) { pol.Key(x.table) != [] }

  /** Every predicate that a FULL join of the tree hands on in padded form can be padded. */
  ghost predicate TreeKeyed(pol: Policy, f: From)
  {
    match f
    case Base(_) => true
    case Derived(_, _) => true
    case Grouping(g) => TreeKeyed(pol, g)
    case Join(l, r, _, kind) =>
      && TreeKeyed(pol, l) && TreeKeyed(pol, r)
      && (kind == FullOuter ==> forall o :: o in OwedBy(pol, l) + OwedBy(pol, r) ==> HasKey(pol, o.leaf))
  }

  lemma {:induction false} FlattenTrue(owed: seq<Owed>, env: Env, w: World)
    ensures AllTrue(Flatten(owed), env, w) <==> forall o :: o in owed ==> AllTrue(o.preds, env, w)
  {
    if owed != [] {
      FlattenTrue(owed[1..], env, w);
      TrueAppend(owed[0].preds, Flatten(owed[1..]), env, w);
      assert owed == [owed[0]] + owed[1..];
    }
  }

  /** A scope that shows `row` for the leaves of `row`. */
  ghost predicate Shows(scope: Env, row: Env) { forall x :: x in row ==> x in scope && scope[x] == row[x] }

  /** Testing a row for everything it owes is testing that it is clean. */
  lemma OwedDecides(pol: Policy, owed: seq<Owed>, row: Env, certain: set<Leaf>, keyed: bool, scope: Env, w: World)
    requires OwedWithin(pol, owed, row.Keys, certain, keyed) && Genuine(pol, row) && Shows(scope, row)
    requires forall x :: x in certain ==> x in row && row[x].Present?
    requires forall x :: x in row && !Owes(owed, x) ==> Passes(pol, x, row[x])
    ensures AllTrue(Flatten(owed), scope, w) ==> Clean(pol)(row)
    ensures keyed && Clean(pol)(row) ==> AllTrue(Flatten(owed), scope, w)
  {
    FlattenTrue(owed, scope, w);
    forall o | o in owed
      ensures AllTrue(o.preds, scope, w) ==> Passes(pol, o.leaf, row[o.leaf])
      ensures keyed && Passes(pol, o.leaf, row[o.leaf]) ==> AllTrue(o.preds, scope, w)
    {
      OwedOnRow(pol, o, row, scope, w);
    }
  }

  /** An entry never admits a row its policy rejects, and rejects no more than that when
      it is padded or its leaf is there. */
  lemma OwedOnRow(pol: Policy, o: Owed, row: Env, scope: Env, w: World)
    requires Proper(pol, o) && o.leaf in row && Genuine(pol, row) && Shows(scope, row)
    ensures AllTrue(o.preds, scope, w) ==> Passes(pol, o.leaf, row[o.leaf])
    ensures (o.padded || row[o.leaf].Present?) && Passes(pol, o.leaf, row[o.leaf]) ==> AllTrue(o.preds, scope, w)
  {
    OwedMeans(pol, o, scope, w);
    var key := pol.Key(o.leaf.table);
    assert o.padded ==> key[0] in key;
  }

  // ---- Rows of a relation ----------------------------------------------------------

  /** Rows over the given leaves, with genuine table rows, in which `certain` leaves are present. */
  ghost predicate Sound(pol: Policy, rel: Rel, certain: set<Leaf>)
  {
    forall row :: row in rel.rows ==>
      && row.Keys == rel.leaves
      && Genuine(pol, row)
      && forall x :: x in certain ==> x in row && row[x].Present?
  }

  lemma JoinSound(pol: Policy, l: Rel, r: Rel, m: Env -> bool, kind: Kind, cl: set<Leaf>, cr: set<Leaf>)
    requires Sound(pol, l, cl) && Sound(pol, r, cr) && l.leaves !! r.leaves && cl <= l.leaves && cr <= r.leaves
    ensures Sound(pol, JoinRel(l, r, m, kind), CertainOf(cl, cr, kind))
  {
    forall row | row in JoinRel(l, r, m, kind).rows
      ensures row.Keys == l.leaves + r.leaves && Genuine(pol, row)
      ensures forall x :: x in CertainOf(cl, cr, kind) ==> x in row && row[x].Present?
    {
      JoinMember(l, r, m, kind, row);
    }
  }

  /** Leaves outside `debt` pass in every row. */
  ghost predicate Settled(pol: Policy, rel: Rel, debt: set<Leaf>)
  {
    forall row, x :: row in rel.rows && x in row && x !in debt ==> Passes(pol, x, row[x])
  }

  /** A join settles its left debts no better than before; it settles its right side when a
      LEFT join's ON admits only clean right rows. */
  lemma JoinSettled(pol: Policy, l: Rel, r: Rel, m: Env -> bool, kind: Kind, dl: set<Leaf>, dr: set<Leaf>,
      debt: set<Leaf>)
    requires Settled(pol, l, dl) && Settled(pol, r, dr) && Sound(pol, l, {}) && Sound(pol, r, {})
    requires l.leaves !! r.leaves && dl <= debt
    requires dr <= debt || (kind == LeftOuter && forall a, b :: a in l.rows && b in r.rows && m(a + b) ==>
      Clean(pol)(b))
    ensures Settled(pol, JoinRel(l, r, m, kind), debt)
  {
    forall row, x | row in JoinRel(l, r, m, kind).rows && x in row && x !in debt
      ensures Passes(pol, x, row[x])
    {
      JoinMember(l, r, m, kind, row);
    }
  }

  lemma CleanSplits(pol: Policy, a: Env, b: Env)
    requires a.Keys !! b.Keys
    ensures Clean(pol)(a + b) == (Clean(pol)(a) && Clean(pol)(b))
  {
    forall x | x in a ensures x in a + b && (a + b)[x] == a[x] {}
    forall x | x in b ensures x in a + b && (a + b)[x] == b[x] {}
  }

  // ---- One scoped tree -------------------------------------------------------------

  function DebtOf(owed: seq<Owed>): set<Leaf> { set i | 0 <= i < |owed| :: owed[i].leaf }

  lemma DebtIsOwes(owed: seq<Owed>)
    ensures forall x :: x in DebtOf(owed) <==> Owes(owed, x)
  {
    forall x | Owes(owed, x) ensures x in DebtOf(owed) {
      var o :| o in owed && o.leaf == x;
      var i :| 0 <= i < |owed| && owed[i] == o;
    }
    forall x | x in DebtOf(owed) ensures Owes(owed, x) {
      var i :| 0 <= i < |owed| && owed[i].leaf == x;
      assert owed[i] in owed;
    }
  }

  lemma PaddedWithin(pol: Policy, owed: seq<Owed>, leaves: set<Leaf>, certain: set<Leaf>, keyed: bool)
    requires OwedWithin(pol, owed, leaves, certain, false) && (keyed ==> forall o :: o in owed ==> HasKey(pol, o.leaf))
    requires forall o :: o in owed ==> pol.Scopes(o.leaf)
    ensures OwedWithin(pol, OrPaddedAll(pol, owed), leaves, {}, keyed)
    ensures DebtOf(OrPaddedAll(pol, owed)) == DebtOf(owed)
    ensures forall o :: o in OrPaddedAll(pol, owed) ==> pol.Scopes(o.leaf)
  {
    var r := OrPaddedAll(pol, owed);
    forall o | o in r
      ensures Proper(pol, o) && o.leaf in leaves && (keyed ==> o.padded) && pol.Scopes(o.leaf)
    {
      var i :| 0 <= i < |r| && r[i] == o;
      assert owed[i] in owed;
    }
    assert forall i :: 0 <= i < |owed| ==> r[i].leaf == owed[i].leaf;
  }

  /** The key invariant: an entry a tree reports as owed is padded or about a leaf that is
      present in every row of the tree. */
  lemma OwedByWithin(pol: Policy, f: From)
    ensures OwedWithin(pol, OwedBy(pol, f), Leaves(f), Certain(f), TreeKeyed(pol, f))
    ensures forall o :: o in OwedBy(pol, f) ==> pol.Scopes(o.leaf)
  {
    match f
    case Base(x) =>
    case Derived(_, _) =>
    case Grouping(g) => OwedByWithin(pol, g);
    case Join(l, r, _, kind) =>
      OwedByWithin(pol, l);
      OwedByWithin(pol, r);
      if kind == FullOuter {
        var both := OwedBy(pol, l) + OwedBy(pol, r);
        PaddedWithin(pol, both, Leaves(f), Certain(l) + Certain(r), TreeKeyed(pol, f));
      }
  }

  lemma OccurrenceMember(x: Leaf, rows: seq<Row>, row: Env)
    requires row in Occurrences(x, rows)
    ensures exists r :: r in rows && row == map[x := Present(r)]
  {
    var i :| 0 <= i < |rows| && Occurrences(x, rows)[i] == row;
    assert rows[i] in rows;
  }

  lemma BaseSound(pol: Policy, x: Leaf, w: World)
    requires w.Valid() && w.policy == pol
    ensures Sound(pol, Rel(Occurrences(x, w.Rows(x)), {x}), {x})
  {
    forall row | row in Occurrences(x, w.Rows(x))
      ensures row.Keys == {x} && row[x].Present? && Genuine(pol, row)
    {
      OccurrenceMember(x, w.Rows(x), row);
      if x.table in w.tables {
        FilterMembers(w.tables[x.table], Admitted(pol, x.table));
      }
    }
  }

  /** Rows of any tree of joins are well formed. */
  lemma TreeSound(pol: Policy, f: From, env: Env, w: World)
    requires Distinct(f) && w.Valid() && w.policy == pol
    ensures Sound(pol, EvalF(f, env, w), Certain(f))
  {
    match f
    case Base(x) => BaseSound(pol, x, w);
    case Derived(x, q) =>
      forall row | row in EvalF(f, env, w).rows ensures row.Keys == {x} && row[x].Present? && Genuine(pol, row) {
        OccurrenceMember(x, EvalQ(q, env, w), row);
      }
    case Grouping(g) => TreeSound(pol, g, env, w);
    case Join(l, r, on, kind) =>
      TreeSound(pol, l, env, w);
      TreeSound(pol, r, env, w);
      JoinSound(pol, EvalF(l, env, w), EvalF(r, env, w), Matcher(on, env, w), kind, Certain(l), Certain(r));
  }

  lemma ScopedShape(pol: Policy, f: From)
    requires Distinct(f)
    ensures Distinct(Scoped(pol, f)) && Certain(Scoped(pol, f)) == Certain(f)
  {
  }

  /** A row that owes nothing but `owed` is clean exactly when its owed predicates hold. */
  lemma TestsClean(pol: Policy, f: From, rel: Rel, row: Env, scope: Env, w: World)
    requires Sound(pol, rel, Certain(f)) && Settled(pol, rel, DebtOf(OwedBy(pol, f))) && rel.leaves == Leaves(f)
    requires row in rel.rows && Shows(scope, row)
    ensures AllTrue(Flatten(OwedBy(pol, f)), scope, w) ==> Clean(pol)(row)
    ensures TreeKeyed(pol, f) && Clean(pol)(row) ==> AllTrue(Flatten(OwedBy(pol, f)), scope, w)
  {
    OwedByWithin(pol, f);
    DebtIsOwes(OwedBy(pol, f));
    OwedDecides(pol, OwedBy(pol, f), row, Certain(f), TreeKeyed(pol, f), scope, w);
  }

  /** Safety of one tree: in every row of the scoped tree, the leaves it does not report as
      owing pass, whether or not any table has a primary key. */
  lemma {:induction false} TreeSettled(pol: Policy, f: From, env: Env, w: World)
    requires Distinct(f) && w.Valid() && w.policy == pol
    ensures Sound(pol, EvalF(Scoped(pol, f), env, w), Certain(f))
    ensures Settled(pol, EvalF(Scoped(pol, f), env, w), DebtOf(OwedBy(pol, f)))
  {
    ScopedShape(pol, f);
    TreeSound(pol, Scoped(pol, f), env, w);
    DebtIsOwes(OwedBy(pol, f));
    match f
    case Base(x) =>
      forall row | row in EvalF(f, env, w).rows ensures Passes(pol, x, row[x]) || Owes(OwedBy(pol, f), x) {
        assert PredicatesFor(pol, x) != [] ==> Plainly(pol, x) in OwedBy(pol, f);
      }
    case Derived(x, q) =>
    case Grouping(g) => TreeSettled(pol, g, env, w);
    case Join(l, r, on, kind) =>
      TreeSettled(pol, l, env, w);
      TreeSettled(pol, r, env, w);
      var lr, rr := EvalF(Scoped(pol, l), env, w), EvalF(Scoped(pol, r), env, w);
      var ol, or := OwedBy(pol, l), OwedBy(pol, r);
      var tested := TestedIn(pol, l, r, kind);
      var m := Matcher(Conjoin(on, tested), env, w);
      DebtIsOwes(ol);
      DebtIsOwes(or);
      if kind == LeftOuter {
        forall a, b | a in lr.rows && b in rr.rows && m(a + b) ensures Clean(pol)(b) {
          ConjoinMeans(on, tested, env + (a + b), w);
          TestsClean(pol, r, rr, b, env + (a + b), w);
        }
      } else if kind == FullOuter {
        OwedByWithin(pol, l);
        OwedByWithin(pol, r);
        PaddedWithin(pol, ol + or, Leaves(f), Certain(l) + Certain(r), false);
      }
      DebtOfAppend(ol, or);
      JoinSettled(pol, lr, rr, m, kind, DebtOf(ol), DebtOf(or), DebtOf(OwedBy(pol, f)));
  }

  lemma DebtOfAppend(a: seq<Owed>, b: seq<Owed>)
    ensures DebtOf(a + b) == DebtOf(a) + DebtOf(b)
  {
    DebtIsOwes(a);
    DebtIsOwes(b);
    DebtIsOwes(a + b);
    assert forall o :: o in a + b <==> o in a || o in b;
  }
}
