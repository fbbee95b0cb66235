/** The clause graph of a statement: what the cheap walk sees of it, and the pass that branches on the walk. */
module StatementGraph {
  import opened Sql
  import opened CoreScope
  import opened CoreExact
  import opened CorePass
  import opened Walk

  // ---- Which graph shows which statement ---------------------------------------------

  /** A table, an alias or a column of one; ORM-annotated occurrences are pruned. */
  predicate LeafElement(pol: Policy, el: Element, x: Leaf)
  {
    && !el.nestedDml
    && if x.plain then !el.orm && el.scopedLeaf == pol.Scopes(x)
       else if el.orm then el.selectable == -1
       else !el.scopedLeaf
  }

  /** What lies below an occurrence, such as the element of an alias, is the same table. */
  ghost predicate ShowsLeaf(pol: Policy, g: Graph, n: nat, x: Leaf)
    requires WellFormed(g)
  {
    n < |g| && forall path :: PathFrom(g, {}, n, path) ==> LeafElement(pol, g[path[|path| - 1]], x)
  }

  /** Any other element: its children are all there is to it. */
  predicate Inner(g: Graph, n: nat)
  {
    n < |g| && !g[n].orm && !g[n].scopedLeaf && !g[n].nestedDml && !g[n].boundValue
  }

  /** An expression without a subquery, as the ON that SQLAlchemy infers from foreign keys. */
  predicate Flat(e: Expr)
    decreases e, 1
  {
    match e
    case Col(_, _) => true
    case Apply(_, args) => FlatAll(args)
    case Subquery(_, _, _) => false
  }

  predicate FlatAll(es: seq<Expr>)
    decreases es, 0
  {
    es == [] || (Flat(es[0]) && FlatAll(es[1..]))
  }

  /** `Shows*`: node `n` stands for the part.  Elements may be shared: a node may stand for several
      parts, and a part may have several nodes.  `shared` are nodes of FROM elements or guests anywhere in the
      statement: a SELECT's node lists those its columns and criteria read among its children, also when they
      are inside a join or belong to an enclosing SELECT, and an entity or column of one that is not plain may
      be a guest. */
  ghost predicate ShowsE(pol: Policy, g: Graph, shared: set<nat>, n: nat, e: Expr)
    requires WellFormed(g)
    decreases e, 2
  {
    match e
    case Col(x, _) => ShowsLeaf(pol, g, n, x) || (!x.plain && n in shared)
    case Apply(_, args) =>
      if args == [] then n < |g| && !g[n].orm && !g[n].scopedLeaf && !g[n].nestedDml && g[n].children == []
      else
        && Inner(g, n) && HasEs(pol, g, shared, g[n].children, args)
        && forall c :: c in g[n].children ==> IsE(pol, g, shared, c, args)
    case Subquery(_, operands, q) =>
      && Inner(g, n) && HasEs(pol, g, shared, g[n].children, operands)
      && (exists c :: c in g[n].children && ShowsQ(pol, g, shared, c, q))
      && forall c :: c in g[n].children ==> IsE(pol, g, shared, c, operands) || ShowsQ(pol, g, shared, c, q)
  }

  /** Each expression has a node among `nodes`. */
  ghost predicate HasEs(pol: Policy, g: Graph, shared: set<nat>, nodes: seq<nat>, es: seq<Expr>)
    requires WellFormed(g)
    decreases es, 0
  {
    es == [] || ((exists c :: c in nodes && ShowsE(pol, g, shared, c, es[0])) && HasEs(pol, g, shared, nodes, es[1..]))
  }

  /** The node stands for one of the expressions. */
  ghost predicate IsE(pol: Policy, g: Graph, shared: set<nat>, c: nat, es: seq<Expr>)
    requires WellFormed(g)
    decreases es, 0
  {
    es != [] && (ShowsE(pol, g, shared, c, es[0]) || IsE(pol, g, shared, c, es[1..]))
  }

  ghost predicate ShowsF(pol: Policy, g: Graph, shared: set<nat>, n: nat, f: From)
    requires WellFormed(g)
    decreases f, 2
  {
    match f
    case Base(x) => ShowsLeaf(pol, g, n, x) || (!x.plain && n in shared)
    case Derived(x, q) =>
      && !x.plain && Inner(g, n)
      && (exists c :: c in g[n].children && ShowsQ(pol, g, shared, c, q))
      && forall c :: c in g[n].children ==> ShowsQ(pol, g, shared, c, q)
    case Grouping(e) =>
      && Inner(g, n) && (exists c :: c in g[n].children && ShowsF(pol, g, shared, c, e))
      && forall c :: c in g[n].children ==> ShowsF(pol, g, shared, c, e)
    case Join(l, r, on, _) =>
      && Inner(g, n)
      && (exists c :: c in g[n].children && ShowsF(pol, g, shared, c, l))
      && (exists c :: c in g[n].children && ShowsF(pol, g, shared, c, r))
      && (exists c :: c in g[n].children && ShowsE(pol, g, shared, c, on))
      && forall c :: c in g[n].children ==>
        ShowsF(pol, g, shared, c, l) || ShowsF(pol, g, shared, c, r) || ShowsE(pol, g, shared, c, on)
  }

  /** Each FROM element has a node among `nodes`, or is a table that the columns or criteria read. */
  ghost predicate HasFs(pol: Policy, g: Graph, shared: set<nat>, nodes: seq<nat>, fs: seq<From>, read: seq<Leaf>)
    requires WellFormed(g)
    decreases fs, 0
  {
    fs == [] ||
    (((exists c :: c in nodes && ShowsF(pol, g, shared, c, fs[0])) || (fs[0].Base? && fs[0].leaf in read)) &&
     HasFs(pol, g, shared, nodes, fs[1..], read))
  }

  ghost predicate IsF(pol: Policy, g: Graph, shared: set<nat>, c: nat, fs: seq<From>)
    requires WellFormed(g)
    decreases fs, 0
  {
    fs != [] && (ShowsF(pol, g, shared, c, fs[0]) || IsF(pol, g, shared, c, fs[1..]))
  }

  function LeavesOfAll(fs: seq<From>): set<Leaf>
  {
    if fs == [] then {} else Leaves(fs[0]) + LeavesOfAll(fs[1..])
  }

  /** A step's target, and its ON if the caller gave one; an inferred ON compares columns of the leaves
      joined so far, `built`, and of the target. */
  ghost predicate HasS(pol: Policy, g: Graph, shared: set<nat>, nodes: seq<nat>, s: Step, built: set<Leaf>)
    requires WellFormed(g)
    decreases s, 1
  {
    && (exists c :: c in nodes && ShowsF(pol, g, shared, c, s.target))
    && if s.explicit then exists c :: c in nodes && ShowsE(pol, g, shared, c, s.on)
       else Flat(s.on) && forall x :: x in Reads(s.on) ==> x in built + Leaves(s.target)
  }

  ghost predicate IsS(pol: Policy, g: Graph, shared: set<nat>, c: nat, s: Step)
    requires WellFormed(g)
    decreases s, 1
  {
    ShowsF(pol, g, shared, c, s.target) || (s.explicit && ShowsE(pol, g, shared, c, s.on))
  }

  ghost predicate HasSs(pol: Policy, g: Graph, shared: set<nat>, nodes: seq<nat>, ss: seq<Step>, built: set<Leaf>)
    requires WellFormed(g)
    decreases ss, 0
  {
    ss == [] ||
    (HasS(pol, g, shared, nodes, ss[0], built) && HasSs(pol, g, shared, nodes, ss[1..], built + Leaves(ss[0].target)))
  }

  ghost predicate IsOfSs(pol: Policy, g: Graph, shared: set<nat>, c: nat, ss: seq<Step>)
    requires WellFormed(g)
    decreases ss, 0
  {
    ss != [] && (IsS(pol, g, shared, c, ss[0]) || IsOfSs(pol, g, shared, c, ss[1..]))
  }

  ghost predicate ShowsQ(pol: Policy, g: Graph, shared: set<nat>, n: nat, q: Query)
    requires WellFormed(g)
    decreases q
  {
    Inner(g, n) &&
    var nodes := g[n].children;
    match q
    case Select(cols, froms, steps, where, _) =>
      && HasEs(pol, g, shared, nodes, cols) && HasEs(pol, g, shared, nodes, where)
      && HasFs(pol, g, shared, nodes, froms, ReadsAll(cols) + ReadsAll(where))
      && HasSs(pol, g, shared, nodes, steps, LeavesOfAll(froms))
      && forall c :: c in nodes ==>
        || c in shared || IsE(pol, g, shared, c, cols) || IsF(pol, g, shared, c, froms)
        || IsOfSs(pol, g, shared, c, steps) || IsE(pol, g, shared, c, where)
    case Compound(_, a, b) =>
      && (exists c :: c in nodes && ShowsQ(pol, g, shared, c, a))
      && (exists c :: c in nodes && ShowsQ(pol, g, shared, c, b))
      && forall c :: c in nodes ==> ShowsQ(pol, g, shared, c, a) || ShowsQ(pol, g, shared, c, b)
  }

  // ---- What is reached from a node ----------------------------------------------------

  /** A reference for some root of the walk. */
  predicate MayHit(g: Graph, n: nat)
    requires n < |g|
  {
    g[n].nestedDml || (g[n].orm && g[n].selectable >= 0 && g[n].textual) || ScopedLeaf(g, n)
  }

  /** A scoped table, for every root. */
  predicate ScopedLeaf(g: Graph, n: nat)
    requires n < |g|
  {
    !g[n].orm && g[n].scopedLeaf
  }

  predicate Avoids(shared: set<nat>, path: seq<nat>) { forall i :: 0 < i < |path| ==> path[i] !in shared }

  /** No path from here leads to a reference without passing through a shared node. */
  ghost predicate Barren(g: Graph, shared: set<nat>, n: nat)
    requires WellFormed(g)
  {
    forall path :: PathFrom(g, {}, n, path) && Avoids(shared, path) ==> !MayHit(g, path[|path| - 1])
  }

  ghost predicate Sees(g: Graph, n: nat)
    requires WellFormed(g)
  {
    exists path :: PathFrom(g, {}, n, path) && MayHit(g, path[|path| - 1])
  }

  lemma BarrenFrom(g: Graph, shared: set<nat>, n: nat)
    requires WellFormed(g) && n < |g| && !MayHit(g, n)
    requires forall c :: c in Next(g, {}, n) ==> c in shared || Barren(g, shared, c)
    ensures Barren(g, shared, n)
  {
    forall path | PathFrom(g, {}, n, path) && Avoids(shared, path) ensures !MayHit(g, path[|path| - 1]) {
      if |path| > 1 {
        var tail := path[1..];
        assert path[1] in Next(g, {}, n) && tail[|tail| - 1] == path[|path| - 1];
        assert PathFrom(g, {}, path[1], tail) && Avoids(shared, tail);
      }
    }
  }

  /** Where no shared node leads anywhere either, no path from here hits at all. */
  lemma {:induction false} NothingHit(g: Graph, shared: set<nat>, n: nat, path: seq<nat>)
    requires WellFormed(g) && Barren(g, shared, n) && forall c :: c in shared ==> Barren(g, shared, c)
    requires PathFrom(g, {}, n, path)
    ensures !MayHit(g, path[|path| - 1])
    decreases |path|
  {
    if !Avoids(shared, path) {
      var i :| 0 < i < |path| && path[i] in shared;
      var tail := path[i..];
      assert PathFrom(g, {}, path[i], tail) by {
        assert forall k :: 0 <= k < |tail| ==> tail[k] == path[i + k];
      }
      NothingHit(g, shared, path[i], tail);
    }
  }

  lemma SeesOn(g: Graph, n: nat, c: nat)
    requires WellFormed(g) && n < |g| && c in Next(g, {}, n) && Sees(g, c)
    ensures Sees(g, n)
  {
    var path :| PathFrom(g, {}, c, path) && MayHit(g, path[|path| - 1]);
    var longer := [n] + path;
    assert longer[|longer| - 1] == path[|path| - 1];
    assert PathFrom(g, {}, n, longer);
  }

  lemma LeafSeen(pol: Policy, g: Graph, shared: set<nat>, n: nat, x: Leaf)
    requires WellFormed(g) && ShowsLeaf(pol, g, n, x)
    ensures pol.Scopes(x) ==> Sees(g, n)
    ensures !pol.Scopes(x) ==> Barren(g, shared, n)
  {
    if pol.Scopes(x) {
      assert PathFrom(g, {}, n, [n]);
    }
  }

  lemma {:induction false} FlatReads(pol: Policy, e: Expr)
    requires Flat(e)
    ensures UnscopedE(pol, e) <==> forall x :: x in Reads(e) ==> !pol.Scopes(x)
    decreases e, 1
  {
    match e
    case Col(_, _) =>
    case Apply(_, args) => FlatAllReads(pol, args);
  }

  lemma {:induction false} FlatAllReads(pol: Policy, es: seq<Expr>)
    requires FlatAll(es)
    ensures UnscopedEs(pol, es) <==> forall x :: x in ReadsAll(es) ==> !pol.Scopes(x)
    decreases es, 0
  {
    if es != [] {
      FlatReads(pol, es[0]);
      FlatAllReads(pol, es[1..]);
    }
  }

  // ---- Unscoped parts lead nowhere -----------------------------------------------------

  lemma {:induction false} BarrenE(pol: Policy, g: Graph, shared: set<nat>, n: nat, e: Expr)
    requires WellFormed(g) && ShowsE(pol, g, shared, n, e) && UnscopedE(pol, e)
    ensures n in shared || Barren(g, shared, n)
    decreases e, 2
  {
    match e
    case Col(x, _) =>
      if n !in shared {
        LeafSeen(pol, g, shared, n, x);
      }
    case Apply(_, args) =>
      forall c | c in Next(g, {}, n) ensures c in shared || Barren(g, shared, c) {
        BarrenEs(pol, g, shared, c, args);
      }
      BarrenFrom(g, shared, n);
    case Subquery(_, operands, q) =>
      forall c | c in Next(g, {}, n) ensures c in shared || Barren(g, shared, c) {
        if IsE(pol, g, shared, c, operands) {
          BarrenEs(pol, g, shared, c, operands);
        } else {
          BarrenQ(pol, g, shared, c, q);
        }
      }
      BarrenFrom(g, shared, n);
  }

  lemma {:induction false} BarrenEs(pol: Policy, g: Graph, shared: set<nat>, c: nat, es: seq<Expr>)
    requires WellFormed(g) && IsE(pol, g, shared, c, es) && UnscopedEs(pol, es)
    ensures c in shared || Barren(g, shared, c)
    decreases es, 0
  {
    if ShowsE(pol, g, shared, c, es[0]) {
      BarrenE(pol, g, shared, c, es[0]);
    } else {
      BarrenEs(pol, g, shared, c, es[1..]);
    }
  }

  lemma {:induction false} BarrenF(pol: Policy, g: Graph, shared: set<nat>, n: nat, f: From)
    requires WellFormed(g) && ShowsF(pol, g, shared, n, f) && UnscopedF(pol, f)
    ensures (n in shared && f.Base?) || Barren(g, shared, n)
    decreases f, 2
  {
    match f
    case Base(x) =>
      if n !in shared {
        LeafSeen(pol, g, shared, n, x);
      }
    case Derived(_, q) =>
      forall c | c in Next(g, {}, n) ensures Barren(g, shared, c) {
        BarrenQ(pol, g, shared, c, q);
      }
      BarrenFrom(g, shared, n);
    case Grouping(e) =>
      forall c | c in Next(g, {}, n) ensures c in shared || Barren(g, shared, c) {
        BarrenF(pol, g, shared, c, e);
      }
      BarrenFrom(g, shared, n);
    case Join(l, r, on, _) =>
      forall c | c in Next(g, {}, n) ensures c in shared || Barren(g, shared, c) {
        if ShowsF(pol, g, shared, c, l) {
          BarrenF(pol, g, shared, c, l);
        } else if ShowsF(pol, g, shared, c, r) {
          BarrenF(pol, g, shared, c, r);
        } else {
          BarrenE(pol, g, shared, c, on);
        }
      }
      BarrenFrom(g, shared, n);
  }

  lemma {:induction false} BarrenFs(pol: Policy, g: Graph, shared: set<nat>, c: nat, fs: seq<From>)
    requires WellFormed(g) && IsF(pol, g, shared, c, fs) && UnscopedFs(pol, fs)
    ensures c in shared || Barren(g, shared, c)
    decreases fs, 0
  {
    if ShowsF(pol, g, shared, c, fs[0]) {
      BarrenF(pol, g, shared, c, fs[0]);
    } else {
      BarrenFs(pol, g, shared, c, fs[1..]);
    }
  }

  lemma {:induction false} BarrenS(pol: Policy, g: Graph, shared: set<nat>, c: nat, s: Step)
    requires WellFormed(g) && IsS(pol, g, shared, c, s) && UnscopedS(pol, s)
    ensures c in shared || Barren(g, shared, c)
    decreases s, 1
  {
    if ShowsF(pol, g, shared, c, s.target) {
      BarrenF(pol, g, shared, c, s.target);
    } else {
      BarrenE(pol, g, shared, c, s.on);
    }
  }

  lemma {:induction false} BarrenSs(pol: Policy, g: Graph, shared: set<nat>, c: nat, ss: seq<Step>)
    requires WellFormed(g) && IsOfSs(pol, g, shared, c, ss) && UnscopedSs(pol, ss)
    ensures c in shared || Barren(g, shared, c)
    decreases ss, 0
  {
    if IsS(pol, g, shared, c, ss[0]) {
      BarrenS(pol, g, shared, c, ss[0]);
    } else {
      BarrenSs(pol, g, shared, c, ss[1..]);
    }
  }

  lemma {:induction false} BarrenQ(pol: Policy, g: Graph, shared: set<nat>, n: nat, q: Query)
    requires WellFormed(g) && ShowsQ(pol, g, shared, n, q) && UnscopedQ(pol, q)
    ensures Barren(g, shared, n)
    decreases q
  {
    match q
    case Select(cols, froms, steps, where, _) =>
      forall c | c in Next(g, {}, n) ensures c in shared || Barren(g, shared, c) {
        if IsE(pol, g, shared, c, cols) {
          BarrenEs(pol, g, shared, c, cols);
        } else if IsF(pol, g, shared, c, froms) {
          BarrenFs(pol, g, shared, c, froms);
        } else if IsOfSs(pol, g, shared, c, steps) {
          BarrenSs(pol, g, shared, c, steps);
        } else if IsE(pol, g, shared, c, where) {
          BarrenEs(pol, g, shared, c, where);
        }
      }
      BarrenFrom(g, shared, n);
    case Compound(_, a, b) =>
      forall c | c in Next(g, {}, n) ensures Barren(g, shared, c) {
        if ShowsQ(pol, g, shared, c, a) {
          BarrenQ(pol, g, shared, c, a);
        } else {
          BarrenQ(pol, g, shared, c, b);
        }
      }
      BarrenFrom(g, shared, n);
  }

  // ---- A scoped table is seen ------------------------------------------------------------

  lemma {:induction false} SeenE(pol: Policy, g: Graph, shared: set<nat>, n: nat, e: Expr)
    requires WellFormed(g) && ShowsE(pol, g, shared, n, e) && !UnscopedE(pol, e)
    ensures Sees(g, n)
    decreases e, 2
  {
    match e
    case Col(x, _) => LeafSeen(pol, g, shared, n, x);
    case Apply(_, args) =>
      var c := SeenEs(pol, g, shared, g[n].children, args);
      SeesOn(g, n, c);
    case Subquery(_, operands, q) =>
      if !UnscopedEs(pol, operands) {
        var c := SeenEs(pol, g, shared, g[n].children, operands);
        SeesOn(g, n, c);
      } else {
        var c :| c in g[n].children && ShowsQ(pol, g, shared, c, q);
        SeenQ(pol, g, shared, c, q);
        SeesOn(g, n, c);
      }
  }

  lemma {:induction false} SeenEs(pol: Policy, g: Graph, shared: set<nat>, nodes: seq<nat>, es: seq<Expr>)
    returns (c: nat)
    requires WellFormed(g) && HasEs(pol, g, shared, nodes, es) && !UnscopedEs(pol, es)
    ensures c in nodes && Sees(g, c)
    decreases es, 0
  {
    if !UnscopedE(pol, es[0]) {
      c :| c in nodes && ShowsE(pol, g, shared, c, es[0]);
      SeenE(pol, g, shared, c, es[0]);
    } else {
      c := SeenEs(pol, g, shared, nodes, es[1..]);
    }
  }

  lemma {:induction false} SeenF(pol: Policy, g: Graph, shared: set<nat>, n: nat, f: From)
    requires WellFormed(g) && ShowsF(pol, g, shared, n, f) && !UnscopedF(pol, f)
    ensures Sees(g, n)
    decreases f, 2
  {
    match f
    case Base(x) => LeafSeen(pol, g, shared, n, x);
    case Derived(_, q) =>
      var c :| c in g[n].children && ShowsQ(pol, g, shared, c, q);
      SeenQ(pol, g, shared, c, q);
      SeesOn(g, n, c);
    case Grouping(e) =>
      var c :| c in g[n].children && ShowsF(pol, g, shared, c, e);
      SeenF(pol, g, shared, c, e);
      SeesOn(g, n, c);
    case Join(l, r, on, _) =>
      if !UnscopedF(pol, l) {
        var c :| c in g[n].children && ShowsF(pol, g, shared, c, l);
        SeenF(pol, g, shared, c, l);
        SeesOn(g, n, c);
      } else if !UnscopedF(pol, r) {
        var c :| c in g[n].children && ShowsF(pol, g, shared, c, r);
        SeenF(pol, g, shared, c, r);
        SeesOn(g, n, c);
      } else {
        var c :| c in g[n].children && ShowsE(pol, g, shared, c, on);
        SeenE(pol, g, shared, c, on);
        SeesOn(g, n, c);
      }
  }

  lemma {:induction false} SeenFs(pol: Policy, g: Graph, shared: set<nat>, nodes: seq<nat>, fs: seq<From>,
      read: seq<Leaf>)
    returns (c: nat)
    requires WellFormed(g) && HasFs(pol, g, shared, nodes, fs, read) && !UnscopedFs(pol, fs)
    requires forall x :: x in read ==> !pol.Scopes(x)
    ensures c in nodes && Sees(g, c)
    decreases fs, 0
  {
    if !UnscopedF(pol, fs[0]) {
      c :| c in nodes && ShowsF(pol, g, shared, c, fs[0]);
      SeenF(pol, g, shared, c, fs[0]);
    } else {
      c := SeenFs(pol, g, shared, nodes, fs[1..], read);
    }
  }

  /** The leaves of a FROM element that reads nothing scoped. */
  lemma {:induction false} UnscopedLeaves(pol: Policy, g: Graph, shared: set<nat>, n: nat, f: From)
    requires WellFormed(g) && ShowsF(pol, g, shared, n, f) && UnscopedF(pol, f)
    ensures forall x :: x in Leaves(f) ==> !pol.Scopes(x)
    decreases f, 2
  {
    match f
    case Base(_) =>
    case Derived(_, _) =>
    case Grouping(e) =>
      var c :| c in g[n].children && ShowsF(pol, g, shared, c, e);
      UnscopedLeaves(pol, g, shared, c, e);
    case Join(l, r, _, _) =>
      var c :| c in g[n].children && ShowsF(pol, g, shared, c, l);
      var d :| d in g[n].children && ShowsF(pol, g, shared, d, r);
      UnscopedLeaves(pol, g, shared, c, l);
      UnscopedLeaves(pol, g, shared, d, r);
  }

  lemma {:induction false} UnscopedLeavesOfAll(pol: Policy, g: Graph, shared: set<nat>, nodes: seq<nat>, fs: seq<From>,
      read: seq<Leaf>)
    requires WellFormed(g) && HasFs(pol, g, shared, nodes, fs, read) && UnscopedFs(pol, fs)
    ensures forall x :: x in LeavesOfAll(fs) ==> !pol.Scopes(x)
    decreases fs, 0
  {
    if fs != [] {
      if !fs[0].Base? {
        var c :| c in nodes && ShowsF(pol, g, shared, c, fs[0]);
        UnscopedLeaves(pol, g, shared, c, fs[0]);
      }
      UnscopedLeavesOfAll(pol, g, shared, nodes, fs[1..], read);
    }
  }

  lemma {:induction false} SeenS(pol: Policy, g: Graph, shared: set<nat>, nodes: seq<nat>, s: Step, built: set<Leaf>)
    returns (c: nat)
    requires WellFormed(g) && HasS(pol, g, shared, nodes, s, built) && !UnscopedS(pol, s)
    requires forall x :: x in built ==> !pol.Scopes(x)
    ensures c in nodes && Sees(g, c)
    decreases s, 1
  {
    c :| c in nodes && ShowsF(pol, g, shared, c, s.target);
    if !UnscopedF(pol, s.target) {
      SeenF(pol, g, shared, c, s.target);
    } else {
      UnscopedLeaves(pol, g, shared, c, s.target);
      assert s.explicit by {
        if !s.explicit {
          FlatReads(pol, s.on);
        }
      }
      c :| c in nodes && ShowsE(pol, g, shared, c, s.on);
      SeenE(pol, g, shared, c, s.on);
    }
  }

  lemma {:induction false} SeenSs(pol: Policy, g: Graph, shared: set<nat>, nodes: seq<nat>, ss: seq<Step>,
      built: set<Leaf>)
    returns (c: nat)
    requires WellFormed(g) && HasSs(pol, g, shared, nodes, ss, built) && !UnscopedSs(pol, ss)
    requires forall x :: x in built ==> !pol.Scopes(x)
    ensures c in nodes && Sees(g, c)
    decreases ss, 0
  {
    if !UnscopedS(pol, ss[0]) {
      c := SeenS(pol, g, shared, nodes, ss[0], built);
    } else {
      c :| c in nodes && ShowsF(pol, g, shared, c, ss[0].target);
      UnscopedLeaves(pol, g, shared, c, ss[0].target);
      c := SeenSs(pol, g, shared, nodes, ss[1..], built + Leaves(ss[0].target));
    }
  }

  lemma {:induction false} SeenQ(pol: Policy, g: Graph, shared: set<nat>, n: nat, q: Query)
    requires WellFormed(g) && ShowsQ(pol, g, shared, n, q) && !UnscopedQ(pol, q)
    ensures Sees(g, n)
    decreases q
  {
    var nodes, c := g[n].children, 0;
    match q
    case Select(cols, froms, steps, where, _) =>
      if !UnscopedEs(pol, cols) {
        c := SeenEs(pol, g, shared, nodes, cols);
      } else if !UnscopedEs(pol, where) {
        c := SeenEs(pol, g, shared, nodes, where);
      } else {
        var read := ReadsAll(cols) + ReadsAll(where);
        SameEs(pol, cols);
        SameEs(pol, where);
        if !UnscopedFs(pol, froms) {
          c := SeenFs(pol, g, shared, nodes, froms, read);
        } else {
          UnscopedLeavesOfAll(pol, g, shared, nodes, froms, read);
          c := SeenSs(pol, g, shared, nodes, steps, LeavesOfAll(froms));
        }
      }
      SeesOn(g, n, c);
    case Compound(_, a, b) =>
      if !UnscopedQ(pol, a) {
        c :| c in nodes && ShowsQ(pol, g, shared, c, a);
        SeenQ(pol, g, shared, c, a);
      } else {
        c :| c in nodes && ShowsQ(pol, g, shared, c, b);
        SeenQ(pol, g, shared, c, b);
      }
      SeesOn(g, n, c);
  }

  // ---- What a statement may hold besides its SELECT ---------------------------------------

  /**
   * An entity of a mapped class over SQL text or over a FROM that the caller built, DML that the statement reads
   * from, or a CTE of such. `scoped`: the class's or the DML's table is scoped.
   */
  datatype Guest =
    | TextEntity(scoped: bool)
    | EntityOver(selectable: From)
    | Dml(scoped: bool, exprs: seq<Expr>, froms: seq<From>)
    | Cte(element: Guest)

  /** A SELECT and its guests. */
  datatype Statement = Statement(query: Query, guests: seq<Guest>)

  /** The guest has something to scope, to refuse or to vet. */
  ghost predicate Concerns(pol: Policy, d: Guest)
  {
    match d
    case TextEntity(scoped) => scoped
    case EntityOver(f) => !UnscopedF(pol, f)
    case Dml(scoped, exprs, froms) => scoped || !UnscopedEs(pol, exprs) || !UnscopedFs(pol, froms)
    case Cte(e) => Concerns(pol, e)
  }

  ghost predicate NeedsScoping(pol: Policy, st: Statement)
  {
    !UnscopedQ(pol, st.query) || exists d :: d in st.guests && Concerns(pol, d)
  }

  /** SQL text: nothing in it can be seen. */
  predicate Silent(el: Element) { !el.orm && !el.scopedLeaf && !el.nestedDml }

  ghost predicate ShowsGuest(pol: Policy, g: Graph, shared: set<nat>, n: nat, d: Guest)
    requires WellFormed(g)
    decreases d
  {
    n < |g| &&
    var el := g[n];
    match d
    case TextEntity(scoped) =>
      && el.orm && !el.nestedDml && el.selectable >= 0 && el.textual == scoped
      && forall path :: PathFrom(g, {}, el.selectable, path) ==> Silent(g[path[|path| - 1]])
    case EntityOver(f) =>
      el.orm && !el.nestedDml && el.selectable >= 0 && !el.textual && ShowsF(pol, g, shared, el.selectable, f)
    case Dml(scoped, exprs, froms) =>
      && el.nestedDml == scoped && !el.orm && !el.boundValue && (el.scopedLeaf ==> scoped)
      && HasEs(pol, g, shared, el.children, exprs)
      && HasFs(pol, g, shared, el.children, froms, ReadsAll(exprs))
      && forall c :: c in el.children ==>
        c in shared || IsE(pol, g, shared, c, exprs) || IsF(pol, g, shared, c, froms)
    case Cte(e) =>
      && Inner(g, n) && (exists c :: c in el.children && ShowsGuest(pol, g, shared, c, e))
      && forall c :: c in el.children ==> ShowsGuest(pol, g, shared, c, e)
  }

  /** A shared node is a guest's or a FROM element's, one that reads nothing scoped unless the statement does, as
      the statement's own FROM elements at any depth. */
  ghost predicate StandsFor(pol: Policy, g: Graph, shared: set<nat>, c: nat, st: Statement)
    requires WellFormed(g)
  {
    || (exists f ::
      ShowsF(pol, g, shared, c, f) && (f.Base? ==> ShowsLeaf(pol, g, c, f.leaf)) &&
      (NeedsScoping(pol, st) || UnscopedF(pol, f)))
    || (exists d :: d in st.guests && ShowsGuest(pol, g, shared, c, d))
  }

  /** Some element that the walk can get to is the guest. */
  ghost predicate Invited(pol: Policy, g: Graph, shared: set<nat>, n: nat, d: Guest)
    requires WellFormed(g)
  {
    exists c: nat :: c < |g| && Reachable(g, {}, n, c) && ShowsGuest(pol, g, shared, c, d)
  }

  /** The graph, from node `n`, is the statement's. */
  ghost predicate ShowsStatement(pol: Policy, g: Graph, shared: set<nat>, n: nat, st: Statement)
  {
    && WellFormed(g) && ShowsQ(pol, g, shared, n, st.query)
    && (forall c :: c in shared ==> StandsFor(pol, g, shared, c, st))
    && (forall d :: d in st.guests ==> Invited(pol, g, shared, n, d))
  }

  lemma {:induction false} BarrenGuest(pol: Policy, g: Graph, shared: set<nat>, n: nat, d: Guest)
    requires WellFormed(g) && ShowsGuest(pol, g, shared, n, d) && !Concerns(pol, d)
    ensures Barren(g, shared, n)
    decreases d
  {
    match d
    case TextEntity(_) =>
      forall path | PathFrom(g, {}, g[n].selectable, path) ensures !MayHit(g, path[|path| - 1]) {
        assert Silent(g[path[|path| - 1]]);
      }
      assert Barren(g, shared, g[n].selectable);
      BarrenFrom(g, shared, n);
    case EntityOver(f) =>
      BarrenF(pol, g, shared, g[n].selectable, f);
      BarrenFrom(g, shared, n);
    case Dml(_, exprs, froms) =>
      forall c | c in Next(g, {}, n) ensures c in shared || Barren(g, shared, c) {
        if IsE(pol, g, shared, c, exprs) {
          BarrenEs(pol, g, shared, c, exprs);
        } else if IsF(pol, g, shared, c, froms) {
          BarrenFs(pol, g, shared, c, froms);
        }
      }
      BarrenFrom(g, shared, n);
    case Cte(e) =>
      forall c | c in Next(g, {}, n) ensures Barren(g, shared, c) {
        BarrenGuest(pol, g, shared, c, e);
      }
      BarrenFrom(g, shared, n);
  }

  lemma {:induction false} SeenGuest(pol: Policy, g: Graph, shared: set<nat>, n: nat, d: Guest)
    requires WellFormed(g) && ShowsGuest(pol, g, shared, n, d) && Concerns(pol, d)
    ensures Sees(g, n)
    decreases d
  {
    match d
    case TextEntity(_) => assert PathFrom(g, {}, n, [n]);
    case EntityOver(f) =>
      SeenF(pol, g, shared, g[n].selectable, f);
      SeesOn(g, n, g[n].selectable);
    case Dml(scoped, exprs, froms) =>
      if scoped {
        assert PathFrom(g, {}, n, [n]);
      } else if !UnscopedEs(pol, exprs) {
        var c := SeenEs(pol, g, shared, g[n].children, exprs);
        SeesOn(g, n, c);
      } else {
        SameEs(pol, exprs);
        var c := SeenFs(pol, g, shared, g[n].children, froms, ReadsAll(exprs));
        SeesOn(g, n, c);
      }
    case Cte(e) =>
      var c :| c in g[n].children && ShowsGuest(pol, g, shared, c, e);
      SeenGuest(pol, g, shared, c, e);
      SeesOn(g, n, c);
  }

  // ---- The walk decides -----------------------------------------------------------------

  lemma {:induction false} SeesFurther(g: Graph, path: seq<nat>)
    requires WellFormed(g) && path != [] && PathFrom(g, {}, path[0], path) && Sees(g, path[|path| - 1])
    ensures Sees(g, path[0])
    decreases |path|
  {
    if |path| > 1 {
      var tail := path[1..];
      assert PathFrom(g, {}, path[1], tail) && tail[|tail| - 1] == path[|path| - 1];
      SeesFurther(g, tail);
      SeesOn(g, path[0], path[1]);
    }
  }

  lemma NothingShared(pol: Policy, g: Graph, shared: set<nat>, n: nat, st: Statement, c: nat)
    requires ShowsStatement(pol, g, shared, n, st) && !NeedsScoping(pol, st) && c in shared
    ensures Barren(g, shared, c)
  {
    assert StandsFor(pol, g, shared, c, st);
    if d :| d in st.guests && ShowsGuest(pol, g, shared, c, d) {
      BarrenGuest(pol, g, shared, c, d);
    } else {
      var f :| ShowsF(pol, g, shared, c, f) && (f.Base? ==> ShowsLeaf(pol, g, c, f.leaf))
        && (NeedsScoping(pol, st) || UnscopedF(pol, f));
      if f.Base? {
        LeafSeen(pol, g, shared, c, f.leaf);
      } else {
        BarrenF(pol, g, shared, c, f);
      }
    }
  }

  /** What the statement holds to scope is seen from its node. */
  lemma StatementSeen(pol: Policy, g: Graph, shared: set<nat>, n: nat, st: Statement)
    requires ShowsStatement(pol, g, shared, n, st) && NeedsScoping(pol, st)
    ensures Sees(g, n)
  {
    if !UnscopedQ(pol, st.query) {
      SeenQ(pol, g, shared, n, st.query);
    } else {
      var d :| d in st.guests && Concerns(pol, d);
      assert Invited(pol, g, shared, n, d);
      var c: nat :| c < |g| && Reachable(g, {}, n, c) && ShowsGuest(pol, g, shared, c, d);
      var path :| PathFrom(g, {}, n, path) && path[|path| - 1] == c;
      SeenGuest(pol, g, shared, c, d);
      SeesFurther(g, path);
    }
  }

  /** On the graph of a statement the walk answers exactly whether the statement reads a scoped table, holds an
      entity over SQL text of one, or holds DML on one. */
  lemma WalkDecides(pol: Policy, g: Graph, shared: set<nat>, n: nat, st: Statement)
    requires ShowsStatement(pol, g, shared, n, st)
    ensures ReadsPlain(g, {}, n) <==> NeedsScoping(pol, st)
  {
    FindsReference(g, {}, n);
    if NeedsScoping(pol, st) {
      StatementSeen(pol, g, shared, n, st);
      var path :| PathFrom(g, {}, n, path) && MayHit(g, path[|path| - 1]);
      var k := path[|path| - 1];
      assert k < |g| && Reachable(g, {}, n, k) && Hit(g, {}, n, k);
    } else {
      BarrenQ(pol, g, shared, n, st.query);
      forall c | c in shared ensures Barren(g, shared, c) {
        NothingShared(pol, g, shared, n, st, c);
      }
      forall k: nat | k < |g| && Reachable(g, {}, n, k) ensures !Hit(g, {}, n, k) {
        var path :| PathFrom(g, {}, n, path) && path[|path| - 1] == k;
        NothingHit(g, shared, n, path);
      }
    }
  }

  // ---- The graph of a statement with an inferred step -----------------------------------

  function Node(children: seq<nat>): Element { Element(false, -1, false, false, false, false, children) }

  function Occurrence(scoped: bool): Element { Element(false, -1, false, false, scoped, false, []) }

  lemma SecondIsNext(g: Graph, n: nat, path: seq<nat>)
    requires WellFormed(g) && PathFrom(g, {}, n, path)
    ensures |path| > 1 ==> path[1] in Next(g, {}, n)
  {
  }

  lemma OccurrenceShows(pol: Policy, g: Graph, n: nat, x: Leaf)
    requires WellFormed(g) && n < |g| && x.plain && g[n] == Occurrence(pol.Scopes(x))
    ensures ShowsLeaf(pol, g, n, x)
  {
    forall path | PathFrom(g, {}, n, path) ensures LeafElement(pol, g[path[|path| - 1]], x) {
      SecondIsNext(g, n, path);
    }
  }

  /** `select(a.x).select_from(a.join(b)).outerjoin(t)`, where SQLAlchemy infers the step's ON from b and t. */
  function InferredStep(a: Leaf, b: Leaf, t: Leaf, eq: seq<Value> -> Value, shape: seq<Row> -> seq<Row>): Query
  {
    Select([Col(a, 0)], [Join(Base(a), Base(b), Apply(eq, [Col(a, 0), Col(b, 0)]), Kind.Inner)],
      [Step(Base(t), Apply(eq, [Col(b, 1), Col(t, 0)]), LeftOuter, false, true, 0)], [], shape)
  }

  /** Its elements: the SELECT, the column, the join, `t`, `a`, `b`, and the join's ON. */
  function InferredStepGraph(pol: Policy, a: Leaf, b: Leaf, t: Leaf): (g: Graph)
    ensures WellFormed(g)
  {
    [Node([1, 2, 3, 4]), Occurrence(pol.Scopes(a)), Node([4, 5, 6]), Occurrence(pol.Scopes(t)),
     Occurrence(pol.Scopes(a)), Occurrence(pol.Scopes(b)), Node([4, 5])]
  }

  lemma OneExpr(pol: Policy, g: Graph, shared: set<nat>, nodes: seq<nat>, c: nat, e: Expr)
    requires WellFormed(g) && c in nodes && ShowsE(pol, g, shared, c, e)
    ensures HasEs(pol, g, shared, nodes, [e]) && IsE(pol, g, shared, c, [e])
  {
    assert [e][1..] == [];
  }

  lemma TwoExprs(pol: Policy, g: Graph, shared: set<nat>, c: nat, d: nat, e: Expr, f: Expr)
    requires WellFormed(g) && ShowsE(pol, g, shared, c, e) && ShowsE(pol, g, shared, d, f)
    ensures HasEs(pol, g, shared, [c, d], [e, f])
    ensures IsE(pol, g, shared, c, [e, f]) && IsE(pol, g, shared, d, [e, f])
  {
    assert [e, f][1..] == [f];
    OneExpr(pol, g, shared, [c, d], d, f);
    assert c in [c, d];
  }

  lemma JoinNode(
    pol: Policy, g: Graph, shared: set<nat>, n: nat, c: nat, d: nat, e: nat, a: Leaf, b: Leaf, on: Expr, kind: Kind)
    requires WellFormed(g) && Inner(g, n) && g[n].children == [c, d, e]
    requires ShowsLeaf(pol, g, c, a) && ShowsLeaf(pol, g, d, b) && ShowsE(pol, g, shared, e, on)
    ensures ShowsF(pol, g, shared, n, Join(Base(a), Base(b), on, kind))
  {
    var nodes := g[n].children;
    assert c in nodes && d in nodes && e in nodes;
  }

  lemma OnNode(pol: Policy, g: Graph, shared: set<nat>, n: nat, c: nat, d: nat, fn: seq<Value> -> Value, e: Expr,
      f: Expr)
    requires WellFormed(g) && Inner(g, n) && g[n].children == [c, d]
    requires ShowsE(pol, g, shared, c, e) && ShowsE(pol, g, shared, d, f)
    ensures ShowsE(pol, g, shared, n, Apply(fn, [e, f]))
  {
    TwoExprs(pol, g, shared, c, d, e, f);
  }

  lemma JoinShown(pol: Policy, a: Leaf, b: Leaf, t: Leaf, eq: seq<Value> -> Value, shared: set<nat>)
    requires a.plain && b.plain
    ensures ShowsF(pol, InferredStepGraph(pol, a, b, t), shared, 2,
      Join(Base(a), Base(b), Apply(eq, [Col(a, 0), Col(b, 0)]), Kind.Inner))
  {
    var g := InferredStepGraph(pol, a, b, t);
    OccurrenceShows(pol, g, 4, a);
    OccurrenceShows(pol, g, 5, b);
    OnNode(pol, g, shared, 6, 4, 5, eq, Col(a, 0), Col(b, 0));
    JoinNode(pol, g, shared, 2, 4, 5, 6, a, b, Apply(eq, [Col(a, 0), Col(b, 0)]), Kind.Inner);
  }

  lemma StepShown(pol: Policy, g: Graph, shared: set<nat>, nodes: seq<nat>, c: nat, s: Step, built: set<Leaf>)
    requires WellFormed(g) && c in nodes && ShowsF(pol, g, shared, c, s.target)
    requires !s.explicit && Flat(s.on) && forall x :: x in Reads(s.on) ==> x in built + Leaves(s.target)
    ensures HasSs(pol, g, shared, nodes, [s], built) && IsOfSs(pol, g, shared, c, [s])
  {
    assert [s][1..] == [];
  }

  lemma FromShown(pol: Policy, g: Graph, shared: set<nat>, nodes: seq<nat>, c: nat, f: From, read: seq<Leaf>)
    requires WellFormed(g) && c in nodes && ShowsF(pol, g, shared, c, f)
    ensures HasFs(pol, g, shared, nodes, [f], read) && IsF(pol, g, shared, c, [f])
    ensures LeavesOfAll([f]) == Leaves(f)
  {
    assert [f][1..] == [];
  }

  lemma FlatOne(e: Expr)
    requires Flat(e)
    ensures FlatAll([e]) && ReadsAll([e]) == Reads(e)
  {
    assert [e][1..] == [];
  }

  lemma FlatTwo(d: Expr, e: Expr)
    requires Flat(d) && Flat(e)
    ensures FlatAll([d, e]) && ReadsAll([d, e]) == Reads(d) + Reads(e)
  {
    FlatOne(e);
    assert [d, e][1..] == [e];
  }

  lemma InferredOn(b: Leaf, t: Leaf, eq: seq<Value> -> Value)
    ensures var on := Apply(eq, [Col(b, 1), Col(t, 0)]); Flat(on) && forall x :: x in Reads(on) ==> x == b || x == t
  {
    FlatTwo(Col(b, 1), Col(t, 0));
    assert Reads(Col(b, 1)) == [b] && Reads(Col(t, 0)) == [t];
  }

  /** A table inside a FROM join, reached by the walk through the join alone. */
  lemma InferredStepShown(
    pol: Policy, a: Leaf, b: Leaf, t: Leaf, eq: seq<Value> -> Value, shape: seq<Row> -> seq<Row>)
    requires a.plain && b.plain && t.plain
    ensures var (g, q) := (InferredStepGraph(pol, a, b, t), InferredStep(a, b, t, eq, shape));
      ShowsStatement(pol, g, {4}, 0, Statement(q, []))
  {
    var g, q := InferredStepGraph(pol, a, b, t), InferredStep(a, b, t, eq, shape);
    InferredQueryShown(pol, a, b, t, eq, shape);
    OccurrenceShows(pol, g, 4, a);
    SharedTable(pol, g, q, a, b);
  }

  lemma InferredQueryShown(
    pol: Policy, a: Leaf, b: Leaf, t: Leaf, eq: seq<Value> -> Value, shape: seq<Row> -> seq<Row>)
    requires a.plain && b.plain && t.plain
    ensures ShowsQ(pol, InferredStepGraph(pol, a, b, t), {4}, 0, InferredStep(a, b, t, eq, shape))
  {
    var g, q := InferredStepGraph(pol, a, b, t), InferredStep(a, b, t, eq, shape);
    OccurrenceShows(pol, g, 1, a);
    OccurrenceShows(pol, g, 3, t);
    JoinShown(pol, a, b, t, eq, {4});
    InferredOn(b, t, eq);
    SelectShown(pol, g, {4}, q);
  }

  /** A SELECT of one column, one FROM and one inferred step, whose node has one more child. */
  lemma SelectShown(pol: Policy, g: Graph, shared: set<nat>, q: Query)
    requires WellFormed(g) && Inner(g, 0) && g[0].children == [1, 2, 3, 4] && 4 in shared
    requires q.Select? && |q.cols| == |q.froms| == |q.steps| == 1 && q.where == []
    requires ShowsE(pol, g, shared, 1, q.cols[0]) && ShowsF(pol, g, shared, 2, q.froms[0])
    requires var s := q.steps[0];
      && ShowsF(pol, g, shared, 3, s.target) && !s.explicit && Flat(s.on)
      && forall x :: x in Reads(s.on) ==> x in Leaves(q.froms[0]) + Leaves(s.target)
    ensures ShowsQ(pol, g, shared, 0, q)
  {
    var nodes := g[0].children;
    assert q.cols == [q.cols[0]] && q.froms == [q.froms[0]] && q.steps == [q.steps[0]];
    OneExpr(pol, g, shared, nodes, 1, q.cols[0]);
    FromShown(pol, g, shared, nodes, 2, q.froms[0], ReadsAll(q.cols) + ReadsAll(q.where));
    StepShown(pol, g, shared, nodes, 3, q.steps[0], LeavesOfAll(q.froms));
  }

  lemma SharedTable(pol: Policy, g: Graph, q: Query, a: Leaf, b: Leaf)
    requires WellFormed(g) && ShowsLeaf(pol, g, 4, a)
    requires q.Select? && |q.froms| == 1 && q.froms[0].Join? && q.froms[0].left == Base(a)
    ensures forall c :: c in {4} ==> StandsFor(pol, g, {4}, c, Statement(q, []))
  {
    assert ShowsF(pol, g, {4}, 4, Base(a));
    if UnscopedQ(pol, q) {
      assert UnscopedFs(pol, q.froms);
      assert UnscopedF(pol, q.froms[0]);
    }
    assert StandsFor(pol, g, {4}, 4, Statement(q, []));
  }

  /** A SELECT, an entity and its SQL text. */
  function TextGraph(): (g: Graph)
    ensures WellFormed(g) && |g| == 3
    ensures g[0] == Node([1]) && g[1] == Element(true, 2, true, false, false, false, []) && g[2] == Node([])
  {
    [Node([1]), Element(true, 2, true, false, false, false, []), Node([])]
  }

  lemma TextShown(pol: Policy, shared: set<nat>)
    ensures ShowsGuest(pol, TextGraph(), shared, 1, TextEntity(true))
  {
    var g := TextGraph();
    forall path | PathFrom(g, {}, 2, path) ensures Silent(g[path[|path| - 1]]) {
      SecondIsNext(g, 2, path);
    }
  }

  lemma EntitySelected(pol: Policy, x: Leaf, shape: seq<Row> -> seq<Row>)
    requires !x.plain
    ensures ShowsQ(pol, TextGraph(), {1}, 0, Select([Col(x, 0)], [Base(x)], [], [], shape))
  {
    var g := TextGraph();
    OneExpr(pol, g, {1}, [1], 1, Col(x, 0));
    FromShown(pol, g, {1}, [1], 1, Base(x), ReadsAll([Col(x, 0)]) + ReadsAll([]));
  }

  lemma TextReached()
    ensures Reachable(TextGraph(), {}, 0, 1)
  {
    assert PathFrom(TextGraph(), {}, 0, [0, 1]);
  }

  /** `select(aliased(Doc, text(...)))` with a scoped `Doc`. */
  lemma TextEntityShown(pol: Policy, x: Leaf, shape: seq<Row> -> seq<Row>)
    requires !x.plain
    ensures var st := Statement(Select([Col(x, 0)], [Base(x)], [], [], shape), [TextEntity(true)]);
      ShowsStatement(pol, TextGraph(), {1}, 0, st) && NeedsScoping(pol, st)
  {
    var st := Statement(Select([Col(x, 0)], [Base(x)], [], [], shape), [TextEntity(true)]);
    EntitySelected(pol, x, shape);
    TextShown(pol, {1});
    TextReached();
    assert Invited(pol, TextGraph(), {1}, 0, TextEntity(true));
    assert StandsFor(pol, TextGraph(), {1}, 1, st);
    assert Concerns(pol, TextEntity(true));
  }

  // ---- The pass -----------------------------------------------------------------------

  /** The pass: the walk decides, and what it makes of the SELECT is exact and what full scoping would give. */
  method ScopeStatement(pol: Policy, st: Statement, g: Graph, root: nat, ghost shared: set<nat>) returns (r: Query)
    requires ShowsStatement(pol, g, shared, root, st)
    ensures r == ScopeCore(pol, st.query) == ScopeQ(pol, st.query)
    ensures forall w: World :: FitsQ(pol, st.query, {}) && Ready(pol, w) ==>
      EvalQ(r, map[], w) == EvalQ(st.query, map[], Prefiltered(w))
  {
    WalkDecides(pol, g, shared, root, st);
    var found := ReferencesPlain(g, root, {});
    if UnscopedQ(pol, st.query) {
      SameQ(pol, st.query);
    }
    forall w: World | FitsQ(pol, st.query, {}) && Ready(pol, w)
      ensures EvalQ(ScopeCore(pol, st.query), map[], w) == EvalQ(st.query, map[], Prefiltered(w))
    {
      CoreIsExact(pol, st.query, w);
    }
    if !found {
      return st.query;
    }
    return ScopeQ(pol, st.query);
  }
}
