/** Tables that an ORM entity LEFT-joins in: their criteria sit in that join's ON, so they get no WHERE. */
module OuterJoins {
  import opened Basics
  import opened Sql
  import opened JoinAlgebra

  /** `table` is the identity of the mapper's own table; `single` when it maps that table and nothing else. */
  datatype Mapper = Mapper(cls: nat, table: nat, single: bool)

  datatype OfType = NoType | OfClass(mapper: Mapper) | OfAlias

  /** What a `.join()` step joins in. `element` is the identity of the element without its annotations. */
  datatype Target =
    | Entity(mapper: Mapper, element: nat)
    | AliasedEntity(element: nat)
    | Path(child: Mapper, secondary: bool, ofType: OfType)
    | Raw(element: nat)

  datatype Entry = Entry(target: Target, outer: bool, full: bool)

  // ---- Which tables ----------------------------------------------------------------------

  /** The mapper and table that a relationship path lands on. */
  function RelationshipTarget(child: Mapper, secondary: bool, ofType: OfType): Option<(Mapper, nat)>
  {
    if secondary then None
    else
      match ofType
      case NoType => Some((child, child.table))
      case OfClass(m) => Some((m, m.table))
      case OfAlias => None
  }

  /** The class's criteria are rendered into the join's ON, and `t` is the one table it maps. */
  predicate OwnTable(m: Mapper, covered: set<nat>, t: nat) { m.cls in covered && m.single && m.table == t }

  /** The entry LEFT-joins table `t` in as a covered class's own and only table: as the class itself, or by a
      relationship without secondary, of the class it is narrowed to if it is. */
  ghost predicate FilteredInOn(e: Entry, covered: set<nat>, t: nat)
  {
    && e.outer && !e.full
    && ((e.target.Entity? && e.target.element == t && OwnTable(e.target.mapper, covered, t))
      || (e.target.Path? && !e.target.secondary && e.target.ofType.NoType? && OwnTable(e.target.child, covered, t))
      || (e.target.Path? && !e.target.secondary && e.target.ofType.OfClass?
        && OwnTable(e.target.ofType.mapper, covered, t)))
  }

  method OrmOuterJoinTables(entries: seq<Entry>, covered: set<nat>) returns (tables: seq<nat>)
    ensures forall t :: t in tables <==> exists e :: e in entries && FilteredInOn(e, covered, t)
  {
    tables := [];
    for i := 0 to |entries|
      invariant forall t :: t in tables <==> exists e :: e in entries[..i] && FilteredInOn(e, covered, t)
    {
      var entry := entries[i];
      assert entries[..i + 1] == entries[..i] + [entry];
      if !entry.outer || entry.full {
        continue;
      }
      var landed := match entry.target {
        case Entity(m, element) => Some((m, element))
        case Path(child, secondary, ofType) => RelationshipTarget(child, secondary, ofType)
        case _ => None
      };
      if landed.None? || landed.value.0.cls !in covered {
        continue;
      }
      var (mapper, table) := landed.value;
      if table == mapper.table && mapper.single {
        tables := tables + [table];
        assert FilteredInOn(entry, covered, table);
      }
    }
    assert entries[..|entries|] == entries;
  }

  // ---- Why only a LEFT join --------------------------------------------------------------

  /** `both` is the join's ON with the criteria `p` of the right side rendered into it. */
  ghost predicate Renders(l: Rel, r: Rel, m: Env -> bool, p: Env -> bool, both: Env -> bool)
  {
    forall a, b :: a in l.rows && b in r.rows ==> both(a + b) == (m(a + b) && p(b))
  }

  lemma {:induction false} MatchesRendered(a: Env, rs: seq<Env>, m: Env -> bool, p: Env -> bool, both: Env -> bool)
    requires forall b :: b in rs ==> both(a + b) == (m(a + b) && p(b))
    ensures Matches(a, rs, both) == Matches(a, Filter(rs, p), m)
  {
    if rs != [] {
      assert rs[0] in rs && forall b :: b in rs[1..] ==> b in rs;
      MatchesRendered(a, rs[1..], m, p, both);
      if p(rs[0]) {
        var kept := [rs[0]] + Filter(rs[1..], p);
        assert kept[1..] == Filter(rs[1..], p);
      }
    }
  }

  lemma {:induction false} LeftRendered(ls: seq<Env>, rs: seq<Env>, m: Env -> bool, p: Env -> bool, both: Env -> bool,
      outer: bool, pad: Env)
    requires forall a, b :: a in ls && b in rs ==> both(a + b) == (m(a + b) && p(b))
    ensures LeftPart(ls, rs, both, outer, pad) == LeftPart(ls, Filter(rs, p), m, outer, pad)
  {
    if ls != [] {
      assert ls[0] in ls && forall a :: a in ls[1..] ==> a in ls;
      MatchesRendered(ls[0], rs, m, p, both);
      LeftRendered(ls[1..], rs, m, p, both, outer, pad);
    }
  }

  /** Criteria in a LEFT join's ON are the same as filtering its right side first. */
  lemma LeftOnFilters(l: Rel, r: Rel, m: Env -> bool, p: Env -> bool, both: Env -> bool)
    requires Renders(l, r, m, p, both)
    ensures JoinRel(l, r, both, LeftOuter) == JoinRel(l, Rel(Filter(r.rows, p), r.leaves), m, LeftOuter)
  {
    LeftRendered(l.rows, r.rows, m, p, both, true, Padding(r.leaves));
  }

  lemma {:induction false} MatchesAllPass(a: Env, rs: seq<Env>, on: Env -> bool, q: Env -> bool)
    requires forall b :: b in rs && on(a + b) ==> q(a + b)
    ensures Filter(Matches(a, rs, on), q) == Matches(a, rs, on)
  {
    if rs != [] {
      assert rs[0] in rs && forall b :: b in rs[1..] ==> b in rs;
      MatchesAllPass(a, rs[1..], on, q);
      if on(a + rs[0]) {
        FilterCons(a + rs[0], Matches(a, rs[1..], on), q);
      }
    }
  }

  lemma {:induction false} LeftBecomesInner(ls: seq<Env>, rs: seq<Env>, on: Env -> bool, q: Env -> bool, pad: Env)
    requires forall a, b :: a in ls && b in rs && on(a + b) ==> q(a + b)
    requires forall a :: a in ls ==> !q(a + pad)
    ensures Filter(LeftPart(ls, rs, on, true, pad), q) == LeftPart(ls, rs, on, false, pad)
  {
    if ls != [] {
      var a := ls[0];
      assert a in ls && forall x :: x in ls[1..] ==> x in ls;
      LeftBecomesInner(ls[1..], rs, on, q, pad);
      MatchesAllPass(a, rs, on, q);
      var mine := if Matches(a, rs, on) == [] then [a + pad] else Matches(a, rs, on);
      FilterAppend(mine, LeftPart(ls[1..], rs, on, true, pad), q);
      if Matches(a, rs, on) == [] {
        assert Filter([a + pad], q) == [];
      }
    }
  }

  /** The same criteria in WHERE, false on padding, would turn the LEFT join into an inner one. */
  lemma WhereMakesInner(l: Rel, r: Rel, on: Env -> bool, q: Env -> bool)
    requires forall a, b :: a in l.rows && b in r.rows && on(a + b) ==> q(a + b)
    requires forall a :: a in l.rows ==> !q(a + Padding(r.leaves))
    ensures Filter(JoinRel(l, r, on, LeftOuter).rows, q) == JoinRel(l, r, on, Inner).rows
  {
    LeftBecomesInner(l.rows, r.rows, on, q, Padding(r.leaves));
    assert LeftPart(l.rows, r.rows, on, true, Padding(r.leaves)) + [] ==
      LeftPart(l.rows, r.rows, on, true, Padding(r.leaves));
  }

  lemma {:induction false} UnmatchedReturns(ls: seq<Env>, rs: seq<Env>, m: Env -> bool, pad: Env, b: Env)
    requires b in rs && forall a :: a in ls ==> !m(a + b)
    ensures pad + b in Unmatched(ls, rs, m, pad)
  {
    if rs[0] != b {
      assert rs == [rs[0]] + rs[1..];
      UnmatchedReturns(ls, rs[1..], m, pad, b);
    }
  }

  /** A FULL join returns every right row its own criteria reject, whatever ON says. */
  lemma FullReturnsRejected(l: Rel, r: Rel, m: Env -> bool, p: Env -> bool, both: Env -> bool, b: Env)
    requires Renders(l, r, m, p, both) && b in r.rows && !p(b)
    ensures Padding(l.leaves) + b in JoinRel(l, r, both, FullOuter).rows
  {
    UnmatchedReturns(l.rows, r.rows, both, Padding(l.leaves), b);
  }

  /** ON alone keeps rejected right rows out of an outer join, whatever is joined, exactly when it is not FULL. */
  lemma OnIsEnoughIff(l: Rel, r: Rel, m: Env -> bool, p: Env -> bool, both: Env -> bool, kind: Kind)
    requires Renders(l, r, m, p, both) && kind != Inner
    requires exists b :: b in r.rows && !p(b)
    ensures kind == LeftOuter <==>
      JoinRel(l, r, both, kind).rows == JoinRel(l, Rel(Filter(r.rows, p), r.leaves), m, kind).rows
  {
    if kind == LeftOuter {
      LeftOnFilters(l, r, m, p, both);
    } else {
      var pad, kept := Padding(l.leaves), Filter(r.rows, p);
      LeftRendered(l.rows, r.rows, m, p, both, true, Padding(r.leaves));
      UnmatchedCount(l.rows, r.rows, m, p, both, pad);
    }
  }

  /** Rendering criteria into ON leaves more unmatched right rows than filtering them away. */
  lemma {:induction false} UnmatchedCount(ls: seq<Env>, rs: seq<Env>, m: Env -> bool, p: Env -> bool,
      both: Env -> bool, pad: Env)
    requires forall a, b :: a in ls && b in rs ==> both(a + b) == (m(a + b) && p(b))
    ensures |Unmatched(ls, rs, both, pad)| >= |Unmatched(ls, Filter(rs, p), m, pad)|
    ensures (exists b :: b in rs && !p(b)) ==> |Unmatched(ls, rs, both, pad)| > |Unmatched(ls, Filter(rs, p), m, pad)|
  {
    if rs != [] {
      assert rs == [rs[0]] + rs[1..];
      assert rs[0] in rs && forall b :: b in rs[1..] ==> b in rs;
      UnmatchedCount(ls, rs[1..], m, p, both, pad);
      if p(rs[0]) {
        var kept := [rs[0]] + Filter(rs[1..], p);
        assert kept[1..] == Filter(rs[1..], p);
        forall a | a in ls ensures both(a + rs[0]) == m(a + rs[0]) {
        }
      } else {
        forall a | a in ls ensures !both(a + rs[0]) {
        }
      }
    }
  }
}
