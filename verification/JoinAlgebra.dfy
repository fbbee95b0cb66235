/** How filtering commutes with products and joins, on sequences of rows. */
module JoinAlgebra {
  import opened Sql

  lemma FilterAppend<T>(a: seq<T>, b: seq<T>, p: T -> bool)
    ensures Filter(a + b, p) == Filter(a, p) + Filter(b, p)
  {
    if a == [] {
      assert a + b == b;
    } else {
      assert (a + b)[1..] == a[1..] + b;
      FilterAppend(a[1..], b, p);
    }
  }

  lemma {:induction false} FilterMember<T>(s: seq<T>, p: T -> bool, x: T)
    ensures x in Filter(s, p) <==> x in s && p(x)
  {
    if s != [] {
      FilterMember(s[1..], p, x);
      assert s == [s[0]] + s[1..];
    }
  }

  lemma FilterMembers<T>(s: seq<T>, p: T -> bool)
    ensures forall x :: x in Filter(s, p) <==> x in s && p(x)
  {
    forall x ensures x in Filter(s, p) <==> x in s && p(x) {
      FilterMember(s, p, x);
    }
  }

  lemma {:induction false} FilterAgree<T>(s: seq<T>, p: T -> bool, q: T -> bool)
    requires forall x :: x in s ==> p(x) == q(x)
    ensures Filter(s, p) == Filter(s, q)
  {
    if s != [] {
      assert s[0] in s && forall x :: x in s[1..] ==> x in s;
      FilterAgree(s[1..], p, q);
    }
  }

  /** Filtering by `p && q` is filtering the `p` rows by any test that agrees with `q` on them. */
  lemma {:induction false} FilterBoth<T>(s: seq<T>, p: T -> bool, q: T -> bool, both: T -> bool)
    requires forall x :: x in s ==> both(x) == (p(x) && q(x))
    ensures Filter(s, both) == Filter(Filter(s, p), q)
  {
    if s != [] {
      assert s[0] in s && forall x :: x in s[1..] ==> x in s;
      FilterBoth(s[1..], p, q, both);
      FilterAppend(if p(s[0]) then [s[0]] else [], Filter(s[1..], p), q);
      assert Filter([s[0]], q) == if q(s[0]) then [s[0]] else [];
    }
  }

  lemma {:induction false} MatchesMember(l: Env, rs: seq<Env>, m: Env -> bool, row: Env)
    ensures row in Matches(l, rs, m) <==> exists r :: r in rs && row == l + r && m(l + r)
  {
    if rs != [] {
      MatchesMember(l, rs[1..], m, row);
      assert rs == [rs[0]] + rs[1..];
    }
  }

  lemma {:induction false} LeftPartMember(ls: seq<Env>, rs: seq<Env>, m: Env -> bool, outer: bool, pad: Env, row: Env)
    requires row in LeftPart(ls, rs, m, outer, pad)
    ensures (exists l, r :: l in ls && r in rs && row == l + r && m(l + r))
      || (outer && exists l :: l in ls && row == l + pad)
  {
    var ms := Matches(ls[0], rs, m);
    MatchesMember(ls[0], rs, m, row);
    assert ls[0] in ls && forall l :: l in ls[1..] ==> l in ls;
    if row !in (if outer && ms == [] then [ls[0] + pad] else ms) {
      LeftPartMember(ls[1..], rs, m, outer, pad, row);
    }
  }

  lemma {:induction false} UnmatchedMember(ls: seq<Env>, rs: seq<Env>, m: Env -> bool, pad: Env, row: Env)
    requires row in Unmatched(ls, rs, m, pad)
    ensures exists r :: r in rs && row == pad + r
  {
    assert rs[0] in rs && forall r :: r in rs[1..] ==> r in rs;
    if row in Unmatched(ls, rs[1..], m, pad) {
      UnmatchedMember(ls, rs[1..], m, pad, row);
    }
  }

  /** Every row of a join is a matched pair or one row padded on the other side. */
  ghost predicate FromPair(l: Rel, r: Rel, m: Env -> bool, kind: Kind, row: Env)
  {
    || (exists a, b :: a in l.rows && b in r.rows && row == a + b && m(a + b))
    || (kind != Inner && exists a :: a in l.rows && row == a + Padding(r.leaves))
    || (kind == FullOuter && exists b :: b in r.rows && row == Padding(l.leaves) + b)
  }

  lemma JoinMember(l: Rel, r: Rel, m: Env -> bool, kind: Kind, row: Env)
    requires row in JoinRel(l, r, m, kind).rows
    ensures FromPair(l, r, m, kind, row)
  {
    if row in LeftPart(l.rows, r.rows, m, kind != Inner, Padding(r.leaves)) {
      LeftPartMember(l.rows, r.rows, m, kind != Inner, Padding(r.leaves), row);
    } else {
      UnmatchedMember(l.rows, r.rows, m, Padding(l.leaves), row);
    }
  }

  /** What a test `p` must satisfy for filtering by it to be pushed through a join whose
      condition changes from `m` to `n`. */
  ghost predicate Pushes(l: Rel, r: Rel, n: Env -> bool, m: Env -> bool, kind: Kind, p: Env -> bool)
  {
    && (forall a, b :: a in l.rows && b in r.rows ==> p(a + b) == (p(a) && p(b)))
    && (forall a :: a in l.rows ==> p(a + Padding(r.leaves)) == p(a))
    && (forall b :: b in r.rows ==> p(Padding(l.leaves) + b) == p(b))
    && (forall a, b :: a in l.rows && b in r.rows ==>
        match kind
        case Inner => p(a) && p(b) ==> n(a + b) == m(a + b)
        case LeftOuter => p(a) ==> n(a + b) == (p(b) && m(a + b))
        case FullOuter => n(a + b) == (p(a) && p(b) && m(a + b)))
  }

  lemma FilterCons<T>(x: T, s: seq<T>, p: T -> bool)
    ensures Filter([x] + s, p) == if p(x) then [x] + Filter(s, p) else Filter(s, p)
  {
    assert ([x] + s)[1..] == s;
  }

  lemma {:induction false} MatchesInner(a: Env, rs: seq<Env>, n: Env -> bool, m: Env -> bool, p: Env -> bool)
    requires forall b :: b in rs ==> p(a + b) == (p(a) && p(b)) && (p(a) && p(b) ==> n(a + b) == m(a + b))
    ensures Filter(Matches(a, rs, n), p) == if p(a) then Matches(a, Filter(rs, p), m) else []
  {
    if rs != [] {
      var b, rest := rs[0], rs[1..];
      assert b in rs && forall x :: x in rest ==> x in rs;
      MatchesInner(a, rest, n, m, p);
      FilterCons(a + b, Matches(a, rest, n), p);
      MatchesCons(a, b, Filter(rest, p), m);
    }
  }

  lemma MatchesCons(a: Env, b: Env, rs: seq<Env>, m: Env -> bool)
    ensures Matches(a, [b] + rs, m) == if m(a + b) then [a + b] + Matches(a, rs, m) else Matches(a, rs, m)
  {
    assert ([b] + rs)[1..] == rs;
  }

  lemma {:induction false} MatchesOuter(a: Env, rs: seq<Env>, n: Env -> bool, m: Env -> bool, p: Env -> bool)
    requires forall b :: b in rs ==> n(a + b) == (p(b) && m(a + b))
    ensures Matches(a, rs, n) == Matches(a, Filter(rs, p), m)
  {
    if rs != [] {
      var b, rest := rs[0], rs[1..];
      assert b in rs && forall x :: x in rest ==> x in rs;
      MatchesOuter(a, rest, n, m, p);
      MatchesCons(a, b, Filter(rest, p), m);
    }
  }

  lemma {:induction false} FilterAll<T>(s: seq<T>, p: T -> bool, keep: bool)
    requires forall x :: x in s ==> p(x) == keep
    ensures Filter(s, p) == if keep then s else []
  {
    if s != [] {
      assert s[0] in s && forall x :: x in s[1..] ==> x in s;
      FilterAll(s[1..], p, keep);
    }
  }

  /** What one left row contributes to a join. */
  function Mine(a: Env, rs: seq<Env>, m: Env -> bool, outer: bool, pad: Env): seq<Env>
  {
    var ms := Matches(a, rs, m);
    if outer && ms == [] then [a + pad] else ms
  }

  lemma MinePush(a: Env, l: Rel, r: Rel, n: Env -> bool, m: Env -> bool, kind: Kind, p: Env -> bool)
    requires a in l.rows && Pushes(l, r, n, m, kind, p)
    ensures Filter(Mine(a, r.rows, n, kind != Inner, Padding(r.leaves)), p)
         == if p(a) then Mine(a, Filter(r.rows, p), m, kind != Inner, Padding(r.leaves)) else []
  {
    if kind == Inner {
      MatchesInner(a, r.rows, n, m, p);
    } else {
      if p(a) {
        MatchesOuter(a, r.rows, n, m, p);
      }
      forall x | x in Matches(a, r.rows, n) ensures p(x) == p(a) {
        MatchesMember(a, r.rows, n, x);
      }
      FilterAll(Mine(a, r.rows, n, true, Padding(r.leaves)), p, p(a));
    }
  }

  lemma LeftPartCons(a: Env, ls: seq<Env>, rs: seq<Env>, m: Env -> bool, outer: bool, pad: Env)
    ensures LeftPart([a] + ls, rs, m, outer, pad) == Mine(a, rs, m, outer, pad) + LeftPart(ls, rs, m, outer, pad)
  {
    assert ([a] + ls)[1..] == ls;
  }

  lemma {:induction false} LeftPartPush(ls: seq<Env>, l: Rel, r: Rel, n: Env -> bool, m: Env -> bool, kind: Kind,
      p: Env -> bool)
    requires forall a :: a in ls ==> a in l.rows
    requires Pushes(l, r, n, m, kind, p)
    ensures Filter(LeftPart(ls, r.rows, n, kind != Inner, Padding(r.leaves)), p)
         == LeftPart(Filter(ls, p), Filter(r.rows, p), m, kind != Inner, Padding(r.leaves))
  {
    if ls != [] {
      var a, rest, outer, pad := ls[0], ls[1..], kind != Inner, Padding(r.leaves);
      assert a in ls && forall x :: x in rest ==> x in ls;
      LeftPartPush(rest, l, r, n, m, kind, p);
      MinePush(a, l, r, n, m, kind, p);
      FilterAppend(Mine(a, r.rows, n, outer, pad), LeftPart(rest, r.rows, n, outer, pad), p);
      LeftPartCons(a, Filter(rest, p), Filter(r.rows, p), m, outer, pad);
    }
  }

  lemma UnmatchedCons(ls: seq<Env>, b: Env, rs: seq<Env>, m: Env -> bool, pad: Env)
    ensures Unmatched(ls, [b] + rs, m, pad)
         == if exists a :: a in ls && m(a + b) then Unmatched(ls, rs, m, pad) else [pad + b] + Unmatched(ls, rs, m, pad)
  {
    assert ([b] + rs)[1..] == rs;
  }

  lemma {:induction false} UnmatchedPush(rs: seq<Env>, l: Rel, r: Rel, n: Env -> bool, m: Env -> bool, p: Env -> bool)
    requires forall b :: b in rs ==> b in r.rows
    requires Pushes(l, r, n, m, FullOuter, p)
    ensures Filter(Unmatched(l.rows, rs, n, Padding(l.leaves)), p)
         == Unmatched(Filter(l.rows, p), Filter(rs, p), m, Padding(l.leaves))
  {
    if rs != [] {
      var b, rest, pad := rs[0], rs[1..], Padding(l.leaves);
      assert b in rs && forall x :: x in rest ==> x in rs;
      UnmatchedPush(rest, l, r, n, m, p);
      FilterMembers(l.rows, p);
      FilterCons(pad + b, Unmatched(l.rows, rest, n, pad), p);
      UnmatchedCons(Filter(l.rows, p), b, Filter(rest, p), m, pad);
      assert p(b) ==> ((exists a :: a in l.rows && n(a + b)) <==> (exists a :: a in Filter(l.rows, p) && m(a + b)));
    }
  }

  /** Filtering a join by `p` is joining the filtered sides. */
  lemma JoinPush(l: Rel, r: Rel, n: Env -> bool, m: Env -> bool, kind: Kind, p: Env -> bool)
    requires Pushes(l, r, n, m, kind, p)
    ensures Filter(JoinRel(l, r, n, kind).rows, p)
         == JoinRel(Rel(Filter(l.rows, p), l.leaves), Rel(Filter(r.rows, p), r.leaves), m, kind).rows
  {
    var pad := Padding(r.leaves);
    LeftPartPush(l.rows, l, r, n, m, kind, p);
    if kind == FullOuter {
      UnmatchedPush(r.rows, l, r, n, m, p);
      FilterAppend(LeftPart(l.rows, r.rows, n, true, pad), Unmatched(l.rows, r.rows, n, Padding(l.leaves)), p);
    } else {
      assert LeftPart(l.rows, r.rows, n, kind != Inner, pad) + [] == LeftPart(l.rows, r.rows, n, kind != Inner, pad);
    }
  }
}
