/** Rows, three-valued expressions, joins and SELECTs: the part of SQL that scoping rewrites.

  A FROM occurrence is a `Leaf` with an identity of its own.  A join row says of every
  leaf whether its row is there or is the NULL padding of an outer join; the scope an
  expression is evaluated in is such a row too, so a correlated subquery sees the row
  of the enclosing SELECT.  Outer joins follow "<joined table>", section 7.5 of
  ISO/IEC 9075:1992. */
module Sql {

  // ---- Values and rows -------------------------------------------------------------

  /** A column value.  A truth value is a number too: `Val(0)` is false, `Null` is unknown. */
  datatype Value = Null | Val(n: int)

  type Row = seq<Value>

  predicate IsTrue(v: Value) { v.Val? && v.n != 0 }

  function Truth(b: bool): Value { if b then Val(1) else Val(0) }

  function At(row: Row, column: nat): Value { if column < |row| then row[column] else Null }

  /** Three-valued AND and OR over any number of operands. */
  function AllOf(vs: seq<Value>): Value
  {
    if Val(0) in vs then Val(0) else if Null in vs then Null else Val(1)
  }

  function AnyOf(vs: seq<Value>): Value
  {
    if exists v :: v in vs && IsTrue(v) then Val(1) else if Null in vs then Null else Val(0)
  }

  function IsNullOf(vs: seq<Value>): Value { Truth(|vs| == 1 && vs[0] == Null) }

  // ---- Syntax ----------------------------------------------------------------------

  /** One FROM occurrence: `plain` for a Core table (or an alias of one), otherwise an
      ORM-annotated occurrence or a derived table. */
  datatype Leaf = Leaf(id: nat, table: string, plain: bool)

  datatype Kind = Inner | LeftOuter | FullOuter

  datatype From =
    | Base(leaf: Leaf)
    | Derived(leaf: Leaf, query: Query)
    | Grouping(element: From)
    | Join(left: From, right: From, on: Expr, kind: Kind)

  /** `Apply` is any scalar or boolean operator; `Subquery` any operator over the rows of
      a nested SELECT (EXISTS, IN, ANY, a scalar subquery). */
  datatype Expr =
    | Col(leaf: Leaf, column: nat)
    | Apply(fn: seq<Value> -> Value, args: seq<Expr>)
    | Subquery(use: (seq<Value>, seq<Row>) -> Value, operands: seq<Expr>, query: Query)

  /** One `.join()` step onto element `at` of the FROM list.  `explicit`: the caller gave
      the ON clause; `resolvable`: SQLAlchemy can build the join to look at. */
  datatype Step = Step(target: From, on: Expr, kind: Kind, explicit: bool, resolvable: bool, at: nat)

  /** `froms` are the FROM elements before the steps; `shape` is whatever GROUP BY,
      DISTINCT, ORDER BY and LIMIT make of the selected rows. */
  datatype Query =
    | Select(cols: seq<Expr>, froms: seq<From>, steps: seq<Step>, where: seq<Expr>, shape: seq<Row> -> seq<Row>)
    | Compound(combine: (seq<Row>, seq<Row>) -> seq<Row>, first: Query, second: Query)

  function And(es: seq<Expr>): Expr { Apply(AllOf, es) }

  function Or(l: Expr, r: Expr): Expr { Apply(AnyOf, [l, r]) }

  function IsNull(e: Expr): Expr { Apply(IsNullOf, [e]) }

  function Leaves(f: From): set<Leaf>
  {
    match f
    case Base(x) => {x}
    case Derived(x, _) => {x}
    case Grouping(g) => Leaves(g)
    case Join(l, r, _, _) => Leaves(l) + Leaves(r)
  }

  // ---- Policy and database ---------------------------------------------------------

  /** A predicate on one column of a table: `tenant_id = :t`, `is_deleted IS FALSE`. */
  datatype ScopePred = ScopePred(column: nat, test: Value -> Value)

  datatype Policy = Policy(preds: map<string, seq<ScopePred>>, keys: map<string, seq<nat>>)
  {
    function Preds(table: string): seq<ScopePred> { if table in preds then preds[table] else [] }

    function Key(table: string): seq<nat> { if table in keys then keys[table] else [] }

    predicate Scopes(x: Leaf) { x.plain && Preds(x.table) != [] }

    predicate Admits(table: string, row: Row)
    {
      forall i :: 0 <= i < |Preds(table)| ==> IsTrue(Preds(table)[i].test(At(row, Preds(table)[i].column)))
    }

    /** Every scoped table has a primary key. */
    ghost predicate Keyed() { forall t :: t in preds && preds[t] != [] ==> Key(t) != [] }
  }

  /** The tables a statement runs over.  With `prefilter`, a plain occurrence reads only
      the rows its policy admits; other occurrences always read the whole table. */
  datatype World = World(tables: map<string, seq<Row>>, policy: Policy, prefilter: bool)
  {
    function Rows(x: Leaf): seq<Row>
    {
      var all := if x.table in tables then tables[x.table] else [];
      if prefilter && x.plain then Filter(all, Admitted(policy, x.table)) else all
    }

    /** Primary key columns are never NULL in a stored row. */
    ghost predicate Valid()
    {
      forall t, row, c :: t in tables && row in tables[t] && c in policy.Key(t) ==> At(row, c) != Null
    }
  }

  function Admitted(pol: Policy, table: string): Row -> bool { row => pol.Admits(table, row) }

  // ---- Join rows -------------------------------------------------------------------

  datatype Slot = Padded | Present(row: Row)

  type Env = map<Leaf, Slot>

  function Padding(leaves: set<Leaf>): Env { map x | x in leaves :: Padded }

  function Filter<T>(s: seq<T>, p: T -> bool): (r: seq<T>)
  {
    if s == [] then [] else if p(s[0]) then [s[0]] + Filter(s[1..], p) else Filter(s[1..], p)
  }

  /** The rows `l` joins with, in order. */
  function Matches(l: Env, rs: seq<Env>, m: Env -> bool): seq<Env>
  {
    if rs == [] then []
    else if m(l + rs[0]) then [l + rs[0]] + Matches(l, rs[1..], m)
    else Matches(l, rs[1..], m)
  }

  /** For each left row its matches, or with `outer` one row padded by `pad` when there are none. */
  function LeftPart(ls: seq<Env>, rs: seq<Env>, m: Env -> bool, outer: bool, pad: Env): seq<Env>
  {
    if ls == [] then [] else
    var ms := Matches(ls[0], rs, m);
    (if outer && ms == [] then [ls[0] + pad] else ms) + LeftPart(ls[1..], rs, m, outer, pad)
  }

  /** The right rows no left row matches, padded on the left. */
  function Unmatched(ls: seq<Env>, rs: seq<Env>, m: Env -> bool, pad: Env): seq<Env>
  {
    if rs == [] then []
    else if exists l :: l in ls && m(l + rs[0]) then Unmatched(ls, rs[1..], m, pad)
    else [pad + rs[0]] + Unmatched(ls, rs[1..], m, pad)
  }

  /** Rows over a set of leaves. */
  datatype Rel = Rel(rows: seq<Env>, leaves: set<Leaf>)

  function JoinRel(l: Rel, r: Rel, m: Env -> bool, kind: Kind): Rel
  {
    var left := LeftPart(l.rows, r.rows, m, kind != Inner, Padding(r.leaves));
    var right := if kind == FullOuter then Unmatched(l.rows, r.rows, m, Padding(l.leaves)) else [];
    Rel(left + right, l.leaves + r.leaves)
  }

  function Always(): Env -> bool { _ => true }

  /** The product of the FROM list. */
  function Product(rels: seq<Rel>): Rel
  {
    if rels == [] then Rel([map[]], {}) else JoinRel(rels[0], Product(rels[1..]), Always(), Inner)
  }

  // ---- Evaluation ------------------------------------------------------------------

  function EvalE(e: Expr, env: Env, w: World): Value
    decreases e, 1
  {
    match e
    case Col(x, c) => if x in env && env[x].Present? then At(env[x].row, c) else Null
    case Apply(fn, args) => fn(EvalEs(args, env, w))
    case Subquery(use, operands, q) => use(EvalEs(operands, env, w), EvalQ(q, env, w))
  }

  function EvalEs(es: seq<Expr>, env: Env, w: World): (vs: seq<Value>)
    ensures |vs| == |es|
    decreases es, 0
  {
    if es == [] then [] else [EvalE(es[0], env, w)] + EvalEs(es[1..], env, w)
  }

  /** The ON condition as a test on the combined row, in scope `env`. */
  function Matcher(on: Expr, env: Env, w: World): Env -> bool
    decreases on, 2
  {
    (row: Env) => IsTrue(EvalE(on, env + row, w))
  }

  function EvalF(f: From, env: Env, w: World): (r: Rel)
    ensures r.leaves == Leaves(f)
    decreases f, 1
  {
    match f
    case Base(x) => Rel(Occurrences(x, w.Rows(x)), {x})
    case Derived(x, q) => Rel(Occurrences(x, EvalQ(q, env, w)), {x})
    case Grouping(g) => EvalF(g, env, w)
    case Join(l, r, on, kind) => JoinRel(EvalF(l, env, w), EvalF(r, env, w), Matcher(on, env, w), kind)
  }

  function Occurrences(x: Leaf, rows: seq<Row>): (r: seq<Env>)
    ensures |r| == |rows|
    ensures forall i :: 0 <= i < |r| ==> r[i] == map[x := Present(rows[i])]
  {
    if rows == [] then [] else [map[x := Present(rows[0])]] + Occurrences(x, rows[1..])
  }

  function EvalFs(fs: seq<From>, env: Env, w: World): (rels: seq<Rel>)
    ensures |rels| == |fs|
    decreases fs, 0
  {
    if fs == [] then [] else [EvalF(fs[0], env, w)] + EvalFs(fs[1..], env, w)
  }

  /** The FROM list after the `.join()` steps, left to right. */
  function EvalSteps(steps: seq<Step>, rels: seq<Rel>, env: Env, w: World): (r: seq<Rel>)
    ensures |r| == |rels|
    decreases steps, 0
  {
    if steps == [] then rels else EvalSteps(steps[1..], EvalStep(steps[0], rels, env, w), env, w)
  }

  function EvalStep(s: Step, rels: seq<Rel>, env: Env, w: World): (r: seq<Rel>)
    ensures |r| == |rels|
    decreases s, 1
  {
    if s.at >= |rels| then rels
    else rels[s.at := JoinRel(rels[s.at], EvalF(s.target, env, w), Matcher(s.on, env, w), s.kind)]
  }

  /** Do all WHERE criteria hold of a row? */
  function Where(where: seq<Expr>, env: Env, w: World): Env -> bool
    decreases where, 2
  {
    (row: Env) => forall v :: v in EvalEs(where, env + row, w) ==> IsTrue(v)
  }

  /** The join rows a SELECT keeps, before its columns are computed. */
  function Survivors(q: Query, env: Env, w: World): seq<Env>
    requires q.Select?
    decreases q, 0
  {
    Filter(Product(EvalSteps(q.steps, EvalFs(q.froms, env, w), env, w)).rows, Where(q.where, env, w))
  }

  function Project(cols: seq<Expr>, rows: seq<Env>, env: Env, w: World): (r: seq<Row>)
    ensures |r| == |rows|
    decreases cols, 1, |rows|
  {
    if rows == [] then [] else [EvalEs(cols, env + rows[0], w)] + Project(cols, rows[1..], env, w)
  }

  function EvalQ(q: Query, env: Env, w: World): seq<Row>
    decreases q, 1
  {
    match q
    case Select(cols, _, _, _, shape) => shape(Project(cols, Survivors(q, env, w), env, w))
    case Compound(combine, a, b) => combine(EvalQ(a, env, w), EvalQ(b, env, w))
  }
}
