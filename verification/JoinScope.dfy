/** Scoping one tree of joins: which predicates go into which ON, and which are still owed. */
module JoinScope {
  import opened Sql

  // ---- Predicates of one occurrence ------------------------------------------------

  function Unary(test: Value -> Value): seq<Value> -> Value
  {
    (vs: seq<Value>) => if |vs| == 1 then test(vs[0]) else Null
  }

  /** The predicates the policy attaches to occurrence `x`: none unless it is a plain table. */
  function PredicatesFor(pol: Policy, x: Leaf): seq<Expr>
  {
    if x.plain then TestsOn(x, pol.Preds(x.table)) else []
  }

  function TestsOn(x: Leaf, ps: seq<ScopePred>): (es: seq<Expr>)
    ensures |es| == |ps|
  {
    if ps == [] then [] else [Apply(Unary(ps[0].test), [Col(x, ps[0].column)])] + TestsOn(x, ps[1..])
  }

  function KeyIsNull(x: Leaf, key: seq<nat>): (es: seq<Expr>)
    ensures |es| == |key|
  {
    if key == [] then [] else [IsNull(Col(x, key[0]))] + KeyIsNull(x, key[1..])
  }

  /** The row of `x` is the NULL padding of an outer join: its primary key is NULL. */
  function PaddedTest(pol: Policy, x: Leaf): Expr { And(KeyIsNull(x, pol.Key(x.table))) }

  // ---- Owed predicates -------------------------------------------------------------

  /** Predicates a node's rows have not been tested for yet; `padded` once they have the
      form `pred OR <leaf padded>`. */
  datatype Owed = Owed(leaf: Leaf, preds: seq<Expr>, padded: bool)

  function Plainly(pol: Policy, x: Leaf): Owed { Owed(x, PredicatesFor(pol, x), false) }

  function OrPadded(pol: Policy, o: Owed): Owed
  {
    if o.padded || pol.Key(o.leaf.table) == [] then o
    else Owed(o.leaf, [Or(And(o.preds), PaddedTest(pol, o.leaf))], true)
  }

  function OrPaddedAll(pol: Policy, owed: seq<Owed>): (r: seq<Owed>)
    ensures |r| == |owed|
    ensures forall i :: 0 <= i < |r| ==> r[i] == OrPadded(pol, owed[i])
  {
    if owed == [] then [] else [OrPadded(pol, owed[0])] + OrPaddedAll(pol, owed[1..])
  }

  function Flatten(owed: seq<Owed>): seq<Expr>
  {
    if owed == [] then [] else owed[0].preds + Flatten(owed[1..])
  }

  // ---- One tree --------------------------------------------------------------------

  /** What the rows of a scoped tree still owe to whatever encloses it. */
  function OwedBy(pol: Policy, f: From): seq<Owed>
  {
    match f
    case Base(x) => if PredicatesFor(pol, x) != [] then [Plainly(pol, x)] else []
    case Derived(_, _) => []
    case Grouping(g) => OwedBy(pol, g)
    case Join(l, r, _, Inner) => OwedBy(pol, l) + OwedBy(pol, r)
    case Join(l, r, _, LeftOuter) => OwedBy(pol, l)
    case Join(l, r, _, FullOuter) => OrPaddedAll(pol, OwedBy(pol, l) + OwedBy(pol, r))
  }

  /** What a join tests in its own ON. */
  function TestedIn(pol: Policy, l: From, r: From, kind: Kind): seq<Owed>
  {
    match kind
    case Inner => []
    case LeftOuter => OwedBy(pol, r)
    case FullOuter => OwedBy(pol, l) + OwedBy(pol, r)
  }

  function Conjoin(on: Expr, owed: seq<Owed>): Expr
  {
    if owed == [] then on else And([on] + Flatten(owed))
  }

  /** The tree with its ON conditions scoped. */
  function Scoped(pol: Policy, f: From): (r: From)
    ensures Leaves(r) == Leaves(f)
  {
    match f
    case Base(_) => f
    case Derived(_, _) => f
    case Grouping(g) => Grouping(Scoped(pol, g))
    case Join(l, r, on, kind) => Join(Scoped(pol, l), Scoped(pol, r), Conjoin(on, TestedIn(pol, l, r, kind)), kind)
  }

  /** The plain leaves that scoping a tree has taken care of, left to right. */
  function CoveredBy(pol: Policy, f: From): seq<Leaf>
  {
    match f
    case Base(x) => if PredicatesFor(pol, x) != [] then [x] else []
    case Derived(_, _) => []
    case Grouping(g) => CoveredBy(pol, g)
    case Join(l, r, _, _) => CoveredBy(pol, l) + CoveredBy(pol, r)
  }

  // ---- Shape of a tree -------------------------------------------------------------

  /** Each FROM occurrence has an identity of its own; a derived table is not a plain leaf. */
  ghost predicate Distinct(f: From)
  {
    match f
    case Base(_) => true
    case Derived(x, _) => !x.plain
    case Grouping(g) => Distinct(g)
    case Join(l, r, _, _) => Distinct(l) && Distinct(r) && Leaves(l) !! Leaves(r)
  }

  /** The leaves that are present in every row of a join of the given kind. */
  function CertainOf(l: set<Leaf>, r: set<Leaf>, kind: Kind): set<Leaf>
  {
    match kind
    case Inner => l + r
    case LeftOuter => l
    case FullOuter => {}
  }

  function Certain(f: From): (c: set<Leaf>)
    ensures c <= Leaves(f)
  {
    match f
    case Base(x) => {x}
    case Derived(x, _) => {x}
    case Grouping(g) => Certain(g)
    case Join(l, r, _, kind) => CertainOf(Certain(l), Certain(r), kind)
  }
}
