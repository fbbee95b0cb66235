/** Scoping whole statements: the FROM joins and `.join()` steps of one SELECT, the WHERE
  predicates of the tables it reads besides, and every SELECT nested in it. */
module CoreScope {
  import opened Basics
  import opened Sql
  import opened JoinScope

  // ---- The FROM joins and the `.join()` steps of one SELECT ------------------------

  /** The entries owed to WHERE so far and the leaves taken care of so far. */
  datatype Ledger = Ledger(owed: seq<Owed>, covered: seq<Leaf>)

  /** FROM joins are scoped as trees; other FROM elements are left alone. */
  function ScopeFroms(pol: Policy, froms: seq<From>, led: Ledger): (r: (seq<From>, Ledger))
    ensures |r.0| == |froms|
    decreases |froms|
  {
    if froms == [] then ([], led) else
    var f := froms[0];
    var next := if f.Join? then Ledger(led.owed + OwedBy(pol, f), led.covered + CoveredBy(pol, f)) else led;
    var (rest, end) := ScopeFroms(pol, froms[1..], next);
    ([if f.Join? then Scoped(pol, f) else f] + rest, end)
  }

  /** The plain leaves of the FROM built so far, in the order a stack of nodes gives: right side first. */
  function PlainLeaves(f: From): seq<Leaf>
  {
    match f
    case Base(x) => if x.plain then [x] else []
    case Derived(_, _) => []
    case Grouping(g) => PlainLeaves(g)
    case Join(l, r, _, _) => PlainLeaves(r) + PlainLeaves(l)
  }

  function EntriesOf(owed: seq<Owed>, x: Leaf): seq<Owed>
  {
    if owed == [] then []
    else if owed[0].leaf == x then [owed[0]] + EntriesOf(owed[1..], x)
    else EntriesOf(owed[1..], x)
  }

  /** What one leaf preserved on a FULL step's left side owes. */
  function LeafOwed(pol: Policy, x: Leaf, led: Ledger): (seq<Owed>, Ledger)
  {
    var mine := EntriesOf(led.owed, x);
    if mine != [] then (mine, led)
    else if x in led.covered || PredicatesFor(pol, x) == [] then ([], led)
    else ([Plainly(pol, x)], Ledger(led.owed + [Plainly(pol, x)], led.covered + [x]))
  }

  function LeftOwed(pol: Policy, leaves: seq<Leaf>, led: Ledger): (seq<Owed>, Ledger)
  {
    if leaves == [] then ([], led) else
    var (mine, next) := LeafOwed(pol, leaves[0], led);
    var (rest, end) := LeftOwed(pol, leaves[1..], next);
    (mine + rest, end)
  }

  /** Whether the join SQLAlchemy builds for the step is found. */
  predicate Resolved(pol: Policy, s: Step)
  {
    (s.kind == FullOuter || (s.kind == LeftOuter && !s.explicit && OwedBy(pol, s.target) != [])) && s.resolvable
  }

  /** One `.join()` step whose left side is `left`. */
  function ScopeStep(pol: Policy, s: Step, left: From, led: Ledger): (Step, Ledger)
  {
    var owing := OwedBy(pol, s.target);
    var seen := led.(covered := led.covered + CoveredBy(pol, s.target));
    var (leftOwing, next) :=
      if s.kind == FullOuter && Resolved(pol, s) then LeftOwed(pol, PlainLeaves(left), seen) else ([], seen);
    var step := s.(target := Scoped(pol, s.target));
    if owing == [] && leftOwing == [] then (step, next)
    else if s.kind == Inner || !(s.explicit || Resolved(pol, s)) then (step, next.(owed := next.owed + owing))
    else (step.(on := Conjoin(s.on, owing + OrPaddedAll(pol, leftOwing)), explicit := true),
          if s.kind == FullOuter then next.(owed := next.owed + owing) else next)
  }

  /** The FROM list once a step has been joined on. */
  function Built(built: seq<From>, s: Step): (r: seq<From>)
    ensures |r| == |built|
  {
    if s.at < |built| then built[s.at := Join(built[s.at], s.target, s.on, s.kind)] else built
  }

  function LeftSide(built: seq<From>, s: Step): From
  {
    if s.at < |built| then built[s.at] else s.target
  }

  function ScopeSteps(pol: Policy, steps: seq<Step>, built: seq<From>, led: Ledger): (r: (seq<Step>, Ledger))
    ensures |r.0| == |steps|
    decreases |steps|
  {
    if steps == [] then ([], led) else
    var (step, next) := ScopeStep(pol, steps[0], LeftSide(built, steps[0]), led);
    var (rest, end) := ScopeSteps(pol, steps[1..], Built(built, steps[0]), next);
    ([step] + rest, end)
  }

  predicate AnyFull(steps: seq<Step>) { exists i :: 0 <= i < |steps| && steps[i].kind == FullOuter }

  datatype Joined = Joined(froms: seq<From>, steps: seq<Step>, where: seq<Expr>, covered: seq<Leaf>)

  function ScopeJoins(pol: Policy, froms: seq<From>, steps: seq<Step>): Joined
  {
    var (scopedFroms, led) := ScopeFroms(pol, froms, Ledger([], []));
    var (scopedSteps, end) := ScopeSteps(pol, steps, froms, led);
    var owed := if AnyFull(steps) then OrPaddedAll(pol, end.owed) else end.owed;
    Joined(scopedFroms, scopedSteps, Flatten(owed), end.covered)
  }

  // ---- The tables a SELECT reads besides its joins ---------------------------------

  /** The occurrences an expression's own columns name; a nested SELECT adds none. */
  function Reads(e: Expr): seq<Leaf>
    decreases e, 1
  {
    match e
    case Col(x, _) => [x]
    case Apply(_, args) => ReadsAll(args)
    case Subquery(_, operands, _) => ReadsAll(operands)
  }

  function ReadsAll(es: seq<Expr>): seq<Leaf>
    decreases es, 0
  {
    if es == [] then [] else Reads(es[0]) + ReadsAll(es[1..])
  }

  function BareLeaves(froms: seq<From>): seq<Leaf>
  {
    if froms == [] then []
    else (if froms[0].Base? then [froms[0].leaf] else []) + BareLeaves(froms[1..])
  }

  function FromsRead(cols: seq<Expr>, froms: seq<From>, where: seq<Expr>): seq<Leaf>
  {
    ReadsAll(cols) + BareLeaves(froms) + ReadsAll(where)
  }

  /** One set of predicates for every plain candidate that is not skipped. */
  function CandidatePreds(pol: Policy, candidates: seq<Leaf>, skip: seq<Leaf>): seq<Expr>
  {
    if candidates == [] then [] else
    var x := candidates[0];
    if !x.plain || x in skip then CandidatePreds(pol, candidates[1..], skip)
    else PredicatesFor(pol, x) + CandidatePreds(pol, candidates[1..], skip + [x])
  }

  function PredsOf(pol: Policy, xs: seq<Leaf>): seq<Expr>
  {
    if xs == [] then [] else PredicatesFor(pol, xs[0]) + PredsOf(pol, xs[1..])
  }

  /** However often a table is read, its predicates are given once, and a skipped one gets none. */
  lemma {:induction false} CandidatesOnce(pol: Policy, candidates: seq<Leaf>, skip: seq<Leaf>) returns (xs: seq<Leaf>)
    ensures CandidatePreds(pol, candidates, skip) == PredsOf(pol, xs) && NoDup(xs)
    ensures forall x :: x in xs <==> x in candidates && x.plain && x !in skip
  {
    if candidates == [] {
      xs := [];
    } else {
      var x, rest := candidates[0], candidates[1..];
      assert candidates == [x] + rest;
      if !x.plain || x in skip {
        xs := CandidatesOnce(pol, rest, skip);
      } else {
        var others := CandidatesOnce(pol, rest, skip + [x]);
        xs := [x] + others;
        assert xs[1..] == others;
      }
    }
  }

  /** One SELECT, whose nested SELECTs have been scoped already. */
  function ScopeSelect(pol: Policy, q: Query): (r: Query)
    requires q.Select?
    ensures r.Select?
  {
    var joined := ScopeJoins(pol, q.froms, q.steps);
    var bare := CandidatePreds(pol, FromsRead(q.cols, q.froms, q.where), joined.covered);
    var where := q.where + (joined.where + bare);
    if joined.covered != [] then q.(froms := joined.froms, steps := joined.steps, where := where)
    else q.(where := where)
  }

  /** An UPDATE or DELETE, written as the SELECT of its matched rows: `cols` are its SET values
      and its target is an occurrence that is not plain, since the caller scopes the target. */
  function ScopeDml(pol: Policy, q: Query): (r: Query)
    requires q.Select?
    ensures r.Select?
  {
    q.(where := q.where + CandidatePreds(pol, ReadsAll(q.where) + ReadsAll(q.cols), []))
  }

  // ---- Every SELECT of a statement, innermost first --------------------------------

  function ScopeE(pol: Policy, e: Expr): Expr
    decreases e, 1
  {
    match e
    case Col(_, _) => e
    case Apply(fn, args) => Apply(fn, ScopeEs(pol, args))
    case Subquery(use, operands, q) => Subquery(use, ScopeEs(pol, operands), ScopeQ(pol, q))
  }

  function ScopeEs(pol: Policy, es: seq<Expr>): (r: seq<Expr>)
    ensures |r| == |es|
    decreases es, 0
  {
    if es == [] then [] else [ScopeE(pol, es[0])] + ScopeEs(pol, es[1..])
  }

  /** A FROM element whose nested SELECTs are scoped. */
  function ScopeF(pol: Policy, f: From): (r: From)
    ensures Leaves(r) == Leaves(f)
    decreases f, 1
  {
    match f
    case Base(_) => f
    case Derived(x, q) => Derived(x, ScopeQ(pol, q))
    case Grouping(g) => Grouping(ScopeF(pol, g))
    case Join(l, r, on, kind) => Join(ScopeF(pol, l), ScopeF(pol, r), ScopeE(pol, on), kind)
  }

  function ScopeFs(pol: Policy, fs: seq<From>): (r: seq<From>)
    ensures |r| == |fs|
    decreases fs, 0
  {
    if fs == [] then [] else [ScopeF(pol, fs[0])] + ScopeFs(pol, fs[1..])
  }

  function ScopeS(pol: Policy, s: Step): (r: Step)
    decreases s, 1
  {
    Step(ScopeF(pol, s.target), ScopeE(pol, s.on), s.kind, s.explicit, s.resolvable, s.at)
  }

  function ScopeSs(pol: Policy, ss: seq<Step>): (r: seq<Step>)
    ensures |r| == |ss|
    decreases ss, 0
  {
    if ss == [] then [] else [ScopeS(pol, ss[0])] + ScopeSs(pol, ss[1..])
  }

  /** A statement with every plain scoped table filtered. */
  function ScopeQ(pol: Policy, q: Query): (r: Query)
    ensures q.Select? <==> r.Select?
    decreases q
  {
    match q
    case Select(cols, froms, steps, where, shape) =>
      ScopeSelect(pol, Select(ScopeEs(pol, cols), ScopeFs(pol, froms), ScopeSs(pol, steps), ScopeEs(pol, where), shape))
    case Compound(combine, a, b) => Compound(combine, ScopeQ(pol, a), ScopeQ(pol, b))
  }
}
