/** The scoping pass as it runs: a scoper that records what it covered, the worklist over a
  FULL step's left side, and the visitor that rewrites one SELECT in place. */
module Scoper {
  import opened Sql
  import opened JoinScope
  import opened CoreScope

  function Size(f: From): nat
  {
    match f
    case Base(_) => 1
    case Derived(_, _) => 1
    case Grouping(g) => 1 + Size(g)
    case Join(l, r, _, _) => 1 + Size(l) + Size(r)
  }

  function StackSize(stack: seq<From>): nat
  {
    if stack == [] then 0 else Size(stack[|stack| - 1]) + StackSize(stack[..|stack| - 1])
  }

  /** The plain leaves a stack of nodes still has to offer, top first. */
  function Pending(stack: seq<From>): seq<Leaf>
  {
    if stack == [] then [] else PlainLeaves(stack[|stack| - 1]) + Pending(stack[..|stack| - 1])
  }

  lemma LeftOwedCons(pol: Policy, x: Leaf, rest: seq<Leaf>, led: Ledger)
    ensures var (mine, next) := LeafOwed(pol, x, led);
      && LeftOwed(pol, [x] + rest, led).0 == mine + LeftOwed(pol, rest, next).0
      && LeftOwed(pol, [x] + rest, led).1 == LeftOwed(pol, rest, next).1
  {
    assert ([x] + rest)[1..] == rest;
  }

  lemma StackOf(f: From)
    ensures Pending([f]) == PlainLeaves(f)
  {
    assert [f][..0] == [];
  }

  /** What popping a node takes off the pending leaves. */
  lemma Pop(stack: seq<From>)
    requires stack != []
    ensures var (node, below) := (stack[|stack| - 1], stack[..|stack| - 1]);
      && StackSize(stack) == Size(node) + StackSize(below)
      && match node
         case Base(x) => Pending(stack) == if x.plain then [x] + Pending(below) else Pending(below)
         case Derived(_, _) => Pending(stack) == Pending(below)
         case Grouping(g) => Pending(stack) == PlainLeaves(g) + Pending(below)
         case Join(l, r, _, _) => Pending(stack) == PlainLeaves(r) + (PlainLeaves(l) + Pending(below))
  {
    var node, rest := stack[|stack| - 1], Pending(stack[..|stack| - 1]);
    match node
    case Join(l, r, _, _) => Assoc(PlainLeaves(r), PlainLeaves(l), rest);
    case Grouping(_) =>
    case Derived(_, _) => assert [] + rest == rest;
    case Base(x) => assert [] + rest == rest;
  }

  lemma Assoc(a: seq<Leaf>, b: seq<Leaf>, c: seq<Leaf>)
    ensures (a + b) + c == a + (b + c)
  {
  }

  lemma Push(below: seq<From>, f: From)
    ensures Pending(below + [f]) == PlainLeaves(f) + Pending(below)
    ensures StackSize(below + [f]) == Size(f) + StackSize(below)
  {
    assert (below + [f])[..|below|] == below;
  }

  lemma PushBoth(below: seq<From>, l: From, r: From)
    ensures Pending(below + [l, r]) == PlainLeaves(r) + (PlainLeaves(l) + Pending(below))
    ensures StackSize(below + [l, r]) == Size(l) + Size(r) + StackSize(below)
  {
    Push(below, l);
    Push(below + [l], r);
    assert below + [l, r] == below + [l] + [r];
  }

  /** What is wanted is what has been found and what the stack will still give. */
  ghost predicate Searching(pol: Policy, want: (seq<Owed>, Ledger), found: seq<Owed>, stack: seq<From>, led: Ledger)
  {
    want.0 == found + LeftOwed(pol, Pending(stack), led).0 && want.1 == LeftOwed(pol, Pending(stack), led).1
  }

  /** One turn of the search, whatever is on top. */
  lemma SearchOn(pol: Policy, want: (seq<Owed>, Ledger), found: seq<Owed>, stack: seq<From>, led: Ledger)
    requires stack != [] && Searching(pol, want, found, stack, led)
    ensures var below := stack[..|stack| - 1];
      match stack[|stack| - 1]
      case Grouping(g) => Searching(pol, want, found, below + [g], led) && StackSize(below + [g]) < StackSize(stack)
      case Join(l, r, _, _) => Searching(pol, want, found, below + [l, r], led)
        && StackSize(below + [l, r]) < StackSize(stack)
      case Derived(_, _) => Searching(pol, want, found, below, led) && StackSize(below) < StackSize(stack)
      case Base(x) =>
        && StackSize(below) < StackSize(stack)
        && (!x.plain ==> Searching(pol, want, found, below, led))
        && (x.plain ==> Searching(pol, want, found + LeafOwed(pol, x, led).0, below, LeafOwed(pol, x, led).1))
  {
    var below := stack[..|stack| - 1];
    Pop(stack);
    match stack[|stack| - 1]
    case Grouping(g) => Push(below, g);
    case Join(l, r, _, _) => PushBoth(below, l, r);
    case Derived(_, _) =>
    case Base(x) => LeftOwedCons(pol, x, Pending(below), led);
  }

  class JoinScoper {
    const pol: Policy
    var owed: seq<Owed>
    var covered: seq<Leaf>

    function Now(): Ledger
      reads this
    {
      Ledger(owed, covered)
    }

    constructor (pol: Policy)
      ensures this.pol == pol && Now() == Ledger([], [])
    {
      this.pol := pol;
      owed, covered := [], [];
    }

    /** `node` with its joins scoped, and what its rows still owe; plain leaves are recorded. */
    method Scope(node: From) returns (r: From, mine: seq<Owed>)
      modifies this`covered
      ensures r == Scoped(pol, node) && mine == OwedBy(pol, node)
      ensures covered == old(covered) + CoveredBy(pol, node)
      decreases node, 1
    {
      match node
      case Base(x) =>
        var preds := PredicatesFor(pol, x);
        if |preds| > 0 {
          covered := covered + [x];
        }
        r, mine := node, if |preds| > 0 then [Owed(x, preds, false)] else [];
      case Derived(_, _) =>
        r, mine := node, [];
      case Grouping(element) =>
        var inner;
        inner, mine := Scope(element);
        r := Grouping(inner);
      case Join(left, right, on, kind) =>
        r, mine := ScopeJoin(left, right, on, kind);
    }

    method ScopeJoin(left: From, right: From, on: Expr, kind: Kind) returns (r: From, mine: seq<Owed>)
      modifies this`covered
      ensures r == Scoped(pol, Join(left, right, on, kind)) && mine == OwedBy(pol, Join(left, right, on, kind))
      ensures covered == old(covered) + CoveredBy(pol, Join(left, right, on, kind))
      decreases Join(left, right, on, kind), 0
    {
      ghost var before := covered;
      var l, owedLeft := Scope(left);
      var r', owedRight := Scope(right);
      assert covered == before + (CoveredBy(pol, left) + CoveredBy(pol, right)) by {
        Assoc(before, CoveredBy(pol, left), CoveredBy(pol, right));
      }
      var tested: seq<Owed>;
      match kind {
        case Inner => tested, mine := [], owedLeft + owedRight;
        case FullOuter => tested, mine := owedLeft + owedRight, OrPaddedAll(pol, owedLeft + owedRight);
        case LeftOuter => tested, mine := owedRight, owedLeft;
      }
      assert tested == TestedIn(pol, left, right, kind);
      ScopedJoin(pol, left, right, on, kind);
      r := Join(l, r', Conjoin(on, tested), kind);
    }

    /** What one leaf owes: the entries it has, or new ones if nobody has scoped it yet. */
    method VisitLeaf(x: Leaf) returns (mine: seq<Owed>)
      modifies this
      ensures mine == LeafOwed(pol, x, old(Now())).0
      ensures Now() == LeafOwed(pol, x, old(Now())).1
    {
      mine := EntriesOf(owed, x);
      if |mine| == 0 && x !in covered {
        var preds := PredicatesFor(pol, x);
        if |preds| > 0 {
          covered := covered + [x];
          owed := owed + [Owed(x, preds, false)];
          mine := [Owed(x, preds, false)];
        }
      }
    }

    /** What the plain leaves on a FULL step's left side owe, found with a stack of nodes. */
    method FindLeftOwed(left: From) returns (found: seq<Owed>)
      modifies this
      ensures found == LeftOwed(pol, PlainLeaves(left), old(Now())).0
      ensures Now() == LeftOwed(pol, PlainLeaves(left), old(Now())).1
    {
      var stack := [left];
      found := [];
      ghost var want, led := LeftOwed(pol, PlainLeaves(left), Now()), Now();
      StackOf(left);
      while |stack| > 0
        invariant led == Now() && Searching(pol, want, found, stack, led)
        decreases StackSize(stack)
      {
        var node := stack[|stack| - 1];
        SearchOn(pol, want, found, stack, led);
        stack := stack[..|stack| - 1];
        match node
        case Grouping(element) => stack := stack + [element];
        case Join(l, r, _, _) => stack := stack + [l, r];
        case Derived(_, _) =>
        case Base(x) =>
          if x.plain {
            var mine := VisitLeaf(x);
            led := Now();
            found := found + mine;
          }
      }
    }

    /** One `select(...).join(target, onclause)` step. */
    method ScopeSetupJoin(s: Step, built: seq<From>) returns (r: Step)
      modifies this
      ensures (r, Now()) == ScopeStep(pol, s, LeftSide(built, s), old(Now()))
    {
      var full := s.kind == FullOuter;
      var outer := full || s.kind == LeftOuter;
      var target, targetOwed := Scope(s.target);
      var resolved := (full || (outer && !s.explicit && |targetOwed| > 0)) && s.resolvable;
      var leftOwed := [];
      if full && resolved {
        leftOwed := FindLeftOwed(LeftSide(built, s));
      }
      r := s.(target := target);
      if |targetOwed| == 0 && |leftOwed| == 0 {
        return;
      }
      if !outer || !(s.explicit || resolved) {
        owed := owed + targetOwed;
        return;
      }
      var on := targetOwed + OrPaddedAll(pol, leftOwed);
      if full {
        owed := owed + targetOwed;
      }
      r := r.(on := And([s.on] + Flatten(on)), explicit := true);
    }
  }

  lemma ScopedJoin(pol: Policy, l: From, r: From, on: Expr, kind: Kind)
    ensures Scoped(pol, Join(l, r, on, kind)) ==
      Join(Scoped(pol, l), Scoped(pol, r), Conjoin(on, TestedIn(pol, l, r, kind)), kind)
    ensures CoveredBy(pol, Join(l, r, on, kind)) == CoveredBy(pol, l) + CoveredBy(pol, r)
    ensures OwedBy(pol, Join(l, r, on, kind)) ==
      match kind
      case Inner => OwedBy(pol, l) + OwedBy(pol, r)
      case LeftOuter => OwedBy(pol, l)
      case FullOuter => OrPaddedAll(pol, OwedBy(pol, l) + OwedBy(pol, r))
  {
  }

  lemma NextFrom(pol: Policy, froms: seq<From>, i: nat, led: Ledger)
    requires i < |froms|
    ensures var f := froms[i];
      var next := Ledger(led.owed + OwedBy(pol, f), led.covered + CoveredBy(pol, f));
      ScopeFroms(pol, froms[i..], led) ==
        if f.Join? then ([Scoped(pol, f)] + ScopeFroms(pol, froms[i + 1..], next).0,
          ScopeFroms(pol, froms[i + 1..], next).1)
        else ([f] + ScopeFroms(pol, froms[i + 1..], led).0, ScopeFroms(pol, froms[i + 1..], led).1)
  {
    assert froms[i..][0] == froms[i] && froms[i..][1..] == froms[i + 1..];
  }

  lemma NextStep(pol: Policy, steps: seq<Step>, i: nat, built: seq<From>, led: Ledger)
    requires i < |steps|
    ensures var (step, next) := ScopeStep(pol, steps[i], LeftSide(built, steps[i]), led);
      var (rest, end) := ScopeSteps(pol, steps[i + 1..], Built(built, steps[i]), next);
      ScopeSteps(pol, steps[i..], built, led) == ([step] + rest, end)
  {
    assert steps[i..][0] == steps[i] && steps[i..][1..] == steps[i + 1..];
  }

  method ScopeFromList(scoper: JoinScoper, froms: seq<From>) returns (r: seq<From>)
    modifies scoper
    ensures (r, scoper.Now()) == ScopeFroms(scoper.pol, froms, old(scoper.Now()))
  {
    ghost var pol, start := scoper.pol, scoper.Now();
    r := [];
    for i := 0 to |froms|
      invariant ScopeFroms(pol, froms, start).0 == r + ScopeFroms(pol, froms[i..], scoper.Now()).0
      invariant ScopeFroms(pol, froms, start).1 == ScopeFroms(pol, froms[i..], scoper.Now()).1
    {
      var f := froms[i];
      NextFrom(pol, froms, i, scoper.Now());
      if f.Join? {
        var more;
        f, more := scoper.Scope(f);
        scoper.owed := scoper.owed + more;
      }
      r := r + [f];
    }
    assert r + [] == r;
  }

  method ScopeStepList(scoper: JoinScoper, steps: seq<Step>, froms: seq<From>) returns (r: seq<Step>)
    modifies scoper
    ensures (r, scoper.Now()) == ScopeSteps(scoper.pol, steps, froms, old(scoper.Now()))
  {
    ghost var pol, start := scoper.pol, scoper.Now();
    r := [];
    var built := froms;
    for i := 0 to |steps|
      invariant ScopeSteps(pol, steps, froms, start).0 == r + ScopeSteps(pol, steps[i..], built, scoper.Now()).0
      invariant ScopeSteps(pol, steps, froms, start).1 == ScopeSteps(pol, steps[i..], built, scoper.Now()).1
    {
      NextStep(pol, steps, i, built, scoper.Now());
      var step := scoper.ScopeSetupJoin(steps[i], built);
      r := r + [step];
      built := Built(built, steps[i]);
    }
    assert r + [] == r;
  }

  /** Scope a SELECT's joins: its FROM joins first, then its `.join()` steps in order. */
  method ScopeAllJoins(pol: Policy, froms: seq<From>, steps: seq<Step>) returns (r: Joined)
    ensures r == ScopeJoins(pol, froms, steps)
  {
    var scoper := new JoinScoper(pol);
    var scopedFroms := ScopeFromList(scoper, froms);
    var scopedSteps := ScopeStepList(scoper, steps, froms);
    var owed := if AnyFull(steps) then OrPaddedAll(pol, scoper.owed) else scoper.owed;
    r := Joined(scopedFroms, scopedSteps, Flatten(owed), scoper.covered);
  }

  lemma NextCandidate(pol: Policy, candidates: seq<Leaf>, i: nat, seen: seq<Leaf>, preds: seq<Expr>)
    requires i < |candidates|
    ensures var x := candidates[i];
      preds + CandidatePreds(pol, candidates[i..], seen) ==
        if !x.plain || x in seen then preds + CandidatePreds(pol, candidates[i + 1..], seen)
        else (preds + PredicatesFor(pol, x)) + CandidatePreds(pol, candidates[i + 1..], seen + [x])
  {
    assert candidates[i..][0] == candidates[i] && candidates[i..][1..] == candidates[i + 1..];
  }

  /** Predicates for each plain candidate once, leaving out those in `skip`. */
  method Preds(pol: Policy, candidates: seq<Leaf>, skip: seq<Leaf>) returns (preds: seq<Expr>)
    ensures preds == CandidatePreds(pol, candidates, skip)
  {
    preds := [];
    var seen := skip;
    for i := 0 to |candidates|
      invariant CandidatePreds(pol, candidates, skip) == preds + CandidatePreds(pol, candidates[i..], seen)
    {
      var x := candidates[i];
      NextCandidate(pol, candidates, i, seen, preds);
      if x.plain && x !in seen {
        seen := seen + [x];
        preds := preds + PredicatesFor(pol, x);
      }
    }
    assert preds + [] == preds;
  }

  /** The traversal's own clone of one SELECT, UPDATE or DELETE. */
  class Statement {
    const cols: seq<Expr>
    var froms: seq<From>
    var steps: seq<Step>
    var where: seq<Expr>
    const shape: seq<Row> -> seq<Row>

    function Value(): Query
      reads this
    {
      Select(cols, froms, steps, where, shape)
    }

    constructor (q: Query)
      requires q.Select?
      ensures Value() == q
    {
      cols, froms, steps, where, shape := q.cols, q.froms, q.steps, q.where, q.shape;
    }

    /** Scope this SELECT in place; its nested SELECTs were visited before it. */
    method VisitSelect(pol: Policy)
      modifies this
      ensures Value() == ScopeSelect(pol, old(Value()))
    {
      var joined := ScopeAllJoins(pol, froms, steps);
      if |joined.covered| > 0 {
        froms, steps := joined.froms, joined.steps;
      }
      BareUnchanged(pol, old(Value()));
      var preds := Preds(pol, FromsRead(cols, froms, where), joined.covered);
      where := where + (joined.where + preds);
    }

    /** Scope the tables an UPDATE or DELETE joins in through its WHERE or SET values. */
    method VisitUpdateDelete(pol: Policy)
      modifies this`where
      ensures Value() == ScopeDml(pol, old(Value()))
    {
      var preds := Preds(pol, ReadsAll(where) + ReadsAll(cols), []);
      where := where + preds;
    }
  }

  /** The bare tables of a FROM list are not changed by scoping its joins. */
  lemma BareUnchanged(pol: Policy, q: Query)
    requires q.Select?
    ensures BareLeaves(ScopeJoins(pol, q.froms, q.steps).froms) == BareLeaves(q.froms)
  {
    BareScoped(pol, q.froms, Ledger([], []));
  }

  lemma {:induction false} BareScoped(pol: Policy, froms: seq<From>, led: Ledger)
    ensures BareLeaves(ScopeFroms(pol, froms, led).0) == BareLeaves(froms)
  {
    if froms != [] {
      var f := froms[0];
      BareScoped(pol, froms[1..], if f.Join? then Ledger(led.owed + OwedBy(pol, f),
        led.covered + CoveredBy(pol, f)) else led);
    }
  }
}
