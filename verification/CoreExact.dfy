/** Exactness of whole statements: running the scoped statement over the full tables gives
  what the original statement gives over pre-filtered tables, at every depth. */
module CoreExact {
  import opened Sql
  import opened JoinAlgebra
  import opened JoinScope
  import opened JoinMeaning
  import opened CoreScope
  import opened SelectSafety
  import opened SelectExact

  // ---- Which statements are scoped exactly -----------------------------------------

  /** A scope in which every leaf passes and the given leaves are present. */
  ghost predicate Admissible(pol: Policy, env: Env, present: set<Leaf>)
  {
    Clean(pol)(env) && forall x :: x in present ==> x in env && env[x].Present?
  }

  /** What is certainly present once `span`'s rows are in scope. */
  function Inside(present: set<Leaf>, leaves: set<Leaf>, certain: set<Leaf>): set<Leaf> { (present - leaves) + certain }

  /** `Fits*`: each SELECT has its own FROM occurrences, what a FULL join or step hands on can be padded, each
      step that needs it can be resolved, and a nested SELECT names a scoped leaf of an enclosing one only where
      that leaf is certainly present. */
  ghost predicate FitsE(pol: Policy, e: Expr, present: set<Leaf>)
    decreases e, 1
  {
    match e
    case Col(_, _) => true
    case Apply(_, args) => FitsEs(pol, args, present)
    case Subquery(_, operands, q) => FitsEs(pol, operands, present) && FitsQ(pol, q, present)
  }

  ghost predicate FitsEs(pol: Policy, es: seq<Expr>, present: set<Leaf>)
    decreases es, 0
  {
    es == [] || (FitsE(pol, es[0], present) && FitsEs(pol, es[1..], present))
  }

  ghost predicate FitsF(pol: Policy, f: From, present: set<Leaf>)
    decreases f, 1
  {
    match f
    case Base(_) => true
    case Derived(_, q) => FitsQ(pol, q, present)
    case Grouping(g) => FitsF(pol, g, present)
    case Join(l, r, on, kind) =>
      && FitsF(pol, l, present) && FitsF(pol, r, present)
      && FitsE(pol, on, Inside(present, Leaves(f), Certain(l) + Certain(r)))
      && (kind == FullOuter ==> forall o :: o in OwedBy(pol, l) + OwedBy(pol, r) ==> HasKey(pol, o.leaf))
  }

  ghost predicate FitsFs(pol: Policy, fs: seq<From>, present: set<Leaf>)
    decreases fs, 0
  {
    fs == [] || (FitsF(pol, fs[0], present) && FitsFs(pol, fs[1..], present))
  }

  ghost predicate FitsS(pol: Policy, s: Step, span: Span, open: set<Leaf>, present: set<Leaf>)
    decreases s, 1
  {
    && Resolves(pol, s, span.leaves, open) && FitsF(pol, s.target, present)
    && FitsE(pol, s.on, Inside(present, span.leaves + Leaves(s.target), span.certain + Certain(s.target)))
  }

  ghost predicate FitsSs(pol: Policy, ss: seq<Step>, spans: seq<Span>, open: set<Leaf>, present: set<Leaf>)
    decreases ss, 0
  {
    ss == [] ||
    (ss[0].at < |spans| && FitsS(pol, ss[0], spans[ss[0].at], open, present) &&
     FitsSs(pol, ss[1..], SpanStep(spans, ss[0]), OpenStep(pol, ss[0], open), present))
  }

  ghost predicate FitsQ(pol: Policy, q: Query, present: set<Leaf>)
    decreases q
  {
    match q
    case Select(cols, froms, steps, where, _) =>
      var spans := FinalSpans(q);
      var inner := Inside(present, AllLeaves(spans), AllCertain(spans));
      && DistinctSelect(q) && FitsFs(pol, froms, present)
      && FitsSs(pol, steps, SpansOf(froms), OpenOf(pol, froms), present)
      && (forall x :: x in ReadsAll(cols) + ReadsAll(where) && pol.Scopes(x) ==> x in AllLeaves(spans) || x in present)
      && FitsEs(pol, cols, inner) && FitsEs(pol, where, inner)
    case Compound(_, a, b) => FitsQ(pol, a, present) && FitsQ(pol, b, present)
  }

  // ---- Scoping nested SELECTs changes no shape -------------------------------------

  lemma NestedShape(pol: Policy, f: From)
    ensures Distinct(f) ==> Distinct(ScopeF(pol, f))
    ensures Certain(ScopeF(pol, f)) == Certain(f) && ScopeF(pol, f).Grouping? == f.Grouping?
    ensures ScopeF(pol, f).Base? == f.Base? && (f.Base? ==> ScopeF(pol, f) == f)
    ensures OwedBy(pol, ScopeF(pol, f)) == OwedBy(pol, f)
  {
  }

  lemma {:induction false} NestedEach(pol: Policy, fs: seq<From>)
    ensures forall i :: 0 <= i < |fs| ==> ScopeFs(pol, fs)[i] == ScopeF(pol, fs[i])
    ensures SpansOf(ScopeFs(pol, fs)) == SpansOf(fs)
    ensures Bare(ScopeFs(pol, fs)) == Bare(fs) && BareLeaves(ScopeFs(pol, fs)) == BareLeaves(fs)
    ensures DistinctFroms(fs) ==> DistinctFroms(ScopeFs(pol, fs))
  {
    if fs != [] {
      NestedEach(pol, fs[1..]);
    }
    forall i | 0 <= i < |fs| ensures ScopeFs(pol, fs)[i] == ScopeF(pol, fs[i]) {
      assert i > 0 ==> fs[1..][i - 1] == fs[i];
      NestedShape(pol, fs[i]);
    }
    forall i | 0 <= i < |fs|
      ensures SpanOf(ScopeFs(pol, fs)[i]) == SpanOf(fs[i]) && (Distinct(fs[i]) ==> Distinct(ScopeFs(pol, fs)[i]))
      ensures ScopeFs(pol, fs)[i].Base? == fs[i].Base? && (fs[i].Base? ==> ScopeFs(pol, fs)[i] == fs[i])
      ensures ScopeFs(pol, fs)[i].Grouping? == fs[i].Grouping?
    {
      NestedShape(pol, fs[i]);
    }
  }

  lemma {:induction false} NestedReads(pol: Policy, e: Expr)
    ensures Reads(ScopeE(pol, e)) == Reads(e)
    decreases e, 1
  {
    match e
    case Col(_, _) =>
    case Apply(_, args) => NestedReadsAll(pol, args);
    case Subquery(_, operands, _) => NestedReadsAll(pol, operands);
  }

  lemma {:induction false} NestedReadsAll(pol: Policy, es: seq<Expr>)
    ensures ReadsAll(ScopeEs(pol, es)) == ReadsAll(es)
    decreases es, 0
  {
    if es != [] {
      NestedReads(pol, es[0]);
      NestedReadsAll(pol, es[1..]);
    }
  }

  lemma {:induction false} FitsKeyed(pol: Policy, f: From, present: set<Leaf>)
    requires FitsF(pol, f, present)
    ensures TreeKeyed(pol, ScopeF(pol, f))
  {
    match f
    case Base(_) =>
    case Derived(_, _) =>
    case Grouping(g) => FitsKeyed(pol, g, present);
    case Join(l, r, _, _) =>
      FitsKeyed(pol, l, present);
      FitsKeyed(pol, r, present);
      NestedShape(pol, l);
      NestedShape(pol, r);
  }

  lemma {:induction false} NestedOpen(pol: Policy, fs: seq<From>)
    ensures OpenOf(pol, ScopeFs(pol, fs)) == OpenOf(pol, fs)
  {
    if fs != [] {
      NestedOpen(pol, fs[1..]);
      NestedShape(pol, fs[0]);
      assert ScopeFs(pol, fs)[1..] == ScopeFs(pol, fs[1..]);
      assert ScopeF(pol, fs[0]).Join? == fs[0].Join?;
    }
  }

  lemma NestedSpan(pol: Policy, s: Step, spans: seq<Span>)
    ensures SpanStep(spans, ScopeS(pol, s)) == SpanStep(spans, s)
    ensures DistinctStep(s, spans) ==> DistinctStep(ScopeS(pol, s), spans)
  {
    NestedShape(pol, s.target);
  }

  lemma {:induction false} NestedKinds(pol: Policy, ss: seq<Step>)
    ensures forall i :: 0 <= i < |ss| ==> ScopeSs(pol, ss)[i].kind == ss[i].kind
  {
    if ss != [] {
      NestedKinds(pol, ss[1..]);
    }
  }

  lemma {:induction false} NestedSpans(pol: Policy, ss: seq<Step>, spans: seq<Span>)
    ensures SpansAfter(ScopeSs(pol, ss), spans) == SpansAfter(ss, spans)
    ensures DistinctSteps(ss, spans) ==> DistinctSteps(ScopeSs(pol, ss), spans)
  {
    if ss != [] {
      NestedSpan(pol, ss[0], spans);
      NestedSpans(pol, ss[1..], SpanStep(spans, ss[0]));
      assert ScopeSs(pol, ss)[1..] == ScopeSs(pol, ss[1..]);
    }
  }

  lemma NestedSteps(pol: Policy, ss: seq<Step>, spans: seq<Span>)
    ensures SpansAfter(ScopeSs(pol, ss), spans) == SpansAfter(ss, spans)
    ensures DistinctSteps(ss, spans) ==> DistinctSteps(ScopeSs(pol, ss), spans)
    ensures forall i :: 0 <= i < |ss| ==> ScopeSs(pol, ss)[i].kind == ss[i].kind
  {
    NestedKinds(pol, ss);
    NestedSpans(pol, ss, spans);
  }

  /** A step that fits, once what is nested in it is scoped, can be scoped exactly where it stands. */
  lemma FitsResolves(pol: Policy, t: Step, left: From, led: Ledger, spans: seq<Span>, open: set<Leaf>,
      present: set<Leaf>)
    requires t.at < |spans| && FitsS(pol, t, spans[t.at], open, present) && DistinctStep(ScopeS(pol, t), spans)
    requires Apart(spans)
    requires Distinct(left) && Leaves(left) == spans[t.at].leaves
    requires OpenOk(pol, led, AllLeaves(spans), open) && Entries(pol, led.owed, AllLeaves(spans))
    ensures var s := ScopeS(pol, t);
      && ResolvesStep(pol, s, left, led)
      && OpenOk(pol, ScopeStep(pol, s, left, led).1, AllLeaves(SpanStep(spans, s)), OpenStep(pol, t, open))
  {
    var s := ScopeS(pol, t);
    NestedShape(pol, t.target);
    FitsKeyed(pol, t.target, present);
    assert Leaves(left) <= AllLeaves(spans);
    ResolvesHere(pol, s, left, led, AllLeaves(spans), open);
    OpenStays(pol, s, left, led, spans, open);
  }

  lemma {:induction false} FitsResolvesAll(pol: Policy, ss: seq<Step>, built: seq<From>, led: Ledger, spans: seq<Span>,
      open: set<Leaf>, present: set<Leaf>)
    requires FitsSs(pol, ss, spans, open, present) && DistinctSteps(ScopeSs(pol, ss), spans) && Apart(spans)
    requires BuiltIs(built, spans)
    requires OpenOk(pol, led, AllLeaves(spans), open) && Entries(pol, led.owed, AllLeaves(spans))
    ensures ResolvesSteps(pol, ScopeSs(pol, ss), built, led)
    decreases |ss|
  {
    if ss != [] {
      var t, s := ss[0], ScopeS(pol, ss[0]);
      var left := LeftSide(built, s);
      NestedShape(pol, t.target);
      assert SpanStep(spans, s) == SpanStep(spans, t);
      assert ScopeSs(pol, ss)[1..] == ScopeSs(pol, ss[1..]);
      BuiltStep(built, spans, s);
      FitsResolves(pol, t, left, led, spans, open, present);
      StepLedger(pol, s, left, led, spans, {});
      SpanStepApart(spans, s);
      FitsResolvesAll(pol, ss[1..], Built(built, s), ScopeStep(pol, s, left, led).1, SpanStep(spans, s),
        OpenStep(pol, t, open), present);
    }
  }

  /** The SELECT once its nested SELECTs are scoped, before its own joins and WHERE are. */
  function Nested(pol: Policy, q: Query): (r: Query)
    requires q.Select?
    ensures r.Select?
  {
    Select(ScopeEs(pol, q.cols), ScopeFs(pol, q.froms), ScopeSs(pol, q.steps), ScopeEs(pol, q.where), q.shape)
  }

  lemma NestedSelect(pol: Policy, q: Query, present: set<Leaf>)
    requires q.Select? && FitsQ(pol, q, present)
    ensures ScopeQ(pol, q) == ScopeSelect(pol, Nested(pol, q))
    ensures DistinctSelect(Nested(pol, q)) && FinalSpans(Nested(pol, q)) == FinalSpans(q)
    ensures AnyFull(Nested(pol, q).steps) == AnyFull(q.steps) && Bare(Nested(pol, q).froms) == Bare(q.froms)
    ensures FromsRead(Nested(pol, q).cols, Nested(pol, q).froms, Nested(pol, q).where) ==
      FromsRead(q.cols, q.froms, q.where)
  {
    NestedEach(pol, q.froms);
    NestedSteps(pol, q.steps, SpansOf(q.froms));
    NestedReadsAll(pol, q.cols);
    NestedReadsAll(pol, q.where);
  }

  /** Where the steps of a statement that fits begin. */
  lemma NestedStarts(pol: Policy, q: Query, present: set<Leaf>)
    requires q.Select? && FitsQ(pol, q, present)
    ensures var (n, spans, led) := (Nested(pol, q), SpansOf(q.froms),
      ScopeFroms(pol, Nested(pol, q).froms, Ledger([], [])).1);
      && OpenOk(pol, led, AllLeaves(spans), OpenOf(pol, q.froms)) && Entries(pol, led.owed, AllLeaves(spans))
      && BuiltIs(n.froms, spans) && (forall i :: 0 <= i < |n.froms| ==> TreeKeyed(pol, n.froms[i]))
      && ResolvesSteps(pol, n.steps, n.froms, led)
  {
    var n, spans := Nested(pol, q), SpansOf(q.froms);
    NestedSelect(pol, q, present);
    NestedEach(pol, q.froms);
    NestedOpen(pol, q.froms);
    OpenStarts(pol, n.froms);
    FromsEntries(pol, n.froms);
    forall i | 0 <= i < |n.froms| ensures TreeKeyed(pol, n.froms[i]) {
      FitsEach(pol, q.froms, present, i);
      FitsKeyed(pol, q.froms[i], present);
    }
    FitsResolvesAll(pol, q.steps, n.froms, ScopeFroms(pol, n.froms, Ledger([], [])).1, spans,
      OpenOf(pol, q.froms), present);
  }

  // ---- Exactness, by induction on the statement ------------------------------------

  function Prefiltered(w: World): World { w.(prefilter := true) }

  ghost predicate Ready(pol: Policy, w: World) { w.Valid() && w.policy == pol && !w.prefilter }

  lemma AdmitRow(pol: Policy, env: Env, present: set<Leaf>, row: Env, leaves: set<Leaf>, certain: set<Leaf>)
    requires Admissible(pol, env, present) && Clean(pol)(row) && row.Keys == leaves
    requires forall x :: x in certain ==> x in row && row[x].Present?
    ensures Admissible(pol, env + row, Inside(present, leaves, certain))
  {
  }

  lemma {:induction false} ExactE(pol: Policy, e: Expr, env: Env, w: World, present: set<Leaf>)
    requires FitsE(pol, e, present) && Admissible(pol, env, present) && Ready(pol, w)
    ensures EvalE(ScopeE(pol, e), env, w) == EvalE(e, env, Prefiltered(w))
    decreases e, 1
  {
    match e
    case Col(_, _) =>
    case Apply(_, args) => ExactEs(pol, args, env, w, present);
    case Subquery(_, operands, q) =>
      ExactEs(pol, operands, env, w, present);
      ExactQ(pol, q, env, w, present);
  }

  lemma {:induction false} ExactEs(pol: Policy, es: seq<Expr>, env: Env, w: World, present: set<Leaf>)
    requires FitsEs(pol, es, present) && Admissible(pol, env, present) && Ready(pol, w)
    ensures EvalEs(ScopeEs(pol, es), env, w) == EvalEs(es, env, Prefiltered(w))
    decreases es, 0
  {
    if es != [] {
      ExactE(pol, es[0], env, w, present);
      ExactEs(pol, es[1..], env, w, present);
    }
  }

  /** A scoped tree, cleaned, is the original tree over pre-filtered tables. */
  lemma {:induction false} ExactF(pol: Policy, f: From, env: Env, w: World, present: set<Leaf>)
    requires FitsF(pol, f, present) && Distinct(f) && Admissible(pol, env, present) && Ready(pol, w)
    ensures Cleaned(pol, EvalF(Scoped(pol, ScopeF(pol, f)), env, w), EvalF(f, env, Prefiltered(w)))
    decreases f, 2
  {
    match f
    case Base(x) => CleanOccurrences(pol, x, w.Rows(x));
    case Derived(x, q) =>
      ExactQ(pol, q, env, w, present);
      CleanOccurrences(pol, x, EvalQ(ScopeQ(pol, q), env, w));
    case Grouping(g) => ExactF(pol, g, env, w, present);
    case Join(l, r, on, kind) =>
      ExactF(pol, l, env, w, present);
      ExactF(pol, r, env, w, present);
      ExactJoin(pol, f, env, w, present);
  }

  lemma {:induction false} ExactJoin(pol: Policy, f: From, env: Env, w: World, present: set<Leaf>)
    requires f.Join? && FitsF(pol, f, present) && Distinct(f) && Admissible(pol, env, present) && Ready(pol, w)
    requires Cleaned(pol, EvalF(Scoped(pol, ScopeF(pol, f.left)), env, w), EvalF(f.left, env, Prefiltered(w)))
    requires Cleaned(pol, EvalF(Scoped(pol, ScopeF(pol, f.right)), env, w), EvalF(f.right, env, Prefiltered(w)))
    ensures Cleaned(pol, EvalF(Scoped(pol, ScopeF(pol, f)), env, w), EvalF(f, env, Prefiltered(w)))
    decreases f, 1
  {
    var l, r, on := ScopeF(pol, f.left), ScopeF(pol, f.right), ScopeE(pol, f.on);
    var lr, rr := EvalF(Scoped(pol, l), env, w), EvalF(Scoped(pol, r), env, w);
    var m := Matcher(f.on, env, Prefiltered(w));
    NestedShape(pol, f.left);
    NestedShape(pol, f.right);
    TreeSettled(pol, l, env, w);
    TreeSettled(pol, r, env, w);
    ExactTests(pol, f, env, w, present);
    ScopedJoinRows(pol, l, r, on, f.kind, env, w);
    CleanJoin(pol, lr, rr, Matcher(Conjoin(on, TestedIn(pol, l, r, f.kind)), env, w), m, f.kind,
              EvalF(f.left, env, Prefiltered(w)), EvalF(f.right, env, Prefiltered(w)));
  }

  lemma ScopedJoinRows(pol: Policy, l: From, r: From, on: Expr, kind: Kind, env: Env, w: World)
    ensures EvalF(Scoped(pol, Join(l, r, on, kind)), env, w) ==
      JoinRel(EvalF(Scoped(pol, l), env, w), EvalF(Scoped(pol, r), env, w),
        Matcher(Conjoin(on, TestedIn(pol, l, r, kind)), env, w), kind)
  {
  }

  /** What the scoped join tests in ON is what cleaning its sides requires. */
  lemma {:induction false} ExactTests(pol: Policy, f: From, env: Env, w: World, present: set<Leaf>)
    requires f.Join? && FitsF(pol, f, present) && Distinct(f) && Admissible(pol, env, present) && Ready(pol, w)
    ensures var (l, r, on) := (ScopeF(pol, f.left), ScopeF(pol, f.right), ScopeE(pol, f.on));
      Tests(pol, EvalF(Scoped(pol, l), env, w), EvalF(Scoped(pol, r), env, w),
            Matcher(Conjoin(on, TestedIn(pol, l, r, f.kind)), env, w), Matcher(f.on, env, Prefiltered(w)), f.kind)
    decreases f, 0
  {
    var l, r, on := ScopeF(pol, f.left), ScopeF(pol, f.right), ScopeE(pol, f.on);
    NestedShape(pol, f.left);
    NestedShape(pol, f.right);
    TreeSettled(pol, l, env, w);
    TreeSettled(pol, r, env, w);
    ExactOn(pol, f.on, EvalF(Scoped(pol, l), env, w), EvalF(Scoped(pol, r), env, w), Certain(l),
      Certain(r), env, w, present);
    FitsKeyed(pol, f.left, present);
    FitsKeyed(pol, f.right, present);
    TreeTests(pol, l, r, on, f.kind, Matcher(f.on, env, Prefiltered(w)), env, w);
  }

  lemma {:induction false} ExactOn(pol: Policy, on: Expr, l: Rel, r: Rel, cl: set<Leaf>, cr: set<Leaf>, env: Env,
      w: World, present: set<Leaf>)
    requires FitsE(pol, on, Inside(present, l.leaves + r.leaves, cl + cr)) && Admissible(pol, env, present)
    requires Ready(pol, w)
    requires Sound(pol, l, cl) && Sound(pol, r, cr) && l.leaves !! r.leaves
    ensures Agrees(pol, l, r, ScopeE(pol, on), Matcher(on, env, Prefiltered(w)), env, w)
    decreases on, 2
  {
    forall a, b | a in l.rows && b in r.rows && Clean(pol)(a) && Clean(pol)(b)
      ensures EvalE(ScopeE(pol, on), env + (a + b), w) == EvalE(on, env + (a + b), Prefiltered(w))
    {
      CleanSplits(pol, a, b);
      AdmitRow(pol, env, present, a + b, l.leaves + r.leaves, cl + cr);
      ExactE(pol, on, env + (a + b), w, Inside(present, l.leaves + r.leaves, cl + cr));
    }
  }

  lemma {:induction false} ExactFs(pol: Policy, fs: seq<From>, env: Env, w: World, present: set<Leaf>)
    requires FitsFs(pol, fs, present) && Admissible(pol, env, present) && Ready(pol, w)
    requires forall i :: 0 <= i < |fs| ==> Distinct(fs[i]) && !fs[i].Grouping?
    ensures AllCleaned(pol, EvalFs(ScopeFroms(pol, ScopeFs(pol, fs), Ledger([], [])).0, env, w),
      EvalFs(fs, env, Prefiltered(w)))
    decreases fs, 0
  {
    var scoped := ScopeFroms(pol, ScopeFs(pol, fs), Ledger([], [])).0;
    ScopeFromsEach(pol, ScopeFs(pol, fs), Ledger([], []));
    NestedEach(pol, fs);
    EvalEach(scoped, env, w);
    EvalEach(fs, env, Prefiltered(w));
    forall i | 0 <= i < |fs| ensures Cleaned(pol, EvalF(scoped[i], env, w), EvalF(fs[i], env, Prefiltered(w))) {
      FitsEach(pol, fs, present, i);
      ExactF(pol, fs[i], env, w, present);
      assert scoped[i] == Element(pol, ScopeF(pol, fs[i])) == Scoped(pol, ScopeF(pol, fs[i]));
    }
  }

  lemma {:induction false} FitsEach(pol: Policy, fs: seq<From>, present: set<Leaf>, i: nat)
    requires FitsFs(pol, fs, present) && i < |fs|
    ensures FitsF(pol, fs[i], present)
  {
    if i > 0 {
      FitsEach(pol, fs[1..], present, i - 1);
    }
  }

  lemma {:induction false} ExactTarget(pol: Policy, s: Step, l: Rel, span: Span, open: set<Leaf>, env: Env, w: World,
      present: set<Leaf>)
    requires FitsS(pol, s, span, open, present) && Distinct(s.target) && Admissible(pol, env, present) && Ready(pol, w)
    requires Sound(pol, l, span.certain) && l.leaves == span.leaves && l.leaves !! Leaves(s.target)
    ensures Cleaned(pol, EvalF(Scoped(pol, ScopeF(pol, s.target)), env, w), EvalF(s.target, env, Prefiltered(w)))
    ensures Agrees(pol, l, EvalF(Scoped(pol, ScopeF(pol, s.target)), env, w), ScopeE(pol, s.on),
      Matcher(s.on, env, Prefiltered(w)), env, w)
    decreases s, 1
  {
    var target := ScopeF(pol, s.target);
    NestedShape(pol, s.target);
    ExactF(pol, s.target, env, w, present);
    TreeSettled(pol, target, env, w);
    ExactOn(pol, s.on, l, EvalF(Scoped(pol, target), env, w), span.certain, Certain(s.target), env, w, present);
  }

  /** The fold over the `.join()` steps: cleaning the scoped FROM list after the scoped steps
      is the original FROM list after the original steps. */
  lemma {:induction false} ExactSs(pol: Policy, ss: seq<Step>, scoped: seq<Rel>, original: seq<Rel>, spans: seq<Span>,
      built: seq<From>, led: Ledger, bare: set<Leaf>, open: set<Leaf>, env: Env, w: World, present: set<Leaf>)
    requires FitsSs(pol, ss, spans, open, present) && OpenOk(pol, led, AllLeaves(spans), open)
    requires Admissible(pol, env, present) && Ready(pol, w)
    requires AllCleaned(pol, scoped, original) && Held(pol, scoped, spans, Outstanding(led, bare))
    requires DistinctSteps(ss, spans) && BuiltIs(built, spans) && Entries(pol, led.owed, AllLeaves(spans))
    requires bare <= AllLeaves(spans)
    ensures AllCleaned(pol, EvalSteps(ScopeSteps(pol, ScopeSs(pol, ss), built, led).0, scoped, env, w),
      EvalSteps(ss, original, env, Prefiltered(w)))
    decreases ss, 0
  {
    if ss != [] {
      var t, s := ss[0], ScopeS(pol, ss[0]);
      var left := LeftSide(built, s);
      var (step, next) := ScopeStep(pol, s, left, led);
      var l := scoped[s.at];
      NestedShape(pol, t.target);
      assert SpanStep(spans, s) == SpanStep(spans, t);
      BuiltStep(built, spans, s);
      StepLedger(pol, s, left, led, spans, bare);
      StepHeld(pol, scoped, spans, s, left, led, bare, env, w);
      SpanStepApart(spans, s);
      assert spans[s.at].leaves <= AllLeaves(spans);
      FitsResolves(pol, t, left, led, spans, open, present);
      ExactTarget(pol, t, l, spans[s.at], open, env, w, present);
      StepCleaned(pol, s, left, led, scoped, original, spans, EvalF(t.target, env, Prefiltered(w)), bare,
                  Matcher(t.on, env, Prefiltered(w)), env, w);
      ExactSs(pol, ss[1..], EvalStep(step, scoped, env, w), EvalStep(t, original, env, Prefiltered(w)),
              SpanStep(spans, s), Built(built, s), next, bare, OpenStep(pol, t, open), env, w, present);
      var rest := ScopeSteps(pol, ScopeSs(pol, ss[1..]), Built(built, s), next).0;
      assert ScopeSs(pol, ss)[1..] == ScopeSs(pol, ss[1..]);
      assert ([step] + rest)[1..] == rest;
    }
  }

  function FromRows(froms: seq<From>, steps: seq<Step>, env: Env, w: World): Rel
  {
    Product(EvalSteps(steps, EvalFs(froms, env, w), env, w))
  }

  /** The FROM rows of a scoped SELECT, cleaned, are those of the original over pre-filtered tables. */
  lemma {:induction false} ExactRows(pol: Policy, q: Query, env: Env, w: World, present: set<Leaf>)
    requires q.Select? && FitsQ(pol, q, present) && Admissible(pol, env, present) && Ready(pol, w)
    ensures Cleaned(pol, FromRows(ScopeQ(pol, q).froms, ScopeQ(pol, q).steps, env, w),
      FromRows(q.froms, q.steps, env, Prefiltered(w)))
    decreases q, 1
  {
    var n := Nested(pol, q);
    var (froms, led) := ScopeFroms(pol, n.froms, Ledger([], []));
    var spans, bare := SpansOf(n.froms), Bare(n.froms);
    NestedSelect(pol, q, present);
    NestedEach(pol, q.froms);
    ScopedParts(pol, n);
    FromsHeld(pol, n.froms, env, w);
    forall x | x in bare ensures x in AllLeaves(spans) {
      var i :| 0 <= i < |n.froms| && n.froms[i].Base? && n.froms[i].leaf == x;
      assert x in spans[i].leaves;
    }
    NestedStarts(pol, q, present);
    ExactFs(pol, q.froms, env, w, present);
    ExactSs(pol, q.steps, EvalFs(froms, env, w), EvalFs(q.froms, env, Prefiltered(w)), spans, n.froms, led, bare,
      OpenOf(pol, q.froms), env, w, present);
    StepsHeld(pol, n.steps, EvalFs(froms, env, w), spans, n.froms, led, bare, env, w);
    var (steps, end) := ScopeSteps(pol, n.steps, n.froms, led);
    ProductCleaned(pol, EvalSteps(steps, EvalFs(froms, env, w), env, w),
      EvalSteps(q.steps, EvalFs(q.froms, env, Prefiltered(w)), env, Prefiltered(w)),
                   FinalSpans(n), Outstanding(end, bare));
  }

  lemma FinalTight(pol: Policy, n: Query)
    requires n.Select? && DistinctSelect(n) && forall i :: 0 <= i < |n.froms| ==> TreeKeyed(pol, n.froms[i])
    requires ResolvesSteps(pol, n.steps, n.froms, ScopeFroms(pol, n.froms, Ledger([], [])).1)
    ensures Tight(pol, FinalLedger(pol, n), FinalSpans(n), Bare(n.froms), AnyFull(n.steps))
  {
    FromsTight(pol, n.froms, AnyFull(n.steps));
    assert BuiltIs(n.froms, SpansOf(n.froms));
    StepsTight(pol, n.steps, n.froms, ScopeFroms(pol, n.froms, Ledger([], [])).1, SpansOf(n.froms),
      Bare(n.froms), AnyFull(n.steps));
  }

  /** The criteria scoping adds to WHERE hold of exactly the clean rows. */
  lemma AddedIsClean(pol: Policy, q: Query, env: Env, w: World, present: set<Leaf>, row: Env)
    requires q.Select? && FitsQ(pol, q, present) && Admissible(pol, env, present) && Ready(pol, w)
    requires row in FromRows(ScopeQ(pol, q).froms, ScopeQ(pol, q).steps, env, w).rows
    ensures row.Keys == AllLeaves(FinalSpans(q)) && forall x :: x in AllCertain(FinalSpans(q)) ==>
      x in row && row[x].Present?
    ensures AllTrue(Added(pol, Nested(pol, q)), env + row, w) <==> Clean(pol)(row)
  {
    var n := Nested(pol, q);
    var rows := FromRows(ScopeQ(pol, q).froms, ScopeQ(pol, q).steps, env, w);
    NestedSelect(pol, q, present);
    ScopedProduct(pol, n, env, w);
    if AllTrue(Added(pol, n), env + row, w) {
      AddedCleans(pol, n, rows, row, env + row, w);
    }
    if Clean(pol)(row) {
      ReadsAdmitted(pol, q, env, present, row);
      NestedStarts(pol, q, present);
      FinalTight(pol, n);
      CleanPassesAdded(pol, n, row, env + row, w);
    }
  }

  /** A leaf read from outside the SELECT's own FROM is present in the scope and passes. */
  lemma ReadsAdmitted(pol: Policy, q: Query, env: Env, present: set<Leaf>, row: Env)
    requires q.Select? && FitsQ(pol, q, present) && Admissible(pol, env, present)
    requires row.Keys == AllLeaves(FinalSpans(q))
    ensures forall x :: x in FromsRead(q.cols, q.froms, q.where) && pol.Scopes(x) && x !in row ==>
      x in env + row && (env + row)[x].Present? && Passes(pol, x, (env + row)[x])
  {
    forall x | x in FromsRead(q.cols, q.froms, q.where) && pol.Scopes(x) && x !in row
      ensures x in env + row && (env + row)[x].Present? && Passes(pol, x, (env + row)[x])
    {
      if x in BareLeaves(q.froms) {
        BareInLeaves(q, x);
        assert false;
      }
    }
  }

  lemma BareInLeaves(q: Query, x: Leaf)
    requires q.Select? && DistinctSelect(q) && x in BareLeaves(q.froms)
    ensures x in AllLeaves(FinalSpans(q))
  {
    var spans := SpansOf(q.froms);
    BareLeavesIs(q.froms);
    var i :| 0 <= i < |q.froms| && q.froms[i].Base? && q.froms[i].leaf == x;
    assert x in spans[i].leaves;
    SpansGrow(q.steps, spans);
  }

  lemma {:induction false} SpansGrow(ss: seq<Step>, spans: seq<Span>)
    requires DistinctSteps(ss, spans) && Apart(spans)
    ensures AllLeaves(spans) <= AllLeaves(SpansAfter(ss, spans))
  {
    if ss != [] {
      SpanStepApart(spans, ss[0]);
      SpansGrow(ss[1..], SpanStep(spans, ss[0]));
    }
  }

  /** The join rows a scoped SELECT keeps are the ones the original keeps over pre-filtered tables. */
  lemma {:induction false} ExactSurvivors(pol: Policy, q: Query, env: Env, w: World, present: set<Leaf>)
    requires q.Select? && FitsQ(pol, q, present) && Admissible(pol, env, present) && Ready(pol, w)
    ensures Survivors(ScopeQ(pol, q), env, w) == Survivors(q, env, Prefiltered(w))
    decreases q, 2
  {
    var s, n := ScopeQ(pol, q), Nested(pol, q);
    var spans := FinalSpans(q);
    var rows := FromRows(s.froms, s.steps, env, w).rows;
    var inner := Inside(present, AllLeaves(spans), AllCertain(spans));
    NestedSelect(pol, q, present);
    ScopedParts(pol, n);
    ExactRows(pol, q, env, w, present);
    assert s.where == n.where + Added(pol, n);
    forall row | row in rows
      ensures Where(s.where, env, w)(row) == (Clean(pol)(row) && Where(q.where, env, Prefiltered(w))(row))
    {
      TrueAppend(n.where, Added(pol, n), env + row, w);
      AddedIsClean(pol, q, env, w, present, row);
      if Clean(pol)(row) {
        AdmitRow(pol, env, present, row, AllLeaves(spans), AllCertain(spans));
        ExactEs(pol, q.where, env + row, w, inner);
      }
    }
    FilterBoth(rows, Clean(pol), Where(q.where, env, Prefiltered(w)), Where(s.where, env, w));
  }

  lemma {:induction false} ExactProject(pol: Policy, cols: seq<Expr>, rows: seq<Env>, env: Env, w: World,
      present: set<Leaf>, leaves: set<Leaf>, certain: set<Leaf>)
    requires FitsEs(pol, cols, Inside(present, leaves, certain)) && Admissible(pol, env, present) && Ready(pol, w)
    requires forall row :: row in rows ==> Clean(pol)(row) && row.Keys == leaves && forall x :: x in certain ==>
      x in row && row[x].Present?
    ensures Project(ScopeEs(pol, cols), rows, env, w) == Project(cols, rows, env, Prefiltered(w))
    decreases cols, 2, |rows|
  {
    if rows != [] {
      assert rows[0] in rows && forall row :: row in rows[1..] ==> row in rows;
      AdmitRow(pol, env, present, rows[0], leaves, certain);
      ExactEs(pol, cols, env + rows[0], w, Inside(present, leaves, certain));
      ExactProject(pol, cols, rows[1..], env, w, present, leaves, certain);
    }
  }

  /** Meaning preservation: for any nesting of FROM products, joins, `.join()` steps,
      correlated subqueries and set operations, the scoped statement over the full tables
      returns the very rows, in order, that the original returns over pre-filtered tables. */
  lemma {:induction false} ExactQ(pol: Policy, q: Query, env: Env, w: World, present: set<Leaf>)
    requires FitsQ(pol, q, present) && Admissible(pol, env, present) && Ready(pol, w)
    ensures EvalQ(ScopeQ(pol, q), env, w) == EvalQ(q, env, Prefiltered(w))
    decreases q, 3
  {
    match q
    case Select(cols, _, _, _, _) =>
      var s, spans := ScopeQ(pol, q), FinalSpans(q);
      var rows := Survivors(s, env, w);
      ExactSurvivors(pol, q, env, w, present);
      forall row | row in rows
        ensures Clean(pol)(row) && row.Keys == AllLeaves(spans) && forall x :: x in AllCertain(spans) ==>
          x in row && row[x].Present?
      {
        SurvivorIsClean(pol, q, env, w, present, row);
      }
      ExactProject(pol, cols, rows, env, w, present, AllLeaves(spans), AllCertain(spans));
    case Compound(_, a, b) =>
      ExactQ(pol, a, env, w, present);
      ExactQ(pol, b, env, w, present);
  }

  lemma SurvivorIsClean(pol: Policy, q: Query, env: Env, w: World, present: set<Leaf>, row: Env)
    requires q.Select? && FitsQ(pol, q, present) && Admissible(pol, env, present) && Ready(pol, w)
    requires row in Survivors(ScopeQ(pol, q), env, w)
    ensures Clean(pol)(row) && row.Keys == AllLeaves(FinalSpans(q))
    ensures forall x :: x in AllCertain(FinalSpans(q)) ==> x in row && row[x].Present?
  {
    var s, n := ScopeQ(pol, q), Nested(pol, q);
    NestedSelect(pol, q, present);
    SelectIsSafe(pol, n, env, w, row);
    FilterMember(FromRows(s.froms, s.steps, env, w).rows, Where(s.where, env, w), row);
    AddedIsClean(pol, q, env, w, present, row);
  }
}
