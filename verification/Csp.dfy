/** Extending a Content-Security-Policy with sources that modules declare. */
module Csp {
  import opened Basics

  datatype Directive =
    | DefaultSrc | ScriptSrc | ScriptSrcElem | ScriptSrcAttr | StyleSrc | StyleSrcElem | StyleSrcAttr
    | ImgSrc | FontSrc | ConnectSrc | MediaSrc | ObjectSrc | ManifestSrc | FrameSrc | WorkerSrc | ChildSrc
    | Other(name: string)

  datatype Clause = Clause(directive: Directive, sources: seq<string>)

  /** A dictionary with its keys in order; a parsed policy may list a directive twice. */
  datatype Table = Table(order: seq<Directive>, of: map<Directive, seq<string>>)

  predicate Extendable(d: Directive)
  {
    d in {ScriptSrc, ScriptSrcElem, StyleSrc, StyleSrcElem, ImgSrc, FontSrc, ConnectSrc, MediaSrc,
      FrameSrc, WorkerSrc, ChildSrc}
  }

  /** The registry's fallback chains. */
  const CHAINS: seq<(Directive, seq<Directive>)> := [
    (ScriptSrcElem, [ScriptSrc, DefaultSrc]),
    (StyleSrcElem, [StyleSrc, DefaultSrc]),
    (FrameSrc, [ChildSrc, DefaultSrc]),
    (WorkerSrc, [ChildSrc, ScriptSrc, DefaultSrc])
  ]

  function Chain(d: Directive): seq<Directive>
  {
    match d
    case ScriptSrcElem => [ScriptSrc, DefaultSrc]
    case StyleSrcElem => [StyleSrc, DefaultSrc]
    case FrameSrc => [ChildSrc, DefaultSrc]
    case WorkerSrc => [ChildSrc, ScriptSrc, DefaultSrc]
    case _ => []
  }

  // ---- What a browser reads ----------------------------------------------------------

  /** The fetch directive fallback list of Content Security Policy Level 3, section 6.8.3. */
  function FallbackList(d: Directive): seq<Directive>
  {
    match d
    case ScriptSrcElem => [ScriptSrcElem, ScriptSrc, DefaultSrc]
    case ScriptSrcAttr => [ScriptSrcAttr, ScriptSrc, DefaultSrc]
    case StyleSrcElem => [StyleSrcElem, StyleSrc, DefaultSrc]
    case StyleSrcAttr => [StyleSrcAttr, StyleSrc, DefaultSrc]
    case FrameSrc => [FrameSrc, ChildSrc, DefaultSrc]
    case WorkerSrc => [WorkerSrc, ChildSrc, ScriptSrc, DefaultSrc]
    case DefaultSrc => [DefaultSrc]
    case Other(_) => [d]
    case _ => [d, DefaultSrc]
  }

  /** The sources of the first clause for `d`; later clauses for the same directive are ignored. */
  function Find(policy: seq<Clause>, d: Directive): Option<seq<string>>
  {
    if policy == [] then None
    else if policy[0].directive == d then Some(policy[0].sources)
    else Find(policy[1..], d)
  }

  function FirstOf(policy: seq<Clause>, ds: seq<Directive>): Option<seq<string>>
  {
    if ds == [] then None
    else if Find(policy, ds[0]).Some? then Find(policy, ds[0])
    else FirstOf(policy, ds[1..])
  }

  /** The sources that govern `d`, or none when `d` is unrestricted. */
  function Effective(policy: seq<Clause>, d: Directive): Option<seq<string>> { FirstOf(policy, FallbackList(d)) }

  ghost predicate Within(a: seq<string>, b: seq<string>) { forall x :: x in a ==> x in b }

  /** `after` allows everything that `before` allowed. */
  ghost predicate NotNarrower(before: Option<seq<string>>, after: Option<seq<string>>)
  {
    after.Some? ==> before.Some? && Within(before.value, after.value)
  }

  // ---- Extending, as functions ---------------------------------------------------------

  /** Append the sources not listed yet. */
  function Extended(bucket: seq<string>, extras: seq<string>): (r: seq<string>)
    ensures forall x :: x in r <==> x in bucket || x in extras
    decreases |extras|
  {
    if extras == [] then bucket else
    assert extras == [extras[0]] + extras[1..];
    Extended(if extras[0] in bucket then bucket else bucket + [extras[0]], extras[1..])
  }

  /** The clause a new directive starts from. */
  function Seed(of: map<Directive, seq<string>>, chain: seq<Directive>): seq<string>
  {
    if chain == [] then (if DefaultSrc in of then of[DefaultSrc] else ["'self'"])
    else if chain[0] in of then of[chain[0]]
    else Seed(of, chain[1..])
  }

  /** Give directive `d` its extras, adding its clause if it has none. */
  function Introduced(t: Table, d: Directive, extras: seq<string>): Table
  {
    if d in t.of then Table(t.order, t.of[d := Extended(t.of[d], extras)])
    else Table(t.order + [d], t.of[d := Extended(Seed(t.of, Chain(d)), extras)])
  }

  ghost predicate Keyed(t: Table) { forall d :: d in t.order ==> d in t.of }

  ghost predicate Well(sources: Table)
  {
    && (forall i, j :: 0 <= i < j < |sources.order| ==> sources.order[i] != sources.order[j])
    && (forall d :: d in sources.order <==> d in sources.of)
    && (forall d :: d in sources.of ==> Extendable(d))
  }

  /** The first `n` declared directives, in order. */
  function IntroduceAll(t: Table, sources: Table, n: nat): Table
    requires n <= |sources.order| && Keyed(sources)
  {
    if n == 0 then t
    else Introduced(IntroduceAll(t, sources, n - 1), sources.order[n - 1], sources.of[sources.order[n - 1]])
  }

  function Extras(sources: Table, d: Directive): seq<string> { if d in sources.of then sources.of[d] else [] }

  function Mirrored(bucket: seq<string>, sources: Table, chain: seq<Directive>): seq<string>
    decreases |chain|
  {
    if chain == [] then bucket else Mirrored(Extended(bucket, Extras(sources, chain[0])), sources, chain[1..])
  }

  /** Repeat base extras in the first `n` clauses that shadow their base. */
  function MirrorAll(of: map<Directive, seq<string>>, sources: Table, n: nat): map<Directive, seq<string>>
    requires n <= |CHAINS|
  {
    if n == 0 then of else
    var before, d := MirrorAll(of, sources, n - 1), CHAINS[n - 1].0;
    if d in before then before[d := Mirrored(before[d], sources, CHAINS[n - 1].1)] else before
  }

  /** The parsed policy; of two clauses for one directive the later is kept, in both places. */
  function Parse(policy: seq<Clause>): (t: Table)
    ensures forall d :: d in t.order <==> d in t.of
  {
    if policy == [] then Table([], map[]) else
    var t, c := Parse(policy[..|policy| - 1]), policy[|policy| - 1];
    Table(t.order + [c.directive], t.of[c.directive := c.sources])
  }

  function Render(t: Table): (r: seq<Clause>)
    requires forall d :: d in t.order ==> d in t.of
    ensures |r| == |t.order| && forall i :: 0 <= i < |r| ==> r[i] == Clause(t.order[i], t.of[t.order[i]])
  {
    seq(|t.order|, i requires 0 <= i < |t.order| => Clause(t.order[i], t.of[t.order[i]]))
  }

  /** The extended policy as a table. */
  function Extend(t: Table, sources: Table): Table
    requires Keyed(sources)
  {
    var introduced := IntroduceAll(t, sources, |sources.order|);
    Table(introduced.order, MirrorAll(introduced.of, sources, |CHAINS|))
  }

  /** Add one declared source to its directive's list. */
  function AddSource(sources: Table, d: Directive, source: string): Table
  {
    if d in sources.of then Table(sources.order, sources.of[d := Extended(sources.of[d], [source])])
    else Table(sources.order + [d], sources.of[d := [source]])
  }

  function AddAll(sources: Table, extra: seq<(Directive, string)>): Table
  {
    if extra == [] then sources else
    var last := extra[|extra| - 1];
    AddSource(AddAll(sources, extra[..|extra| - 1]), last.0, last.1)
  }

  lemma AddSourceHolds(sources: Table, e: Directive, source: string, d: Directive, x: string)
    ensures x in Extras(AddSource(sources, e, source), d) <==> x in Extras(sources, d) || (d == e && x == source)
  {
  }

  lemma LastExtra(extra: seq<(Directive, string)>, p: (Directive, string))
    requires extra != []
    ensures p in extra <==> p in extra[..|extra| - 1] || p == extra[|extra| - 1]
  {
    assert extra == extra[..|extra| - 1] + [extra[|extra| - 1]];
  }

  /** A call sees each directive's registered sources and the call's own pairs, and nothing else. */
  lemma {:induction false} AddAllHolds(sources: Table, extra: seq<(Directive, string)>, d: Directive, x: string)
    ensures x in Extras(AddAll(sources, extra), d) <==> x in Extras(sources, d) || (d, x) in extra
  {
    if extra != [] {
      var last := extra[|extra| - 1];
      AddAllHolds(sources, extra[..|extra| - 1], d, x);
      AddSourceHolds(AddAll(sources, extra[..|extra| - 1]), last.0, last.1, d, x);
      LastExtra(extra, (d, x));
    }
  }

  /** The policy that is sent; with nothing declared it is left as it is. */
  function ExtendedPolicy(policy: seq<Clause>, sources: Table): seq<Clause>
    requires Well(sources)
  {
    if sources.order == [] then policy
    else
      assert Ordered(Extend(Parse(policy), sources)) by { ExtendOrdered(Parse(policy), sources); }
      Render(Extend(Parse(policy), sources))
  }

  ghost predicate Ordered(t: Table) { forall d :: d in t.order <==> d in t.of }

  lemma IntroducedHas(t: Table, e: Directive, extras: seq<string>, d: Directive)
    ensures d in Introduced(t, e, extras).of <==> d in t.of || d == e
    ensures (d in t.order <==> d in t.of) ==>
      (d in Introduced(t, e, extras).order <==> d in Introduced(t, e, extras).of)
  {
  }

  lemma LastIntroduced(t: Table, sources: Table, n: nat, d: Directive)
    requires Keyed(sources) && 0 < n <= |sources.order|
    ensures var (before, after) := (IntroduceAll(t, sources, n - 1), IntroduceAll(t, sources, n));
      && (d in after.of <==> d in before.of || d == sources.order[n - 1])
      && ((d in before.order <==> d in before.of) ==> (d in after.order <==> d in after.of))
  {
    var last := sources.order[n - 1];
    IntroduceStep(t, sources, n - 1);
    IntroducedHas(IntroduceAll(t, sources, n - 1), last, sources.of[last], d);
  }

  lemma {:induction false} IntroduceLists(t: Table, sources: Table, n: nat, d: Directive)
    requires (d in t.order <==> d in t.of) && Keyed(sources) && n <= |sources.order|
    ensures d in IntroduceAll(t, sources, n).order <==> d in IntroduceAll(t, sources, n).of
  {
    if n > 0 {
      IntroduceLists(t, sources, n - 1, d);
      LastIntroduced(t, sources, n, d);
    }
  }

  lemma {:induction false} IntroduceHas(t: Table, sources: Table, n: nat, d: Directive)
    requires Keyed(sources) && n <= |sources.order|
    ensures d in IntroduceAll(t, sources, n).of <==> d in t.of || d in sources.order[..n]
  {
    if n > 0 {
      IntroduceHas(t, sources, n - 1, d);
      OneMore(sources.order, n, d);
      LastIntroduced(t, sources, n, d);
    }
  }

  lemma OneMore(order: seq<Directive>, n: nat, d: Directive)
    requires 0 < n <= |order|
    ensures d in order[..n] <==> d in order[..n - 1] || d == order[n - 1]
  {
    assert order[..n] == order[..n - 1] + [order[n - 1]];
  }

  lemma IntroduceOrdered(t: Table, sources: Table, n: nat)
    requires Ordered(t) && Well(sources) && n <= |sources.order|
    ensures Ordered(IntroduceAll(t, sources, n))
    ensures forall d :: d in IntroduceAll(t, sources, n).of <==> d in t.of || d in sources.order[..n]
  {
    forall d
      ensures d in IntroduceAll(t, sources, n).order <==> d in IntroduceAll(t, sources, n).of
      ensures d in IntroduceAll(t, sources, n).of <==> d in t.of || d in sources.order[..n]
    {
      IntroduceLists(t, sources, n, d);
      IntroduceHas(t, sources, n, d);
    }
  }

  function Shadowing(d: Directive): nat
  {
    match d
    case ScriptSrcElem => 0
    case StyleSrcElem => 1
    case FrameSrc => 2
    case WorkerSrc => 3
    case _ => |CHAINS|
  }

  lemma ChainsListed(n: nat, d: Directive)
    requires n < |CHAINS|
    ensures CHAINS[n].0 == d <==> Shadowing(d) == n
    ensures CHAINS[n].0 == d ==> CHAINS[n].1 == Chain(d)
  {
    assert n == 0 || n == 1 || n == 2 || n == 3;
  }

  lemma {:induction false} MirrorPrefix(of: map<Directive, seq<string>>, sources: Table, n: nat, d: Directive)
    requires n <= |CHAINS|
    ensures d in MirrorAll(of, sources, n) <==> d in of
    ensures d in of ==>
      MirrorAll(of, sources, n)[d] == if Shadowing(d) < n then Mirrored(of[d], sources, Chain(d)) else of[d]
  {
    if n > 0 {
      var before, e := MirrorAll(of, sources, n - 1), CHAINS[n - 1].0;
      MirrorPrefix(of, sources, n - 1, d);
      ChainsListed(n - 1, d);
      assert e != d ==> (d in MirrorAll(of, sources, n) <==> d in before);
    }
  }

  lemma MirrorContent(of: map<Directive, seq<string>>, sources: Table, d: Directive)
    ensures d in MirrorAll(of, sources, |CHAINS|) <==> d in of
    ensures d in of ==> MirrorAll(of, sources, |CHAINS|)[d] == Mirrored(of[d], sources, Chain(d))
  {
    MirrorPrefix(of, sources, |CHAINS|, d);
  }

  lemma ExtendOrdered(t: Table, sources: Table)
    requires Ordered(t) && Well(sources)
    ensures Ordered(Extend(t, sources))
    ensures forall d :: d in Extend(t, sources).of <==> d in t.of || d in sources.of
  {
    var n := |sources.order|;
    IntroduceOrdered(t, sources, n);
    assert sources.order[..n] == sources.order;
    forall d ensures d in Extend(t, sources).of <==> d in IntroduceAll(t, sources, n).of {
      MirrorContent(IntroduceAll(t, sources, n).of, sources, d);
    }
  }

  /** The clause of `d` is the j-th that was declared, seeded from what was there before it. */
  ghost predicate SeededAt(t: Table, sources: Table, n: nat, d: Directive, j: int)
    requires Well(sources) && n <= |sources.order| && d in IntroduceAll(t, sources, n).of
  {
    && 0 <= j < n && sources.order[j] == d
    && IntroduceAll(t, sources, n).of[d] == Extended(Seed(IntroduceAll(t, sources, j).of, Chain(d)), sources.of[d])
  }

  lemma Prefixes(sources: Table, n: nat)
    requires Well(sources) && 0 < n <= |sources.order|
    ensures sources.order[..n] == sources.order[..n - 1] + [sources.order[n - 1]]
    ensures sources.order[n - 1] !in sources.order[..n - 1]
  {
  }

  lemma IntroducedAt(t: Table, e: Directive, extras: seq<string>, d: Directive)
    requires d in t.of
    ensures d in Introduced(t, e, extras).of
    ensures Introduced(t, e, extras).of[d] == if d == e then Extended(t.of[d], extras) else t.of[d]
  {
  }

  /** A clause of the policy gains its own extras, once. */
  lemma {:induction false} OldIntroduced(t: Table, sources: Table, n: nat, d: Directive)
    requires Ordered(t) && Well(sources) && n <= |sources.order| && d in t.of
    ensures d in IntroduceAll(t, sources, n).of
    ensures IntroduceAll(t, sources, n).of[d] ==
      if d in sources.order[..n] then Extended(t.of[d], sources.of[d]) else t.of[d]
  {
    if n > 0 {
      var last := sources.order[n - 1];
      Prefixes(sources, n);
      OldIntroduced(t, sources, n - 1, d);
      IntroduceStep(t, sources, n - 1);
      IntroducedAt(IntroduceAll(t, sources, n - 1), last, sources.of[last], d);
    }
  }

  lemma {:induction false} NewIntroduced(t: Table, sources: Table, n: nat, d: Directive) returns (j: nat)
    requires Ordered(t) && Well(sources) && n <= |sources.order| && d !in t.of && d in IntroduceAll(t, sources, n).of
    ensures SeededAt(t, sources, n, d, j)
  {
    var last := sources.order[n - 1];
    Prefixes(sources, n);
    IntroduceOrdered(t, sources, n - 1);
    if d == last {
      j := n - 1;
    } else {
      j := NewIntroduced(t, sources, n - 1, d);
    }
  }

  // ---- What ends up in each clause -----------------------------------------------------

  function Base(of: map<Directive, seq<string>>): seq<string> { Seed(of, []) }

  ghost predicate Comes(order: seq<Directive>, a: Directive, b: Directive)
  {
    exists i, j :: 0 <= i < j < |order| && order[i] == a && order[j] == b
  }

  /** A new child-src clause comes between worker-src and the script-src clause it fell back to. */
  ghost predicate Cut(of: map<Directive, seq<string>>, sources: Table)
  {
    && WorkerSrc !in of && ChildSrc !in of && ScriptSrc in of && ChildSrc in sources.of
    && (WorkerSrc in sources.of ==> Comes(sources.order, ChildSrc, WorkerSrc))
  }

  /** What the clause of `d` starts from: what it held, or where it is new what it falls back to. */
  ghost function Start(of: map<Directive, seq<string>>, sources: Table, d: Directive): seq<string>
  {
    if d in of then of[d] else if d == WorkerSrc && Cut(of, sources) then Base(of) else Seed(of, Chain(d))
  }

  /** Declared for `d` or for a directive that `d` shadows. */
  ghost predicate Declared(sources: Table, d: Directive, x: string)
  {
    x in Extras(sources, d) || exists c :: c in Chain(d) && x in Extras(sources, c)
  }

  /** The closed form of an extended clause. */
  ghost predicate Holds(of: map<Directive, seq<string>>, sources: Table, d: Directive, x: string)
  {
    x in Start(of, sources, d) || Declared(sources, d, x)
  }

  /** The default clause is never declared, so every seed that ends there is the same. */
  lemma BaseStays(t: Table, sources: Table, n: nat)
    requires Ordered(t) && Well(sources) && n <= |sources.order|
    ensures Base(IntroduceAll(t, sources, n).of) == Base(t.of)
  {
    IntroduceOrdered(t, sources, n);
    assert DefaultSrc !in sources.order;
    if DefaultSrc in t.of {
      OldIntroduced(t, sources, n, DefaultSrc);
    }
  }

  /** A clause with no chain of its own, after the first `n` declarations. */
  lemma BareContent(t: Table, sources: Table, n: nat, b: Directive, x: string)
    requires Ordered(t) && Well(sources) && n <= |sources.order|
    requires Chain(b) == [] && b in IntroduceAll(t, sources, n).of
    ensures x in Start(t.of, sources, b) ==> x in IntroduceAll(t, sources, n).of[b]
    ensures x in IntroduceAll(t, sources, n).of[b] ==> x in Start(t.of, sources, b) || x in Extras(sources, b)
  {
    if b in t.of {
      OldIntroduced(t, sources, n, b);
    } else {
      var j := NewIntroduced(t, sources, n, b);
      BaseStays(t, sources, j);
    }
  }

  /** The seed after the first `j` declarations holds what the clause starts from, and nothing undeclared. */
  ghost predicate SeedHolds(t: Table, sources: Table, j: nat, d: Directive, x: string)
    requires j <= |sources.order| && Keyed(sources)
  {
    var seed := Seed(IntroduceAll(t, sources, j).of, Chain(d));
    && (x in Start(t.of, sources, d) ==> x in seed)
    && (x in seed ==> Holds(t.of, sources, d, x))
  }

  /** The seed is the clause of a base directive `b`. */
  lemma SeedFromBase(t: Table, sources: Table, j: nat, d: Directive, b: Directive, x: string)
    requires Ordered(t) && Well(sources) && j <= |sources.order| && Chain(b) == [] && b in Chain(d)
    requires b in IntroduceAll(t, sources, j).of && Start(t.of, sources, d) == Start(t.of, sources, b)
    requires Seed(IntroduceAll(t, sources, j).of, Chain(d)) == IntroduceAll(t, sources, j).of[b]
    ensures SeedHolds(t, sources, j, d, x)
  {
    BareContent(t, sources, j, b, x);
  }

  /** A new clause that falls back to one base directive. */
  lemma OneBaseSeed(t: Table, sources: Table, j: nat, d: Directive, b: Directive, x: string)
    requires Ordered(t) && Well(sources) && j <= |sources.order| && d !in t.of && d != WorkerSrc
    requires Chain(d) == [b, DefaultSrc] && Chain(b) == []
    ensures SeedHolds(t, sources, j, d, x)
  {
    Lists(t.of, d, b);
    Lists(IntroduceAll(t, sources, j).of, d, b);
    IntroduceOrdered(t, sources, j);
    BaseStays(t, sources, j);
    assert b in Chain(d);
    if b in IntroduceAll(t, sources, j).of {
      SeedFromBase(t, sources, j, d, b, x);
    }
  }

  lemma WorkerStart(of: map<Directive, seq<string>>, sources: Table)
    requires WorkerSrc !in of
    ensures Start(of, sources, WorkerSrc) ==
      if ChildSrc in of then of[ChildSrc]
      else if ScriptSrc in of && !Cut(of, sources) then of[ScriptSrc] else Base(of)
  {
    WorkerLists(of);
  }

  /** Where the new worker-src clause starts from: the one chain with two bases. */
  lemma WorkerSeed(t: Table, sources: Table, j: nat, x: string)
    requires Ordered(t) && Well(sources) && WorkerSrc !in t.of
    requires j < |sources.order| && sources.order[j] == WorkerSrc
    ensures SeedHolds(t, sources, j, WorkerSrc, x)
  {
    var then_ := IntroduceAll(t, sources, j).of;
    WorkerStart(t.of, sources);
    WorkerLists(then_);
    WorkerBases(t, sources, j);
    if ChildSrc in then_ {
      SeedFromBase(t, sources, j, WorkerSrc, ChildSrc, x);
    } else if ScriptSrc in then_ {
      SeedFromBase(t, sources, j, WorkerSrc, ScriptSrc, x);
    }
  }

  lemma WorkerBases(t: Table, sources: Table, j: nat)
    requires Ordered(t) && Well(sources) && WorkerSrc !in t.of
    requires j < |sources.order| && sources.order[j] == WorkerSrc
    ensures ChildSrc in Chain(WorkerSrc) && ScriptSrc in Chain(WorkerSrc)
    ensures var then_, start := IntroduceAll(t, sources, j).of, Start(t.of, sources, WorkerSrc);
      if ChildSrc in then_ then start == Start(t.of, sources, ChildSrc)
      else if ScriptSrc in then_ then start == Start(t.of, sources, ScriptSrc)
      else start == Base(then_)
  {
    WorkerStart(t.of, sources);
    IntroduceOrdered(t, sources, j);
    BaseStays(t, sources, j);
    CutBefore(t, sources, j);
    assert Chain(WorkerSrc) == [ChildSrc, ScriptSrc, DefaultSrc];
    assert Start(t.of, sources, ChildSrc) == if ChildSrc in t.of then t.of[ChildSrc] else Base(t.of);
    assert Start(t.of, sources, ScriptSrc) == if ScriptSrc in t.of then t.of[ScriptSrc] else Base(t.of);
  }

  /** The cut is there exactly when child-src has become new before worker-src does, over a script-src clause. */
  lemma CutBefore(t: Table, sources: Table, j: nat)
    requires Ordered(t) && Well(sources) && WorkerSrc !in t.of
    requires j < |sources.order| && sources.order[j] == WorkerSrc
    ensures Cut(t.of, sources) <==>
      ChildSrc !in t.of && ScriptSrc in t.of && ChildSrc in IntroduceAll(t, sources, j).of
  {
    IntroduceOrdered(t, sources, j);
    if ChildSrc in sources.order[..j] {
      var i :| 0 <= i < j && sources.order[i] == ChildSrc;
      assert Comes(sources.order, ChildSrc, WorkerSrc);
    }
  }

  lemma NewSeed(t: Table, sources: Table, j: nat, d: Directive, x: string)
    requires Ordered(t) && Well(sources) && d !in t.of && j < |sources.order| && sources.order[j] == d
    ensures SeedHolds(t, sources, j, d, x)
  {
    match d
    case ScriptSrcElem => OneBaseSeed(t, sources, j, d, ScriptSrc, x);
    case StyleSrcElem => OneBaseSeed(t, sources, j, d, StyleSrc, x);
    case FrameSrc => OneBaseSeed(t, sources, j, d, ChildSrc, x);
    case WorkerSrc => WorkerSeed(t, sources, j, x);
    case _ => BaseStays(t, sources, j);
  }

  /** A clause before the extras of what it shadows are repeated in it. */
  lemma IntroducedContent(t: Table, sources: Table, d: Directive, x: string)
    requires Ordered(t) && Well(sources) && (d in t.of || d in sources.of)
    ensures var of := IntroduceAll(t, sources, |sources.order|).of;
      && d in of
      && (x in Start(t.of, sources, d) || x in Extras(sources, d) ==> x in of[d])
      && (x in of[d] ==> Holds(t.of, sources, d, x))
  {
    var n := |sources.order|;
    assert sources.order[..n] == sources.order;
    IntroduceOrdered(t, sources, n);
    if d in t.of {
      OldIntroduced(t, sources, n, d);
    } else {
      var j := NewIntroduced(t, sources, n, d);
      NewSeed(t, sources, j, d, x);
    }
  }

  lemma {:induction false} MirroredMembers(bucket: seq<string>, sources: Table, chain: seq<Directive>, x: string)
    ensures x in Mirrored(bucket, sources, chain) <==> x in bucket || exists c :: c in chain && x in Extras(sources, c)
    decreases |chain|
  {
    if chain != [] {
      MirroredMembers(Extended(bucket, Extras(sources, chain[0])), sources, chain[1..], x);
      assert chain == [chain[0]] + chain[1..];
    }
  }

  /** Each extended clause holds what it starts from and everything declared for it or for what it shadows. */
  lemma ExtendedContent(t: Table, sources: Table, d: Directive, x: string)
    requires Ordered(t) && Well(sources) && (d in t.of || d in sources.of)
    ensures d in Extend(t, sources).of
    ensures x in Extend(t, sources).of[d] <==> Holds(t.of, sources, d, x)
  {
    var of := IntroduceAll(t, sources, |sources.order|).of;
    IntroducedContent(t, sources, d, x);
    MirrorContent(of, sources, d);
    MirroredMembers(of[d], sources, Chain(d), x);
  }

  /** Every declared source reaches its directive's clause and every clause that shadows it. */
  lemma DeclaredReaches(t: Table, sources: Table, d: Directive, source: string, s: Directive)
    requires Ordered(t) && Well(sources) && source in Extras(sources, d)
    requires s in Extend(t, sources).of && (s == d || d in Chain(s))
    ensures source in Extend(t, sources).of[s]
  {
    ExtendOrdered(t, sources);
    ExtendedContent(t, sources, s, source);
  }

  lemma {:induction false} NothingToSeed(of: map<Directive, seq<string>>, chain: seq<Directive>)
    requires DefaultSrc !in of && forall c :: c in chain ==> c !in of
    ensures Seed(of, chain) == ["'self'"]
  {
    if chain != [] {
      assert chain == [chain[0]] + chain[1..];
      NothingToSeed(of, chain[1..]);
    }
  }

  /** A new clause of a policy that has nothing to fall back on holds 'self' and what is declared, no more. */
  lemma BareClauseHolds(t: Table, sources: Table, d: Directive, x: string)
    requires Ordered(t) && Well(sources) && d in sources.of && d !in t.of
    requires DefaultSrc !in t.of && forall c :: c in Chain(d) ==> c !in t.of
    ensures d in Extend(t, sources).of
    ensures x in Extend(t, sources).of[d] <==> x == "'self'" || Declared(sources, d, x)
  {
    ExtendedContent(t, sources, d, x);
    NothingToSeed(t.of, Chain(d));
    NothingToSeed(t.of, []);
    assert d == WorkerSrc ==> ScriptSrc in Chain(d);
  }

  // ---- Order --------------------------------------------------------------------------

  /** `b` is `a` with sources appended, each once and none that `a` lists. */
  ghost predicate Grown(a: seq<string>, b: seq<string>)
  {
    a <= b && NoDup(b[|a|..]) && forall x :: x in b[|a|..] ==> x !in a
  }

  lemma GrownTwice(a: seq<string>, b: seq<string>, c: seq<string>)
    requires Grown(a, b) && Grown(b, c)
    ensures Grown(a, c)
  {
    var mid, end := b[|a|..], c[|b|..];
    assert b == a + mid && c == b + end && c[|a|..] == mid + end;
    forall x | x in end ensures x !in mid && x !in a {
      assert x !in b;
    }
    NoDupBoth(mid, end);
  }

  lemma NoDupBoth(a: seq<string>, b: seq<string>)
    requires NoDup(a) && NoDup(b) && forall x :: x in b ==> x !in a
    ensures NoDup(a + b)
  {
    forall i, j | 0 <= i < j < |a + b| ensures (a + b)[i] != (a + b)[j] {
      if i < |a| <= j {
        assert (a + b)[j] == b[j - |a|] && b[j - |a|] in b;
      }
    }
  }

  lemma {:induction false} ExtendedGrows(bucket: seq<string>, extras: seq<string>)
    ensures Grown(bucket, Extended(bucket, extras))
    decreases |extras|
  {
    if extras == [] {
      assert bucket[|bucket|..] == [];
    } else {
      var more := if extras[0] in bucket then bucket else bucket + [extras[0]];
      assert Grown(bucket, more) by {
        assert more[|bucket|..] == if extras[0] in bucket then [] else [extras[0]];
      }
      ExtendedGrows(more, extras[1..]);
      GrownTwice(bucket, more, Extended(more, extras[1..]));
    }
  }

  lemma {:induction false} MirroredGrows(bucket: seq<string>, sources: Table, chain: seq<Directive>)
    ensures Grown(bucket, Mirrored(bucket, sources, chain))
    decreases |chain|
  {
    if chain == [] {
      assert bucket[|bucket|..] == [];
    } else {
      var more := Extended(bucket, Extras(sources, chain[0]));
      ExtendedGrows(bucket, Extras(sources, chain[0]));
      MirroredGrows(more, sources, chain[1..]);
      GrownTwice(bucket, more, Mirrored(more, sources, chain[1..]));
    }
  }

  lemma GrownSame(a: seq<string>)
    ensures Grown(a, a)
  {
    assert a[|a|..] == [];
  }

  lemma BareGrows(t: Table, sources: Table, n: nat, b: Directive)
    requires Ordered(t) && Well(sources) && n <= |sources.order|
    requires Chain(b) == [] && b in IntroduceAll(t, sources, n).of
    ensures Grown(Start(t.of, sources, b), IntroduceAll(t, sources, n).of[b])
  {
    if b in t.of {
      OldIntroduced(t, sources, n, b);
      GrownSame(t.of[b]);
      ExtendedGrows(t.of[b], Extras(sources, b));
    } else {
      var j := NewIntroduced(t, sources, n, b);
      BaseStays(t, sources, j);
      ExtendedGrows(Base(t.of), sources.of[b]);
    }
  }

  lemma OneBaseSeedGrows(t: Table, sources: Table, j: nat, d: Directive, b: Directive)
    requires Ordered(t) && Well(sources) && j <= |sources.order| && d !in t.of && d != WorkerSrc
    requires Chain(d) == [b, DefaultSrc] && Chain(b) == []
    ensures Grown(Start(t.of, sources, d), Seed(IntroduceAll(t, sources, j).of, Chain(d)))
  {
    Lists(t.of, d, b);
    Lists(IntroduceAll(t, sources, j).of, d, b);
    IntroduceOrdered(t, sources, j);
    BaseStays(t, sources, j);
    if b in IntroduceAll(t, sources, j).of {
      BareGrows(t, sources, j, b);
    } else {
      GrownSame(Base(t.of));
    }
  }

  lemma WorkerSeedGrows(t: Table, sources: Table, j: nat)
    requires Ordered(t) && Well(sources) && WorkerSrc !in t.of
    requires j < |sources.order| && sources.order[j] == WorkerSrc
    ensures Grown(Start(t.of, sources, WorkerSrc), Seed(IntroduceAll(t, sources, j).of, Chain(WorkerSrc)))
  {
    var then_ := IntroduceAll(t, sources, j).of;
    WorkerLists(then_);
    WorkerBases(t, sources, j);
    if ChildSrc in then_ {
      BareGrows(t, sources, j, ChildSrc);
    } else if ScriptSrc in then_ {
      BareGrows(t, sources, j, ScriptSrc);
    } else {
      GrownSame(Base(then_));
    }
  }

  lemma SeedGrows(t: Table, sources: Table, j: nat, d: Directive)
    requires Ordered(t) && Well(sources) && d !in t.of && j < |sources.order| && sources.order[j] == d
    ensures Grown(Start(t.of, sources, d), Seed(IntroduceAll(t, sources, j).of, Chain(d)))
  {
    match d
    case ScriptSrcElem => OneBaseSeedGrows(t, sources, j, d, ScriptSrc);
    case StyleSrcElem => OneBaseSeedGrows(t, sources, j, d, StyleSrc);
    case FrameSrc => OneBaseSeedGrows(t, sources, j, d, ChildSrc);
    case WorkerSrc => WorkerSeedGrows(t, sources, j);
    case _ =>
      BaseStays(t, sources, j);
      GrownSame(Base(t.of));
  }

  lemma IntroducedGrows(t: Table, sources: Table, d: Directive)
    requires Ordered(t) && Well(sources) && (d in t.of || d in sources.of)
    ensures var of := IntroduceAll(t, sources, |sources.order|).of; d in of && Grown(Start(t.of, sources, d), of[d])
  {
    var n := |sources.order|;
    assert sources.order[..n] == sources.order;
    IntroduceOrdered(t, sources, n);
    if d in t.of {
      OldIntroduced(t, sources, n, d);
      GrownSame(t.of[d]);
      ExtendedGrows(t.of[d], Extras(sources, d));
    } else {
      var j := NewIntroduced(t, sources, n, d);
      var seed := Seed(IntroduceAll(t, sources, j).of, Chain(d));
      SeedGrows(t, sources, j, d);
      ExtendedGrows(seed, sources.of[d]);
      GrownTwice(Start(t.of, sources, d), seed, Extended(seed, sources.of[d]));
    }
  }

  /** Each extended clause begins with what it starts from, as it was, and gains only sources that it does not list,
      each once. */
  lemma ExtendedGrowsFromStart(t: Table, sources: Table, d: Directive)
    requires Ordered(t) && Well(sources) && (d in t.of || d in sources.of)
    ensures d in Extend(t, sources).of && Grown(Start(t.of, sources, d), Extend(t, sources).of[d])
  {
    var of := IntroduceAll(t, sources, |sources.order|).of;
    IntroducedGrows(t, sources, d);
    MirrorContent(of, sources, d);
    MirroredGrows(of[d], sources, Chain(d));
    GrownTwice(Start(t.of, sources, d), of[d], Extend(t, sources).of[d]);
  }

  /** The directives that the policy lacks, in the order given. */
  function Lacking(of: map<Directive, seq<string>>, ds: seq<Directive>): seq<Directive>
  {
    if ds == [] then []
    else (if ds[0] in of then [] else [ds[0]]) + Lacking(of, ds[1..])
  }

  lemma {:induction false} LackingLast(of: map<Directive, seq<string>>, ds: seq<Directive>, d: Directive)
    ensures Lacking(of, ds + [d]) == Lacking(of, ds) + if d in of then [] else [d]
  {
    if ds == [] {
      assert [] + [d] == [d] && [d][1..] == [];
    } else {
      assert (ds + [d])[1..] == ds[1..] + [d];
      LackingLast(of, ds[1..], d);
    }
  }

  lemma {:induction false} IntroducedOrder(t: Table, sources: Table, n: nat)
    requires Ordered(t) && Well(sources) && n <= |sources.order|
    ensures IntroduceAll(t, sources, n).order == t.order + Lacking(t.of, sources.order[..n])
  {
    if n == 0 {
      assert sources.order[..0] == [];
    } else {
      var last := sources.order[n - 1];
      Prefixes(sources, n);
      IntroducedOrder(t, sources, n - 1);
      IntroduceOrdered(t, sources, n - 1);
      IntroduceStep(t, sources, n - 1);
      LackingLast(t.of, sources.order[..n - 1], last);
    }
  }

  /** The policy's clauses stay in their order, and the new ones follow in the order of declaration. */
  lemma ExtendedOrder(t: Table, sources: Table)
    requires Ordered(t) && Well(sources)
    ensures Extend(t, sources).order == t.order + Lacking(t.of, sources.order)
  {
    IntroducedOrder(t, sources, |sources.order|);
    assert sources.order[..|sources.order|] == sources.order;
  }

  // ---- What governs each directive -----------------------------------------------------

  function FirstIn(of: map<Directive, seq<string>>, ds: seq<Directive>): Option<seq<string>>
  {
    if ds == [] then None else if ds[0] in of then Some(of[ds[0]]) else FirstIn(of, ds[1..])
  }

  function EffectiveOf(of: map<Directive, seq<string>>, d: Directive): Option<seq<string>>
  {
    FirstIn(of, FallbackList(d))
  }

  function Get(of: map<Directive, seq<string>>, d: Directive): Option<seq<string>>
  {
    if d in of then Some(of[d]) else None
  }

  function Or<T>(a: Option<T>, b: Option<T>): Option<T> { if a.Some? then a else b }

  lemma FirstOfList(of: map<Directive, seq<string>>, a: Directive, rest: seq<Directive>)
    ensures FirstIn(of, [a] + rest) == Or(Get(of, a), FirstIn(of, rest))
    ensures Seed(of, [a] + rest) == if a in of then of[a] else Seed(of, rest)
  {
    assert ([a] + rest)[1..] == rest;
  }

  /** The fallback lists, written out. */
  lemma Lists(of: map<Directive, seq<string>>, a: Directive, b: Directive)
    ensures FirstIn(of, [a]) == Get(of, a)
    ensures FirstIn(of, [a, DefaultSrc]) == Or(Get(of, a), Get(of, DefaultSrc))
    ensures FirstIn(of, [a, b, DefaultSrc]) == Or(Get(of, a), Or(Get(of, b), Get(of, DefaultSrc)))
    ensures Seed(of, [DefaultSrc]) == Base(of)
    ensures Seed(of, [b, DefaultSrc]) == if b in of then of[b] else Base(of)
  {
    FirstOfList(of, DefaultSrc, []);
    FirstOfList(of, a, []);
    FirstOfList(of, a, [DefaultSrc]);
    FirstOfList(of, b, [DefaultSrc]);
    FirstOfList(of, a, [b, DefaultSrc]);
    assert [DefaultSrc] + [] == [DefaultSrc] && [a] + [] == [a] && [a] + [DefaultSrc] == [a, DefaultSrc];
    assert [b] + [DefaultSrc] == [b, DefaultSrc] && [a] + [b, DefaultSrc] == [a, b, DefaultSrc];
  }

  lemma WorkerLists(of: map<Directive, seq<string>>)
    ensures EffectiveOf(of, WorkerSrc) ==
      Or(Get(of, WorkerSrc), Or(Get(of, ChildSrc), Or(Get(of, ScriptSrc), Get(of, DefaultSrc))))
    ensures Seed(of, Chain(WorkerSrc)) ==
      if ChildSrc in of then of[ChildSrc] else if ScriptSrc in of then of[ScriptSrc] else Base(of)
  {
    Lists(of, ChildSrc, ScriptSrc);
    FirstOfList(of, WorkerSrc, [ChildSrc, ScriptSrc, DefaultSrc]);
    FirstOfList(of, ChildSrc, [ScriptSrc, DefaultSrc]);
    assert [WorkerSrc] + [ChildSrc, ScriptSrc, DefaultSrc] == FallbackList(WorkerSrc);
    assert [ChildSrc] + [ScriptSrc, DefaultSrc] == Chain(WorkerSrc);
  }

  /** The first directive of the list with a clause, before or after. */
  ghost function FirstKnown(of: map<Directive, seq<string>>, sources: Table, ds: seq<Directive>): (g: Option<Directive>)
    ensures g.Some? ==> g.value in ds && (g.value in of || g.value in sources.of)
    ensures g.None? <==> forall f :: f in ds ==> f !in of && f !in sources.of
  {
    if ds == [] then None else
    assert ds == [ds[0]] + ds[1..];
    if ds[0] in of || ds[0] in sources.of then Some(ds[0]) else FirstKnown(of, sources, ds[1..])
  }

  /** The directive whose clause governs `d` in the extended policy. */
  ghost function Governor(of: map<Directive, seq<string>>, sources: Table, d: Directive): (g: Option<Directive>)
    ensures g.Some? ==> g.value in FallbackList(d) && (g.value in of || g.value in sources.of)
    ensures g.None? <==> forall f :: f in FallbackList(d) ==> f !in of && f !in sources.of
  {
    FirstKnown(of, sources, FallbackList(d))
  }

  lemma {:induction false} FirstInNone(of: map<Directive, seq<string>>, ds: seq<Directive>)
    ensures FirstIn(of, ds).None? <==> forall f :: f in ds ==> f !in of
  {
    if ds != [] {
      FirstInNone(of, ds[1..]);
      assert ds == [ds[0]] + ds[1..];
    }
  }

  lemma {:induction false} FirstInKnown(t: Table, sources: Table, ds: seq<Directive>)
    requires Ordered(t) && Well(sources)
    ensures FirstIn(Extend(t, sources).of, ds) ==
      match FirstKnown(t.of, sources, ds) case None => None case Some(g) => Get(Extend(t, sources).of, g)
  {
    ExtendOrdered(t, sources);
    if ds != [] {
      FirstInKnown(t, sources, ds[1..]);
    }
  }

  /** What the extended policy lets `d` load. */
  ghost predicate Allows(of: map<Directive, seq<string>>, sources: Table, d: Directive, x: string)
  {
    var g := Governor(of, sources, d);
    g.Some? && Holds(of, sources, g.value, x)
  }

  lemma ExtendedAllows(t: Table, sources: Table, d: Directive)
    requires Ordered(t) && Well(sources)
    ensures var after := EffectiveOf(Extend(t, sources).of, d);
      && (after.None? <==> Governor(t.of, sources, d).None?)
      && (after.Some? ==> forall x :: x in after.value <==> Allows(t.of, sources, d, x))
  {
    FirstInKnown(t, sources, FallbackList(d));
    ExtendOrdered(t, sources);
    var g := Governor(t.of, sources, d);
    if g.Some? {
      forall x ensures x in Extend(t, sources).of[g.value] <==> Holds(t.of, sources, g.value, x) {
        ExtendedContent(t, sources, g.value, x);
      }
    }
  }

  /** The clause that governs `d` starts from what governed it before, or from the default; but for the cut. */
  lemma StartStands(of: map<Directive, seq<string>>, sources: Table, d: Directive)
    requires Well(sources) && Governor(of, sources, d).Some?
    ensures Start(of, sources, Governor(of, sources, d).value) ==
      if d == WorkerSrc && Cut(of, sources) then Base(of) else Or(EffectiveOf(of, d), Some(Base(of))).value
  {
    if d == WorkerSrc {
      WorkerStands(of, sources);
    } else {
      ListShapes(d);
      if |FallbackList(d)| == 3 {
        OneBaseStands(of, sources, d, FallbackList(d)[1]);
      } else {
        DirectStands(of, sources, d);
      }
    }
  }

  /** The list has at most one base, and new clauses are seeded along it. */
  predicate OneBase(d: Directive, b: Directive)
  {
    && FallbackList(d) == [d, b, DefaultSrc] && Chain(b) == []
    && (Extendable(d) ==> Chain(d) == [b, DefaultSrc])
  }

  lemma ListShapes(d: Directive)
    requires d != WorkerSrc
    ensures |FallbackList(d)| == 3 ==> OneBase(d, FallbackList(d)[1])
    ensures |FallbackList(d)| != 3 ==> Chain(d) == [] && (FallbackList(d) == [d] || FallbackList(d) == [d, DefaultSrc])
  {
  }

  lemma FirstKnownOf(of: map<Directive, seq<string>>, sources: Table, a: Directive, rest: seq<Directive>)
    ensures FirstKnown(of, sources, [a] + rest) ==
      if a in of || a in sources.of then Some(a) else FirstKnown(of, sources, rest)
  {
    assert ([a] + rest)[1..] == rest;
  }

  lemma DirectStands(of: map<Directive, seq<string>>, sources: Table, d: Directive)
    requires Well(sources) && Governor(of, sources, d).Some? && Chain(d) == []
    requires FallbackList(d) == [d] || FallbackList(d) == [d, DefaultSrc]
    ensures Start(of, sources, Governor(of, sources, d).value) == Or(EffectiveOf(of, d), Some(Base(of))).value
  {
    Lists(of, d, d);
    FirstKnownOf(of, sources, d, []);
    FirstKnownOf(of, sources, d, [DefaultSrc]);
    assert [d] + [] == [d] && [d] + [DefaultSrc] == [d, DefaultSrc];
  }

  predicate Known(of: map<Directive, seq<string>>, sources: Table, d: Directive) { d in of || d in sources.of }

  lemma OneBaseGovernor(of: map<Directive, seq<string>>, sources: Table, d: Directive, b: Directive)
    requires OneBase(d, b)
    ensures Governor(of, sources, d) ==
      if Known(of, sources, d) then Some(d)
      else if Known(of, sources, b) then Some(b)
      else if Known(of, sources, DefaultSrc) then Some(DefaultSrc) else None
  {
    FirstKnownOf(of, sources, d, [b, DefaultSrc]);
    FirstKnownOf(of, sources, b, [DefaultSrc]);
    FirstKnownOf(of, sources, DefaultSrc, []);
    assert [d] + [b, DefaultSrc] == FallbackList(d) && [b] + [DefaultSrc] == [b, DefaultSrc];
    assert [DefaultSrc] + [] == [DefaultSrc];
  }

  lemma OneBaseStart(of: map<Directive, seq<string>>, sources: Table, d: Directive, b: Directive)
    requires OneBase(d, b) && d != WorkerSrc && (d in of || Extendable(d))
    ensures Start(of, sources, d) == if d in of then of[d] else if b in of then of[b] else Base(of)
  {
    Lists(of, d, b);
  }

  lemma OneBaseStands(of: map<Directive, seq<string>>, sources: Table, d: Directive, b: Directive)
    requires Well(sources) && Governor(of, sources, d).Some? && d != WorkerSrc && OneBase(d, b)
    ensures Start(of, sources, Governor(of, sources, d).value) == Or(EffectiveOf(of, d), Some(Base(of))).value
  {
    Lists(of, d, b);
    OneBaseGovernor(of, sources, d, b);
    if Known(of, sources, d) {
      OneBaseStart(of, sources, d, b);
    }
  }

  lemma WorkerGovernor(of: map<Directive, seq<string>>, sources: Table)
    ensures Governor(of, sources, WorkerSrc) ==
      if Known(of, sources, WorkerSrc) then Some(WorkerSrc)
      else if Known(of, sources, ChildSrc) then Some(ChildSrc)
      else if Known(of, sources, ScriptSrc) then Some(ScriptSrc)
      else if Known(of, sources, DefaultSrc) then Some(DefaultSrc) else None
  {
    FirstKnownOf(of, sources, WorkerSrc, [ChildSrc, ScriptSrc, DefaultSrc]);
    FirstKnownOf(of, sources, ChildSrc, [ScriptSrc, DefaultSrc]);
    FirstKnownOf(of, sources, ScriptSrc, [DefaultSrc]);
    FirstKnownOf(of, sources, DefaultSrc, []);
    assert [WorkerSrc] + [ChildSrc, ScriptSrc, DefaultSrc] == FallbackList(WorkerSrc);
    assert [ChildSrc] + [ScriptSrc, DefaultSrc] == [ChildSrc, ScriptSrc, DefaultSrc];
    assert [ScriptSrc] + [DefaultSrc] == [ScriptSrc, DefaultSrc] && [DefaultSrc] + [] == [DefaultSrc];
  }

  lemma WorkerStands(of: map<Directive, seq<string>>, sources: Table)
    requires Well(sources) && Governor(of, sources, WorkerSrc).Some?
    ensures Start(of, sources, Governor(of, sources, WorkerSrc).value) ==
      if Cut(of, sources) then Base(of) else Or(EffectiveOf(of, WorkerSrc), Some(Base(of))).value
  {
    WorkerLists(of);
    WorkerGovernor(of, sources);
  }

  // ---- Never narrower, never wider -------------------------------------------------------

  /** What workers may load under the cut. */
  ghost function CutSources(of: map<Directive, seq<string>>, sources: Table): seq<string>
  {
    Base(of) + Extras(sources, ChildSrc) +
    (if WorkerSrc in sources.of then Extras(sources, WorkerSrc) + Extras(sources, ScriptSrc) else [])
  }

  lemma CutAllows(of: map<Directive, seq<string>>, sources: Table, x: string)
    requires Well(sources) && Cut(of, sources)
    ensures Allows(of, sources, WorkerSrc, x) <==> x in CutSources(of, sources)
  {
    WorkerStands(of, sources);
    WorkerGovernor(of, sources);
    WorkerDeclares(sources, x);
  }

  lemma WorkerDeclares(sources: Table, x: string)
    requires Well(sources)
    ensures Declared(sources, WorkerSrc, x) <==>
      x in Extras(sources, WorkerSrc) || x in Extras(sources, ChildSrc) || x in Extras(sources, ScriptSrc)
    ensures Declared(sources, ChildSrc, x) <==> x in Extras(sources, ChildSrc)
  {
    assert Chain(WorkerSrc) == [ChildSrc, ScriptSrc, DefaultSrc] && Extras(sources, DefaultSrc) == [];
    assert ChildSrc in Chain(WorkerSrc) && ScriptSrc in Chain(WorkerSrc);
  }

  /** An unrestricted directive becomes restricted, or workers lose what script-src gave them. */
  ghost predicate Narrows(of: map<Directive, seq<string>>, sources: Table, d: Directive)
  {
    if EffectiveOf(of, d).None? then exists f :: f in FallbackList(d) && f in sources.of
    else d == WorkerSrc && Cut(of, sources) && !Within(of[ScriptSrc], CutSources(of, sources))
  }

  /** The table is extended without narrowing a directive, exactly outside the two narrowing cases. */
  lemma ExtendNarrowsIff(t: Table, sources: Table, d: Directive)
    requires Ordered(t) && Well(sources)
    ensures NotNarrower(EffectiveOf(t.of, d), EffectiveOf(Extend(t, sources).of, d)) <==> !Narrows(t.of, sources, d)
  {
    ExtendedAllows(t, sources, d);
    FirstInNone(t.of, FallbackList(d));
    if EffectiveOf(t.of, d).Some? {
      StartStands(t.of, sources, d);
      if d == WorkerSrc && Cut(t.of, sources) {
        WorkerLists(t.of);
        forall x ensures Allows(t.of, sources, WorkerSrc, x) <==> x in CutSources(t.of, sources) {
          CutAllows(t.of, sources, x);
        }
      }
    }
  }

  /** What `d` is due: what governed it, or the default where nothing did, and what is declared along its list. */
  ghost predicate Due(of: map<Directive, seq<string>>, sources: Table, d: Directive, x: string)
  {
    || x in Or(EffectiveOf(of, d), Some(Base(of))).value
    || exists f :: f in FallbackList(d) && x in Extras(sources, f)
  }

  /** What a clause of `d`'s list shadows is in the list too. */
  lemma ChainWithin(d: Directive, f: Directive)
    requires f in FallbackList(d)
    ensures forall c :: c in Chain(f) ==> c in FallbackList(d)
  {
    if Chain(f) != [] {
      assert f == d;
    }
  }

  /** A restricted directive may load nothing beyond what it is due, exactly unless workers gain sources of
      default-src in the cut. */
  lemma ExtendAddsIff(t: Table, sources: Table, d: Directive)
    requires Ordered(t) && Well(sources)
    ensures var after := EffectiveOf(Extend(t, sources).of, d);
      (after.Some? ==> forall x :: x in after.value ==> Due(t.of, sources, d, x)) <==>
      (d == WorkerSrc && Cut(t.of, sources) ==> forall x :: x in Base(t.of) ==> Due(t.of, sources, d, x))
  {
    ExtendedAllows(t, sources, d);
    var g := Governor(t.of, sources, d);
    if g.Some? {
      StartStands(t.of, sources, d);
      ChainWithin(d, g.value);
      forall x | Declared(sources, g.value, x) ensures Due(t.of, sources, d, x) {
      }
    } else {
      FirstInNone(t.of, FallbackList(d));
    }
  }

  lemma OwnClauseFirst(of: map<Directive, seq<string>>, d: Directive)
    requires d in of
    ensures EffectiveOf(of, d) == Some(of[d])
  {
    FirstOfList(of, d, FallbackList(d)[1..]);
    assert FallbackList(d) == [d] + FallbackList(d)[1..];
  }

  /** A declared directive is governed by its own clause, which holds all that was declared. */
  lemma DeclaredGoverns(t: Table, sources: Table, d: Directive)
    requires Ordered(t) && Well(sources) && d in sources.of
    ensures d in Extend(t, sources).of && EffectiveOf(Extend(t, sources).of, d) == Some(Extend(t, sources).of[d])
    ensures Within(sources.of[d], Extend(t, sources).of[d])
  {
    ExtendOrdered(t, sources);
    OwnClauseFirst(Extend(t, sources).of, d);
    forall x | x in sources.of[d] ensures x in Extend(t, sources).of[d] {
      DeclaredReaches(t, sources, d, x, d);
    }
  }

  // ---- Policies as clauses -------------------------------------------------------------

  ghost predicate OncePerDirective(policy: seq<Clause>)
  {
    forall i, j :: 0 <= i < j < |policy| ==> policy[i].directive != policy[j].directive
  }

  lemma {:induction false} FindAt(policy: seq<Clause>, k: nat)
    requires k < |policy| && forall i :: 0 <= i < |policy| && policy[i].directive == policy[k].directive ==>
      policy[i].sources == policy[k].sources
    ensures Find(policy, policy[k].directive) == Some(policy[k].sources)
  {
    if policy[0].directive != policy[k].directive {
      assert forall i :: 0 <= i < |policy[1..]| ==> policy[1..][i] == policy[i + 1];
      FindAt(policy[1..], k - 1);
    }
  }

  lemma {:induction false} FindNone(policy: seq<Clause>, d: Directive)
    requires forall i :: 0 <= i < |policy| ==> policy[i].directive != d
    ensures Find(policy, d).None?
  {
    if policy != [] {
      FindNone(policy[1..], d);
    }
  }

  /** What is sent is read back as the table. */
  lemma FindRendered(t: Table, d: Directive)
    requires Ordered(t)
    ensures Find(Render(t), d) == Get(t.of, d)
  {
    if d in t.of {
      var k :| 0 <= k < |t.order| && t.order[k] == d;
      FindAt(Render(t), k);
    } else {
      FindNone(Render(t), d);
    }
  }

  lemma {:induction false} ParseOrder(policy: seq<Clause>)
    ensures |Parse(policy).order| == |policy|
    ensures forall i :: 0 <= i < |policy| ==> Parse(policy).order[i] == policy[i].directive
  {
    if policy != [] {
      ParseOrder(policy[..|policy| - 1]);
    }
  }

  /** Clauses for one directive hold the same sources. */
  ghost predicate Consistent(policy: seq<Clause>)
  {
    forall i, j :: 0 <= i < j < |policy| && policy[i].directive == policy[j].directive ==>
      policy[i].sources == policy[j].sources
  }

  lemma {:induction false} ParseAt(policy: seq<Clause>, k: nat)
    requires Consistent(policy) && k < |policy|
    ensures Get(Parse(policy).of, policy[k].directive) == Some(policy[k].sources)
  {
    var n := |policy| - 1;
    if k < n {
      ParseAt(policy[..n], k);
    }
  }

  lemma ParseContent(policy: seq<Clause>)
    requires Consistent(policy)
    ensures |Parse(policy).order| == |policy|
    ensures forall i :: 0 <= i < |policy| ==> Parse(policy).order[i] == policy[i].directive
    ensures forall i :: 0 <= i < |policy| ==>
      policy[i].directive in Parse(policy).of && Parse(policy).of[policy[i].directive] == policy[i].sources
  {
    ParseOrder(policy);
    forall i | 0 <= i < |policy| ensures policy[i].directive in Parse(policy).of
      && Parse(policy).of[policy[i].directive] == policy[i].sources
    {
      ParseAt(policy, i);
    }
  }

  lemma FindParsed(policy: seq<Clause>, d: Directive)
    requires OncePerDirective(policy)
    ensures Find(policy, d) == Get(Parse(policy).of, d)
  {
    ParseContent(policy);
    if d in Parse(policy).of {
      var k :| 0 <= k < |Parse(policy).order| && Parse(policy).order[k] == d;
      FindAt(policy, k);
    } else {
      forall i | 0 <= i < |policy| ensures policy[i].directive != d {
        assert policy[i].directive in Parse(policy).of;
      }
      FindNone(policy, d);
    }
  }

  lemma {:induction false} SameReading(policy: seq<Clause>, of: map<Directive, seq<string>>, ds: seq<Directive>)
    requires forall d :: Find(policy, d) == Get(of, d)
    ensures FirstOf(policy, ds) == FirstIn(of, ds)
  {
    if ds != [] {
      assert Find(policy, ds[0]) == Get(of, ds[0]);
      SameReading(policy, of, ds[1..]);
    }
  }

  /**
   * A policy that lists each directive once is extended without narrowing `d`, exactly unless `d` was
   * unrestricted and a directive of its list is declared, or it is worker-src and falls in the cut.
   */
  lemma PolicyNarrowsIff(policy: seq<Clause>, sources: Table, d: Directive)
    requires OncePerDirective(policy) && Well(sources)
    ensures NotNarrower(Effective(policy, d), Effective(ExtendedPolicy(policy, sources), d)) <==>
      !Narrows(Parse(policy).of, sources, d)
  {
    var t := Parse(policy);
    forall e ensures Find(policy, e) == Get(t.of, e) {
      FindParsed(policy, e);
    }
    SameReading(policy, t.of, FallbackList(d));
    ExtendNarrowsIff(t, sources, d);
    if sources.order != [] {
      ExtendedReading(policy, sources, d);
    }
  }

  /**
   * A policy that lists each directive once lets a directive load nothing beyond what governed it, or the default
   * where nothing did, and what is declared along its list, exactly unless workers gain default-src sources in
   * the cut.
   */
  lemma PolicyAddsIff(policy: seq<Clause>, sources: Table, d: Directive)
    requires OncePerDirective(policy) && Well(sources)
    ensures EffectiveOf(Parse(policy).of, d) == Effective(policy, d)
    ensures var (of, after) := (Parse(policy).of, Effective(ExtendedPolicy(policy, sources), d));
      (after.Some? ==> forall x :: x in after.value ==> Due(of, sources, d, x)) <==>
      (d == WorkerSrc && Cut(of, sources) ==> forall x :: x in Base(of) ==> Due(of, sources, d, x))
  {
    var t := Parse(policy);
    forall e ensures Find(policy, e) == Get(t.of, e) {
      FindParsed(policy, e);
    }
    SameReading(policy, t.of, FallbackList(d));
    ExtendAddsIff(t, sources, d);
    if sources.order != [] {
      ExtendedReading(policy, sources, d);
    }
  }

  /** With a default-src clause, only workers can lose anything. */
  lemma DefaultedPolicyKeepsAll(policy: seq<Clause>, sources: Table, d: Directive)
    requires OncePerDirective(policy) && Well(sources) && DefaultSrc in Parse(policy).of
    requires d == WorkerSrc ==> !Cut(Parse(policy).of, sources)
    ensures NotNarrower(Effective(policy, d), Effective(ExtendedPolicy(policy, sources), d))
  {
    PolicyNarrowsIff(policy, sources, d);
    if EffectiveOf(Parse(policy).of, d).None? {
      FirstInNone(Parse(policy).of, FallbackList(d));
      DefaultListed(d);
    }
  }

  lemma DefaultListed(d: Directive)
    ensures if d.Other? then FallbackList(d) == [d] && !Extendable(d) else DefaultSrc in FallbackList(d)
  {
  }

  // ---- Directives listed twice: a browser reads the first clause, the registry keeps the last ----

  lemma {:induction false} FoundIffParsed(policy: seq<Clause>, d: Directive)
    ensures Find(policy, d).Some? <==> d in Parse(policy).of
  {
    ParseKeys(policy, d);
    if k :| 0 <= k < |policy| && policy[k].directive == d {
      FindSome(policy, k);
    } else {
      FindNone(policy, d);
    }
  }

  lemma {:induction false} ParseKeys(policy: seq<Clause>, d: Directive)
    ensures d in Parse(policy).of <==> exists k :: 0 <= k < |policy| && policy[k].directive == d
  {
    if policy != [] {
      var n := |policy| - 1;
      ParseKeys(policy[..n], d);
      assert d == policy[n].directive || (d in Parse(policy).of <==> d in Parse(policy[..n]).of);
    }
  }

  lemma {:induction false} FindSome(policy: seq<Clause>, k: nat)
    requires k < |policy|
    ensures Find(policy, policy[k].directive).Some?
  {
    if policy[0].directive != policy[k].directive {
      FindSome(policy[1..], k - 1);
    }
  }

  lemma {:induction false} SameGovernor(policy: seq<Clause>, of: map<Directive, seq<string>>, ds: seq<Directive>)
    requires forall d :: Find(policy, d).Some? <==> d in of
    ensures FirstOf(policy, ds).Some? <==> FirstIn(of, ds).Some?
  {
    if ds != [] {
      assert Find(policy, ds[0]).Some? <==> ds[0] in of;
      SameGovernor(policy, of, ds[1..]);
    }
  }

  /** What is sent reads as the extended table. */
  lemma ExtendedReading(policy: seq<Clause>, sources: Table, d: Directive)
    requires Well(sources) && sources.order != []
    ensures Effective(ExtendedPolicy(policy, sources), d) == EffectiveOf(Extend(Parse(policy), sources).of, d)
  {
    var t := Parse(policy);
    ExtendOrdered(t, sources);
    forall e ensures Find(ExtendedPolicy(policy, sources), e) == Get(Extend(t, sources).of, e) {
      FindRendered(Extend(t, sources), e);
    }
    SameReading(ExtendedPolicy(policy, sources), Extend(t, sources).of, FallbackList(d));
  }

  /** For every policy, repeats or not: once anything is declared, nothing is lost exactly when an unrestricted
      directive has nothing declared along its list, and every source of the first governing clause is in the
      closed form of what governs afterwards. */
  lemma AnyPolicyNarrowsIff(policy: seq<Clause>, sources: Table, d: Directive)
    requires Well(sources)
    ensures NotNarrower(Effective(policy, d), Effective(ExtendedPolicy(policy, sources), d)) <==>
      sources.order == [] ||
      match Effective(policy, d)
      case None => forall f :: f in FallbackList(d) ==> f !in sources.of
      case Some(first) => forall x :: x in first ==> Allows(Parse(policy).of, sources, d, x)
  {
    if sources.order != [] {
      var t := Parse(policy);
      ExtendedReading(policy, sources, d);
      ExtendedAllows(t, sources, d);
      forall e ensures Find(policy, e).Some? <==> e in t.of {
        FoundIffParsed(policy, e);
      }
      SameGovernor(policy, t.of, FallbackList(d));
      FirstInNone(t.of, FallbackList(d));
    }
  }

  /** Where nothing is declared along `d`'s list, declaring anything else loses sources of `d` exactly when its
      governing directive is repeated and the first clause lists a source that the last does not. */
  lemma RepeatedDirectiveNarrows(policy: seq<Clause>, sources: Table, d: Directive)
    requires Well(sources) && sources.order != [] && forall f :: f in FallbackList(d) ==> f !in sources.of
    ensures NotNarrower(Effective(policy, d), Effective(ExtendedPolicy(policy, sources), d)) <==>
      match Effective(policy, d)
      case None => true
      case Some(first) =>
        var last := EffectiveOf(Parse(policy).of, d);
        last.Some? && Within(first, last.value)
  {
    AnyPolicyNarrowsIff(policy, sources, d);
    forall e ensures Find(policy, e).Some? <==> e in Parse(policy).of {
      FoundIffParsed(policy, e);
    }
    SameGovernor(policy, Parse(policy).of, FallbackList(d));
    UndeclaredAllows(Parse(policy).of, sources, d);
  }

  lemma UndeclaredAllows(of: map<Directive, seq<string>>, sources: Table, d: Directive)
    requires Well(sources) && forall f :: f in FallbackList(d) ==> f !in sources.of
    ensures EffectiveOf(of, d).Some? ==> forall x :: Allows(of, sources, d, x) <==> x in EffectiveOf(of, d).value
  {
    FirstInNone(of, FallbackList(d));
    var g := Governor(of, sources, d);
    if g.Some? {
      StartStands(of, sources, d);
      ChainWithin(d, g.value);
      assert d == WorkerSrc ==> ChildSrc in FallbackList(d);
    }
  }

  // ---- The two ways to lose a source -------------------------------------------------------

  lemma ParseTwo(a: Clause, b: Clause)
    ensures Parse([a, b]) == Table([a.directive, b.directive], map[a.directive := a.sources][b.directive := b.sources])
  {
    var policy := [a, b];
    assert policy[..1] == [a] && [a][..0] == [];
    assert Parse([a]) == Table([] + [a.directive], map[][a.directive := a.sources]);
  }

  lemma FindTwo(a: Clause, b: Clause, d: Directive)
    ensures Find([a, b], d) ==
      if a.directive == d then Some(a.sources) else if b.directive == d then Some(b.sources) else None
  {
    assert [a, b][1..] == [b] && [b][1..] == [];
    assert Find([b], d) == if b.directive == d then Some(b.sources) else None;
  }

  /** With one new directive declared. */
  lemma ExtendOne(t: Table, d: Directive, x: string, e: Directive)
    requires Ordered(t) && Extendable(d) && Chain(d) == [] && Chain(e) == [] && d !in t.of
    ensures var sources := Table([d], map[d := [x]]);
      && Well(sources)
      && Get(Extend(t, sources).of, e) == if e == d then Some(Extended(Base(t.of), [x])) else Get(t.of, e)
  {
    var sources := Table([d], map[d := [x]]);
    assert IntroduceAll(t, sources, 0) == t;
    assert IntroduceAll(t, sources, 1) == Introduced(t, d, [x]);
    MirrorContent(IntroduceAll(t, sources, 1).of, sources, e);
  }

  function Guarded(plain: seq<string>, scripts: seq<string>): seq<Clause>
  {
    [Clause(DefaultSrc, plain), Clause(ScriptSrc, scripts)]
  }

  lemma GuardedReads(plain: seq<string>, scripts: seq<string>)
    ensures Effective(Guarded(plain, scripts), WorkerSrc) == Some(scripts)
  {
    var policy := Guarded(plain, scripts);
    var of := Parse(policy).of;
    ParseTwo(policy[0], policy[1]);
    forall e ensures Find(policy, e) == Get(of, e) {
      FindTwo(policy[0], policy[1], e);
    }
    SameReading(policy, of, FallbackList(WorkerSrc));
    WorkerLists(of);
  }

  lemma NewChildGoverns(t: Table, x: string)
    requires Ordered(t) && ChildSrc !in t.of && WorkerSrc !in t.of
    ensures var sources := Table([ChildSrc], map[ChildSrc := [x]]);
      Well(sources) && EffectiveOf(Extend(t, sources).of, WorkerSrc) == Some(Extended(Base(t.of), [x]))
  {
    var sources := Table([ChildSrc], map[ChildSrc := [x]]);
    ExtendOne(t, ChildSrc, x, ChildSrc);
    ExtendOrdered(t, sources);
    WorkerLists(Extend(t, sources).of);
  }

  /** The cut: workers lose what script-src gave them and gain what default-src lists. */
  lemma CutTrades(plain: seq<string>, scripts: seq<string>, x: string)
    ensures var (policy, sources) := (Guarded(plain, scripts), Table([ChildSrc], map[ChildSrc := [x]]));
      && Well(sources)
      && Effective(policy, WorkerSrc) == Some(scripts)
      && Effective(ExtendedPolicy(policy, sources), WorkerSrc) == Some(if x in plain then plain else plain + [x])
  {
    var policy, sources := Guarded(plain, scripts), Table([ChildSrc], map[ChildSrc := [x]]);
    GuardedReads(plain, scripts);
    ParseTwo(policy[0], policy[1]);
    NewChildGoverns(Parse(policy), x);
    ExtendedReading(policy, sources, WorkerSrc);
    ExtendedOne(plain, x);
  }

  const PLAIN := ["'self'", "https:"]
  const SCRIPTS := ["'self'", "blob:"]

  /** At one policy: declaring `data:` for child-src takes `blob:` from the workers and gives them `https:`. */
  lemma CutNarrows()
    ensures var (policy, sources) := (Guarded(PLAIN, SCRIPTS), Table([ChildSrc], map[ChildSrc := ["data:"]]));
      && Well(sources)
      && Effective(policy, WorkerSrc) == Some(SCRIPTS)
      && Effective(ExtendedPolicy(policy, sources), WorkerSrc) == Some(PLAIN + ["data:"])
      && "blob:" in SCRIPTS && "blob:" !in PLAIN + ["data:"] && "https:" in PLAIN && "https:" !in SCRIPTS
  {
    CutTrades(PLAIN, SCRIPTS, "data:");
    PlainTokens();
  }

  lemma PlainTokens()
    ensures "data:" !in PLAIN && "blob:" in SCRIPTS && "https:" in PLAIN
    ensures "blob:" !in PLAIN + ["data:"] && "https:" !in SCRIPTS
  {
    assert |"blob:"| == |"data:"| == 5 && |"'self'"| == |"https:"| == 6;
    assert "blob:"[0] == 'b' && "data:"[0] == 'd' && "https:"[0] == 'h' && "'self'"[0] == '\'';
    assert PLAIN[1] == "https:" && SCRIPTS[1] == "blob:";
  }

  const REPEATED_POLICY := [Clause(ScriptSrc, ["'self'", "blob:"]), Clause(ScriptSrc, ["'self'"])]
  const NEW_IMAGES := Table([ImgSrc], map[ImgSrc := ["https://tiles.example"]])

  /** A repeated directive: the last clause takes the place of the first one when images are declared. */
  lemma RepeatNarrows()
    ensures Well(NEW_IMAGES)
    ensures Effective(REPEATED_POLICY, ScriptSrc) == Some(["'self'", "blob:"])
    ensures Effective(ExtendedPolicy(REPEATED_POLICY, NEW_IMAGES), ScriptSrc) == Some(["'self'"])
  {
    var t := Parse(REPEATED_POLICY);
    ParseTwo(REPEATED_POLICY[0], REPEATED_POLICY[1]);
    FindTwo(REPEATED_POLICY[0], REPEATED_POLICY[1], ScriptSrc);
    ExtendOne(t, ImgSrc, "https://tiles.example", ScriptSrc);
    OwnClauseFirst(Extend(t, NEW_IMAGES).of, ScriptSrc);
    ExtendedReading(REPEATED_POLICY, NEW_IMAGES, ScriptSrc);
  }

  // ---- Extending twice -----------------------------------------------------------------

  lemma {:induction false} ExtendedSame(bucket: seq<string>, extras: seq<string>)
    requires Within(extras, bucket)
    ensures Extended(bucket, extras) == bucket
    decreases |extras|
  {
    if extras != [] {
      assert extras == [extras[0]] + extras[1..];
      ExtendedSame(bucket, extras[1..]);
    }
  }

  lemma {:induction false} MirroredSame(bucket: seq<string>, sources: Table, chain: seq<Directive>)
    requires forall c :: c in chain ==> Within(Extras(sources, c), bucket)
    ensures Mirrored(bucket, sources, chain) == bucket
    decreases |chain|
  {
    if chain != [] {
      assert chain == [chain[0]] + chain[1..];
      ExtendedSame(bucket, Extras(sources, chain[0]));
      MirroredSame(bucket, sources, chain[1..]);
    }
  }

  lemma {:induction false} IntroduceSame(t: Table, sources: Table, n: nat)
    requires Well(sources) && n <= |sources.order|
    requires forall d :: d in sources.of ==> d in t.of && Within(sources.of[d], t.of[d])
    ensures IntroduceAll(t, sources, n) == t
  {
    if n > 0 {
      var d := sources.order[n - 1];
      IntroduceSame(t, sources, n - 1);
      ExtendedSame(t.of[d], sources.of[d]);
      assert t.of[d := t.of[d]] == t.of;
    }
  }

  lemma MirrorTwice(t: Table, sources: Table, d: Directive)
    requires Ordered(t) && Well(sources) && d in Extend(t, sources).of
    ensures d in MirrorAll(Extend(t, sources).of, sources, |CHAINS|)
    ensures MirrorAll(Extend(t, sources).of, sources, |CHAINS|)[d] == Extend(t, sources).of[d]
  {
    var of := Extend(t, sources).of;
    MirrorContent(of, sources, d);
    forall c | c in Chain(d) ensures Within(Extras(sources, c), of[d]) {
      forall x | x in Extras(sources, c) ensures x in of[d] {
        DeclaredReaches(t, sources, c, x, d);
      }
    }
    MirroredSame(of[d], sources, Chain(d));
  }

  lemma IntroduceTwice(t: Table, sources: Table)
    requires Ordered(t) && Well(sources)
    ensures IntroduceAll(Extend(t, sources), sources, |sources.order|) == Extend(t, sources)
  {
    var r := Extend(t, sources);
    ExtendOrdered(t, sources);
    forall d | d in sources.of ensures d in r.of && Within(sources.of[d], r.of[d]) {
      forall x | x in sources.of[d] ensures x in r.of[d] {
        DeclaredReaches(t, sources, d, x, d);
      }
    }
    IntroduceSame(r, sources, |sources.order|);
  }

  lemma SameTable(a: map<Directive, seq<string>>, b: map<Directive, seq<string>>)
    requires forall d :: d in a <==> d in b
    requires forall d :: d in a ==> a[d] == b[d]
    ensures a == b
  {
  }

  /** Extending an extended table changes nothing. */
  lemma ExtendTwice(t: Table, sources: Table)
    requires Ordered(t) && Well(sources)
    ensures Extend(Extend(t, sources), sources) == Extend(t, sources)
  {
    var of := Extend(t, sources).of;
    IntroduceTwice(t, sources);
    forall d ensures d in MirrorAll(of, sources, |CHAINS|) <==> d in of {
      MirrorContent(of, sources, d);
    }
    forall d | d in of ensures MirrorAll(of, sources, |CHAINS|)[d] == of[d] {
      MirrorTwice(t, sources, d);
    }
    SameTable(MirrorAll(of, sources, |CHAINS|), of);
  }

  lemma ParseRendered(t: Table)
    requires Ordered(t)
    ensures Parse(Render(t)) == t
  {
    var policy := Render(t);
    ParseContent(policy);
    assert Parse(policy).order == t.order;
    forall d ensures d in Parse(policy).of <==> d in t.of {
      assert d in Parse(policy).of <==> d in Parse(policy).order;
    }
    forall d | d in t.of ensures Parse(policy).of[d] == t.of[d] {
      var k :| 0 <= k < |t.order| && t.order[k] == d;
      assert policy[k].directive == d;
    }
    assert Parse(policy).of == t.of;
  }

  /** Extending a policy twice is extending it once. */
  lemma PolicyExtendedTwice(policy: seq<Clause>, sources: Table)
    requires Well(sources)
    ensures ExtendedPolicy(ExtendedPolicy(policy, sources), sources) == ExtendedPolicy(policy, sources)
  {
    if sources.order != [] {
      var t := Parse(policy);
      ExtendOrdered(t, sources);
      ParseRendered(Extend(t, sources));
      ExtendTwice(t, sources);
    }
  }

  // ---- The registry --------------------------------------------------------------------

  class CspSourceRegistry {
    var sources: Table

    ghost predicate Valid()
      reads this
    {
      Well(sources)
    }

    constructor ()
      ensures Valid() && sources == Table([], map[])
    {
      sources := Table([], map[]);
    }

    /** Refuse what is not extendable or not a single source; list the rest once. */
    method Add(d: Directive, source: string, wellFormed: string -> bool) returns (ok: bool)
      requires Valid()
      modifies this
      ensures Valid() && ok == (Extendable(d) && wellFormed(source))
      ensures sources == if ok then AddSource(old(sources), d, source) else old(sources)
      ensures ok ==> forall e ::
        Extras(sources, e) ==
          if e != d || source in Extras(old(sources), e) then Extras(old(sources), e)
          else Extras(old(sources), e) + [source]
      ensures ok ==> sources.order == old(sources).order + if d in old(sources).of then [] else [d]
    {
      if !Extendable(d) || !wellFormed(source) {
        return false;
      }
      AddKeepsWell(sources, d, source);
      ExtendedOne(if d in sources.of then sources.of[d] else [], source);
      if d !in sources.of {
        sources := Table(sources.order + [d], sources.of[d := []]);
      }
      if source !in sources.of[d] {
        sources := sources.(of := sources.of[d := sources.of[d] + [source]]);
      }
      Overwritten(old(sources).of, d, [], [source]);
      assert d in old(sources).of && source in old(sources).of[d] ==>
        old(sources).of[d := old(sources).of[d]] == old(sources).of;
      assert [] + [source] == [source];
      return true;
    }

    /** The declared sources and this call's extra pairs, folded into the policy. */
    method ExtendPolicy(policy: seq<Clause>, extra: seq<(Directive, string)>) returns (r: seq<Clause>)
      requires Valid() && forall i :: 0 <= i < |extra| ==> Extendable(extra[i].0)
      ensures Well(AddAll(sources, extra))
      ensures r == ExtendedPolicy(policy, AddAll(sources, extra))
      ensures unchanged(this)
    {
      var merged := sources;
      for i := 0 to |extra|
        invariant Well(merged) && merged == AddAll(sources, extra[..i])
      {
        assert extra[..i + 1][..i] == extra[..i];
        AddKeepsWell(merged, extra[i].0, extra[i].1);
        merged := AddSource(merged, extra[i].0, extra[i].1);
      }
      assert extra[..|extra|] == extra;
      if merged.order == [] {
        return policy;
      }
      var parsed := ParsePolicy(policy);
      var introduced := IntroduceDeclared(parsed, merged);
      var of := MirrorShadowed(introduced.of, merged);
      ExtendOrdered(parsed, merged);
      return Render(Table(introduced.order, of));
    }
  }

  method ParsePolicy(policy: seq<Clause>) returns (t: Table)
    ensures t == Parse(policy)
  {
    t := Table([], map[]);
    for i := 0 to |policy|
      invariant t == Parse(policy[..i])
    {
      assert policy[..i + 1][..i] == policy[..i];
      t := Table(t.order + [policy[i].directive], t.of[policy[i].directive := policy[i].sources]);
    }
    assert policy[..|policy|] == policy;
  }

  lemma Overwritten(of: map<Directive, seq<string>>, d: Directive, a: seq<string>, b: seq<string>)
    ensures of[d := a][d := b] == of[d := b]
  {
  }

  method IntroduceOne(t: Table, d: Directive, extras: seq<string>) returns (r: Table)
    ensures r == Introduced(t, d, extras)
  {
    r := t;
    if d !in r.of {
      r := Table(r.order + [d], r.of[d := Seed(r.of, Chain(d))]);
    }
    Overwritten(t.of, d, Seed(t.of, Chain(d)), Extended(Seed(t.of, Chain(d)), extras));
    r := Table(r.order, r.of[d := Extended(r.of[d], extras)]);
  }

  lemma IntroduceStep(t: Table, sources: Table, i: nat)
    requires Keyed(sources) && i < |sources.order|
    ensures sources.order[i] in sources.of
    ensures IntroduceAll(t, sources, i + 1) ==
      Introduced(IntroduceAll(t, sources, i), sources.order[i], sources.of[sources.order[i]])
  {
  }

  method IntroduceDeclared(parsed: Table, sources: Table) returns (t: Table)
    requires Keyed(sources)
    ensures t == IntroduceAll(parsed, sources, |sources.order|)
  {
    t := parsed;
    assert IntroduceAll(parsed, sources, 0) == parsed;
    for i := 0 to |sources.order|
      invariant t == IntroduceAll(parsed, sources, i)
    {
      IntroduceStep(parsed, sources, i);
      var d := sources.order[i];
      t := IntroduceOne(t, d, sources.of[d]);
    }
  }

  method MirrorShadowed(of: map<Directive, seq<string>>, sources: Table) returns (r: map<Directive, seq<string>>)
    ensures r == MirrorAll(of, sources, |CHAINS|)
  {
    r := of;
    for n := 0 to |CHAINS|
      invariant r == MirrorAll(of, sources, n)
    {
      var shadowing, chain := CHAINS[n].0, CHAINS[n].1;
      if shadowing in r {
        var bucket := r[shadowing];
        for k := 0 to |chain|
          invariant Mirrored(bucket, sources, chain[k..]) == Mirrored(r[shadowing], sources, chain)
        {
          assert chain[k..][1..] == chain[k + 1..];
          var extras := Extras(sources, chain[k]);
          if extras != [] {
            bucket := Extended(bucket, extras);
          }
        }
        assert chain[|chain|..] == [];
        r := r[shadowing := bucket];
      }
    }
  }

  lemma ExtendedOne(bucket: seq<string>, x: string)
    ensures Extended(bucket, [x]) == if x in bucket then bucket else bucket + [x]
  {
    assert [x][1..] == [];
  }

  lemma AddKeepsWell(sources: Table, d: Directive, source: string)
    requires Well(sources) && Extendable(d)
    ensures Well(AddSource(sources, d, source)) && source in AddSource(sources, d, source).of[d]
  {
  }
}
