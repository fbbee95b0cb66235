/** Ordering modules by their dependencies, and reporting a cycle when there is no order. */
module Discovery {
  import opened Basics
  import opened Names
  import opened DependencyOrder
  import opened CycleSearch

  datatype ModuleMeta = ModuleMeta(name: string, dependsOn: seq<string>, optional: seq<string>)

  datatype Outcome =
    | Ordered(modules: seq<ModuleMeta>)
    | MissingDependency(pairs: seq<(string, string)>)
    | CircularDependency(cycle: seq<string>)

  // ---- Loading ---------------------------------------------------------------------

  /** The last module of each name. */
  function ByName(modules: seq<ModuleMeta>): (m: map<string, ModuleMeta>)
    ensures forall n :: n in m ==> m[n].name == n
  {
    if modules == [] then map[] else
    var last := modules[|modules| - 1];
    ByName(modules[..|modules| - 1])[last.name := last]
  }

  ghost predicate OnceFrom(r: seq<string>, wanted: seq<string>, loaded: set<string>)
  {
    NoDup(r) && forall d :: d in r <==> d in wanted && d in loaded
  }

  /** Each element once, at its first occurrence, and only if loaded. */
  function LoadedOnce(wanted: seq<string>, loaded: set<string>): (r: seq<string>)
    ensures OnceFrom(r, wanted, loaded)
  {
    if wanted == [] then [] else
    var front, d := LoadedOnce(wanted[..|wanted| - 1], loaded), wanted[|wanted| - 1];
    assert wanted == wanted[..|wanted| - 1] + [d];
    if d in loaded && d !in front then front + [d] else front
  }

  /** The loaded modules a module must sort after, required and optional alike. */
  function OrderingDeps(m: ModuleMeta, loaded: set<string>): (r: seq<string>)
    ensures NoDup(r) && forall d :: d in r <==> d in m.dependsOn + m.optional && d in loaded
  {
    LoadedOnce(m.dependsOn + m.optional, loaded)
  }

  function GraphOf(modules: seq<ModuleMeta>): (g: Graph)
    ensures Closed(g)
  {
    var loaded := ByName(modules);
    map n | n in loaded :: OrderingDeps(loaded[n], loaded.Keys)
  }

  /** Every (module, dependency) pair whose required dependency is not loaded, in order. */
  function Unloaded(deps: seq<string>, name: string, loaded: set<string>): seq<(string, string)>
  {
    if deps == [] then []
    else (if deps[0] in loaded then [] else [(name, deps[0])]) + Unloaded(deps[1..], name, loaded)
  }

  function MissingPairs(modules: seq<ModuleMeta>, loaded: set<string>): seq<(string, string)>
  {
    if modules == [] then []
    else Unloaded(modules[0].dependsOn, modules[0].name, loaded) + MissingPairs(modules[1..], loaded)
  }

  lemma {:induction false} UnloadedMembers(deps: seq<string>, name: string, loaded: set<string>, p: (string, string))
    ensures p in Unloaded(deps, name, loaded) <==> p.0 == name && p.1 in deps && p.1 !in loaded
  {
    if deps != [] {
      UnloadedMembers(deps[1..], name, loaded, p);
      assert deps == [deps[0]] + deps[1..];
    }
  }

  /** A pair is reported exactly when its module is given, requires it, and it is not loaded. */
  lemma {:induction false} MissingPairsMembers(modules: seq<ModuleMeta>, loaded: set<string>, p: (string, string))
    ensures p in MissingPairs(modules, loaded) <==>
      exists m :: m in modules && p.0 == m.name && p.1 in m.dependsOn && p.1 !in loaded
  {
    if modules != [] {
      var m := modules[0];
      UnloadedMembers(m.dependsOn, m.name, loaded, p);
      MissingPairsMembers(modules[1..], loaded, p);
      assert modules == [m] + modules[1..];
    }
  }

  // ---- Kahn's algorithm ------------------------------------------------------------

  /** How many of `ds` are not done. */
  function Waiting(ds: seq<string>, done: seq<string>): nat
  {
    if ds == [] then 0 else (if ds[0] in done then 0 else 1) + Waiting(ds[1..], done)
  }

  lemma {:induction false} WaitingZero(ds: seq<string>, done: seq<string>)
    ensures Waiting(ds, done) == 0 <==> forall d :: d in ds ==> d in done
  {
    if ds != [] {
      WaitingZero(ds[1..], done);
      assert ds == [ds[0]] + ds[1..];
    }
  }

  lemma {:induction false} WaitingStep(ds: seq<string>, done: seq<string>, x: string)
    requires NoDup(ds) && x !in done
    ensures Waiting(ds, done) == Waiting(ds, done + [x]) + (if x in ds then 1 else 0)
  {
    if ds != [] {
      assert forall i, j :: 0 <= i < j < |ds[1..]| ==> ds[1..][i] != ds[1..][j];
      WaitingStep(ds[1..], done, x);
      assert ds == [ds[0]] + ds[1..];
      assert ds[0] !in ds[1..];
    }
  }

  lemma {:induction false} WaitingAll(ds: seq<string>)
    ensures Waiting(ds, []) == |ds|
  {
    if ds != [] {
      WaitingAll(ds[1..]);
    }
  }

  /** The dependents table: under each name, the names that depend on it, each once. */
  ghost predicate DependentsOf(g: Graph, dependents: map<string, seq<string>>)
  {
    dependents.Keys == g.Keys &&
    forall d :: d in g ==> NoDup(dependents[d]) && forall n :: n in dependents[d] <==> n in g && d in g[n]
  }

  /** The counters and the queue once `result` has been placed. */
  ghost predicate Counted(g: Graph, inDegree: map<string, nat>, result: seq<string>)
  {
    inDegree.Keys == g.Keys && forall n :: n in g ==> inDegree[n] == Waiting(g[n], result)
  }

  ghost predicate Queued(g: Graph, queue: seq<string>, result: seq<string>)
  {
    NoDup(queue) && forall n :: n in queue <==> ReadyAfter(g, result, n)
  }

  /** The tables once the dependencies of `names` have been counted. */
  ghost predicate Filled(g: Graph, names: seq<string>, inDegree: map<string, nat>, dependents: map<string, seq<string>>)
  {
    && inDegree.Keys == g.Keys == dependents.Keys
    && (forall n :: n in g ==> inDegree[n] == if n in names then |g[n]| else 0)
    && (forall d :: d in g ==> NoDup(dependents[d]))
    && (forall d, n :: d in g ==> (n in dependents[d] <==> n in names && n in g && d in g[n]))
  }

  /** Midway through the dependencies of `name`. */
  ghost predicate Filling(g: Graph, names: seq<string>, name: string, j: nat, inDegree: map<string, nat>,
      dependents: map<string, seq<string>>)
    requires name in g && j <= |g[name]|
  {
    && inDegree.Keys == g.Keys == dependents.Keys
    && (forall n :: n in g && n != name ==> inDegree[n] == if n in names then |g[n]| else 0)
    && inDegree[name] == j
    && (forall d :: d in g ==> NoDup(dependents[d]))
    && (forall d, n :: d in g ==>
         (n in dependents[d] <==> (n in names && n in g && d in g[n]) || (n == name && d in g[name][..j])))
  }

  lemma Appended(table: map<string, seq<string>>, dep: string, name: string, d: string)
    requires dep in table && d in table && name !in table[dep] && NoDup(table[d])
    ensures NoDup(table[dep := table[dep] + [name]][d])
    ensures forall n :: n in table[dep := table[dep] + [name]][d] <==> n in table[d] || (d == dep && n == name)
  {
  }

  lemma FillingStep(g: Graph, names: seq<string>, name: string, j: nat, inDegree: map<string, nat>,
      dependents: map<string, seq<string>>)
    requires Closed(g) && name in g && name !in names && j < |g[name]|
    requires Filling(g, names, name, j, inDegree, dependents)
    ensures g[name][j] in g
    ensures Filling(g, names, name, j + 1, inDegree[name := inDegree[name] + 1],
                    dependents[g[name][j] := dependents[g[name][j]] + [name]])
  {
    var dep, deps := g[name][j], g[name];
    assert dep in deps && dep !in deps[..j] && dep in g;
    assert name !in dependents[dep];
    var added := dependents[dep := dependents[dep] + [name]];
    assert added.Keys == g.Keys;
    forall d | d in g
      ensures NoDup(added[d])
      ensures forall n :: n in added[d] <==> (n in names && n in g && d in g[n]) || (n == name && d in deps[..j + 1])
    {
      Appended(dependents, dep, name, d);
      assert d in deps[..j + 1] <==> d in deps[..j] || d == dep by {
        assert deps[..j + 1] == deps[..j] + [dep];
      }
    }
  }

  lemma FillingEnds(g: Graph, names: seq<string>, name: string, inDegree: map<string, nat>,
      dependents: map<string, seq<string>>)
    requires name in g && name !in names && Filling(g, names, name, |g[name]|, inDegree, dependents)
    ensures Filled(g, names + [name], inDegree, dependents)
  {
    assert g[name][..|g[name]|] == g[name];
  }

  lemma FillingStarts(g: Graph, names: seq<string>, name: string, inDegree: map<string, nat>,
      dependents: map<string, seq<string>>)
    requires name in g && name !in names && Filled(g, names, inDegree, dependents)
    ensures Filling(g, names, name, 0, inDegree, dependents)
  {
  }

  method CountOne(g: Graph, ghost names: seq<string>, name: string, inDegree: map<string, nat>,
      dependents: map<string, seq<string>>)
    returns (inDegree': map<string, nat>, dependents': map<string, seq<string>>)
    requires Closed(g) && name in g && name !in names && Filled(g, names, inDegree, dependents)
    ensures Filled(g, names + [name], inDegree', dependents')
  {
    inDegree', dependents' := inDegree, dependents;
    var deps := g[name];
    FillingStarts(g, names, name, inDegree, dependents);
    for j := 0 to |deps|
      invariant Filling(g, names, name, j, inDegree', dependents')
    {
      FillingStep(g, names, name, j, inDegree', dependents');
      inDegree' := inDegree'[name := inDegree'[name] + 1];
      dependents' := dependents'[deps[j] := dependents'[deps[j]] + [name]];
    }
    FillingEnds(g, names, name, inDegree', dependents');
  }

  lemma AllFilled(g: Graph, names: seq<string>, inDegree: map<string, nat>, dependents: map<string, seq<string>>)
    requires Filled(g, names, inDegree, dependents) && forall n :: n in names <==> n in g
    ensures Counted(g, inDegree, []) && DependentsOf(g, dependents)
  {
    forall n | n in g ensures inDegree[n] == Waiting(g[n], []) {
      WaitingAll(g[n]);
    }
  }

  lemma Prefix(s: seq<string>, i: nat)
    requires NoDup(s) && i < |s|
    ensures s[i] in s && s[i] !in s[..i] && s[..i + 1] == s[..i] + [s[i]]
  {
  }

  /** Fill the tables from the graph, one dependency at a time. */
  method CountEdges(g: Graph, names: seq<string>)
    returns (inDegree: map<string, nat>, dependents: map<string, seq<string>>)
    requires Closed(g) && NoDup(names) && forall n :: n in names <==> n in g
    ensures Counted(g, inDegree, []) && DependentsOf(g, dependents)
  {
    inDegree := map n | n in g :: 0;
    dependents := map n | n in g :: [];
    for i := 0 to |names|
      invariant Filled(g, names[..i], inDegree, dependents)
    {
      Prefix(names, i);
      inDegree, dependents := CountOne(g, names[..i], names[i], inDegree, dependents);
    }
    assert names[..|names|] == names;
    AllFilled(g, names, inDegree, dependents);
  }

  /** Placing the least ready name keeps the result greedy. */
  lemma GreedyStep(g: Graph, result: seq<string>, x: string)
    requires Greedy(g, result) && ReadyAfter(g, result, x)
    requires forall m :: ReadyAfter(g, result, m) ==> !Less(m, x)
    ensures Greedy(g, result + [x])
  {
    var s := result + [x];
    forall k | 0 <= k < |s| ensures ReadyAfter(g, s[..k], s[k]) && forall m :: ReadyAfter(g, s[..k], m) ==>
      !Less(m, s[k])
    {
      assert s[..k] == result[..k];
      if k == |result| {
        assert result[..k] == result;
      }
    }
  }

  /** After `x` is placed, the names that become ready depend on `x`. */
  lemma NewlyReady(g: Graph, result: seq<string>, x: string, n: string)
    requires Closed(g) && Greedy(g, result) && ReadyAfter(g, result, x) && n in g
    ensures ReadyAfter(g, result + [x], n) <==>
      (n != x && ReadyAfter(g, result, n)) || (x in g[n] && Waiting(g[n], result + [x]) == 0)
  {
    ReadyDistinct(g, result);
    WaitingZero(g[n], result + [x]);
  }

  /** Midway through the dependents of `x`: those in `seen` have been counted down. */
  ghost predicate Placing(g: Graph, result: seq<string>, x: string, seen: seq<string>, inDegree: map<string, nat>,
      queue: seq<string>)
  {
    && inDegree.Keys == g.Keys
    && (forall n :: n in g ==> inDegree[n] == if n in seen then Waiting(g[n], result + [x]) else Waiting(g[n], result))
    && NoDup(queue)
    && (forall n :: n in queue <==>
      (n != x && ReadyAfter(g, result, n)) || (n in seen && n in g && Waiting(g[n], result + [x]) == 0))
  }

  lemma CountDown(g: Graph, result: seq<string>, x: string, n: string)
    requires Closed(g) && x !in result && n in g && x in g[n]
    ensures Waiting(g[n], result) == Waiting(g[n], result + [x]) + 1 && !ReadyAfter(g, result, n)
  {
    WaitingStep(g[n], result, x);
  }

  lemma PlacingStarts(g: Graph, result: seq<string>, x: string, inDegree: map<string, nat>, queue: seq<string>)
    requires Counted(g, inDegree, result) && NoDup(queue)
    requires forall n :: n in queue <==> n != x && ReadyAfter(g, result, n)
    ensures Placing(g, result, x, [], inDegree, queue)
  {
  }

  lemma PlacingStep(g: Graph, result: seq<string>, x: string, seen: seq<string>, n: string, inDegree: map<string, nat>,
      queue: seq<string>)
    requires Closed(g) && x !in result && n in g && x in g[n] && n !in seen
    requires Placing(g, result, x, seen, inDegree, queue)
    ensures inDegree[n] > 0
    ensures Placing(g, result, x, seen + [n], inDegree[n := inDegree[n] - 1],
      if inDegree[n] == 1 then queue + [n] else queue)
  {
    CountDown(g, result, x, n);
    assert n !in queue;
    assert inDegree[n := inDegree[n] - 1].Keys == g.Keys;
  }

  method PlaceNext(g: Graph, ghost result: seq<string>, x: string, inDegree: map<string, nat>, queue: seq<string>,
      dependents: map<string, seq<string>>)
    returns (inDegree': map<string, nat>, queue': seq<string>)
    requires Closed(g) && Greedy(g, result) && ReadyAfter(g, result, x)
    requires Counted(g, inDegree, result) && DependentsOf(g, dependents)
    requires NoDup(queue) && forall n :: n in queue <==> n != x && ReadyAfter(g, result, n)
    ensures Counted(g, inDegree', result + [x]) && Queued(g, queue', result + [x])
  {
    inDegree', queue' := inDegree, queue;
    var ds := dependents[x];
    PlacingStarts(g, result, x, inDegree, queue);
    for i := 0 to |ds|
      invariant Placing(g, result, x, ds[..i], inDegree', queue')
    {
      var n := ds[i];
      Prefix(ds, i);
      PlacingStep(g, result, x, ds[..i], n, inDegree', queue');
      inDegree' := inDegree'[n := inDegree'[n] - 1];
      if inDegree'[n] == 0 {
        queue' := queue' + [n];
      }
    }
    assert ds[..|ds|] == ds;
    Placed(g, result, x, ds, inDegree', queue');
  }

  lemma Placed(g: Graph, result: seq<string>, x: string, ds: seq<string>, inDegree: map<string, nat>,
      queue: seq<string>)
    requires Closed(g) && Greedy(g, result) && ReadyAfter(g, result, x) && Placing(g, result, x, ds, inDegree, queue)
    requires forall n :: n in ds <==> n in g && x in g[n]
    ensures Counted(g, inDegree, result + [x]) && Queued(g, queue, result + [x])
  {
    forall n | n in g ensures inDegree[n] == Waiting(g[n], result + [x]) {
      WaitingStep(g[n], result, x);
    }
    forall n ensures n in queue <==> ReadyAfter(g, result + [x], n) {
      if n in g {
        NewlyReady(g, result, x, n);
      }
    }
  }

  ghost predicate Listed(g: Graph, names: seq<string>) { NoDup(names) && forall n :: n in names <==> n in g }

  lemma NamesOnce(modules: seq<ModuleMeta>)
    ensures Listed(GraphOf(modules), LoadedOnce(NamesOf(modules), ByName(modules).Keys))
  {
    ByNameKeys(modules);
  }

  /** Kahn's algorithm with the queue sorted before each name is taken. */
  method Kahn(g: Graph, names: seq<string>) returns (result: seq<string>)
    requires Closed(g) && Listed(g, names)
    ensures Finished(g, result)
  {
    var inDegree, dependents := CountEdges(g, names);
    var queue: seq<string> := [];
    for i := 0 to |names|
      invariant NoDup(queue) && forall n :: n in queue <==> n in names[..i] && inDegree[n] == 0
    {
      assert names[i] !in names[..i] && names[..i + 1] == names[..i] + [names[i]];
      assert names[i] in names;
      if inDegree[names[i]] == 0 {
        queue := queue + [names[i]];
      }
    }
    result := [];
    assert names[..|names|] == names;
    forall n ensures n in queue <==> ReadyAfter(g, [], n) {
      if n in g {
        WaitingZero(g[n], []);
      }
    }
    while |queue| > 0
      invariant Greedy(g, result) && Counted(g, inDegree, result) && Queued(g, queue, result)
      decreases |g.Keys| - |result|
    {
      var sorted := Sort(queue);
      SortKeeps(queue);
      var current := sorted[0];
      GreedyStep(g, result, current);
      ResultBounded(g, result + [current]);
      inDegree, queue := PlaceNext(g, result, current, inDegree, sorted[1..], dependents);
      result := result + [current];
    }
    assert queue == [];
  }

  lemma {:induction false} InsertOnce(x: string, s: seq<string>)
    requires NoDup(s) && x !in s
    ensures NoDup(Insert(x, s)) && |Insert(x, s)| == |s| + 1
  {
    if s != [] && Less(s[0], x) {
      InsertOnce(x, s[1..]);
      InsertMembers(x, s[1..]);
      assert s[0] !in s[1..];
    }
  }

  lemma {:induction false} SortOnce(s: seq<string>)
    requires NoDup(s)
    ensures NoDup(Sort(s)) && |Sort(s)| == |s| && forall n :: n in Sort(s) <==> n in s
  {
    if s != [] {
      assert s == [s[0]] + s[1..] && s[0] !in s[1..];
      SortOnce(s[1..]);
      InsertOnce(s[0], Sort(s[1..]));
      InsertMembers(s[0], Sort(s[1..]));
    }
  }

  /** Sorting a queue without duplicates: the same members, the least one first. */
  lemma SortKeeps(queue: seq<string>)
    requires NoDup(queue) && queue != []
    ensures |Sort(queue)| == |queue| && Least(Sort(queue)[0], queue) && Sort(queue)[0] in queue
    ensures NoDup(Sort(queue)[1..]) && forall n :: n in Sort(queue)[1..] <==> n in queue && n != Sort(queue)[0]
  {
    var s := Sort(queue);
    SortSorts(queue);
    SortOnce(queue);
    assert s == [s[0]] + s[1..] && s[0] !in s[1..];
  }

  lemma ResultBounded(g: Graph, result: seq<string>)
    requires Greedy(g, result)
    ensures |result| <= |g.Keys|
  {
    ReadyDistinct(g, result);
    DistinctBounded(result, g.Keys);
  }

  lemma {:induction false} DistinctBounded(s: seq<string>, all: set<string>)
    requires NoDup(s) && forall n :: n in s ==> n in all
    ensures |s| <= |all|
  {
    if s != [] {
      assert s[0] !in s[1..];
      DistinctBounded(s[1..], all - {s[0]});
    }
  }

  // ---- Sorting modules -------------------------------------------------------------

  function NamesOf(modules: seq<ModuleMeta>): (r: seq<string>)
    ensures |r| == |modules| && forall i :: 0 <= i < |r| ==> r[i] == modules[i].name
  {
    seq(|modules|, i requires 0 <= i < |modules| => modules[i].name)
  }

  lemma {:induction false} ByNameKeys(modules: seq<ModuleMeta>)
    ensures forall n :: n in NamesOf(modules) <==> n in ByName(modules)
  {
    if modules != [] {
      var front, last := modules[..|modules| - 1], modules[|modules| - 1];
      ByNameKeys(front);
      assert NamesOf(modules) == NamesOf(front) + [last.name];
    }
  }

  ghost predicate AllIn(names: seq<string>, loaded: map<string, ModuleMeta>) { forall n :: n in names ==> n in loaded }

  function Loaded(names: seq<string>, loaded: map<string, ModuleMeta>): (r: seq<ModuleMeta>)
    requires AllIn(names, loaded)
    ensures |r| == |names| && forall i :: 0 <= i < |r| ==> r[i] == loaded[names[i]]
  {
    seq(|names|, i requires 0 <= i < |names| => loaded[names[i]])
  }

  ghost predicate SortsAs(modules: seq<ModuleMeta>, names: seq<string>, r: seq<ModuleMeta>)
  {
    && LeastOrdering(GraphOf(modules), names)
    && AllIn(names, ByName(modules))
    && r == Loaded(names, ByName(modules))
  }

  /** The modules under their least ordering. */
  ghost predicate SortedTo(modules: seq<ModuleMeta>, r: seq<ModuleMeta>)
  {
    exists names :: SortsAs(modules, names, r)
  }

  method TopologicalSort(modules: seq<ModuleMeta>, strict: bool) returns (r: Outcome)
    ensures r.MissingDependency? <==> strict && MissingPairs(modules, ByName(modules).Keys) != []
    ensures r.MissingDependency? ==> r.pairs == MissingPairs(modules, ByName(modules).Keys)
    ensures r.Ordered? ==> SortedTo(modules, r.modules)
    ensures r.CircularDependency? ==> Cycle(GraphOf(modules), r.cycle)
    ensures !r.MissingDependency? ==> (r.CircularDependency? <==> exists c :: Cycle(GraphOf(modules), c))
  {
    var byName := ByName(modules);
    var missing := MissingPairs(modules, byName.Keys);
    if missing != [] && strict {
      return MissingDependency(missing);
    }
    var edges := GraphOf(modules);
    assert edges.Keys == byName.Keys;
    NamesOnce(modules);
    var names := LoadedOnce(NamesOf(modules), byName.Keys);
    var result := Kahn(edges, names);
    if |result| != |byName| {
      var remaining := byName.Keys - (set n | n in result);
      SortFails(edges, result, remaining);
      var cycle := FindCycle(edges, remaining, LoadedOnce(names, remaining));
      return CircularDependency(cycle);
    }
    SortSucceeds(modules, result);
    forall c ensures !Cycle(edges, c) {
      SortedExcludesCycle(modules, Loaded(result, byName), c);
    }
    return Ordered(Loaded(result, byName));
  }

  lemma SortFails(g: Graph, result: seq<string>, remaining: set<string>)
    requires Closed(g) && Finished(g, result) && |result| != |g.Keys|
    requires remaining == g.Keys - set n | n in result
    ensures Stuck(g, remaining) && remaining != {}
  {
    LeftoverStuck(g, result);
    assert remaining == set n | n in g && n !in result;
    AllPlaced(g, result);
    var n :| n in g && n !in result;
    assert n in remaining;
  }

  lemma SortSucceeds(modules: seq<ModuleMeta>, result: seq<string>)
    requires Finished(GraphOf(modules), result) && |result| == |ByName(modules)|
    ensures AllIn(result, ByName(modules))
    ensures SortedTo(modules, Loaded(result, ByName(modules)))
  {
    var g := GraphOf(modules);
    assert g.Keys == ByName(modules).Keys;
    ReadyDistinct(g, result);
    AllPlaced(g, result);
    GreedyIsLeast(g, result);
    assert SortsAs(modules, result, Loaded(result, ByName(modules)));
  }

  /** Sorting succeeds only where there is no cycle. */
  lemma SortedExcludesCycle(modules: seq<ModuleMeta>, r: seq<ModuleMeta>, c: seq<string>)
    requires SortedTo(modules, r)
    ensures !Cycle(GraphOf(modules), c)
  {
    var names :| SortsAs(modules, names, r);
    OrderingExcludesCycle(GraphOf(modules), names, c);
  }

  lemma AllPlaced(g: Graph, result: seq<string>)
    requires Greedy(g, result)
    ensures |result| == |g.Keys| <==> forall n :: n in g ==> n in result
  {
    ReadyDistinct(g, result);
    DistinctCovers(result, g.Keys);
  }

  lemma {:induction false} DistinctCovers(s: seq<string>, all: set<string>)
    requires NoDup(s) && forall n :: n in s ==> n in all
    ensures |s| == |all| <==> forall n :: n in all ==> n in s
  {
    if s == [] {
      assert all != {} ==> exists n :: n in all;
    } else {
      assert s[0] !in s[1..];
      assert s == [s[0]] + s[1..];
      DistinctCovers(s[1..], all - {s[0]});
    }
  }

  // ---- Distinct names: a permutation that does not depend on the input's order -------

  ghost predicate DistinctNames(modules: seq<ModuleMeta>)
  {
    forall i, j :: 0 <= i < j < |modules| ==> modules[i].name != modules[j].name
  }

  lemma {:induction false} OnceEach<T>(s: seq<T>)
    requires NoDup(s)
    ensures forall x :: multiset(s)[x] == if x in s then 1 else 0
  {
    if s != [] {
      assert forall i, j :: 0 <= i < j < |s[1..]| ==> s[1..][i] != s[1..][j];
      OnceEach(s[1..]);
      assert s == [s[0]] + s[1..] && s[0] !in s[1..];
    }
  }

  /** With distinct names every module is the one its name finds. */
  lemma {:induction false} FoundByName(modules: seq<ModuleMeta>)
    requires DistinctNames(modules)
    ensures forall m :: m in modules <==> m.name in ByName(modules) && ByName(modules)[m.name] == m
    ensures NoDup(modules)
  {
    if modules != [] {
      var front, last := modules[..|modules| - 1], modules[|modules| - 1];
      FoundByName(front);
      assert modules == front + [last];
      assert forall m :: m in front ==> m.name != last.name;
    }
  }

  lemma LoadedMembers(names: seq<string>, byName: map<string, ModuleMeta>, r: seq<ModuleMeta>)
    requires NoDup(names) && (forall n :: n in byName ==> byName[n].name == n)
    requires AllIn(names, byName) && r == Loaded(names, byName)
    ensures NoDup(r) && forall m :: m in r <==> m.name in names && byName[m.name] == m
  {
    forall m: ModuleMeta | m.name in names && byName[m.name] == m ensures m in r {
      var k :| 0 <= k < |names| && names[k] == m.name;
      assert r[k] == m;
    }
    assert forall i :: 0 <= i < |r| ==> r[i].name == names[i];
  }

  /** The result is a permutation of the input. */
  lemma SortPermutes(modules: seq<ModuleMeta>, r: seq<ModuleMeta>)
    requires DistinctNames(modules) && SortedTo(modules, r)
    ensures multiset(r) == multiset(modules)
  {
    var byName := ByName(modules);
    var names :| SortsAs(modules, names, r);
    OrderingMembers(GraphOf(modules), names);
    FoundByName(modules);
    LoadedMembers(names, byName, r);
    forall m ensures m in r <==> m in modules {
    }
    OnceEach(r);
    OnceEach(modules);
  }

  /** Every loaded dependency, required or optional, comes before the module that names it. */
  lemma SortPutsDependenciesFirst(modules: seq<ModuleMeta>, r: seq<ModuleMeta>, k: nat, dep: string)
    requires SortedTo(modules, r) && k < |r| && dep in r[k].dependsOn + r[k].optional && dep in NamesOf(modules)
    ensures exists j :: 0 <= j < k && r[j].name == dep
  {
    var byName, g := ByName(modules), GraphOf(modules);
    var names :| SortsAs(modules, names, r);
    ByNameKeys(modules);
    assert ReadyAfter(g, names[..k], names[k]);
    assert r[k] == byName[names[k]] && dep in g[names[k]];
    var j :| 0 <= j < k && names[j] == dep;
    assert r[j].name == dep;
  }

  /** Loading the same modules in another order gives the same result. */
  lemma LoadOrderIrrelevant(a: seq<ModuleMeta>, b: seq<ModuleMeta>, ra: seq<ModuleMeta>, rb: seq<ModuleMeta>)
    requires DistinctNames(a) && DistinctNames(b) && multiset(a) == multiset(b)
    requires SortedTo(a, ra) && SortedTo(b, rb)
    ensures ra == rb
  {
    assert forall m :: m in a <==> m in multiset(a);
    assert forall m :: m in b <==> m in multiset(b);
    ByNameSame(a, b);
    assert GraphOf(a) == GraphOf(b);
    var names :| SortsAs(a, names, ra);
    var other :| SortsAs(b, other, rb);
    LeastUnique(GraphOf(a), names, other);
  }

  lemma ByNameSame(a: seq<ModuleMeta>, b: seq<ModuleMeta>)
    requires DistinctNames(a) && DistinctNames(b) && forall m :: m in a <==> m in b
    ensures ByName(a) == ByName(b)
  {
    forall n ensures n in ByName(a) <==> n in ByName(b) {
      ByNameAgree(a, b, n);
    }
    forall n | n in ByName(a) ensures ByName(a)[n] == ByName(b)[n] {
      ByNameAgree(a, b, n);
    }
  }

  lemma ByNameAgree(a: seq<ModuleMeta>, b: seq<ModuleMeta>, n: string)
    requires DistinctNames(a) && DistinctNames(b) && forall m :: m in a <==> m in b
    ensures n in ByName(a) <==> n in ByName(b)
    ensures n in ByName(a) ==> ByName(a)[n] == ByName(b)[n]
  {
    FoundByName(a);
    FoundByName(b);
    if n in ByName(a) {
      assert ByName(a)[n] in b;
    }
    if n in ByName(b) {
      assert ByName(b)[n] in a;
    }
  }
}
