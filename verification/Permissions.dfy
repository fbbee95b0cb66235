/** The permission registry: cached views over declared groups and runtime sources. */
module Permissions {
  import opened Basics
  import opened Names

  /** What a provider does when it is called. */
  datatype Answer = Provides(keys: seq<string>) | Raises

  const RETRY: int := 30

  const DEFAULTS: map<string, set<string>> := map["admin" := {"*"}]

  // ---- Specification ---------------------------------------------------------------

  /** The sorted list of a set. */
  ghost predicate Lists(r: seq<string>, all: set<string>) { Sorted(r) && multiset(r) == multiset(all) }

  lemma ListsUnique(a: seq<string>, b: seq<string>, all: set<string>)
    requires Lists(a, all) && Lists(b, all)
    ensures a == b
  {
    SortedUnique(a, b);
  }

  lemma {:induction false} ListExists(all: set<string>) returns (r: seq<string>)
    ensures Lists(r, all)
  {
    if all == {} {
      r := [];
    } else {
      var x :| x in all;
      var rest := ListExists(all - {x});
      r := Insert(x, rest);
      InsertSorts(x, rest);
      InsertMembers(x, rest);
      assert multiset(all) == multiset{x} + multiset(all - {x});
    }
  }

  /** The members of a set in order. */
  ghost function ListOf(all: set<string>): (r: seq<string>)
    ensures Lists(r, all)
  {
    assert exists r :: Lists(r, all) by {
      var r := ListExists(all);
    }
    var r :| Lists(r, all); r
  }

  ghost function InGroups(groups: map<string, seq<string>>): set<string>
  {
    set g, p | g in groups && p in groups[g] :: p
  }

  function Output(outputs: map<string, seq<string>>, n: string): seq<string> { if n in outputs then outputs[n] else [] }

  ghost function InSources(names: seq<string>, outputs: map<string, seq<string>>): set<string>
  {
    if names == [] then {}
    else InSources(names[..|names| - 1], outputs) + Elements(Output(outputs, names[|names| - 1]))
  }

  ghost function Elements(s: seq<string>): set<string> { set p | p in s }

  /** Every permission of the groups and of the named sources' outputs. */
  ghost function Union(groups: map<string, seq<string>>, names: seq<string>,
      outputs: map<string, seq<string>>): set<string>
  {
    InGroups(groups) + InSources(names, outputs)
  }

  lemma {:induction false} SourceMember(names: seq<string>, outputs: map<string, seq<string>>, p: string)
    ensures p in InSources(names, outputs) <==> exists n :: n in names && p in Output(outputs, n)
  {
    if names != [] {
      SourceMember(names[..|names| - 1], outputs, p);
      assert names == names[..|names| - 1] + [names[|names| - 1]];
    }
  }

  lemma {:induction false} SameSources(names: seq<string>, a: map<string, seq<string>>, b: map<string, seq<string>>)
    requires forall n :: n in names ==> Output(a, n) == Output(b, n)
    ensures InSources(names, a) == InSources(names, b)
  {
    if names != [] {
      assert names == names[..|names| - 1] + [names[|names| - 1]];
      SameSources(names[..|names| - 1], a, b);
    }
  }

  /** A source is called when nothing is cached and no recent failure stands. */
  predicate Consults(cache: map<string, seq<string>>, failedAt: map<string, int>, n: string, now: int)
  {
    n !in cache && !(n in failedAt && now - failedAt[n] < RETRY)
  }

  /** What source `n` would contribute at `now`. */
  ghost function Contribution(cache: map<string, seq<string>>, failedAt: map<string, int>, n: string, now: int,
      calls: string -> Answer): seq<string>
  {
    if n in cache then cache[n]
    else if Consults(cache, failedAt, n, now) && calls(n).Provides? then calls(n).keys
    else []
  }

  /** All permissions recomputed at `now` from the groups and the sources. */
  ghost function Recomputed(groups: map<string, seq<string>>, names: seq<string>, cache: map<string, seq<string>>,
                            failedAt: map<string, int>, now: int, calls: string -> Answer): set<string>
  {
    Union(groups, names, map n | n in names :: Contribution(cache, failedAt, n, now, calls))
  }

  ghost predicate Past(expires: Option<int>, now: int) { expires.Some? && now >= expires.value }

  /** When the registry looks at its providers again: an expiry of zero is read as none. */
  ghost predicate Due(expires: Option<int>, now: int) { Past(expires, now) && expires.value != 0 }

  /** `r` lists everything, and no source is due before `expires`. */
  ghost predicate Settled(groups: map<string, seq<string>>, names: seq<string>, cache: map<string, seq<string>>,
                          failedAt: map<string, int>, expires: Option<int>, r: seq<string>)
  {
    && Lists(r, Union(groups, names, cache))
    && (forall n :: n in names ==> n in cache || (n in failedAt && Bounds(expires, failedAt[n])))
  }

  ghost predicate Bounds(expires: Option<int>, failed: int) { expires.Some? && expires.value <= failed + RETRY }

  /** Until it expires, a settled list is the recomputed one, whatever the providers would answer. */
  lemma SettledIsRecomputed(groups: map<string, seq<string>>, names: seq<string>, cache: map<string, seq<string>>,
      failedAt: map<string, int>, expires: Option<int>, r: seq<string>, now: int, calls: string -> Answer)
    requires Settled(groups, names, cache, failedAt, expires, r) && !Past(expires, now)
    ensures r == ListOf(Recomputed(groups, names, cache, failedAt, now, calls))
    ensures forall n :: n in names ==> !Consults(cache, failedAt, n, now)
  {
    var outputs := map n | n in names :: Contribution(cache, failedAt, n, now, calls);
    forall n | n in names ensures !Consults(cache, failedAt, n, now) && Output(outputs, n) == Output(cache, n) {
      assert n in cache || Bounds(expires, failedAt[n]);
    }
    SameSources(names, outputs, cache);
    ListsUnique(r, ListOf(Recomputed(groups, names, cache, failedAt, now, calls)), Union(groups, names, cache));
  }

  /** The expiry is that of a listed source which failed and has not answered since. */
  ghost predicate RetryOf(names: seq<string>, cache: map<string, seq<string>>, failedAt: map<string, int>,
      expires: Option<int>)
  {
    exists n :: n in names && n !in cache && n in failedAt && expires == Some(failedAt[n] + RETRY)
  }

  lemma {:induction false} FreshName(r: seq<string>) returns (p: string)
    ensures p !in r && forall q :: q in r ==> |q| < |p|
  {
    if r == [] {
      p := "x";
    } else {
      var q := FreshName(r[1..]);
      p := q + r[0] + "x";
      assert r == [r[0]] + r[1..];
    }
  }

  /** A source that may be called again can make the list a different one. */
  lemma StaleOncePast(groups: map<string, seq<string>>, names: seq<string>, cache: map<string, seq<string>>,
      failedAt: map<string, int>, expires: Option<int>, r: seq<string>, now: int)
    returns (calls: string -> Answer)
    requires RetryOf(names, cache, failedAt, expires) && Past(expires, now)
    ensures r != ListOf(Recomputed(groups, names, cache, failedAt, now, calls))
  {
    var n :| n in names && n !in cache && n in failedAt && expires == Some(failedAt[n] + RETRY);
    var p := FreshName(r);
    calls := _ => Provides([p]);
    var outputs := map m | m in names :: Contribution(cache, failedAt, m, now, calls);
    assert Output(outputs, n) == [p] && p in Output(outputs, n);
    SourceMember(names, outputs, p);
    var all := Recomputed(groups, names, cache, failedAt, now, calls);
    assert p in multiset(all) && multiset(ListOf(all)) == multiset(all);
    assert p in ListOf(all) && p !in r;
  }

  /** Of what the registry serves: it is the recomputed list for all providers, exactly unless its expiry
      is zero and has passed. */
  lemma ServedIsRecomputedIff(groups: map<string, seq<string>>, names: seq<string>, cache: map<string, seq<string>>,
                              failedAt: map<string, int>, expires: Option<int>, r: seq<string>, now: int)
    requires Settled(groups, names, cache, failedAt, expires, r)
    requires (expires.None? || RetryOf(names, cache, failedAt, expires)) && !Due(expires, now)
    ensures (forall calls :: r == ListOf(Recomputed(groups, names, cache, failedAt, now, calls))) <==>
      !(expires == Some(0) && now >= 0)
  {
    if Past(expires, now) {
      var calls := StaleOncePast(groups, names, cache, failedAt, expires, r, now);
    } else {
      forall calls: string -> Answer ensures r == ListOf(Recomputed(groups, names, cache, failedAt, now, calls)) {
        SettledIsRecomputed(groups, names, cache, failedAt, expires, r, now, calls);
      }
    }
  }

  // ---- Which group a permission is in ------------------------------------------------

  function GroupOf(groups: map<string, seq<string>>, g: string): seq<string> { if g in groups then groups[g] else [] }

  /** The declared permissions in their order, then in order the others that the source provides. */
  ghost predicate Joins(r: seq<string>, declared: seq<string>, provided: seq<string>)
  {
    declared <= r && Lists(r[|declared|..], Elements(provided) - Elements(declared))
  }

  ghost predicate SortedOutputs(outputs: map<string, seq<string>>)
  {
    forall n :: n in outputs ==> Lists(outputs[n], Elements(outputs[n]))
  }

  /** One group for each declared name and each source, holding just its own. */
  ghost predicate Grouped(merged: map<string, seq<string>>, groups: map<string, seq<string>>, names: seq<string>,
      outputs: map<string, seq<string>>)
  {
    forall g {:trigger GroupedAt(merged, groups, names, outputs, g)} :: GroupedAt(merged, groups, names, outputs, g)
  }

  ghost predicate GroupedAt(merged: map<string, seq<string>>, groups: map<string, seq<string>>, names: seq<string>,
      outputs: map<string, seq<string>>, g: string)
  {
    && (g in merged <==> g in groups || g in names)
    && (g in merged ==> Joins(merged[g], GroupOf(groups, g), if g in names then Output(outputs, g) else []))
  }

  lemma {:induction false} DistinctCounts(s: seq<string>, all: set<string>, k: string)
    requires Lists(s, all)
    ensures multiset(s)[k] == if k in s then 1 else 0
    ensures k in s <==> k in all
  {
    assert multiset(s)[k] == multiset(all)[k] && (k in s <==> k in multiset(s));
  }

  lemma {:induction false} NotInKeeps(keys: seq<string>, group: seq<string>, k: string)
    ensures multiset(NotIn(keys, group))[k] == if k in group then 0 else multiset(keys)[k]
  {
    if keys != [] {
      HeadAndTail(keys);
      NotInKeeps(keys[1..], group, k);
      assert k in group ==> k !in NotIn(keys, group);
      if keys[0] !in group {
        var r := NotIn(keys, group);
        HeadAndTail(r);
        assert r[1..] == NotIn(keys[1..], group);
      }
    }
  }

  lemma {:induction false} NotInSorted(keys: seq<string>, group: seq<string>)
    requires Sorted(keys)
    ensures Sorted(NotIn(keys, group))
  {
    if keys != [] {
      NotInSorted(keys[1..], group);
      if keys[0] !in group {
        var r := NotIn(keys, group);
        assert r[1..] == NotIn(keys[1..], group) && r[0] == keys[0];
        assert forall y :: y in r ==> y in keys;
      } else {
        assert NotIn(keys, group) == NotIn(keys[1..], group);
      }
    }
  }

  /** A source's sorted keys without those of the group are the sorted list of the rest. */
  lemma NotInLists(keys: seq<string>, group: seq<string>)
    requires Lists(keys, Elements(keys))
    ensures Lists(NotIn(keys, group), Elements(keys) - Elements(group))
  {
    var rest := Elements(keys) - Elements(group);
    NotInSorted(keys, group);
    forall k ensures multiset(NotIn(keys, group))[k] == multiset(rest)[k] {
      NotInKeeps(keys, group, k);
      DistinctCounts(keys, Elements(keys), k);
    }
  }

  lemma NothingListed(r: seq<string>)
    requires Lists(r, {})
    ensures r == []
  {
    assert |multiset(r)| == |r|;
  }

  lemma DeclaredOnly(r: seq<string>, declared: seq<string>)
    requires Joins(r, declared, [])
    ensures r == declared
  {
    assert Elements([]) - Elements(declared) == {};
    NothingListed(r[|declared|..]);
  }

  /** The group of a source not asked yet is as declared. */
  lemma NotYetGrouped(merged: map<string, seq<string>>, groups: map<string, seq<string>>, names: seq<string>,
      outputs: map<string, seq<string>>, g: string)
    requires Grouped(merged, groups, names, outputs) && g !in names
    ensures GroupOf(merged, g) == GroupOf(groups, g)
  {
    assert GroupedAt(merged, groups, names, outputs, g);
    if g in merged {
      DeclaredOnly(merged[g], GroupOf(groups, g));
    }
  }

  predicate OneMore(more: seq<string>, names: seq<string>, name: string)
  {
    more == names + [name] && name !in names
  }

  lemma GroupedOne(merged: map<string, seq<string>>, groups: map<string, seq<string>>, names: seq<string>,
      more: seq<string>, name: string, before: map<string, seq<string>>, after: map<string, seq<string>>,
      own: seq<string>)
    requires OneMore(more, names, name) && after - {name} == before - {name}
    requires Grouped(merged, groups, names, before) && Joins(own, GroupOf(groups, name), Output(after, name))
    ensures Grouped(merged[name := own], groups, more, after)
  {
    var next := merged[name := own];
    forall g ensures GroupedAt(next, groups, more, after, g) {
      assert GroupedAt(merged, groups, names, before, g);
      if g == name {
        assert name in more;
      } else {
        OtherKey(before, after, name, g);
        assert g in more <==> g in names;
      }
    }
  }

  lemma GroupedStep(merged: map<string, seq<string>>, groups: map<string, seq<string>>, names: seq<string>, i: nat,
      before: map<string, seq<string>>, after: map<string, seq<string>>)
    requires NoDup(names) && i < |names| && after - {names[i]} == before - {names[i]} && SortedOutputs(after)
    requires Grouped(merged, groups, names[..i], before)
    ensures var (name, group) := (names[i], GroupOf(merged, names[i]));
      Grouped(merged[name := group + NotIn(Output(after, name), group)], groups, names[..i + 1], after)
  {
    var name, group := names[i], GroupOf(merged, names[i]);
    assert OneMore(names[..i + 1], names[..i], name);
    NotYetGrouped(merged, groups, names[..i], before, name);
    OwnJoins(after, name, group);
    GroupedOne(merged, groups, names[..i], names[..i + 1], name, before, after,
      group + NotIn(Output(after, name), group));
  }

  lemma OwnJoins(outputs: map<string, seq<string>>, name: string, declared: seq<string>)
    requires SortedOutputs(outputs)
    ensures Joins(declared + NotIn(Output(outputs, name), declared), declared, Output(outputs, name))
  {
    var keys := Output(outputs, name);
    SortedOutput(outputs, name);
    NotInLists(keys, declared);
    assert (declared + NotIn(keys, declared))[|declared|..] == NotIn(keys, declared);
  }

  lemma ListsItself(r: seq<string>, all: set<string>)
    requires Lists(r, all)
    ensures Elements(r) == all
  {
    forall k ensures k in r <==> k in all {
      DistinctCounts(r, all, k);
    }
  }

  lemma SortedOutput(outputs: map<string, seq<string>>, n: string)
    requires SortedOutputs(outputs)
    ensures Lists(Output(outputs, n), Elements(Output(outputs, n)))
  {
    if n !in outputs {
      assert Elements([]) == {};
    }
  }

  lemma GroupedFirst(groups: map<string, seq<string>>, outputs: map<string, seq<string>>)
    ensures Grouped(groups, groups, [], outputs)
  {
    forall g ensures GroupedAt(groups, groups, [], outputs, g) {
      if g in groups {
        assert groups[g][|groups[g]|..] == [] && Elements([]) - Elements(groups[g]) == {};
      }
    }
  }

  /** One permission more in a group, once. */
  function Added(groups: map<string, seq<string>>, name: string, permission: string): map<string, seq<string>>
  {
    var group := GroupOf(groups, name);
    groups[name := if permission in group then group else group + [permission]]
  }

  // ---- Role mapping ----------------------------------------------------------------

  ghost function Granted(roles: map<string, set<string>>, role: string): set<string>
  {
    if role in roles then roles[role] else {}
  }

  ghost predicate RoleMerged(merged: map<string, set<string>>, roleMap: map<string, set<string>>,
      overlay: map<string, set<string>>, role: string)
  {
    && (role in merged <==> role in DEFAULTS || role in roleMap || role in overlay)
    && Granted(merged, role) == Granted(DEFAULTS, role) + Granted(roleMap, role) + Granted(overlay, role)
  }

  /** Defaults, code mappings and persisted grants, role by role. */
  ghost predicate Merges(merged: map<string, set<string>>, roleMap: map<string, set<string>>,
      overlay: map<string, set<string>>)
  {
    forall role {:trigger RoleMerged(merged, roleMap, overlay, role)} :: RoleMerged(merged, roleMap, overlay, role)
  }

  method Pick<T>(s: set<T>) returns (x: T)
    requires s != {}
    ensures x in s
  {
    x :| x in s;
  }

  method SortedSet(s: set<string>) returns (r: seq<string>)
    ensures Lists(r, s)
  {
    var todo, items := s, [];
    while todo != {}
      invariant multiset(items) + multiset(todo) == multiset(s)
      decreases todo
    {
      var x := Pick(todo);
      assert multiset(todo) == multiset{x} + multiset(todo - {x});
      items, todo := items + [x], todo - {x};
    }
    r := Sort(items);
    SortSorts(items);
  }

  method Earliest(failedAt: map<string, int>) returns (least: int)
    requires failedAt != map[]
    ensures forall n :: n in failedAt ==> least <= failedAt[n]
    ensures exists n :: n in failedAt && least == failedAt[n]
  {
    var first := Pick(failedAt.Keys);
    least := failedAt[first];
    var todo := failedAt.Keys - {first};
    while todo != {}
      invariant todo <= failedAt.Keys && exists n :: n in failedAt && least == failedAt[n]
      invariant forall n :: n in failedAt && n !in todo ==> least <= failedAt[n]
      decreases todo
    {
      var n := Pick(todo);
      if failedAt[n] < least {
        least := failedAt[n];
      }
      todo := todo - {n};
    }
  }

  // ---- The registry ----------------------------------------------------------------

  /** The retry of the earliest failure. */
  ghost predicate FirstRetry(failedAt: map<string, int>, expires: Option<int>)
  {
    && (forall n :: n in failedAt ==> Bounds(expires, failedAt[n]))
    && (expires.Some? <==> failedAt != map[])
    && (expires.Some? ==> exists n :: n in failedAt && expires.value == failedAt[n] + RETRY)
  }

  lemma FreshSettled(groups: map<string, seq<string>>, names: seq<string>, cache: map<string, seq<string>>,
                     failedAt: map<string, int>, expires: Option<int>, r: seq<string>)
    requires Lists(r, Union(groups, names, cache)) && FirstRetry(failedAt, expires) && Listed(names, cache, failedAt)
    requires forall n :: n in names ==> n in cache || n in failedAt
    ensures Settled(groups, names, cache, failedAt, expires, r)
    ensures (expires.None? || RetryOf(names, cache, failedAt, expires))
  {
    if expires.Some? {
      var n :| n in failedAt && expires.value == failedAt[n] + RETRY;
      assert n in names && n !in cache;
    }
  }

  method Expiry(failedAt: map<string, int>) returns (expires: Option<int>)
    ensures FirstRetry(failedAt, expires)
  {
    if failedAt == map[] {
      return None;
    }
    var least := Earliest(failedAt);
    return Some(least + RETRY);
  }

  /** What happened to source `n` when it was asked between `from` and `until`. */
  ghost predicate Asked(cache: map<string, seq<string>>, failedAt: map<string, int>, cache': map<string, seq<string>>,
      failedAt': map<string, int>, n: string, from: int, until: int, answer: Answer)
  {
    if n in cache then Kept(cache, failedAt, cache', failedAt', n)
    else
      || (n in failedAt && from - failedAt[n] < RETRY && Kept(cache, failedAt, cache', failedAt', n))
      || (Consults(cache, failedAt, n, until) && n !in failedAt' && answer.Provides? && n in cache'
        && Lists(cache'[n], Elements(answer.keys)))
      || (Consults(cache, failedAt, n, until) && n !in cache' && answer.Raises? && n in failedAt'
        && from <= failedAt'[n] <= until)
  }

  /** The same for each of `names`. */
  ghost predicate AllAsked(cache: map<string, seq<string>>, failedAt: map<string, int>,
      cache': map<string, seq<string>>, failedAt': map<string, int>, names: seq<string>, from: int, until: int,
      calls: string -> Answer)
  {
    names == [] ||
    (AllAsked(cache, failedAt, cache', failedAt', names[..|names| - 1], from, until, calls) &&
     Asked(cache, failedAt, cache', failedAt', names[|names| - 1], from, until, calls(names[|names| - 1])))
  }

  ghost predicate Kept(cache: map<string, seq<string>>, failedAt: map<string, int>, cache': map<string, seq<string>>,
      failedAt': map<string, int>, n: string)
  {
    && (n in cache <==> n in cache') && (n in cache ==> cache[n] == cache'[n])
    && (n in failedAt <==> n in failedAt') && (n in failedAt ==> failedAt[n] == failedAt'[n])
  }

  class PermissionRegistry {
    /** How long passes before each reading of the clock. */
    const waits: nat -> nat
    var readings: nat
    var now: int
    var groups: map<string, seq<string>>
    var names: seq<string>
    var cache: map<string, seq<string>>
    var failedAt: map<string, int>
    var allCache: Option<seq<string>>
    var expires: Option<int>
    var roleMap: map<string, set<string>>
    var overlay: map<string, set<string>>
    var roleCache: Option<map<string, set<string>>>

    /** The cached list, if any, is what recomputing would give until it expires. */
    ghost predicate AllSettled()
      reads this
    {
      allCache.Some? && Settled(groups, names, cache, failedAt, expires, allCache.value)
    }

    ghost predicate AllFresh()
      reads this
    {
      allCache.Some? && !Past(expires, now) ==> AllSettled()
    }

    /** The cached list is right for as long as it may be served. */
    ghost predicate Valid()
      reads this
    {
      NoDup(names) && FailuresListed() && SortedOutputs(cache) && AllFresh()
    }

    /** Only listed sources fail, and one that answered since is no longer failing. */
    ghost predicate FailuresListed()
      reads this
    {
      Listed(names, cache, failedAt)
    }

    /** Calls take no time. */
    ghost predicate Instant() { forall k :: waits(k) == 0 }

    /** The cached role mapping is the merge of the present layers. */
    ghost predicate RolesFresh()
      reads this`roleCache, this`roleMap, this`overlay
    {
      roleCache.Some? ==> Merges(roleCache.value, roleMap, overlay)
    }

    constructor (start: int, waits: nat -> nat)
      ensures this.waits == waits && cache == map[] && failedAt == map[] && allCache == None && expires == None
      ensures Valid() && RolesFresh() && now == start && groups == map[] && names == [] && roleMap == map[]
      ensures overlay == map[]
    {
      this.waits, readings := waits, 0;
      now, groups, names, cache, failedAt := start, map[], [], map[], map[];
      allCache, expires, roleMap, overlay, roleCache := None, None, map[], map[], None;
    }

    /** The clock never goes back. */
    method Clock() returns (t: int)
      modifies this`now, this`readings
      ensures t == now && now >= old(now) && (Instant() ==> now == old(now))
    {
      now, readings := now + waits(readings), readings + 1;
      t := now;
    }

    /** Time passes between calls. */
    method Elapse(span: nat)
      requires Valid()
      modifies this`now
      ensures Valid() && now == old(now) + span
    {
      now := now + span;
    }

    method Invalidate()
      modifies this`allCache, this`roleCache
      ensures allCache == None && roleCache == None
    {
      allCache, roleCache := None, None;
    }

    /** Register a source, or replace its provider. */
    method AddSource(name: string)
      requires Valid()
      modifies this`names, this`cache, this`failedAt, this`allCache, this`roleCache
      ensures Valid() && RolesFresh() && names == (if name in old(names) then old(names) else old(names) + [name])
      ensures cache == old(cache) - {name} && failedAt == old(failedAt) - {name} && allCache == None
    {
      if name !in names {
        names := names + [name];
      }
      cache, failedAt := cache - {name}, failedAt - {name};
      Invalidate();
    }

    method InvalidateSource(name: string)
      requires Valid()
      modifies this`cache, this`failedAt, this`allCache, this`roleCache
      ensures Valid() && RolesFresh() && cache == old(cache) - {name} && failedAt == old(failedAt) - {name}
      ensures allCache == None
    {
      cache, failedAt := cache - {name}, failedAt - {name};
      Invalidate();
    }

    method AddGroup(name: string, permissions: seq<string>)
      requires Valid()
      modifies this`groups, this`allCache, this`roleCache
      ensures Valid() && RolesFresh() && allCache == None
      ensures groups == old(groups)[name := (if name in old(groups) then old(groups)[name] else []) + permissions]
      ensures InGroups(groups) == InGroups(old(groups)) + Elements(permissions)
    {
      ghost var before := groups;
      if name in groups {
        groups := groups[name := groups[name] + permissions];
      } else {
        groups := groups[name := permissions];
      }
      GroupExtended(before, name, permissions);
      assert [] + permissions == permissions;
      Invalidate();
    }

    /** One permission, in the group named by what comes before its first dot. */
    method Add(permission: string)
      requires Valid()
      modifies this`groups, this`allCache, this`roleCache
      ensures Valid() && RolesFresh() && allCache == None
      ensures InGroups(groups) == InGroups(old(groups)) + {permission}
      ensures exists name :: NamedBy(name, permission) && groups == Added(old(groups), name, permission)
    {
      ghost var before := groups;
      var name := GroupName(permission);
      if name !in groups {
        groups := groups[name := []];
      }
      if permission !in groups[name] {
        groups := groups[name := groups[name] + [permission]];
      }
      PermissionAdded(before, groups, name, permission);
      GroupNameIs(permission);
      Invalidate();
    }

    /** The cached output, nothing while a failure is recent, or a call of the provider. */
    method SourceOutput(name: string, answer: Answer) returns (keys: seq<string>)
      modifies this`now, this`readings, this`cache, this`failedAt
      ensures now >= old(now) && (Instant() ==> now == old(now))
      ensures cache - {name} == old(cache) - {name} && failedAt - {name} == old(failedAt) - {name}
      ensures Asked(old(cache), old(failedAt), cache, failedAt, name, old(now), now, answer)
      ensures keys == if name in cache then cache[name] else []
      ensures name in cache || name in failedAt
      ensures SortedOutputs(old(cache)) ==> SortedOutputs(cache)
    {
      if name in cache {
        return cache[name];
      }
      if name in failedAt {
        var t := Clock();
        if t - failedAt[name] < RETRY {
          return [];
        }
      }
      match answer
      case Raises =>
        var t := Clock();
        failedAt := failedAt[name := t];
        keys := [];
      case Provides(entries) =>
        failedAt := failedAt - {name};
        keys := SortedSet(set k | k in entries);
        ListsItself(keys, set k | k in entries);
        cache := cache[name := keys];
    }

    /** Asking one source on its own: the cached list stays right for as long as it may be served. */
    method SourceLabels(name: string, answer: Answer)
      requires Valid()
      modifies this`now, this`readings, this`cache, this`failedAt
      ensures Valid() && now >= old(now)
    {
      if name in names {
        ghost var before := (cache, failedAt, now);
        var keys := SourceOutput(name, answer);
        StillListed(before.0, before.1, cache, failedAt, names, name, before.2, now, answer);
        if allCache.Some? && !Past(expires, now) {
          SettledStays(groups, names, before.0, before.1, cache, failedAt, name, before.2, now, answer,
            expires, allCache.value);
        }
      }
    }

    /** The groups with each source's keys added to the group of its name. */
    method Groups(calls: string -> Answer) returns (merged: map<string, seq<string>>)
      requires Valid()
      modifies this`now, this`readings, this`cache, this`failedAt
      ensures Valid() && now >= old(now) && (Instant() ==> now == old(now))
      ensures InGroups(merged) == Union(groups, names, cache) && Grouped(merged, groups, names, cache)
      ensures forall n :: n in names ==> n in cache || n in failedAt
      ensures AllAsked(old(cache), old(failedAt), cache, failedAt, names, old(now), now, calls)
    {
      merged := groups;
      ghost var start := (cache, failedAt, now);
      assert names[..0] == [];
      GroupedFirst(groups, cache);
      for i := 0 to |names|
        invariant now >= start.2 && (Instant() ==> now == start.2)
        invariant Merging(groups, names, i, start.0, start.1, cache, failedAt, start.2, now, calls, merged)
      {
        var name := names[i];
        ghost var before := (cache, failedAt, now);
        var keys := SourceOutput(name, calls(name));
        MergingStep(groups, names, i, start.0, start.1, before.0, before.1, cache, failedAt, start.2, before.2,
          now, calls, merged, keys);
        var group := if name in merged then merged[name] else [];
        merged := merged[name := group + NotIn(keys, group)];
      }
      assert names[..|names|] == names;
      if allCache.Some? && !Past(expires, now) {
        AllSettledStays(groups, names, start.0, start.1, cache, failedAt, start.2, now, calls, expires, allCache.value);
      }
    }

    /** A fresh list; while a source is failing it lives only until that source's retry. */
    method Recompute(calls: string -> Answer)
      requires Valid()
      modifies this`now, this`readings, this`cache, this`failedAt, this`allCache, this`expires
      ensures Valid() && now >= old(now) && (Instant() ==> now == old(now))
      ensures AllSettled() && (expires.None? || RetryOf(names, cache, failedAt, expires))
      ensures AllAsked(old(cache), old(failedAt), cache, failedAt, names, old(now), now, calls)
    {
      var merged := Groups(calls);
      var perms := PermissionsIn(merged);
      var all := SortedSet(perms);
      allCache := Some(all);
      expires := Expiry(failedAt);
      FreshSettled(groups, names, cache, failedAt, expires, all);
    }

    method NeedsRecompute() returns (due: bool)
      modifies this`now, this`readings
      ensures now >= old(now) && (Instant() ==> now == old(now)) && due == (allCache.None? || Due(expires, now))
      ensures Past(expires, now) && !due ==> now == old(now)
    {
      due := allCache.None?;
      if !due && expires.Some? && expires.value != 0 {
        var t := Clock();
        due := t >= expires.value;
      }
    }

    /** Served from the cache until it expires, recomputed otherwise. */
    method AllPermissions(calls: string -> Answer) returns (r: seq<string>)
      requires Valid()
      modifies this`now, this`readings, this`cache, this`failedAt, this`allCache, this`expires
      ensures Valid() && now >= old(now) && (Instant() ==> now == old(now)) && allCache == Some(r)
      ensures (Past(old(expires), old(now)) ==> Due(old(expires), old(now))) ==> AllSettled()
      ensures old(allCache).Some? && !Due(old(expires), now) ==>
        r == old(allCache).value && cache == old(cache) && failedAt == old(failedAt) && expires == old(expires)
      ensures old(allCache).None? || Due(old(expires), now) ==>
        && AllSettled() && (expires.None? || RetryOf(names, cache, failedAt, expires))
        && AllAsked(old(cache), old(failedAt), cache, failedAt, names, old(now), now, calls)
    {
      ghost var start := now;
      var due := NeedsRecompute();
      if due {
        ghost var before := (cache, failedAt, now);
        Recompute(calls);
        AllAskedSince(before.0, before.1, cache, failedAt, names, start, before.2, now, calls);
      }
      r := allCache.value;
    }

    method Has(permission: string, calls: string -> Answer) returns (yes: bool)
      requires Valid()
      modifies this`now, this`readings, this`cache, this`failedAt, this`allCache, this`expires
      ensures Valid()
      ensures (Past(old(expires), old(now)) ==> Due(old(expires), old(now))) ==>
        yes == (permission in Union(groups, names, cache))
    {
      var all := AllPermissions(calls);
      yes := permission in all;
      assert permission in all <==> permission in multiset(all);
    }

    // ---- Roles ---------------------------------------------------------------------

    method MapRole(role: string, permissions: set<string>)
      requires Valid() && RolesFresh()
      modifies this`roleMap, this`allCache, this`roleCache
      ensures Valid() && RolesFresh() && roleCache == None
      ensures roleMap == old(roleMap)[role := Granted(old(roleMap), role) + permissions]
    {
      if role !in roleMap {
        roleMap := roleMap[role := {}];
      }
      roleMap := roleMap[role := roleMap[role] + permissions];
      Invalidate();
    }

    method SetRoleOverlay(role: string, permissions: set<string>)
      requires Valid() && RolesFresh()
      modifies this`overlay, this`allCache, this`roleCache
      ensures Valid() && RolesFresh() && roleCache == None && overlay == old(overlay)[role := permissions]
    {
      overlay := overlay[role := permissions];
      Invalidate();
    }

    /** Replace every persisted grant; an unchanged snapshot leaves the cached views warm. */
    method ReplaceRoleOverlays(snapshot: map<string, set<string>>)
      requires Valid() && RolesFresh()
      modifies this`overlay, this`allCache, this`roleCache
      ensures Valid() && RolesFresh() && overlay == snapshot
      ensures if snapshot == old(overlay) then allCache == old(allCache) && roleCache == old(roleCache)
              else allCache == None && roleCache == None
    {
      if snapshot == overlay {
        return;
      }
      overlay := snapshot;
      Invalidate();
    }

    method RoleMap() returns (r: map<string, set<string>>)
      requires Valid() && RolesFresh()
      modifies this`roleCache
      ensures Valid() && RolesFresh() && roleCache == Some(r) && Merges(r, roleMap, overlay)
      ensures "admin" in r && "*" in r["admin"]
    {
      if roleCache.None? {
        var coded := MergeInto(DEFAULTS, roleMap);
        var merged := MergeInto(coded, overlay);
        forall role ensures RoleMerged(merged, roleMap, overlay, role) {
          assert Granted(merged, role) == Granted(coded, role) + Granted(overlay, role);
          assert Granted(coded, role) == Granted(DEFAULTS, role) + Granted(roleMap, role);
        }
        roleCache := Some(merged);
      }
      r := roleCache.value;
      assert RoleMerged(r, roleMap, overlay, "admin");
    }
  }

  method PermissionsIn(merged: map<string, seq<string>>) returns (perms: set<string>)
    ensures perms == InGroups(merged)
  {
    perms := {};
    var todo := merged.Keys;
    while todo != {}
      invariant todo <= merged.Keys
      invariant forall p :: p in perms <==> exists g :: g in merged && g !in todo && p in merged[g]
      decreases todo
    {
      var g := Pick(todo);
      perms := perms + set p | p in merged[g];
      todo := todo - {g};
    }
  }

  /** Add one layer of grants, role by role. */
  method MergeInto(base: map<string, set<string>>, layer: map<string, set<string>>)
    returns (merged: map<string, set<string>>)
    ensures merged.Keys == base.Keys + layer.Keys
    ensures forall role :: role in merged ==> merged[role] == Granted(base, role) + Granted(layer, role)
  {
    merged := base;
    var todo := layer.Keys;
    while todo != {}
      invariant todo <= layer.Keys && merged.Keys == base.Keys + (layer.Keys - todo)
      invariant forall role :: role in merged ==>
        merged[role] == Granted(base, role) + (if role in todo then {} else Granted(layer, role))
      decreases todo
    {
      var role := Pick(todo);
      merged := merged[role := (if role in merged then merged[role] else {}) + layer[role]];
      todo := todo - {role};
    }
  }

  function NotIn(keys: seq<string>, group: seq<string>): (r: seq<string>)
    ensures forall k :: k in r <==> k in keys && k !in group
  {
    if keys == [] then [] else
    assert keys == [keys[0]] + keys[1..];
    (if keys[0] in group then [] else [keys[0]]) + NotIn(keys[1..], group)
  }

  lemma GroupMerged(merged: map<string, seq<string>>, name: string, group: seq<string>, keys: seq<string>)
    requires group == if name in merged then merged[name] else []
    ensures InGroups(merged[name := group + NotIn(keys, group)]) == InGroups(merged) + Elements(keys)
  {
    GroupExtended(merged, name, NotIn(keys, group));
    forall k | k in keys && k !in NotIn(keys, group) ensures k in InGroups(merged) {
      assert k in merged[name];
    }
  }

  /** One more source counted, its output being all that changed. */
  lemma UnionGrows(groups: map<string, seq<string>>, names: seq<string>, i: nat, before: map<string, seq<string>>,
      after: map<string, seq<string>>)
    requires NoDup(names) && i < |names| && after - {names[i]} == before - {names[i]}
    ensures Union(groups, names[..i + 1], after) ==
      Union(groups, names[..i], before) + Elements(Output(after, names[i]))
  {
    var name := names[i];
    forall n | n in names[..i] ensures Output(before, n) == Output(after, n) {
      OtherKey(before, after, name, n);
    }
    SameSources(names[..i], before, after);
    assert names[..i + 1][..i] == names[..i];
  }

  lemma KeptElsewhere(cache: map<string, seq<string>>, failedAt: map<string, int>, cache': map<string, seq<string>>,
      failedAt': map<string, int>, name: string, n: string)
    requires cache' - {name} == cache - {name} && failedAt' - {name} == failedAt - {name} && n != name
    ensures Kept(cache, failedAt, cache', failedAt', n)
  {
    OtherKey(cache, cache', name, n);
    OtherKey(failedAt, failedAt', name, n);
  }

  lemma OtherKey<V>(a: map<string, V>, b: map<string, V>, name: string, n: string)
    requires a - {name} == b - {name} && n != name
    ensures (n in a <==> n in b) && (n in a ==> a[n] == b[n])
  {
    assert n in a <==> n in a - {name};
    assert n in b <==> n in b - {name};
    if n in a {
      assert (a - {name})[n] == (b - {name})[n];
    }
  }

  ghost predicate Listed(names: seq<string>, cache: map<string, seq<string>>, failedAt: map<string, int>)
  {
    forall n :: n in failedAt ==> n in names && n !in cache
  }

  lemma StillListed(c1: map<string, seq<string>>, f1: map<string, int>, c2: map<string, seq<string>>,
      f2: map<string, int>, names: seq<string>, name: string, from: int, until: int, answer: Answer)
    requires c2 - {name} == c1 - {name} && f2 - {name} == f1 - {name}
    requires Asked(c1, f1, c2, f2, name, from, until, answer)
    requires Listed(names, c1, f1) && name in names
    ensures Listed(names, c2, f2)
  {
    forall n | n in f2 ensures n in names && n !in c2 {
      if n != name {
        KeptElsewhere(c1, f1, c2, f2, name, n);
      }
    }
  }

  lemma KeptOthers(c1: map<string, seq<string>>, f1: map<string, int>, c2: map<string, seq<string>>,
      f2: map<string, int>, names: seq<string>, i: nat)
    requires NoDup(names) && i < |names| && c2 - {names[i]} == c1 - {names[i]} && f2 - {names[i]} == f1 - {names[i]}
    ensures forall k :: 0 <= k < |names| && k != i ==> Kept(c1, f1, c2, f2, names[k])
  {
    forall k | 0 <= k < |names| && k != i ensures Kept(c1, f1, c2, f2, names[k]) {
      KeptElsewhere(c1, f1, c2, f2, names[i], names[k]);
    }
  }

  lemma {:induction false} AskedOf(c1: map<string, seq<string>>, f1: map<string, int>, c2: map<string, seq<string>>,
      f2: map<string, int>, names: seq<string>, from: int, until: int, calls: string -> Answer, n: string)
    requires AllAsked(c1, f1, c2, f2, names, from, until, calls) && n in names
    ensures Asked(c1, f1, c2, f2, n, from, until, calls(n))
  {
    var front := names[..|names| - 1];
    if names[|names| - 1] != n {
      assert names == front + [names[|names| - 1]] && n in front;
      AskedOf(c1, f1, c2, f2, front, from, until, calls, n);
    }
  }

  /** Asking every source before the list expires changes nothing. */
  lemma AllSettledStays(groups: map<string, seq<string>>, names: seq<string>, c1: map<string, seq<string>>,
      f1: map<string, int>, c2: map<string, seq<string>>, f2: map<string, int>, from: int, until: int,
      calls: string -> Answer, expires: Option<int>, r: seq<string>)
    requires Settled(groups, names, c1, f1, expires, r) && !Past(expires, until) && from <= until
    requires AllAsked(c1, f1, c2, f2, names, from, until, calls)
    ensures Settled(groups, names, c2, f2, expires, r)
  {
    forall n | n in names ensures Kept(c1, f1, c2, f2, n) {
      AskedOf(c1, f1, c2, f2, names, from, until, calls, n);
      assert n in c1 || Bounds(expires, f1[n]);
    }
    SameSources(names, c1, c2);
    forall n | n in names ensures n in c2 || (n in f2 && Bounds(expires, f2[n])) {
      assert Kept(c1, f1, c2, f2, n) && (n in c1 || Bounds(expires, f1[n]));
    }
  }

  /** Midway through the sources: the first `i` have been asked and merged. */
  ghost predicate Merging(groups: map<string, seq<string>>, names: seq<string>, i: nat, c0: map<string, seq<string>>,
      f0: map<string, int>, c: map<string, seq<string>>, f: map<string, int>, from: int, now: int,
      calls: string -> Answer, merged: map<string, seq<string>>)
  {
    && i <= |names| && Listed(names, c, f)
    && InGroups(merged) == Union(groups, names[..i], c)
    && SortedOutputs(c) && Grouped(merged, groups, names[..i], c)
    && (forall n :: n in names[..i] ==> n in c || n in f)
    && AllAsked(c0, f0, c, f, names[..i], from, now, calls)
    && (forall k :: i <= k < |names| ==> Kept(c0, f0, c, f, names[k]))
  }

  lemma MergingUnion(groups: map<string, seq<string>>, names: seq<string>, i: nat, c1: map<string, seq<string>>,
      c2: map<string, seq<string>>, merged: map<string, seq<string>>, keys: seq<string>)
    requires NoDup(names) && i < |names| && c2 - {names[i]} == c1 - {names[i]} && keys == Output(c2, names[i])
    requires InGroups(merged) == Union(groups, names[..i], c1)
    ensures var group := if names[i] in merged then merged[names[i]] else [];
      InGroups(merged[names[i] := group + NotIn(keys, group)]) == Union(groups, names[..i + 1], c2)
  {
    GroupMerged(merged, names[i], if names[i] in merged then merged[names[i]] else [], keys);
    UnionGrows(groups, names, i, c1, c2);
  }

  lemma MergingAsked(names: seq<string>, i: nat, c0: map<string, seq<string>>, f0: map<string, int>,
      c1: map<string, seq<string>>, f1: map<string, int>, c2: map<string, seq<string>>, f2: map<string, int>,
      from: int, since: int, until: int, calls: string -> Answer)
    requires NoDup(names) && i < |names| && from <= since <= until
    requires AllAsked(c0, f0, c1, f1, names[..i], from, since, calls) && forall k :: i <= k < |names| ==>
      Kept(c0, f0, c1, f1, names[k])
    requires c2 - {names[i]} == c1 - {names[i]} && f2 - {names[i]} == f1 - {names[i]}
    requires Asked(c1, f1, c2, f2, names[i], since, until, calls(names[i]))
    ensures AllAsked(c0, f0, c2, f2, names[..i + 1], from, until, calls)
    ensures forall k :: i < k < |names| ==> Kept(c0, f0, c2, f2, names[k])
  {
    KeptOthers(c1, f1, c2, f2, names, i);
    AllAskedStay(c0, f0, c1, f1, c2, f2, names[..i], from, since, until, calls);
    AskedSince(c0, f0, c1, f1, c2, f2, names[i], from, since, until, calls(names[i]));
    assert names[..i + 1][..i] == names[..i];
  }

  lemma MergingFound(names: seq<string>, i: nat, c1: map<string, seq<string>>, f1: map<string, int>,
      c2: map<string, seq<string>>, f2: map<string, int>)
    requires NoDup(names) && i < |names| && forall n :: n in names[..i] ==> n in c1 || n in f1
    requires c2 - {names[i]} == c1 - {names[i]} && f2 - {names[i]} == f1 - {names[i]}
    requires (names[i] in c2 || names[i] in f2)
    ensures forall n :: n in names[..i + 1] ==> n in c2 || n in f2
  {
    assert names[..i + 1] == names[..i] + [names[i]];
    forall n | n in names[..i + 1] ensures n in c2 || n in f2 {
      if n != names[i] {
        KeptElsewhere(c1, f1, c2, f2, names[i], n);
      }
    }
  }

  lemma MergingStep(groups: map<string, seq<string>>, names: seq<string>, i: nat, c0: map<string, seq<string>>,
      f0: map<string, int>, c1: map<string, seq<string>>, f1: map<string, int>, c2: map<string, seq<string>>,
      f2: map<string, int>, from: int, since: int, until: int, calls: string -> Answer,
      merged: map<string, seq<string>>, keys: seq<string>)
    requires NoDup(names) && i < |names| && from <= since <= until
    requires Merging(groups, names, i, c0, f0, c1, f1, from, since, calls, merged)
    requires c2 - {names[i]} == c1 - {names[i]} && f2 - {names[i]} == f1 - {names[i]}
    requires Asked(c1, f1, c2, f2, names[i], since, until, calls(names[i])) && (names[i] in c2 || names[i] in f2)
    requires keys == Output(c2, names[i]) && SortedOutputs(c2)
    ensures var group := if names[i] in merged then merged[names[i]] else [];
      Merging(groups, names, i + 1, c0, f0, c2, f2, from, until, calls, merged[names[i] := group + NotIn(keys, group)])
  {
    StillListed(c1, f1, c2, f2, names, names[i], since, until, calls(names[i]));
    MergingUnion(groups, names, i, c1, c2, merged, keys);
    MergingAsked(names, i, c0, f0, c1, f1, c2, f2, from, since, until, calls);
    MergingFound(names, i, c1, f1, c2, f2);
    GroupedStep(merged, groups, names, i, c1, c2);
  }

  lemma AskedStays(c0: map<string, seq<string>>, f0: map<string, int>, c1: map<string, seq<string>>,
      f1: map<string, int>, c2: map<string, seq<string>>, f2: map<string, int>, n: string, from: int, until: int,
      later: int, answer: Answer)
    requires Asked(c0, f0, c1, f1, n, from, until, answer) && Kept(c1, f1, c2, f2, n) && until <= later
    ensures Asked(c0, f0, c2, f2, n, from, later, answer)
  {
  }

  lemma {:induction false} AllAskedStay(c0: map<string, seq<string>>, f0: map<string, int>,
      c1: map<string, seq<string>>, f1: map<string, int>, c2: map<string, seq<string>>, f2: map<string, int>,
      names: seq<string>, from: int, until: int, later: int, calls: string -> Answer)
    requires AllAsked(c0, f0, c1, f1, names, from, until, calls) && until <= later
    requires forall n :: n in names ==> Kept(c1, f1, c2, f2, n)
    ensures AllAsked(c0, f0, c2, f2, names, from, later, calls)
  {
    if names != [] {
      assert names == names[..|names| - 1] + [names[|names| - 1]];
      var last := names[|names| - 1];
      assert last in names;
      AskedStays(c0, f0, c1, f1, c2, f2, last, from, until, later, calls(last));
      AllAskedStay(c0, f0, c1, f1, c2, f2, names[..|names| - 1], from, until, later, calls);
    }
  }

  lemma AskedSince(c0: map<string, seq<string>>, f0: map<string, int>, c1: map<string, seq<string>>,
      f1: map<string, int>, c2: map<string, seq<string>>, f2: map<string, int>, n: string, from: int, since: int,
      until: int, answer: Answer)
    requires Kept(c0, f0, c1, f1, n) && Asked(c1, f1, c2, f2, n, since, until, answer) && from <= since
    ensures Asked(c0, f0, c2, f2, n, from, until, answer)
  {
  }

  lemma {:induction false} AllAskedSince(c0: map<string, seq<string>>, f0: map<string, int>,
      c1: map<string, seq<string>>, f1: map<string, int>, names: seq<string>, from: int, since: int, until: int,
      calls: string -> Answer)
    requires AllAsked(c0, f0, c1, f1, names, since, until, calls) && from <= since
    ensures AllAsked(c0, f0, c1, f1, names, from, until, calls)
  {
    if names != [] {
      var last := names[|names| - 1];
      AskedSince(c0, f0, c0, f0, c1, f1, last, from, since, until, calls(last));
      AllAskedSince(c0, f0, c1, f1, names[..|names| - 1], from, since, until, calls);
    }
  }

  /** Asking a source before the list expires changes nothing. */
  lemma SettledStays(groups: map<string, seq<string>>, names: seq<string>, c1: map<string, seq<string>>,
      f1: map<string, int>, c2: map<string, seq<string>>, f2: map<string, int>, name: string, from: int, until: int,
      answer: Answer, expires: Option<int>, r: seq<string>)
    requires Settled(groups, names, c1, f1, expires, r) && name in names && !Past(expires, until) && from <= until
    requires c2 - {name} == c1 - {name} && f2 - {name} == f1 - {name}
    requires Asked(c1, f1, c2, f2, name, from, until, answer)
    ensures Settled(groups, names, c2, f2, expires, r)
  {
    assert name in c1 || Bounds(expires, f1[name]);
    assert Kept(c1, f1, c2, f2, name);
    forall n | n in names ensures Kept(c1, f1, c2, f2, n) {
      if n != name {
        KeptElsewhere(c1, f1, c2, f2, name, n);
      }
    }
    SameSources(names, c1, c2);
    forall n | n in names ensures n in c2 || (n in f2 && Bounds(expires, f2[n])) {
      assert n in c1 || Bounds(expires, f1[n]);
    }
  }

  function UpToDot(s: string): string { if s == [] || s[0] == '.' then [] else [s[0]] + UpToDot(s[1..]) }

  function GroupName(permission: string): string { if '.' in permission then UpToDot(permission) else "general" }

  /** The name is what comes before the first dot, or "general" where there is none. */
  ghost predicate NamedBy(name: string, permission: string)
  {
    (name == "general" && '.' !in permission) || ('.' !in name && name + "." <= permission)
  }

  lemma {:induction false} UpToDotIs(s: string)
    requires '.' in s
    ensures '.' !in UpToDot(s) && UpToDot(s) + "." <= s
  {
    if s[0] != '.' {
      assert s == [s[0]] + s[1..];
      UpToDotIs(s[1..]);
      assert UpToDot(s) + "." == [s[0]] + (UpToDot(s[1..]) + ".");
    }
  }

  lemma GroupNameIs(permission: string)
    ensures NamedBy(GroupName(permission), permission)
  {
    if '.' in permission {
      UpToDotIs(permission);
    }
  }

  lemma PermissionAdded(before: map<string, seq<string>>, after: map<string, seq<string>>, name: string,
      permission: string)
    requires name in after && permission in after[name] && after - {name} == before - {name}
    requires forall p :: p in after[name] ==> p == permission || (name in before && p in before[name])
    requires name in before ==> forall p :: p in before[name] ==> p in after[name]
    ensures InGroups(after) == InGroups(before) + {permission}
  {
    forall g | g != name ensures (g in before <==> g in after) && (g in before ==> before[g] == after[g]) {
      OtherKey(before, after, name, g);
    }
    assert permission in InGroups(after);
  }

  lemma GroupExtended(groups: map<string, seq<string>>, name: string, permissions: seq<string>)
    ensures InGroups(groups[name := (if name in groups then groups[name] else []) + permissions])
      == InGroups(groups) + Elements(permissions)
  {
    var after := groups[name := (if name in groups then groups[name] else []) + permissions];
    forall p | p in permissions ensures p in InGroups(after) {
      assert p in after[name];
    }
    forall p | p in InGroups(groups) ensures p in InGroups(after) {
      var g :| g in groups && p in groups[g];
      assert p in after[g];
    }
  }

  // ---- An expiry of zero -------------------------------------------------------------

  /** A list whose expiry is zero is served by every later call, however much time passes between the
      calls and whatever the providers would answer. */
  method ServeOn(registry: PermissionRegistry, spans: seq<nat>, calls: nat -> string -> Answer)
    returns (served: seq<seq<string>>)
    requires registry.Valid() && registry.allCache.Some? && registry.expires == Some(0)
    modifies registry
    ensures registry.Valid() && |served| == |spans| && forall i :: 0 <= i < |served| ==>
      served[i] == old(registry.allCache).value
  {
    served := [];
    for i := 0 to |spans|
      invariant registry.Valid() && registry.allCache == old(registry.allCache) && registry.expires == Some(0)
      invariant |served| == i && forall k :: 0 <= k < i ==> served[k] == old(registry.allCache).value
    {
      registry.Elapse(spans[i]);
      var all := registry.AllPermissions(calls(i));
      served := served + [all];
    }
  }

  /** A registry with one source, on a clock that stands still during calls. */
  method OneSource(at: int) returns (registry: PermissionRegistry)
    ensures fresh(registry) && registry.Valid() && registry.Instant() && registry.now == at
    ensures registry.groups == map[] && registry.names == ["s"] && registry.cache == map[] && registry.failedAt == map[]
    ensures registry.allCache == None
  {
    registry := new PermissionRegistry(at, _ => 0);
    registry.AddSource("s");
  }

  /** Its source fails when first asked. */
  method FailAt(at: int) returns (first: seq<string>, registry: PermissionRegistry)
    ensures fresh(registry) && registry.Valid() && registry.Instant() && registry.now == at && first == []
    ensures registry.groups == map[] && registry.names == ["s"] && registry.allCache == Some(first)
    ensures registry.expires == Some(at + RETRY)
    ensures "s" !in registry.cache && "s" in registry.failedAt && registry.failedAt["s"] == at
  {
    registry := OneSource(at);
    var fails: string -> Answer := _ => Raises;
    first := registry.AllPermissions(fails);
    FailsAlone(registry.cache, registry.failedAt, registry.expires, first, at, fails);
  }

  /** A run that gets there: the only source fails at -30, and its permission is not listed from 0 on
      although it would be provided. */
  method ZeroExpiryRun(permission: string, span: nat)
    returns (first: seq<string>, later: seq<string>, registry: PermissionRegistry)
    ensures registry.Valid() && registry.now == span && registry.expires == Some(0) && first == [] == later
    ensures forall calls: string -> Answer :: calls("s") == Provides([permission]) ==>
      permission in Recomputed(registry.groups, registry.names, registry.cache, registry.failedAt, registry.now, calls)
  {
    first, registry := FailAt(-30);
    registry.Elapse(30 + span);
    later := registry.AllPermissions(_ => Provides([permission]));
    forall calls: string -> Answer | calls("s") == Provides([permission])
      ensures permission in Recomputed(registry.groups, registry.names, registry.cache,
        registry.failedAt, registry.now, calls)
    {
      var outputs := map n | n in ["s"] :: Contribution(registry.cache, registry.failedAt, n, registry.now, calls);
      assert "s" in ["s"] && Output(outputs, "s") == [permission] && permission in Output(outputs, "s");
      SourceMember(["s"], outputs, permission);
    }
  }

  /** What one failing source leaves: nothing listed, and an expiry one retry later. */
  lemma FailsAlone(cache: map<string, seq<string>>, failedAt: map<string, int>, expires: Option<int>, r: seq<string>,
                   at: int, calls: string -> Answer)
    requires calls("s") == Raises && AllAsked(map[], map[], cache, failedAt, ["s"], at, at, calls)
    requires Settled(map[], ["s"], cache, failedAt, expires, r)
    requires (expires.None? || RetryOf(["s"], cache, failedAt, expires))
    ensures "s" !in cache && "s" in failedAt && failedAt["s"] == at && r == [] && expires == Some(at + RETRY)
  {
    AskedOf(map[], map[], cache, failedAt, ["s"], at, at, calls, "s");
    assert ["s"][..0] == [] && InGroups(map[]) == {};
    assert InSources(["s"], cache) == InSources([], cache) + Elements(Output(cache, "s"));
    assert multiset(r) == multiset{} && |multiset(r)| == |r|;
    assert "s" in ["s"] && Bounds(expires, failedAt["s"]);
  }
}
