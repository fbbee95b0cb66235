/** Fixed and sliding window counters with a cap on the number of keys; times are whole milliseconds. */
module RateLimit {
  import opened Basics

  datatype RateSpec = RateSpec(limit: int, period: nat)

  datatype Window = Window(end: int, count: nat)

  datatype WindowResult = WindowResult(allowed: bool, retryAfter: int, count: nat)

  type Table = map<string, Window>

  const MAX_KEYS: nat := 50_000

  function Span(spec: RateSpec): nat { spec.period * 1000 }

  // ---- One key -------------------------------------------------------------------------

  /** A window counts until it ends. */
  function Live(w: Option<Window>, now: int): Option<Window> { if w.Some? && w.value.end > now then w else None }

  function Entry(windows: Table, key: string): Option<Window> { if key in windows then Some(windows[key]) else None }

  /** The window after one more hit; a sliding window begins again with every hit. */
  function Counted(w: Option<Window>, spec: RateSpec, now: int, sliding: bool): Window
  {
    match Live(w, now)
    case None => Window(now + Span(spec), 1)
    case Some(v) => Window(if sliding then now + Span(spec) else v.end, v.count + 1)
  }

  /** Whole seconds until `end`, rounded up, at least one. */
  function RetrySeconds(end: int, now: int): int
  {
    var ms := end - now;
    var up := if ms <= 0 then 0 else (ms + 999) / 1000;
    if up < 1 then 1 else up
  }

  function HitResult(w: Option<Window>, spec: RateSpec, now: int, sliding: bool): WindowResult
  {
    var v := Counted(w, spec, now, sliding);
    WindowResult(v.count <= spec.limit, RetrySeconds(v.end, now), v.count)
  }

  function PeekResult(w: Option<Window>, spec: RateSpec, now: int): WindowResult
  {
    match Live(w, now)
    case None => WindowResult(spec.limit > 0, 0, 0)
    case Some(v) => WindowResult(v.count < spec.limit, RetrySeconds(v.end, now), v.count)
  }

  /** Looking says what one more hit, fixed or sliding, would be told. */
  lemma PeekPredictsHit(w: Option<Window>, spec: RateSpec, now: int, sliding: bool)
    ensures PeekResult(w, spec, now).allowed == HitResult(w, spec, now, sliding).allowed
    ensures PeekResult(w, spec, now).count + 1 == HitResult(w, spec, now, sliding).count
  {
  }

  /** Waiting `seconds` from `now` outlives a window that ends at `end`, and waiting a second less does not. */
  predicate JustOutlives(seconds: int, end: int, now: int)
  {
    seconds >= 1 && end <= now + seconds * 1000 && (seconds > 1 ==> now + (seconds - 1) * 1000 < end)
  }

  lemma RetryIsLeast(end: int, now: int)
    ensures JustOutlives(RetrySeconds(end, now), end, now)
  {
  }

  /** What a caller is told to wait is the least whole number of seconds after which its window has ended. */
  lemma RetryTells(w: Option<Window>, spec: RateSpec, now: int, sliding: bool)
    ensures JustOutlives(HitResult(w, spec, now, sliding).retryAfter, Counted(w, spec, now, sliding).end, now)
    ensures var r := PeekResult(w, spec, now).retryAfter;
      if w.Some? && now < w.value.end then JustOutlives(r, w.value.end, now) else r == 0
  {
    RetryIsLeast(Counted(w, spec, now, sliding).end, now);
    if w.Some? {
      RetryIsLeast(w.value.end, now);
    }
  }

  // ---- How many hits a fixed window allows ----------------------------------------------

  ghost predicate Ascending(times: seq<int>) { forall i, j :: 0 <= i < j < |times| ==> times[i] <= times[j] }

  function Within(t: int, from: int, span: nat): bool { from <= t < from + span }

  /** The hits at `times` that are allowed and fall in the interval of one period from `from`. */
  function AllowedIn(times: seq<int>, w: Option<Window>, spec: RateSpec, from: int): nat
  {
    if times == [] then 0
    else
      (if Within(times[0], from, Span(spec)) && HitResult(w, spec, times[0], false).allowed then 1 else 0) +
      AllowedIn(times[1..], Some(Counted(w, spec, times[0], false)), spec, from)
  }

  function Rest(w: Window, spec: RateSpec): nat { if w.count < spec.limit then spec.limit - w.count else 0 }

  /** What the interval can still see, the last hit having been at `now`. */
  function Bound(w: Option<Window>, spec: RateSpec, now: int, from: int): nat
  {
    var full: nat := if spec.limit > 0 then spec.limit else 0;
    if w.None? || now < from then (if full > 0 then 2 * full - 1 else 0)
    else if w.value.end >= from + Span(spec) then Rest(w.value, spec)
    else Rest(w.value, spec) + full
  }

  lemma BoundStep(w: Option<Window>, spec: RateSpec, now: int, from: int, t: int)
    requires now <= t && t < from + Span(spec) && (w.Some? ==> w.value.count >= 1)
    ensures (if Within(t, from, Span(spec)) && HitResult(w, spec, t, false).allowed then 1 else 0) +
      Bound(Some(Counted(w, spec, t, false)), spec, t, from) <= Bound(w, spec, now, from)
  {
  }

  lemma {:induction false} NoneAfter(times: seq<int>, w: Option<Window>, spec: RateSpec, from: int)
    requires forall i :: 0 <= i < |times| ==> times[i] >= from + Span(spec)
    ensures AllowedIn(times, w, spec, from) == 0
    decreases |times|
  {
    if times != [] {
      NoneAfter(times[1..], Some(Counted(w, spec, times[0], false)), spec, from);
    }
  }

  lemma {:induction false} AllowedBounded(times: seq<int>, w: Option<Window>, spec: RateSpec, now: int, from: int)
    requires Ascending(times) && (forall i :: 0 <= i < |times| ==> now <= times[i])
    requires w.Some? ==> w.value.count >= 1
    ensures AllowedIn(times, w, spec, from) <= Bound(w, spec, now, from)
    decreases |times|
  {
    if times != [] {
      if times[0] >= from + Span(spec) {
        NoneAfter(times, w, spec, from);
      } else {
        BoundStep(w, spec, now, from, times[0]);
        AllowedBounded(times[1..], Some(Counted(w, spec, times[0], false)), spec, times[0], from);
      }
    }
  }

  /** Less than twice the limit in any interval one period long. */
  lemma LessThanTwice(times: seq<int>, spec: RateSpec, from: int)
    requires Ascending(times) && spec.limit >= 1
    ensures AllowedIn(times, None, spec, from) <= 2 * spec.limit - 1
  {
    if times != [] {
      AllowedBounded(times, None, spec, times[0], from);
    }
  }

  function Repeat(t: int, n: nat): (r: seq<int>)
    ensures |r| == n && forall i :: 0 <= i < n ==> r[i] == t
  {
    seq(n, _ => t)
  }

  /** `n` hits at one moment inside a window that has room for them. */
  lemma {:induction false} RepeatedHits(n: nat, rest: seq<int>, w: Window, t: int, spec: RateSpec, from: int)
    requires w.end > t && Within(t, from, Span(spec)) && w.count + n <= spec.limit
    ensures AllowedIn(Repeat(t, n) + rest, Some(w), spec, from) ==
      n + AllowedIn(rest, Some(Window(w.end, w.count + n)), spec, from)
    decreases n
  {
    if n == 0 {
      assert Repeat(t, 0) + rest == rest;
    } else {
      RepeatedHits(n - 1, rest, Window(w.end, w.count + 1), t, spec, from);
      var times := Repeat(t, n) + rest;
      assert times[0] == t && times[1..] == Repeat(t, n - 1) + rest;
      assert Counted(Some(w), spec, t, false) == Window(w.end, w.count + 1);
    }
  }

  /** That many can be reached: hits at the end of one window and the start of the next. */
  lemma TwiceLessOneReached(spec: RateSpec) returns (times: seq<int>, from: int)
    requires spec.limit >= 1 && spec.period >= 1
    ensures Ascending(times) && AllowedIn(times, None, spec, from) == 2 * spec.limit - 1
  {
    var span, n := Span(spec), spec.limit as nat;
    times, from := [0] + (Repeat(span - 1, n - 1) + ([span] + Repeat(span, n - 1))), 1;
    assert times[1..] == Repeat(span - 1, n - 1) + ([span] + Repeat(span, n - 1));
    assert AllowedIn(times, None, spec, from) == AllowedIn(times[1..], Some(Window(span, 1)), spec, from);
    var later := [span] + Repeat(span, n - 1);
    RepeatedHits(n - 1, later, Window(span, 1), span - 1, spec, from);
    assert later[1..] == Repeat(span, n - 1) && later[0] == span;
    assert Counted(Some(Window(span, n)), spec, span, false) == Window(2 * span, 1);
    assert AllowedIn(later, Some(Window(span, n)), spec, from) ==
      1 + AllowedIn(later[1..], Some(Window(2 * span, 1)), spec, from);
    RepeatedHits(n - 1, [], Window(2 * span, 1), span, spec, from);
    assert Repeat(span, n - 1) + [] == Repeat(span, n - 1);
  }

  /** The hit that opened the window of hit `i`: the first one, or the first that came a period after the one that
      opened the window before. */
  function Opener(times: seq<int>, i: nat, spec: RateSpec): (o: nat)
    requires i < |times|
    ensures o <= i
  {
    if i == 0 then 0
    else
      var o := Opener(times, i - 1, spec);
      if times[i] < times[o] + Span(spec) then o else i
  }

  /** The window after the hits up to `i`. */
  function FixedWindow(times: seq<int>, i: nat, spec: RateSpec): Window
    requires i < |times|
  {
    Counted(if i == 0 then None else Some(FixedWindow(times, i - 1, spec)), spec, times[i], false)
  }

  /** Hit `i` of a fixed window: the hits since the one that opened its window are counted, as many as the limit are
      allowed, and the window ends one period after it opened. */
  lemma {:induction false} FixedCountsSinceOpened(times: seq<int>, i: nat, spec: RateSpec)
    requires i < |times| && spec.period >= 1
    ensures var before := if i == 0 then None else Some(FixedWindow(times, i - 1, spec));
      var (o, r) := (Opener(times, i, spec), HitResult(before, spec, times[i], false));
      && FixedWindow(times, i, spec) == Window(times[o] + Span(spec), i - o + 1)
      && r.count == i - o + 1 && r.allowed == (i - o + 1 <= spec.limit)
      && JustOutlives(r.retryAfter, times[o] + Span(spec), times[i])
  {
    if i > 0 {
      FixedCountsSinceOpened(times, i - 1, spec);
    }
    RetryIsLeast(times[Opener(times, i, spec)] + Span(spec), times[i]);
  }

  // ---- Sliding windows -------------------------------------------------------------------

  /** The counts that sliding hits at `times` report. */
  function SlidingCounts(times: seq<int>, w: Option<Window>, spec: RateSpec): seq<nat>
    decreases |times|
  {
    if times == [] then []
    else
      var v := Counted(w, spec, times[0], true);
      [v.count] + SlidingCounts(times[1..], Some(v), spec)
  }

  /** Hit `i` comes within a period of the one before. */
  predicate Follows(times: seq<int>, i: nat, spec: RateSpec)
    requires i < |times|
  {
    i > 0 && times[i] < times[i - 1] + Span(spec)
  }

  /** `since` is the last hit up to `i` that no hit preceded by less than a period. */
  ghost predicate Began(times: seq<int>, since: nat, i: nat, spec: RateSpec)
    requires since <= i < |times|
  {
    !Follows(times, since, spec) && forall k :: since < k <= i ==> Follows(times, k, spec)
  }

  lemma {:induction false} SlidingFrom(times: seq<int>, w: Window, spec: RateSpec, i: nat)
    requires i < |times|
    requires times[0] < w.end && forall k :: 0 < k <= i ==> Follows(times, k, spec)
    ensures |SlidingCounts(times, Some(w), spec)| == |times|
    ensures SlidingCounts(times, Some(w), spec)[i] == w.count + 1 + i
    decreases |times|
  {
    var v := Counted(Some(w), spec, times[0], true);
    SlidingLength(times, Some(w), spec);
    if i > 0 {
      assert forall k :: 0 < k < |times[1..]| ==> Follows(times[1..], k, spec) == Follows(times, k + 1, spec);
      assert Follows(times, 1, spec) && v.end == times[0] + Span(spec);
      SlidingFrom(times[1..], v, spec, i - 1);
    }
  }

  lemma {:induction false} SlidingLength(times: seq<int>, w: Option<Window>, spec: RateSpec)
    ensures |SlidingCounts(times, w, spec)| == |times|
    decreases |times|
  {
    if times != [] {
      SlidingLength(times[1..], Some(Counted(w, spec, times[0], true)), spec);
    }
  }

  /** A sliding count is the number of hits since the last full quiet period, this one included. */
  lemma {:induction false} SlidingCountsSinceQuiet(times: seq<int>, w: Option<Window>, spec: RateSpec, since: nat,
      i: nat)
    requires since <= i < |times| && Began(times, since, i, spec)
    requires since == 0 ==> Live(w, times[0]).None?
    ensures |SlidingCounts(times, w, spec)| == |times| && SlidingCounts(times, w, spec)[i] == i - since + 1
    decreases |times|
  {
    SlidingLength(times, w, spec);
    var v, rest := Counted(w, spec, times[0], true), times[1..];
    assert forall k :: 0 < k < |rest| ==> Follows(rest, k, spec) == Follows(times, k + 1, spec);
    if since > 0 {
      if since == 1 {
        assert v.end == times[0] + Span(spec) && !Follows(times, 1, spec);
      } else {
        assert !Follows(rest, since - 1, spec);
      }
      assert Began(rest, since - 1, i - 1, spec);
      SlidingCountsSinceQuiet(rest, Some(v), spec, since - 1, i - 1);
    } else if i > 0 {
      assert Follows(times, 1, spec);
      SlidingFrom(rest, v, spec, i - 1);
    }
  }

  // ---- The table of all keys --------------------------------------------------------------

  function Unexpired(windows: Table, now: int): Table { map k | k in windows && windows[k].end > now :: windows[k] }

  function Swept(windows: Table, key: string, now: int): Table
  {
    if Live(Entry(windows, key), now).None? && |windows| >= MAX_KEYS then Unexpired(windows, now) else windows
  }

  /** Room is left without giving up a live window. */
  predicate Roomy(windows: Table, key: string, now: int)
  {
    Live(Entry(windows, key), now).Some? || |Swept(windows, key, now)| < MAX_KEYS
  }

  function HitTable(windows: Table, key: string, spec: RateSpec, now: int, sliding: bool): Table
  {
    Swept(windows, key, now)[key := Counted(Entry(windows, key), spec, now, sliding)]
  }

  datatype Event = Hit(key: string, spec: RateSpec, now: int, sliding: bool) | Reset(key: string)

  function Apply(windows: Table, e: Event): Table
  {
    match e
    case Hit(key, spec, now, sliding) => HitTable(windows, key, spec, now, sliding)
    case Reset(key) => windows - {key}
  }

  /** Time does not go back, no live window is shed, and `key` is only hit, by fixed windows of one spec. */
  ghost predicate Steady(windows: Table, events: seq<Event>, key: string, spec: RateSpec, now: int)
    decreases |events|
  {
    events == [] ||
    (var e := events[0];
     && (e.Hit? ==> now <= e.now && Roomy(windows, e.key, e.now))
     && (e.key == key ==> e.Hit? && e.spec == spec && !e.sliding)
     && Steady(Apply(windows, e), events[1..], key, spec, if e.Hit? then e.now else now))
  }

  /** Allowed hits of `key` in the interval, over a run of the whole table. */
  function AllowedInTable(windows: Table, events: seq<Event>, key: string, spec: RateSpec, from: int): nat
    decreases |events|
  {
    if events == [] then 0 else
    var e := events[0];
    (if e.Hit? && e.key == key && Within(e.now, from, Span(spec)) &&
        HitResult(Entry(windows, key), spec, e.now, false).allowed then 1 else 0) +
    AllowedInTable(Apply(windows, e), events[1..], key, spec, from)
  }

  function TimesOf(events: seq<Event>, key: string): seq<int>
    decreases |events|
  {
    if events == [] then []
    else (if events[0].Hit? && events[0].key == key then [events[0].now] else []) + TimesOf(events[1..], key)
  }

  /** The table and a single window answer alike from `now` on. */
  ghost predicate Agree(windows: Table, key: string, w: Option<Window>, now: int)
  {
    forall t :: now <= t ==> Live(Entry(windows, key), t) == Live(w, t)
  }

  lemma AgreeStep(windows: Table, e: Event, key: string, w: Option<Window>, now: int)
    requires Agree(windows, key, w, now) && e.Hit? && now <= e.now
    ensures e.key != key ==> Agree(Apply(windows, e), key, w, e.now)
    ensures e.key == key ==>
      Counted(Entry(windows, key), e.spec, e.now, e.sliding) == Counted(w, e.spec, e.now, e.sliding)
    ensures e.key == key ==> Entry(Apply(windows, e), key) == Some(Counted(w, e.spec, e.now, e.sliding))
  {
    assert Live(Entry(windows, key), e.now) == Live(w, e.now);
    var after := Apply(windows, e);
    if e.key != key {
      forall t | e.now <= t ensures Live(Entry(after, key), t) == Live(w, t) {
        assert Live(Entry(windows, key), t) == Live(w, t);
      }
    }
  }

  lemma {:induction false} TimesAscend(windows: Table, events: seq<Event>, key: string, spec: RateSpec, now: int)
    requires Steady(windows, events, key, spec, now)
    ensures Ascending(TimesOf(events, key)) && forall i :: 0 <= i < |TimesOf(events, key)| ==>
      now <= TimesOf(events, key)[i]
    decreases |events|
  {
    if events != [] {
      var e := events[0];
      TimesAscend(Apply(windows, e), events[1..], key, spec, if e.Hit? then e.now else now);
    }
  }

  lemma AgreeReset(windows: Table, k: string, key: string, w: Option<Window>, now: int)
    requires Agree(windows, key, w, now) && k != key
    ensures Agree(windows - {k}, key, w, now)
  {
    assert Entry(windows - {k}, key) == Entry(windows, key);
  }

  /** Other keys, sweeps of expired windows and resets elsewhere change nothing for `key`. */
  lemma {:induction false} TableIsOneWindow(windows: Table, events: seq<Event>, key: string, spec: RateSpec,
      w: Option<Window>, now: int, from: int)
    requires Steady(windows, events, key, spec, now) && Agree(windows, key, w, now)
    ensures AllowedInTable(windows, events, key, spec, from) == AllowedIn(TimesOf(events, key), w, spec, from)
    decreases |events|
  {
    if events != [] {
      var e, after, rest := events[0], Apply(windows, events[0]), TimesOf(events[1..], key);
      if e.Reset? {
        AgreeReset(windows, e.key, key, w, now);
        TableIsOneWindow(after, events[1..], key, spec, w, now, from);
        assert [] + rest == rest;
      } else {
        AgreeStep(windows, e, key, w, now);
        if e.key == key {
          TableIsOneWindow(after, events[1..], key, spec, Entry(after, key), e.now, from);
          assert ([e.now] + rest)[1..] == rest;
        } else {
          TableIsOneWindow(after, events[1..], key, spec, w, e.now, from);
          assert [] + rest == rest;
        }
      }
    }
  }

  /** Over the whole store, less than twice the limit in any interval one period long. */
  lemma StoreAllowsLessThanTwice(events: seq<Event>, key: string, spec: RateSpec, now: int, from: int)
    requires Steady(map[], events, key, spec, now) && spec.limit >= 1
    ensures AllowedInTable(map[], events, key, spec, from) <= 2 * spec.limit - 1
  {
    TableIsOneWindow(map[], events, key, spec, None, now, from);
    TimesAscend(map[], events, key, spec, now);
    LessThanTwice(TimesOf(events, key), spec, from);
  }

  // ---- The store -----------------------------------------------------------------------

  /** `kept` holds the latest-ending half of a full table. */
  ghost predicate Sheds(live: Table, kept: Table)
  {
    && (forall k :: k in kept ==> k in live && kept[k] == live[k])
    && |kept| == MAX_KEYS / 2
    && forall k, d :: k in kept && d in live && d !in kept ==> live[d].end <= live[k].end
  }

  class InProcessWindowStore {
    var windows: Table

    ghost predicate Valid()
      reads this
    {
      |windows| <= MAX_KEYS
    }

    constructor ()
      ensures Valid() && windows == map[]
    {
      windows := map[];
    }

    method HitKey(key: string, spec: RateSpec, now: int, sliding: bool) returns (r: WindowResult)
      requires Valid()
      modifies this
      ensures Valid()
      ensures r == HitResult(Entry(old(windows), key), spec, now, sliding)
      ensures Entry(windows, key) == Some(Counted(Entry(old(windows), key), spec, now, sliding))
      ensures Roomy(old(windows), key, now) ==> windows == HitTable(old(windows), key, spec, now, sliding)
      ensures !Roomy(old(windows), key, now) ==>
        exists kept :: Sheds(Unexpired(old(windows), now), kept) && windows - {key} == kept
    {
      var entry := Live(Entry(windows, key), now);
      if entry.None? {
        if |windows| >= MAX_KEYS {
          Sweep(now);
        }
        entry := Some(Window(now + Span(spec), 0));
      }
      var end := if sliding then now + Span(spec) else entry.value.end;
      var v := Window(end, entry.value.count + 1);
      OneMoreKey(windows, key, v);
      windows := windows[key := v];
      r := WindowResult(v.count <= spec.limit, RetrySeconds(v.end, now), v.count);
    }

    method Peek(key: string, spec: RateSpec, now: int) returns (r: WindowResult)
      ensures r == PeekResult(Entry(windows, key), spec, now)
    {
      var entry := Live(Entry(windows, key), now);
      if entry.None? {
        return WindowResult(spec.limit > 0, 0, 0);
      }
      return WindowResult(entry.value.count < spec.limit, RetrySeconds(entry.value.end, now), entry.value.count);
    }

    method ResetKey(key: string)
      requires Valid()
      modifies this
      ensures Valid() && windows == old(windows) - {key}
    {
      windows := windows - {key};
    }

    /** Drop what has expired; when everything is live, drop the half that ends first. */
    method Sweep(now: int)
      modifies this
      ensures |Unexpired(old(windows), now)| < MAX_KEYS ==> windows == Unexpired(old(windows), now)
      ensures |Unexpired(old(windows), now)| >= MAX_KEYS ==> Sheds(Unexpired(old(windows), now), windows)
    {
      windows := Unexpired(windows, now);
      if |windows| >= MAX_KEYS {
        windows := LatestHalf(windows);
      }
    }
  }

  lemma OneMoreKey(windows: Table, key: string, v: Window)
    ensures |windows[key := v]| == if key in windows then |windows| else |windows| + 1
  {
    assert windows[key := v].Keys == windows.Keys + {key};
    assert key in windows ==> windows.Keys + {key} == windows.Keys;
  }

  method Newest(windows: Table) returns (key: string)
    requires windows != map[]
    ensures key in windows && forall k :: k in windows ==> windows[k].end <= windows[key].end
  {
    key :| key in windows;
    var todo := windows.Keys - {key};
    while todo != {}
      invariant todo <= windows.Keys && key in windows
      invariant forall k :: k in windows && k !in todo ==> windows[k].end <= windows[key].end
      decreases todo
    {
      var k :| k in todo;
      if windows[k].end > windows[key].end {
        key := k;
      }
      todo := todo - {k};
    }
  }

  method LatestHalf(live: Table) returns (kept: Table)
    requires |live| >= MAX_KEYS
    ensures Sheds(live, kept)
  {
    kept := map[];
    var rest := live;
    while |kept| < MAX_KEYS / 2
      invariant |kept| <= MAX_KEYS / 2 && |kept| + |rest| == |live|
      invariant forall k :: k in live <==> k in kept || k in rest
      invariant forall k :: k in kept ==> k !in rest && k in live && kept[k] == live[k]
      invariant forall k :: k in rest ==> k in live && rest[k] == live[k]
      invariant forall k, d :: k in kept && d in rest ==> live[d].end <= live[k].end
    {
      var k := Newest(rest);
      assert rest.Keys == (rest - {k}).Keys + {k};
      assert kept[k := rest[k]].Keys == kept.Keys + {k};
      kept := kept[k := rest[k]];
      rest := rest - {k};
    }
  }
}
