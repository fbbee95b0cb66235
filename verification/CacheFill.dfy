/** Filling a cache entry that an invalidation can drop while it is being read. */
module CacheFill {
  import opened Basics

  const MAX_FILL_ATTEMPTS: nat := 3

  /** A stored value is the version of the source that was read, by a read that began at `began`. */
  datatype Cached = Cached(version: nat, began: nat)

  /** `first` is the epoch when the fill was called. */
  datatype Fill =
    | Looking(first: nat, attempts: nat)
    | Reading(first: nat, attempts: nat, started: nat, began: nat)
    | HasRead(first: nat, attempts: nat, started: nat, began: nat, version: nat)
    | Answered(first: nat, version: nat, gaveUp: bool)

  /**
   * `now` counts events. `forgot` is the moment after the latest forget, and `floor` the version of
   * the source at that forget.
   */
  datatype State = State(now: nat, version: nat, epoch: nat, entry: Option<Cached>, fills: map<nat, Fill>, forgot: nat,
      floor: nat)

  /** A change of the source, an invalidation, or one uninterrupted stretch of fill `f`. */
  datatype Event = Change | Forget | Call(f: nat) | Look(f: nat) | Observe(f: nat) | Finish(f: nat)

  function Initial(): State { State(0, 0, 0, None, map[], 0, 0) }

  predicate Enabled(s: State, e: Event)
  {
    match e
    case Call(f) => f !in s.fills
    case Look(f) => f in s.fills && s.fills[f].Looking?
    case Observe(f) => f in s.fills && s.fills[f].Reading?
    case Finish(f) => f in s.fills && s.fills[f].HasRead?
    case _ => true
  }

  /** Return what is cached, or note the epoch and begin to read. */
  function Looked(s: State, fill: Fill): Fill
    requires fill.Looking?
  {
    if s.entry.Some? then Answered(fill.first, s.entry.value.version, false)
    else Reading(fill.first, fill.attempts, s.epoch, s.now)
  }

  /** Done when the epoch stood still or the attempts are used up. */
  function Finished(s: State, fill: Fill): Fill
    requires fill.HasRead?
  {
    if s.epoch == fill.started then Answered(fill.first, fill.version, false)
    else if fill.attempts + 1 >= MAX_FILL_ATTEMPTS then Answered(fill.first, fill.version, true)
    else Looking(fill.first, fill.attempts + 1)
  }

  function Step(s: State, e: Event): State
    requires Enabled(s, e)
  {
    match e
    case Change => s.(version := s.version + 1)
    case Forget => s.(epoch := s.epoch + 1, entry := None, forgot := s.now + 1, floor := s.version)
    case Call(f) => s.(fills := s.fills[f := Looking(s.epoch, 0)])
    case Look(f) => s.(fills := s.fills[f := Looked(s, s.fills[f])])
    case Observe(f) =>
      var r := s.fills[f];
      s.(fills := s.fills[f := HasRead(r.first, r.attempts, r.started, r.began, s.version)])
    case Finish(f) =>
      var r := s.fills[f];
      s.(entry := if s.epoch == r.started then Some(Cached(r.version, r.began)) else s.entry,
         fills := s.fills[f := Finished(s, r)])
  }

  function Next(s: State, e: Event): State
  {
    (if Enabled(s, e) then Step(s, e) else s).(now := s.now + 1)
  }

  function RunFrom(s: State, events: seq<Event>): State
    decreases |events|
  {
    if events == [] then s else RunFrom(Next(s, events[0]), events[1..])
  }

  // ---- What every run keeps -----------------------------------------------------------

  /** An unfinished read that no forget has overtaken began after the latest one and saw what it left. */
  ghost predicate FillOk(s: State, fill: Fill)
  {
    match fill
    case Looking(first, attempts) => attempts < MAX_FILL_ATTEMPTS && first + attempts <= s.epoch
    case Reading(first, attempts, started, began) =>
      && attempts < MAX_FILL_ATTEMPTS && first + attempts <= started <= s.epoch && began < s.now
      && (started == s.epoch ==> s.forgot <= began)
    case HasRead(first, attempts, started, began, version) =>
      && attempts < MAX_FILL_ATTEMPTS && first + attempts <= started <= s.epoch && began < s.now
      && version <= s.version
      && (started == s.epoch ==> s.forgot <= began && s.floor <= version)
    case Answered(first, version, gaveUp) =>
      version <= s.version && first <= s.epoch && (gaveUp ==> first + MAX_FILL_ATTEMPTS <= s.epoch)
  }

  ghost predicate Inv(s: State)
  {
    && s.floor <= s.version && s.forgot <= s.now
    && (s.entry.Some? ==> s.forgot <= s.entry.value.began && s.floor <= s.entry.value.version <= s.version)
    && forall f :: f in s.fills ==> FillOk(s, s.fills[f])
  }

  /** A fill may move on where what it moves on to is in order. */
  lemma MovedKeeps(s: State, f: nat, fill: Fill)
    requires Inv(s) && FillOk(s.(now := s.now + 1), fill)
    ensures Inv(s.(fills := s.fills[f := fill], now := s.now + 1))
  {
    var t := s.(fills := s.fills[f := fill], now := s.now + 1);
    forall g | g in t.fills ensures FillOk(t, t.fills[g]) {
      assert g != f ==> FillOk(s, s.fills[g]);
    }
  }

  lemma IdleKeeps(s: State)
    requires Inv(s)
    ensures Inv(s.(now := s.now + 1))
  {
    var t := s.(now := s.now + 1);
    forall g | g in t.fills ensures FillOk(t, t.fills[g]) {
      assert FillOk(s, s.fills[g]);
    }
  }

  lemma ChangeKeeps(s: State)
    requires Inv(s)
    ensures Inv(Next(s, Change))
  {
    var t := Next(s, Change);
    forall g | g in t.fills ensures FillOk(t, t.fills[g]) {
      assert FillOk(s, s.fills[g]);
    }
  }

  /** A forget drops the entry, and every read under way has begun before it. */
  lemma ForgetKeeps(s: State)
    requires Inv(s)
    ensures Inv(Next(s, Forget))
  {
    var t := Next(s, Forget);
    forall g | g in t.fills ensures FillOk(t, t.fills[g]) {
      assert FillOk(s, s.fills[g]);
    }
  }

  lemma ReadKeeps(s: State, e: Event)
    requires Inv(s) && Enabled(s, e) && (e.Call? || e.Look? || e.Observe?)
    ensures Inv(Next(s, e))
  {
    if !e.Call? {
      assert FillOk(s, s.fills[e.f]);
    }
    MovedKeeps(s, e.f, Step(s, e).fills[e.f]);
  }

  /** What is stored was read since the latest forget: the epoch stood still. */
  lemma FinishKeeps(s: State, f: nat)
    requires Inv(s) && Enabled(s, Finish(f))
    ensures Inv(Next(s, Finish(f)))
  {
    var r := s.fills[f];
    assert FillOk(s, r);
    MovedKeeps(s, f, Finished(s, r));
    var moved := s.(fills := s.fills[f := Finished(s, r)], now := s.now + 1);
    forall g | g in moved.fills ensures FillOk(Next(s, Finish(f)), moved.fills[g]) {
      assert FillOk(moved, moved.fills[g]);
    }
  }

  /** No event puts a stale value in the cache. */
  lemma StepKeeps(s: State, e: Event)
    requires Inv(s)
    ensures Inv(Next(s, e))
  {
    if !Enabled(s, e) {
      IdleKeeps(s);
    } else {
      match e
      case Change => ChangeKeeps(s);
      case Forget => ForgetKeeps(s);
      case Finish(f) => FinishKeeps(s, f);
      case _ => ReadKeeps(s, e);
    }
  }

  lemma {:induction false} RunKeeps(s: State, events: seq<Event>)
    requires Inv(s)
    ensures Inv(RunFrom(s, events))
    decreases |events|
  {
    if events != [] {
      StepKeeps(s, events[0]);
      RunKeeps(Next(s, events[0]), events[1..]);
    }
  }

  /** After any run, what is cached was read since the latest forget, from a source no older than it. */
  lemma CacheNeverStale(events: seq<Event>)
    ensures var s := RunFrom(Initial(), events);
      s.entry.Some? ==> s.forgot <= s.entry.value.began && s.floor <= s.entry.value.version
  {
    RunKeeps(Initial(), events);
  }

  /** A source whose every change has been followed by a forget is cached as it is now. */
  lemma SettledCacheIsCurrent(events: seq<Event>)
    ensures var s := RunFrom(Initial(), events);
      s.version == s.floor && s.entry.Some? ==> s.entry.value.version == s.version
  {
    RunKeeps(Initial(), events);
  }

  /** A fill that answers without caching was overtaken by a forget in each of its reads. */
  lemma GivingUpNeedsForgets(events: seq<Event>, f: nat)
    ensures var s := RunFrom(Initial(), events);
      f in s.fills && s.fills[f].Answered? && s.fills[f].gaveUp ==> s.fills[f].first + MAX_FILL_ATTEMPTS <= s.epoch
  {
    RunKeeps(Initial(), events);
    var s := RunFrom(Initial(), events);
    if f in s.fills {
      assert FillOk(s, s.fills[f]);
    }
  }

  /** What a fill that does not give up answers is no older than the latest forget. */
  lemma AnswerIsFresh(s: State, e: Event, f: nat)
    requires Inv(s) && f in s.fills && !s.fills[f].Answered?
    ensures var t := Next(s, e);
      f in t.fills && (t.fills[f].Answered? && !t.fills[f].gaveUp ==> t.floor <= t.fills[f].version <= t.version)
  {
    assert FillOk(s, s.fills[f]);
  }

  // ---- What one read leads to ----------------------------------------------------------

  predicate Foreign(events: seq<Event>, f: nat)
  {
    forall i :: 0 <= i < |events| ==>
      events[i] != Call(f) && events[i] != Look(f) && events[i] != Observe(f) && events[i] != Finish(f)
  }

  lemma {:induction false} ForeignLeaves(s: State, events: seq<Event>, f: nat)
    requires Foreign(events, f) && f in s.fills
    ensures f in RunFrom(s, events).fills && RunFrom(s, events).fills[f] == s.fills[f]
    decreases |events|
  {
    if events != [] {
      ForeignLeaves(Next(s, events[0]), events[1..], f);
    }
  }

  /** The epoch counts the forgets. */
  lemma {:induction false} EpochMoves(s: State, events: seq<Event>)
    ensures RunFrom(s, events).epoch >= s.epoch
    ensures RunFrom(s, events).epoch == s.epoch <==> Forget !in events
    decreases |events|
  {
    if events != [] {
      assert events == [events[0]] + events[1..];
      EpochMoves(Next(s, events[0]), events[1..]);
    }
  }

  /** The states of one read of fill `f`: when it looks at the source, and when it ends. */
  function Observed(s: State, f: nat, before: seq<Event>): State { RunFrom(Next(s, Look(f)), before) }

  function Ended(s: State, f: nat, before: seq<Event>, after: seq<Event>): State
  {
    RunFrom(Next(Observed(s, f, before), Observe(f)), after)
  }

  /** A fill that finds nothing cached reads; others do `before` until it looks at the source and `after` until the
      read ends.  If nothing was forgotten meanwhile it answers what it saw, and just that is cached.  Otherwise
      the cache is left alone, and it answers what it saw only if this was its last attempt. */
  lemma ReadStores(s: State, f: nat, before: seq<Event>, after: seq<Event>)
    requires f in s.fills && s.fills[f].Looking? && s.entry.None? && Foreign(before, f) && Foreign(after, f)
    ensures var (fill, seen, ended) := (s.fills[f], Observed(s, f, before).version, Ended(s, f, before, after));
      var t := Next(ended, Finish(f));
      f in t.fills &&
      if Forget !in before && Forget !in after then
        t.fills[f] == Answered(fill.first, seen, false) && t.entry == Some(Cached(seen, s.now))
      else
        t.entry == ended.entry &&
        t.fills[f] == if fill.attempts + 1 >= MAX_FILL_ATTEMPTS then Answered(fill.first, seen, true)
                      else Looking(fill.first, fill.attempts + 1)
  {
    var looked, observed := Next(s, Look(f)), Observed(s, f, before);
    ForeignLeaves(looked, before, f);
    ForeignLeaves(Next(observed, Observe(f)), after, f);
    EpochMoves(looked, before);
    EpochMoves(Next(observed, Observe(f)), after);
  }

  // ---- What is cached is served ----------------------------------------------------------

  /** A read under way that no forget has overtaken. */
  predicate Current(s: State, f: nat)
  {
    f in s.fills &&
    match s.fills[f]
    case Reading(_, _, started, _) => started == s.epoch
    case HasRead(_, _, started, _, _) => started == s.epoch
    case _ => false
  }

  /** The version cached at `s`, or one that a read current then has stored since. */
  ghost predicate StoredSince(s: State, t: State, version: nat)
  {
    || (s.entry.Some? && version == s.entry.value.version)
    || (exists f :: Current(s, f) && f in t.fills && t.fills[f].Answered? && t.fills[f].version == version)
  }

  /** A read under way. */
  predicate UnderWay(s: State, f: nat) { f in s.fills && (s.fills[f].Reading? || s.fills[f].HasRead?) }

  predicate Done(s: State, f: nat) { f in s.fills && s.fills[f].Answered? }

  /** Nothing forgotten since `s`: something is cached, no new read is under way, and whoever answered since then
      answered what was cached, unless it was reading at `s` and gave up. */
  ghost predicate Serving(s: State, t: State)
  {
    && t.epoch == s.epoch && t.entry.Some? && StoredSince(s, t, t.entry.value.version)
    && (forall g :: Done(s, g) ==> Done(t, g) && t.fills[g] == s.fills[g])
    && (forall g :: Current(t, g) ==> Current(s, g))
    && (forall g :: UnderWay(t, g) ==> UnderWay(s, g))
    && (forall g :: Done(t, g) && !Done(s, g) ==>
      if t.fills[g].gaveUp then UnderWay(s, g) else StoredSince(s, t, t.fills[g].version))
  }

  lemma StoredStays(s: State, t: State, e: Event, version: nat)
    requires StoredSince(s, t, version)
    ensures StoredSince(s, Next(t, e), version)
  {
    if f :| Current(s, f) && f in t.fills && t.fills[f].Answered? && t.fills[f].version == version {
      assert f in Next(t, e).fills && Next(t, e).fills[f] == t.fills[f];
    }
  }

  lemma ServingStep(s: State, t: State, e: Event)
    requires Serving(s, t) && e != Forget
    ensures Serving(s, Next(t, e))
  {
    var u := Next(t, e);
    StoredStays(s, t, e, t.entry.value.version);
    if e.Finish? && Enabled(t, e) && t.epoch == t.fills[e.f].started {
      assert Current(t, e.f) && Current(s, e.f);
      assert StoredSince(s, u, u.entry.value.version);
    }
    forall g | Done(u, g) && !Done(s, g)
      ensures if u.fills[g].gaveUp then UnderWay(s, g) else StoredSince(s, u, u.fills[g].version)
    {
      if Done(t, g) {
        if !t.fills[g].gaveUp {
          StoredStays(s, t, e, t.fills[g].version);
        }
      } else if e == Finish(g) {
        assert UnderWay(t, g);
      }
    }
  }

  lemma {:induction false} ServingRun(s: State, t: State, events: seq<Event>, g: nat)
    requires Serving(s, t) && Forget !in events
    ensures Serving(s, RunFrom(t, events)) && Reads(t, events, g) == 0
    decreases |events|
  {
    if events != [] {
      assert events == [events[0]] + events[1..];
      ServingStep(s, t, events[0]);
      ServingRun(s, Next(t, events[0]), events[1..], g);
    }
  }

  /** Until the next forget something stays cached, no fill begins a read, and every fill called later answers,
      without giving up, the version cached at `s` or one stored since by a read that was under way. */
  lemma ServedUntilForgotten(s: State, events: seq<Event>, g: nat)
    requires s.entry.Some? && Forget !in events
    ensures var t := RunFrom(s, events);
      && t.entry.Some? && StoredSince(s, t, t.entry.value.version) && Reads(s, events, g) == 0
      && (g !in s.fills && Done(t, g) ==> !t.fills[g].gaveUp && StoredSince(s, t, t.fills[g].version))
  {
    assert Serving(s, s);
    ServingRun(s, s, events, g);
  }

  /** A fill that looks while something is cached answers at once. */
  lemma LooksAndAnswers(s: State, g: nat)
    requires s.entry.Some? && Enabled(s, Look(g))
    ensures Done(Next(s, Look(g)), g) && Next(s, Look(g)).fills[g].version == s.entry.value.version
    ensures Next(s, Look(g)).entry == s.entry
  {
  }

  // ---- At most three reads ------------------------------------------------------------

  /** How many reads fill `f` begins over a run. */
  function Reads(s: State, events: seq<Event>, f: nat): nat
    decreases |events|
  {
    if events == [] then 0
    else
      (if events[0] == Look(f) && Enabled(s, events[0]) && s.entry.None? then 1 else 0) +
      Reads(Next(s, events[0]), events[1..], f)
  }

  /** How many reads fill `f` may still begin. */
  function Left(s: State, f: nat): nat
    requires Inv(s)
  {
    if f !in s.fills then MAX_FILL_ATTEMPTS
    else
      assert FillOk(s, s.fills[f]);
      match s.fills[f]
      case Looking(_, attempts) => MAX_FILL_ATTEMPTS - attempts
      case Reading(_, attempts, _, _) => MAX_FILL_ATTEMPTS - 1 - attempts
      case HasRead(_, attempts, _, _, _) => MAX_FILL_ATTEMPTS - 1 - attempts
      case Answered(_, _, _) => 0
  }

  lemma LeftStep(s: State, e: Event, f: nat)
    requires Inv(s) && Inv(Next(s, e))
    ensures Left(Next(s, e), f) + (if e == Look(f) && Enabled(s, e) && s.entry.None? then 1 else 0) <= Left(s, f)
  {
    if f in s.fills {
      assert FillOk(s, s.fills[f]);
    }
    var t := Next(s, e);
    if f in t.fills {
      assert FillOk(t, t.fills[f]);
    }
  }

  lemma {:induction false} ReadsBounded(s: State, events: seq<Event>, f: nat)
    requires Inv(s)
    ensures Reads(s, events, f) <= Left(s, f)
    decreases |events|
  {
    if events != [] {
      StepKeeps(s, events[0]);
      LeftStep(s, events[0], f);
      ReadsBounded(Next(s, events[0]), events[1..], f);
    }
  }

  /** However its steps interleave with other fills, changes and forgets, a fill reads at most three times. */
  lemma AtMostThreeReads(events: seq<Event>, f: nat)
    ensures Reads(Initial(), events, f) <= MAX_FILL_ATTEMPTS
  {
    ReadsBounded(Initial(), events, f);
  }

  /** How many reads fill `f` has begun, unless it has answered without giving up. */
  function SoFar(s: State, f: nat): nat
  {
    if f !in s.fills then 0
    else
      match s.fills[f]
      case Looking(_, attempts) => attempts
      case Reading(_, attempts, _, _) => attempts + 1
      case HasRead(_, attempts, _, _, _) => attempts + 1
      case Answered(_, _, _) => MAX_FILL_ATTEMPTS
  }

  predicate Settled(s: State, f: nat) { Done(s, f) && !s.fills[f].gaveUp }

  lemma SoFarStep(s: State, e: Event, f: nat)
    requires Inv(s)
    ensures Settled(s, f) ==> Settled(Next(s, e), f)
    ensures !Settled(Next(s, e), f) ==>
      SoFar(Next(s, e), f) == SoFar(s, f) + (if e == Look(f) && Enabled(s, e) && s.entry.None? then 1 else 0)
  {
    if f in s.fills {
      assert FillOk(s, s.fills[f]);
    }
  }

  lemma {:induction false} ReadsSoFar(s: State, events: seq<Event>, f: nat)
    requires Inv(s)
    ensures Settled(s, f) ==> Settled(RunFrom(s, events), f)
    ensures !Settled(RunFrom(s, events), f) ==> SoFar(RunFrom(s, events), f) == SoFar(s, f) + Reads(s, events, f)
    decreases |events|
  {
    if events != [] {
      StepKeeps(s, events[0]);
      SoFarStep(s, events[0], f);
      ReadsSoFar(Next(s, events[0]), events[1..], f);
    }
  }

  /** A fill gives up on its third read and no sooner. */
  lemma GivesUpOnThird(events: seq<Event>, f: nat)
    ensures var s := RunFrom(Initial(), events);
      Done(s, f) && s.fills[f].gaveUp ==> Reads(Initial(), events, f) == MAX_FILL_ATTEMPTS
  {
    ReadsSoFar(Initial(), events, f);
  }

  // ---- The loop itself ----------------------------------------------------------------

  lemma {:induction false} RunAppend(s: State, a: seq<Event>, b: seq<Event>)
    ensures RunFrom(s, a + b) == RunFrom(RunFrom(s, a), b)
    decreases |a|
  {
    if a == [] {
      assert a + b == b;
    } else {
      RunAppend(Next(s, a[0]), a[1..], b);
      assert (a + b)[1..] == a[1..] + b;
    }
  }

  lemma RunOne(s: State, a: seq<Event>, e: Event)
    ensures RunFrom(s, a + [e]) == Next(RunFrom(s, a), e)
  {
    RunAppend(s, a, [e]);
  }

  /** Going on from a state that a trace led to, while others run and fill `f` waits. */
  lemma Meanwhile(s0: State, s: State, trace: seq<Event>, more: seq<Event>, f: nat)
    requires s == RunFrom(s0, trace) && Inv(s) && Foreign(more, f) && f in s.fills
    ensures var t := RunFrom(s, more);
      t == RunFrom(s0, trace + more) && Inv(t) && f in t.fills && t.fills[f] == s.fills[f]
  {
    RunAppend(s0, trace, more);
    ForeignLeaves(s, more, f);
    RunKeeps(s, more);
  }

  /** Going on by one step of its own. */
  lemma OneStep(s0: State, s: State, trace: seq<Event>, e: Event)
    requires s == RunFrom(s0, trace) && Inv(s)
    ensures Next(s, e) == RunFrom(s0, trace + [e]) && Inv(Next(s, e))
  {
    RunOne(s0, trace, e);
    StepKeeps(s, e);
  }

  /** A fill that has finished a read has answered, or looks again with one attempt fewer. */
  lemma FinishMoves(s: State, f: nat)
    requires Inv(s) && Enabled(s, Finish(f))
    ensures var (r, t) := (s.fills[f], Next(s, Finish(f)));
      && f in t.fills && t.version == s.version && t.floor == s.floor
      && if s.epoch == r.started then t.fills[f] == Answered(r.first, r.version, false)
         else if r.attempts + 1 >= MAX_FILL_ATTEMPTS then t.fills[f] == Answered(r.first, r.version, true)
         else t.fills[f] == Looking(r.first, r.attempts + 1)
    ensures s.epoch == s.fills[f].started ==>
      Next(s, Finish(f)).entry == Some(Cached(s.fills[f].version, s.fills[f].began))
  {
  }

  /** One read of fill `f`, from its beginning to its end. */
  method ReadOnce(s0: State, s1: State, ghost trace1: seq<Event>, f: nat, before: seq<Event>, after: seq<Event>)
    returns (s: State, value: nat, still: bool, ghost trace: seq<Event>)
    requires s1 == RunFrom(s0, trace1) && Inv(s1) && Foreign(before, f) && Foreign(after, f)
    requires f in s1.fills && s1.fills[f].Reading?
    ensures s == RunFrom(s0, trace) && Inv(s) && f in s.fills
    ensures still ==> s.fills[f] == Answered(s1.fills[f].first, value, false) && s.floor <= value <= s.version
    ensures still ==> s.entry.Some? && s.entry.value.version == value
    ensures !still && s1.fills[f].attempts + 1 >= MAX_FILL_ATTEMPTS ==>
      s.fills[f] == Answered(s1.fills[f].first, value, true)
    ensures !still && s1.fills[f].attempts + 1 < MAX_FILL_ATTEMPTS ==>
      s.fills[f] == Looking(s1.fills[f].first, s1.fills[f].attempts + 1)
  {
    Meanwhile(s0, s1, trace1, before, f);
    s, trace := RunFrom(s1, before), trace1 + before;
    value := s.version;
    OneStep(s0, s, trace, Observe(f));
    s, trace := Next(s, Observe(f)), trace + [Observe(f)];
    Meanwhile(s0, s, trace, after, f);
    s, trace := RunFrom(s, after), trace + after;
    OneStep(s0, s, trace, Finish(f));
    FinishMoves(s, f);
    AnswerIsFresh(s, Finish(f), f);
    still := s.epoch == s.fills[f].started;
    s, trace := Next(s, Finish(f)), trace + [Finish(f)];
  }

  /**
   * Fill `f` from call to answer, while others do `before(i)` between its i-th read's beginning and
   * the moment the source is looked at, and `after(i)` from then to the read's end.
   */
  method FillThrough(s0: State, f: nat, before: nat -> seq<Event>, after: nat -> seq<Event>)
    returns (s: State, value: nat, ghost trace: seq<Event>)
    requires Inv(s0) && f !in s0.fills && forall i :: Foreign(before(i), f) && Foreign(after(i), f)
    ensures s == RunFrom(s0, trace) && Inv(s)
    ensures f in s.fills && s.fills[f].Answered? && s.fills[f].version == value
    ensures !s.fills[f].gaveUp ==> s.floor <= value <= s.version
    ensures !s.fills[f].gaveUp ==> s.entry.Some? && s.entry.value.version == value
  {
    OneStep(s0, s0, [], Call(f));
    s, trace := Next(s0, Call(f)), [] + [Call(f)];
    var attempts := 0;
    while true
      invariant s == RunFrom(s0, trace) && Inv(s) && attempts < MAX_FILL_ATTEMPTS
      invariant f in s.fills && s.fills[f].Looking? && s.fills[f].attempts == attempts
      decreases MAX_FILL_ATTEMPTS - attempts
    {
      OneStep(s0, s, trace, Look(f));
      AnswerIsFresh(s, Look(f), f);
      var hit := s.entry;
      s, trace := Next(s, Look(f)), trace + [Look(f)];
      if hit.Some? {
        return s, hit.value.version, trace;
      }
      var still;
      s, value, still, trace := ReadOnce(s0, s, trace, f, before(attempts), after(attempts));
      attempts := attempts + 1;
      if still || attempts >= MAX_FILL_ATTEMPTS {
        return s, value, trace;
      }
    }
  }
}
