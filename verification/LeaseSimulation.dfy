/** The slot table and the in-process holder map give the same answers, call for call. */
module LeaseSimulation {
  import opened Basics
  import opened InProcessLeases
  import opened LeaseTable

  /** A name is used either as a lock or as a semaphore of a fixed size. */
  datatype Use = Lock | Semaphore(size: nat)
  {
    function Slots(): nat { if Lock? then 1 else size }

    function FenceSlot(): int { if Lock? then 0 else COUNTER }
  }

  function LiveSlots(rows: Rows, n: nat, now: int): set<int>
  {
    set s | 0 <= s < n && s in rows && rows[s].expires > now
  }

  /** Unexpired slots and unexpired holders are the same holds, one to one, and the fence
      counters agree. */
  ghost predicate Same(m: NameState, rows: Rows, use: Use, now: int)
  {
    && m.fence == FenceOf(rows, use.FenceSlot())
    && (forall s :: s in rows && s >= 0 ==> s < use.Slots())
    && (forall s :: s in LiveSlots(rows, use.Slots(), now) ==>
      rows[s].holder in m.holders && m.holders[rows[s].holder] == rows[s].expires)
    && (forall s, t :: s in LiveSlots(rows, use.Slots(), now) && t in LiveSlots(rows, use.Slots(), now) && s != t ==>
      rows[s].holder != rows[t].holder)
    && (forall h :: h in m.holders && m.holders[h] > now ==>
      exists s :: s in LiveSlots(rows, use.Slots(), now) && rows[s].holder == h)
  }

  /** One request in a transaction of its own, in either dialect. */
  function TableStep(sqlite: bool, rows: Rows, use: Use, mine: Option<int>, action: Action, token: string, now: int)
    : (Rows, Answer)
  {
    match action
    case Acquire(ttl) =>
      var (next, fence) := match use
        case Lock => Claim(sqlite, rows, 0, token, ttl, now)
        case Semaphore(n) => AcquireBy(sqlite, rows, mine, token, n, ttl, now);
      (next, GrantOf(fence))
    case Refresh(ttl) => var (next, held) := HeldUpdate(rows, token, Some(ttl), use.Semaphore?, now); (next, Held(held))
    case Release => var (next, held) := HeldUpdate(rows, token, None, use.Semaphore?, now); (next, Held(held))
  }

  // ---- Counting --------------------------------------------------------------------

  function Below(n: nat): (r: set<int>)
    ensures forall i :: i in r <==> 0 <= i < n
    ensures |r| == n
  {
    if n == 0 then {} else Below(n - 1) + {n - 1}
  }

  /** A one-to-one image has as many members. */
  lemma {:induction false} OneToOne(slots: set<int>, holder: map<int, string>, holders: set<string>)
    requires forall s :: s in slots ==> s in holder
    requires forall s, t :: s in slots && t in slots && s != t ==> holder[s] != holder[t]
    requires forall h :: h in holders <==> exists s :: s in slots && holder[s] == h
    ensures |slots| == |holders|
  {
    if slots == {} {
      if h :| h in holders {
        assert false;
      }
    } else {
      var s := Member(slots);
      forall h ensures h in holders - {holder[s]} <==> exists t :: t in slots - {s} && holder[t] == h {
        if t :| t in slots && holder[t] == h && h != holder[s] {
          assert t in slots - {s};
        }
      }
      assert holder[s] in holders;
      OneToOne(slots - {s}, holder, holders - {holder[s]});
    }
  }

  ghost function Member<T>(s: set<T>): (x: T)
    requires s != {}
    ensures x in s
  {
    var x :| x in s; x
  }

  /** The pigeonhole: there are `n` unexpired holders or more exactly when every slot is taken. */
  lemma FullIffNoFreeSlot(m: NameState, rows: Rows, use: Use, now: int)
    requires Same(m, rows, use, now)
    ensures |Live(m, now).holders| >= use.Slots() <==> LiveSlots(rows, use.Slots(), now) == Below(use.Slots())
  {
    var n := use.Slots();
    var slots, holders := LiveSlots(rows, n, now), Live(m, now).holders;
    OneToOne(slots, map s | s in rows :: rows[s].holder, holders.Keys);
    assert |holders| == |holders.Keys|;
    assert slots <= Below(n);
    SubsetSmaller(slots, Below(n));
    if slots != Below(n) {
      assert slots < Below(n);
      var gap := Member(Below(n) - slots);
      SubsetSmaller(slots, Below(n) - {gap});
    }
  }

  // ---- Both dialects ---------------------------------------------------------------

  /** On Postgres, alone in its transaction, the placeholder claims a slot as SQLite does:
      the placeholder has expired, so the update always finds a missing slot free. */
  lemma PlaceholderClaimsAlike(rows: Rows, slot: int, token: string, ttl: int, now: int, sqlite: bool)
    requires sqlite || EPOCH <= now
    ensures Claim(sqlite, rows, slot, token, ttl, now).0 == TakeSlot(rows, slot, token, ttl, now).0
    ensures Claim(sqlite, rows, slot, token, ttl, now).1 == TakeSlot(rows, slot, token, ttl, now).1
  {
    if slot !in rows {
      assert rows[slot := Slot(FREE, 0, EPOCH)][slot := Slot(token, 1, now + ttl)] ==
        rows[slot := Slot(token, 1, now + ttl)];
    }
  }

  lemma {:induction false} FirstClaimedAlike(rows: Rows, i: nat, n: nat, token: string, ttl: int, now: int,
      sqlite: bool)
    requires sqlite || EPOCH <= now
    ensures ClaimFirst(sqlite, rows, i, n, token, ttl, now).1 == TakeFirst(rows, i, n, token, ttl, now).1
    ensures ClaimFirst(sqlite, rows, i, n, token, ttl, now).0 == TakeFirst(rows, i, n, token, ttl, now).0
    decreases n - i
  {
    if i < n {
      PlaceholderClaimsAlike(rows, i, token, ttl, now, sqlite);
      FirstClaimedAlike(rows, i + 1, n, token, ttl, now, sqlite);
    }
  }

  lemma {:induction false} NothingTaken(rows: Rows, i: nat, n: nat, token: string, ttl: int, now: int)
    requires !TakeFirst(rows, i, n, token, ttl, now).1
    ensures TakeFirst(rows, i, n, token, ttl, now).0 == rows
    decreases n - i
  {
    if i < n {
      NothingTaken(rows, i + 1, n, token, ttl, now);
    }
  }

  /** Both dialects acquire a semaphore alike. */
  lemma DialectsAcquireAlike(rows: Rows, mine: Option<int>, token: string, n: nat, ttl: int, now: int, sqlite: bool)
    requires OwnSlot(rows, token, now, mine) && (sqlite || EPOCH <= now)
    ensures AcquireBy(sqlite, rows, mine, token, n, ttl, now).0 == SemaphoreAcquire(rows, mine, token, n, ttl, now).0
    ensures AcquireBy(sqlite, rows, mine, token, n, ttl, now).1 == SemaphoreAcquire(rows, mine, token, n, ttl, now).1
  {
    match mine
    case Some(s) => PlaceholderClaimsAlike(rows, s, token, ttl, now, sqlite);
    case None =>
      FirstClaimedAlike(rows, 0, n, token, ttl, now, sqlite);
      if !TakeFirst(rows, 0, n, token, ttl, now).1 {
        NothingTaken(rows, 0, n, token, ttl, now);
      }
  }

  // ---- One call --------------------------------------------------------------------

  lemma Later(m: NameState, rows: Rows, use: Use, now: int, then_: int)
    requires Same(m, rows, use, now) && now <= then_
    ensures Same(m, rows, use, then_)
  {
    var n := use.Slots();
    assert LiveSlots(rows, n, then_) <= LiveSlots(rows, n, now);
    forall h | h in m.holders && m.holders[h] > then_
      ensures exists s :: s in LiveSlots(rows, n, then_) && rows[s].holder == h
    {
      var s :| s in LiveSlots(rows, n, now) && rows[s].holder == h;
      assert s in LiveSlots(rows, n, then_);
    }
  }

  /** Pruning the holder map changes nothing that is live. */
  lemma Pruned(m: NameState, rows: Rows, use: Use, now: int)
    requires Same(m, rows, use, now)
    ensures Same(Live(m, now), rows, use, now)
  {
  }

  /** Both sides grant slot `s` to the token: it was free, or the token's own. */
  lemma GrantSame(m: NameState, rows: Rows, use: Use, now: int, s: int, token: string, ttl: int, fence: nat, next: Rows)
    requires Same(m, rows, use, now) && m == Live(m, now) && 0 <= s < use.Slots()
    requires s !in rows || rows[s].expires <= now || rows[s].holder == token
    requires forall t :: t in LiveSlots(rows, use.Slots(), now) && t != s ==> rows[t].holder != token
    requires s in next && next[s].holder == token && next[s].expires == now + ttl
    requires forall t :: t >= 0 && t != s ==> (t in next <==> t in rows) && (t in rows ==> next[t] == rows[t])
    requires FenceOf(next, use.FenceSlot()) == fence
    ensures Same(NameState(fence, m.holders[token := now + ttl]), next, use, now)
  {
    var n := use.Slots();
    var holders := m.holders[token := now + ttl];
    forall h | h in holders && holders[h] > now ensures exists t :: t in LiveSlots(next, n, now) && next[t].holder == h
    {
      if h == token {
        assert s in LiveSlots(next, n, now);
      } else {
        var t :| t in LiveSlots(rows, n, now) && rows[t].holder == h;
        assert t != s && t in LiveSlots(next, n, now);
      }
    }
    forall t | t in LiveSlots(next, n, now)
      ensures next[t].holder in holders && holders[next[t].holder] == next[t].expires
    {
      assert t != s ==> t in LiveSlots(rows, n, now);
    }
    forall t, u | t in LiveSlots(next, n, now) && u in LiveSlots(next, n, now) && t != u
      ensures next[t].holder != next[u].holder
    {
      assert t != s ==> t in LiveSlots(rows, n, now);
      assert u != s ==> u in LiveSlots(rows, n, now);
    }
  }

  /** What scanning the slots in order finds. */
  lemma {:induction false} TakeFirstIs(rows: Rows, i: nat, n: nat, token: string, ttl: int, now: int)
    requires i <= n
    requires forall s :: s in LiveSlots(rows, n, now) ==> rows[s].holder != token
    ensures var (next, taken) := TakeFirst(rows, i, n, token, ttl, now);
      && (!taken ==> next == rows && forall s :: i <= s < n ==> s in LiveSlots(rows, n, now))
      && (taken ==> exists s ::
        i <= s < n && s !in LiveSlots(rows, n, now) &&
        next == TakeSlot(rows, s, token, ttl, now).0 && TakeSlot(rows, s, token, ttl, now).1.Some?)
    decreases n - i
  {
    if i < n && TakeSlot(rows, i, token, ttl, now).1.None? {
      TakeFirstIs(rows, i + 1, n, token, ttl, now);
    }
  }

  /** The in-process backend answers `reply`, and `next` still matches what it holds. */
  ghost predicate Matches(m: NameState, use: Use, action: Action, token: string, now: int, next: Rows, reply: Answer)
  {
    var (state, answer) := Step(m, use.Slots(), Call(action, token, now, now));
    answer == reply && Same(state, next, use, now)
  }

  ghost predicate MatchesGrant(m: NameState, use: Use, ttl: int, token: string, now: int, claim: (Rows, Option<nat>))
  {
    Matches(m, use, Acquire(ttl), token, now, claim.0, GrantOf(claim.1))
  }

  lemma LiveToken(m: NameState, rows: Rows, use: Use, now: int, token: string)
    requires Same(m, rows, use, now)
    ensures token in Live(m, now).holders <==>
      exists s :: s in LiveSlots(rows, use.Slots(), now) && rows[s].holder == token
  {
  }

  /** The one slot of a lock can be claimed exactly when the holder map has room for the token. */
  lemma LockClaimable(m: NameState, rows: Rows, token: string, ttl: int, now: int)
    requires Same(m, rows, Lock, now)
    ensures var l := Live(m, now);
      TakeSlot(rows, 0, token, ttl, now).1.Some? <==> token in l.holders || |l.holders| < 1
  {
    Pruned(m, rows, Lock, now);
    LiveToken(m, rows, Lock, now, token);
    FullIffNoFreeSlot(m, rows, Lock, now);
    assert 0 in Below(1);
    assert LiveSlots(rows, 1, now) == Below(1) <==> 0 in LiveSlots(rows, 1, now);
  }

  lemma LockAcquireSame(m: NameState, rows: Rows, token: string, ttl: int, now: int)
    requires Same(m, rows, Lock, now)
    ensures MatchesGrant(m, Lock, ttl, token, now, TakeSlot(rows, 0, token, ttl, now))
  {
    var l := Live(m, now);
    Pruned(m, rows, Lock, now);
    LockClaimable(m, rows, token, ttl, now);
    StepGrants(m, 1, token, ttl, now);
    var (next, fence) := TakeSlot(rows, 0, token, ttl, now);
    if fence.Some? {
      GrantSame(l, rows, Lock, now, 0, token, ttl, l.fence + 1, next);
    }
  }

  /** A slot is claimed and the counter bumped: the grant of both sides. */
  lemma CountedGrant(m: NameState, rows: Rows, n: nat, now: int, s: int, token: string, ttl: int)
    requires Same(m, rows, Semaphore(n), now) && 0 <= s < n
    requires s !in rows || rows[s].expires <= now || rows[s].holder == token
    requires forall t :: t in LiveSlots(rows, n, now) && t != s ==> rows[t].holder != token
    ensures var (next, fence) := NextCounter(TakeSlot(rows, s, token, ttl, now).0);
      && TakeSlot(rows, s, token, ttl, now).1.Some? && fence == m.fence + 1
      && Same(NameState(fence, Live(m, now).holders[token := now + ttl]), next, Semaphore(n), now)
  {
    var l := Live(m, now);
    Pruned(m, rows, Semaphore(n), now);
    GrantSame(l, rows, Semaphore(n), now, s, token, ttl, l.fence + 1,
      NextCounter(TakeSlot(rows, s, token, ttl, now).0).0);
  }

  lemma OwnSlotAcquireSame(m: NameState, rows: Rows, n: nat, s: int, token: string, ttl: int, now: int)
    requires Same(m, rows, Semaphore(n), now) && s >= 0 && Owns(rows, s, token, now)
    ensures MatchesGrant(m, Semaphore(n), ttl, token, now, SemaphoreAcquire(rows, Some(s), token, n, ttl, now))
  {
    assert s in LiveSlots(rows, n, now);
    LiveToken(m, rows, Semaphore(n), now, token);
    CountedGrant(m, rows, n, now, s, token, ttl);
  }

  lemma StepGrants(m: NameState, slots: nat, token: string, ttl: int, now: int)
    ensures var l := Live(m, now);
      Step(m, slots, Call(Acquire(ttl), token, now, now)) ==
        if token !in l.holders && |l.holders| >= slots then (l, Refused)
        else (NameState(l.fence + 1, l.holders[token := now + ttl]), Granted(l.fence + 1))
  {
  }

  lemma FreeSlotAcquireSame(m: NameState, rows: Rows, n: nat, token: string, ttl: int, now: int)
    requires Same(m, rows, Semaphore(n), now) && OwnSlot(rows, token, now, None)
    ensures MatchesGrant(m, Semaphore(n), ttl, token, now, SemaphoreAcquire(rows, None, token, n, ttl, now))
  {
    var (next, taken) := TakeFirst(rows, 0, n, token, ttl, now);
    ScanAgrees(m, rows, n, token, ttl, now);
    if taken {
      var s :| 0 <= s < n && s !in LiveSlots(rows, n, now) && next == TakeSlot(rows, s, token, ttl, now).0;
      FreeSlotGranted(m, rows, n, s, token, ttl, now);
    } else {
      StepGrants(m, n, token, ttl, now);
      Pruned(m, rows, Semaphore(n), now);
    }
  }

  lemma FreeSlotGranted(m: NameState, rows: Rows, n: nat, s: int, token: string, ttl: int, now: int)
    requires Same(m, rows, Semaphore(n), now) && OwnSlot(rows, token, now, None) && 0 <= s < n
    requires s !in LiveSlots(rows, n, now) && |Live(m, now).holders| < n
    ensures var (next, fence) := NextCounter(TakeSlot(rows, s, token, ttl, now).0);
      MatchesGrant(m, Semaphore(n), ttl, token, now, (next, Some(fence)))
  {
    StepGrants(m, n, token, ttl, now);
    CountedGrant(m, rows, n, now, s, token, ttl);
  }

  /** The scan finds a free slot exactly when the holder map has room. */
  lemma ScanAgrees(m: NameState, rows: Rows, n: nat, token: string, ttl: int, now: int)
    requires Same(m, rows, Semaphore(n), now) && OwnSlot(rows, token, now, None)
    ensures var (next, taken) := TakeFirst(rows, 0, n, token, ttl, now);
      && token !in Live(m, now).holders
      && (taken <==> |Live(m, now).holders| < n)
      && (taken ==> exists s ::
        0 <= s < n && s !in LiveSlots(rows, n, now) && next == TakeSlot(rows, s, token, ttl, now).0)
    ensures forall s :: s in LiveSlots(rows, n, now) ==> rows[s].holder != token
  {
    FullIffNoFreeSlot(m, rows, Semaphore(n), now);
    LiveToken(m, rows, Semaphore(n), now, token);
    TakeFirstIs(rows, 0, n, token, ttl, now);
    var (next, taken) := TakeFirst(rows, 0, n, token, ttl, now);
    if taken {
      var s :| 0 <= s < n && s !in LiveSlots(rows, n, now) && next == TakeSlot(rows, s, token, ttl, now).0;
      assert s in Below(n);
    } else {
      assert LiveSlots(rows, n, now) == Below(n);
    }
  }

  /** The holder map after the token's hold is extended or ended. */
  function Updated(l: NameState, ttl: Option<int>, token: string, now: int): NameState
  {
    if token !in l.holders then l
    else if ttl.Some? then l.(holders := l.holders[token := now + ttl.value])
    else l.(holders := l.holders - {token})
  }

  lemma MatchedIsLive(m: NameState, rows: Rows, use: Use, token: string, now: int)
    requires Same(m, rows, use, now)
    ensures forall s :: s in rows ==>
      (Matched(rows, s, token, use.Semaphore?, now) <==>
        s in LiveSlots(rows, use.Slots(), now) && rows[s].holder == token)
  {
  }

  /** Extending the token's hold: one slot is concerned. */
  lemma ExtendSame(m: NameState, rows: Rows, use: Use, ttl: int, token: string, now: int, s: int)
    requires Same(m, rows, use, now) && s in rows && Matched(rows, s, token, use.Semaphore?, now)
    ensures Same(Updated(Live(m, now), Some(ttl), token, now),
      HeldUpdate(rows, token, Some(ttl), use.Semaphore?, now).0, use, now)
  {
    var l, next := Live(m, now), HeldUpdate(rows, token, Some(ttl), use.Semaphore?, now).0;
    Pruned(m, rows, use, now);
    LiveToken(m, rows, use, now, token);
    MatchedIsLive(m, rows, use, token, now);
    assert s in LiveSlots(rows, use.Slots(), now);
    assert forall t :: t in rows && t != s ==> next[t] == rows[t];
    GrantSame(l, rows, use, now, s, token, ttl, l.fence, next);
    assert NameState(l.fence, l.holders[token := now + ttl]) == l.(holders := l.holders[token := now + ttl]);
  }

  /** Ending the token's hold frees its slot and touches no other. */
  lemma EndedSlots(m: NameState, rows: Rows, use: Use, token: string, now: int, s: int)
    requires Same(m, rows, use, now) && s in rows && Matched(rows, s, token, use.Semaphore?, now)
    ensures var next := HeldUpdate(rows, token, None, use.Semaphore?, now).0;
      && next.Keys == rows.Keys && s in LiveSlots(rows, use.Slots(), now)
      && (forall t :: t in rows && t != s ==> next[t] == rows[t]) && next[s] == rows[s].(expires := now)
      && LiveSlots(next, use.Slots(), now) == LiveSlots(rows, use.Slots(), now) - {s}
  {
    MatchedIsLive(m, rows, use, token, now);
  }

  lemma EndSame(m: NameState, rows: Rows, use: Use, token: string, now: int, s: int)
    requires Same(m, rows, use, now) && s in rows && Matched(rows, s, token, use.Semaphore?, now)
    ensures Same(Updated(Live(m, now), None, token, now),
      HeldUpdate(rows, token, None, use.Semaphore?, now).0, use, now)
  {
    var l, n, next := Live(m, now), use.Slots(), HeldUpdate(rows, token, None, use.Semaphore?, now).0;
    var live, then_ := LiveSlots(rows, n, now), LiveSlots(next, n, now);
    EndedSlots(m, rows, use, token, now, s);
    LiveToken(m, rows, use, now, token);
    var holders := l.holders - {token};
    forall h | h in holders && holders[h] > now ensures exists t :: t in then_ && next[t].holder == h {
      var t :| t in live && rows[t].holder == h;
      assert t in then_;
    }
  }

  lemma HeldSame(m: NameState, rows: Rows, use: Use, ttl: Option<int>, token: string, now: int)
    requires Same(m, rows, use, now)
    ensures var (next, held) := HeldUpdate(rows, token, ttl, use.Semaphore?, now);
      held == (token in Live(m, now).holders) && Same(Updated(Live(m, now), ttl, token, now), next, use, now)
  {
    var (next, held) := HeldUpdate(rows, token, ttl, use.Semaphore?, now);
    MatchedIsLive(m, rows, use, token, now);
    LiveToken(m, rows, use, now, token);
    if held {
      var s :| s in rows && Matched(rows, s, token, use.Semaphore?, now);
      if ttl.Some? {
        ExtendSame(m, rows, use, ttl.value, token, now, s);
      } else {
        EndSame(m, rows, use, token, now, s);
      }
    } else {
      assert next == rows;
      Pruned(m, rows, use, now);
    }
  }

  function TtlOf(action: Action): Option<int>
    requires !action.Acquire?
  {
    if action.Refresh? then Some(action.ttl) else None
  }

  lemma StepUpdates(m: NameState, slots: nat, action: Action, token: string, now: int)
    requires !action.Acquire?
    ensures Step(m, slots, Call(action, token, now, now)).0 == Updated(Live(m, now), TtlOf(action), token, now)
    ensures Step(m, slots, Call(action, token, now, now)).1 == Held(token in Live(m, now).holders)
  {
    var l := Live(m, now);
    if token !in l.holders {
      assert l.holders - {token} == l.holders;
    }
  }

  lemma HeldAnswers(m: NameState, rows: Rows, use: Use, action: Action, token: string, now: int)
    requires Same(m, rows, use, now) && !action.Acquire?
    ensures var (next, held) := HeldUpdate(rows, token, TtlOf(action), use.Semaphore?, now);
      Matches(m, use, action, token, now, next, Held(held))
  {
    HeldSame(m, rows, use, TtlOf(action), token, now);
    StepUpdates(m, use.Slots(), action, token, now);
  }

  /** One call at one clock reading, on either dialect: the same answer, fence included, and the states still
      agree. */
  lemma CallSame(
    sqlite: bool, m: NameState, rows: Rows, use: Use, mine: Option<int>, action: Action, token: string, now: int)
    requires Same(m, rows, use, now) && OwnSlot(rows, token, now, mine) && (sqlite || EPOCH <= now)
    ensures var (next, reply) := TableStep(sqlite, rows, use, mine, action, token, now);
      Matches(m, use, action, token, now, next, reply)
  {
    if !action.Acquire? {
      HeldAnswers(m, rows, use, action, token, now);
    } else if use.Lock? {
      LockAcquireSame(m, rows, token, action.ttl, now);
      PlaceholderClaimsAlike(rows, 0, token, action.ttl, now, sqlite);
    } else {
      DialectsAcquireAlike(rows, mine, token, use.size, action.ttl, now, sqlite);
      if mine.Some? {
        OwnSlotAcquireSame(m, rows, use.size, mine.value, token, action.ttl, now);
      } else {
        FreeSlotAcquireSame(m, rows, use.size, token, action.ttl, now);
      }
    }
  }

  // ---- Whole runs over all names ---------------------------------------------------

  datatype Request = Request(name: string, action: Action, token: string, now: int)

  ghost predicate Ordered(requests: seq<Request>, since: int)
  {
    requests == [] || (since <= requests[0].now && Ordered(requests[1..], requests[0].now))
  }

  /** The in-process backend's answers. */
  function InProcessRun(uses: string -> Use, names: map<string, NameState>, requests: seq<Request>): seq<Answer>
    decreases |requests|
  {
    if requests == [] then [] else
    var r := requests[0];
    var (state, answer) := Step(StateOf(names, r.name), uses(r.name).Slots(), Call(r.action, r.token, r.now, r.now));
    [answer] + InProcessRun(uses, names[r.name := state], requests[1..])
  }

  /** `answers` are answers the table backend may give, whichever own slot its query returns. */
  ghost predicate TableRun(sqlite: bool, uses: string -> Use, table: map<string, Rows>, requests: seq<Request>,
      answers: seq<Answer>)
    decreases |requests|
  {
    if requests == [] then answers == [] else
    var r := requests[0];
    var rows := RowsOf(table, r.name);
    answers != [] && exists mine ::
      && OwnSlot(rows, r.token, r.now, mine)
      && TableStep(sqlite, rows, uses(r.name), mine, r.action, r.token, r.now).1 == answers[0]
      && TableRun(sqlite, uses, table[r.name :=
        TableStep(sqlite, rows, uses(r.name), mine, r.action, r.token, r.now).0], requests[1..], answers[1..])
  }

  ghost predicate AllSame(uses: string -> Use, names: map<string, NameState>, table: map<string, Rows>, now: int)
  {
    forall name :: Same(StateOf(names, name), RowsOf(table, name), uses(name), now)
  }

  /** One request leaves every name the same on both sides. */
  lemma RequestAgrees(sqlite: bool, uses: string -> Use, names: map<string, NameState>, table: map<string, Rows>,
      r: Request, mine: Option<int>, since: int)
    requires AllSame(uses, names, table, since) && since <= r.now
    requires OwnSlot(RowsOf(table, r.name), r.token, r.now, mine)
    requires sqlite || EPOCH <= since
    ensures var (state, a) := Step(StateOf(names, r.name), uses(r.name).Slots(), Call(r.action, r.token, r.now, r.now));
      var (next, b) := TableStep(sqlite, RowsOf(table, r.name), uses(r.name), mine, r.action, r.token, r.now);
      a == b && AllSame(uses, names[r.name := state], table[r.name := next], r.now)
  {
    var rows := RowsOf(table, r.name);
    var next := TableStep(sqlite, rows, uses(r.name), mine, r.action, r.token, r.now).0;
    var state := Step(StateOf(names, r.name), uses(r.name).Slots(), Call(r.action, r.token, r.now, r.now)).0;
    Later(StateOf(names, r.name), rows, uses(r.name), since, r.now);
    CallSame(sqlite, StateOf(names, r.name), rows, uses(r.name), mine, r.action, r.token, r.now);
    forall name ensures Same(StateOf(names[r.name := state], name),
      RowsOf(table[r.name := next], name), uses(name), r.now)
    {
      if name != r.name {
        Later(StateOf(names, name), RowsOf(table, name), uses(name), since, r.now);
      }
    }
  }

  lemma {:induction false} RunsAgree(sqlite: bool, uses: string -> Use, names: map<string, NameState>,
      table: map<string, Rows>, requests: seq<Request>, answers: seq<Answer>, since: int)
    requires AllSame(uses, names, table, since) && Ordered(requests, since) && (sqlite || EPOCH <= since)
    requires TableRun(sqlite, uses, table, requests, answers)
    ensures answers == InProcessRun(uses, names, requests)
    decreases |requests|
  {
    if requests != [] {
      var r := requests[0];
      var rows := RowsOf(table, r.name);
      var mine :| OwnSlot(rows, r.token, r.now, mine)
        && TableStep(sqlite, rows, uses(r.name), mine, r.action, r.token, r.now).1 == answers[0]
        && TableRun(sqlite, uses, table[r.name :=
          TableStep(sqlite, rows, uses(r.name), mine, r.action, r.token, r.now).0], requests[1..], answers[1..]);
      var next := TableStep(sqlite, rows, uses(r.name), mine, r.action, r.token, r.now).0;
      var state := Step(StateOf(names, r.name), uses(r.name).Slots(), Call(r.action, r.token, r.now, r.now)).0;
      RequestAgrees(sqlite, uses, names, table, r, mine, since);
      RunsAgree(sqlite, uses, names[r.name := state], table[r.name := next], requests[1..], answers[1..], r.now);
    }
  }

  lemma OwnSlotFound(rows: Rows, token: string, now: int) returns (mine: Option<int>)
    ensures OwnSlot(rows, token, now, mine)
  {
    if s :| s in rows && s >= 0 && Owns(rows, s, token, now) {
      return Some(s);
    }
    return None;
  }

  /** The table backend has an answer to every request. */
  lemma {:induction false} RunExists(sqlite: bool, uses: string -> Use, names: map<string, NameState>,
                                     table: map<string, Rows>, requests: seq<Request>, since: int)
    requires AllSame(uses, names, table, since) && Ordered(requests, since) && (sqlite || EPOCH <= since)
    ensures TableRun(sqlite, uses, table, requests, InProcessRun(uses, names, requests))
    decreases |requests|
  {
    if requests != [] {
      var r := requests[0];
      var rows := RowsOf(table, r.name);
      var mine := OwnSlotFound(rows, r.token, r.now);
      var next := TableStep(sqlite, rows, uses(r.name), mine, r.action, r.token, r.now).0;
      var state := Step(StateOf(names, r.name), uses(r.name).Slots(), Call(r.action, r.token, r.now, r.now)).0;
      RequestAgrees(sqlite, uses, names, table, r, mine, since);
      RunExists(sqlite, uses, names[r.name := state], table[r.name := next], requests[1..], r.now);
      assert InProcessRun(uses, names, requests)[1..] == InProcessRun(uses, names[r.name := state], requests[1..]);
    }
  }

  /** From empty stores, the table backend on either dialect may answer a sequence of requests exactly as the
      in-process backend does, fences included, when each name is used only as a lock or only as a semaphore of
      one size. */
  lemma BackendsAgree(sqlite: bool, uses: string -> Use, requests: seq<Request>, answers: seq<Answer>, since: int)
    requires Ordered(requests, since) && (sqlite || EPOCH <= since)
    ensures TableRun(sqlite, uses, map[], requests, answers) <==> answers == InProcessRun(uses, map[], requests)
  {
    RunExists(sqlite, uses, map[], map[], requests, since);
    if TableRun(sqlite, uses, map[], requests, answers) {
      RunsAgree(sqlite, uses, map[], map[], requests, answers, since);
    }
  }
}
