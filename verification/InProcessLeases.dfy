/** Leases held in one process: a fence and a map of holders per name. */
module InProcessLeases {
  import opened Basics

  /** `holders` maps a token to the time its hold ends. */
  datatype NameState = NameState(fence: nat, holders: map<string, int>)

  const FRESH := NameState(0, map[])

  function Live(s: NameState, now: int): NameState
  {
    s.(holders := map t | t in s.holders && s.holders[t] > now :: s.holders[t])
  }

  /** The clock is read twice: once to prune, once to stamp the hold. */
  function Take(s: NameState, token: string, ttl: int, slots: nat, now: int, later: int): (NameState, Option<nat>)
  {
    var l := Live(s, now);
    if token !in l.holders && |l.holders| >= slots then (l, None)
    else (NameState(l.fence + 1, l.holders[token := later + ttl]), Some(l.fence + 1))
  }

  function Extend(s: NameState, token: string, ttl: int, now: int, later: int): (NameState, bool)
  {
    var l := Live(s, now);
    if token !in l.holders then (l, false) else (l.(holders := l.holders[token := later + ttl]), true)
  }

  function Drop(s: NameState, token: string, now: int): (NameState, bool)
  {
    var l := Live(s, now);
    (l.(holders := l.holders - {token}), token in l.holders)
  }

  function StateOf(names: map<string, NameState>, name: string): NameState
  {
    if name in names then names[name] else FRESH
  }

  lemma Rewritten(names: map<string, NameState>, name: string, a: NameState, b: NameState)
    ensures names[name := a][name := b] == names[name := b]
  {
  }

  class InProcessLeaseBackend {
    var names: map<string, NameState>

    constructor ()
      ensures names == map[]
    {
      names := map[];
    }

    /** Drop what has expired; creates the name on first use. */
    method PruneExpired(name: string, now: int) returns (state: NameState)
      modifies this
      ensures state == Live(StateOf(old(names), name), now)
      ensures names == old(names)[name := state]
    {
      state := StateOf(names, name);
      state := state.(holders := map t | t in state.holders && state.holders[t] > now :: state.holders[t]);
      names := names[name := state];
    }

    method TakeHold(name: string, token: string, ttl: int, slots: nat, now: int, later: int)
      returns (fence: Option<nat>)
      modifies this
      ensures var (state, answer) := Take(StateOf(old(names), name), token, ttl, slots, now, later);
        names == old(names)[name := state] && fence == answer
    {
      var state := PruneExpired(name, now);
      if token !in state.holders && |state.holders| >= slots {
        return None;
      }
      ghost var pruned := state;
      state := state.(holders := state.holders[token := later + ttl]);
      state := state.(fence := state.fence + 1);
      names := names[name := state];
      Rewritten(old(names), name, pruned, state);
      return Some(state.fence);
    }

    method ExtendHold(name: string, token: string, ttl: int, now: int, later: int) returns (held: bool)
      modifies this
      ensures var (state, answer) := Extend(StateOf(old(names), name), token, ttl, now, later);
        names == old(names)[name := state] && held == answer
    {
      var state := PruneExpired(name, now);
      if token !in state.holders {
        return false;
      }
      names := names[name := state.(holders := state.holders[token := later + ttl])];
      return true;
    }

    method DropHold(name: string, token: string, now: int) returns (held: bool)
      modifies this
      ensures var (state, answer) := Drop(StateOf(old(names), name), token, now);
        names == old(names)[name := state] && held == answer
    {
      var state := PruneExpired(name, now);
      held := token in state.holders;
      names := names[name := state.(holders := state.holders - {token})];
    }
  }

  // ---- Whole runs on one name ------------------------------------------------------

  datatype Action = Acquire(ttl: int) | Refresh(ttl: int) | Release

  datatype Call = Call(action: Action, token: string, now: int, later: int)

  datatype Answer = Granted(fence: nat) | Refused | Held(yes: bool)

  function GrantOf(fence: Option<nat>): Answer
  {
    match fence
    case None => Refused
    case Some(f) => Granted(f)
  }

  function Step(s: NameState, slots: nat, c: Call): (NameState, Answer)
  {
    match c.action
    case Acquire(ttl) => var (t, fence) := Take(s, c.token, ttl, slots, c.now, c.later); (t, GrantOf(fence))
    case Refresh(ttl) => var (t, held) := Extend(s, c.token, ttl, c.now, c.later); (t, Held(held))
    case Release => var (t, held) := Drop(s, c.token, c.now); (t, Held(held))
  }

  function Run(s: NameState, slots: nat, calls: seq<Call>): NameState
    decreases |calls|
  {
    if calls == [] then s else Run(Step(s, slots, calls[0]).0, slots, calls[1..])
  }

  function Answers(s: NameState, slots: nat, calls: seq<Call>): (r: seq<Answer>)
    ensures |r| == |calls|
    decreases |calls|
  {
    if calls == [] then [] else
    var (next, answer) := Step(s, slots, calls[0]);
    [answer] + Answers(next, slots, calls[1..])
  }

  /** Each call's clock readings are in order, and not before the previous call's. */
  ghost predicate Monotone(calls: seq<Call>, since: int)
  {
    calls == [] || (since <= calls[0].now <= calls[0].later && Monotone(calls[1..], calls[0].later))
  }

  lemma {:induction false} SubsetSmaller<T>(a: set<T>, b: set<T>)
    requires a <= b
    ensures |a| <= |b|
  {
    if x :| x in a {
      SubsetSmaller(a - {x}, b - {x});
    }
  }

  lemma SubmapSmaller(a: map<string, int>, b: map<string, int>)
    requires a.Keys <= b.Keys
    ensures |a| <= |b|
  {
    SubsetSmaller(a.Keys, b.Keys);
    assert |a| == |a.Keys| && |b| == |b.Keys|;
  }

  lemma StepBounded(s: NameState, slots: nat, c: Call)
    requires |s.holders| <= slots
    ensures |Step(s, slots, c).0.holders| <= slots
  {
    var l := Live(s, c.now).holders;
    SubmapSmaller(l, s.holders);
    match c.action
    case Acquire(ttl) =>
    case Refresh(ttl) =>
    case Release => SubmapSmaller(l - {c.token}, l);
  }

  /** After any run there are at most `slots` holders, so at no instant do more than `slots`
      tokens hold an unexpired lease. */
  lemma {:induction false} AtMostSlotsHeld(s: NameState, slots: nat, calls: seq<Call>, instant: int)
    requires |s.holders| <= slots
    ensures |Run(s, slots, calls).holders| <= slots
    ensures |Live(Run(s, slots, calls), instant).holders| <= slots
    decreases |calls|
  {
    if calls == [] {
      SubmapSmaller(Live(s, instant).holders, s.holders);
    } else {
      StepBounded(s, slots, calls[0]);
      AtMostSlotsHeld(Step(s, slots, calls[0]).0, slots, calls[1..], instant);
    }
  }

  /** Every grant of a run outranks the fence it started from. */
  lemma {:induction false} GrantsOutrank(s: NameState, slots: nat, calls: seq<Call>, i: nat)
    requires i < |calls| && Answers(s, slots, calls)[i].Granted?
    ensures Answers(s, slots, calls)[i].fence > s.fence
    decreases |calls|
  {
    if i > 0 {
      GrantsOutrank(Step(s, slots, calls[0]).0, slots, calls[1..], i - 1);
    }
  }

  /** Fences strictly increase along every run: a later grant outranks every earlier one. */
  lemma {:induction false} FencesIncrease(s: NameState, slots: nat, calls: seq<Call>, i: nat, j: nat)
    requires i < j < |calls| && Answers(s, slots, calls)[i].Granted? && Answers(s, slots, calls)[j].Granted?
    ensures Answers(s, slots, calls)[i].fence < Answers(s, slots, calls)[j].fence
    decreases |calls|
  {
    var next := Step(s, slots, calls[0]).0;
    if i == 0 {
      GrantsOutrank(next, slots, calls[1..], j - 1);
    } else {
      FencesIncrease(next, slots, calls[1..], i - 1, j - 1);
    }
  }

  ghost predicate Lapsed(s: NameState, token: string, now: int) { token in s.holders ==> s.holders[token] <= now }

  lemma LapsedStep(s: NameState, slots: nat, c: Call, token: string, since: int)
    requires Lapsed(s, token, since) && since <= c.now <= c.later
    requires c.token == token ==> !c.action.Acquire?
    ensures Lapsed(Step(s, slots, c).0, token, c.later)
    ensures c.token == token ==> Step(s, slots, c).1 == Held(false)
  {
    assert token !in Live(s, c.now).holders;
  }

  /** Once a token's hold has lapsed, it gets `false` from every refresh and release, and no
      other call revives it, until it is granted anew. */
  lemma {:induction false} LapsedStaysLapsed(s: NameState, slots: nat, calls: seq<Call>, token: string, since: int,
      i: nat)
    requires Monotone(calls, since) && Lapsed(s, token, since) && i < |calls|
    requires forall k :: 0 <= k <= i && calls[k].token == token ==> !calls[k].action.Acquire?
    requires calls[i].token == token
    ensures Answers(s, slots, calls)[i] == Held(false)
    decreases |calls|
  {
    var next := Step(s, slots, calls[0]).0;
    assert calls[0].token == token ==> !calls[0].action.Acquire?;
    LapsedStep(s, slots, calls[0], token, since);
    if i > 0 {
      assert forall k :: 0 <= k < i ==> calls[1..][k] == calls[k + 1];
      LapsedStaysLapsed(next, slots, calls[1..], token, calls[0].later, i - 1);
    }
  }

  // ---- Answers from the calls alone --------------------------------------------------

  /** Until when `token` holds, going by its calls and their answers only. */
  function Until(calls: seq<Call>, answers: seq<Answer>, token: string): Option<int>
    requires |calls| == |answers|
  {
    if calls == [] then None else
    var n := |calls| - 1;
    var before, c, a := Until(calls[..n], answers[..n], token), calls[n], answers[n];
    if c.token != token || a == Refused || a == Held(false) then before
    else
      match c.action
      case Acquire(ttl) => Some(c.later + ttl)
      case Refresh(ttl) => Some(c.later + ttl)
      case Release => None
  }

  predicate HoldsAt(until: Option<int>, now: int) { until.Some? && until.value > now }

  function Tokens(calls: seq<Call>): set<string> { set i | 0 <= i < |calls| :: calls[i].token }

  /** Who holds at `now`. */
  function Holding(calls: seq<Call>, answers: seq<Answer>, now: int): set<string>
    requires |calls| == |answers|
  {
    set t | t in Tokens(calls) && HoldsAt(Until(calls, answers, t), now)
  }

  function Grants(answers: seq<Answer>): nat
  {
    if answers == [] then 0
    else Grants(answers[..|answers| - 1]) + if answers[|answers| - 1].Granted? then 1 else 0
  }

  lemma {:induction false} RunLast(s: NameState, slots: nat, calls: seq<Call>, c: Call)
    ensures Run(s, slots, calls + [c]) == Step(Run(s, slots, calls), slots, c).0
    ensures Answers(s, slots, calls + [c]) == Answers(s, slots, calls) + [Step(Run(s, slots, calls), slots, c).1]
    decreases |calls|
  {
    if calls == [] {
      assert [] + [c] == [c] && [c][1..] == [];
    } else {
      assert (calls + [c])[1..] == calls[1..] + [c];
      RunLast(Step(s, slots, calls[0]).0, slots, calls[1..], c);
    }
  }

  lemma {:induction false} MonotoneLast(calls: seq<Call>, c: Call, since: int)
    requires Monotone(calls + [c], since)
    ensures Monotone(calls, since) && c.now <= c.later
    ensures calls != [] ==> calls[|calls| - 1].later <= c.now
    decreases |calls|
  {
    if calls == [] {
      assert ([] + [c])[0] == c;
    } else {
      assert (calls + [c])[1..] == calls[1..] + [c] && (calls + [c])[0] == calls[0];
      MonotoneLast(calls[1..], c, calls[0].later);
    }
  }

  predicate HeldIn(s: NameState, token: string, now: int) { token in s.holders && s.holders[token] > now }

  /** From the last call on, the holder map holds a token exactly until the time its calls say. */
  ghost predicate Tracks(s: NameState, calls: seq<Call>, answers: seq<Answer>, token: string)
    requires |calls| == |answers|
  {
    forall now :: (calls != [] ==> calls[|calls| - 1].later <= now) ==>
      (HeldIn(s, token, now) <==> HoldsAt(Until(calls, answers, token), now))
  }

  lemma OthersHeld(s: NameState, slots: nat, c: Call, token: string, now: int)
    requires c.token != token && c.now <= now
    ensures HeldIn(Step(s, slots, c).0, token, now) <==> HeldIn(s, token, now)
  {
  }

  lemma RefusedHeld(s: NameState, slots: nat, c: Call, now: int)
    requires (Step(s, slots, c).1 == Refused || Step(s, slots, c).1 == Held(false)) && c.now <= now
    ensures HeldIn(Step(s, slots, c).0, c.token, now) <==> HeldIn(s, c.token, now)
  {
  }

  lemma AnsweredHeld(s: NameState, slots: nat, c: Call, now: int)
    requires Step(s, slots, c).1 != Refused && Step(s, slots, c).1 != Held(false)
    ensures HeldIn(Step(s, slots, c).0, c.token, now) <==> !c.action.Release? && now < c.later + c.action.ttl
  {
  }

  lemma UntilLast(calls: seq<Call>, c: Call, answers: seq<Answer>, a: Answer, token: string)
    requires |calls| == |answers|
    ensures Until(calls + [c], answers + [a], token) ==
      if c.token != token || a == Refused || a == Held(false) then Until(calls, answers, token)
      else if c.action.Release? then None else Some(c.later + c.action.ttl)
  {
    assert (calls + [c])[..|calls|] == calls && (answers + [a])[..|answers|] == answers;
  }

  lemma TracksStep(s: NameState, slots: nat, calls: seq<Call>, answers: seq<Answer>, c: Call, token: string)
    requires |calls| == |answers| && Tracks(s, calls, answers, token) && c.now <= c.later
    requires calls != [] ==> calls[|calls| - 1].later <= c.now
    ensures Tracks(Step(s, slots, c).0, calls + [c], answers + [Step(s, slots, c).1], token)
  {
    var next, a := Step(s, slots, c).0, Step(s, slots, c).1;
    UntilLast(calls, c, answers, a, token);
    assert (calls + [c])[|calls|] == c;
    forall now | c.later <= now
      ensures HeldIn(next, token, now) <==> HoldsAt(Until(calls + [c], answers + [a], token), now)
    {
      assert HeldIn(s, token, now) <==> HoldsAt(Until(calls, answers, token), now);
      if c.token != token {
        OthersHeld(s, slots, c, token, now);
      } else if a == Refused || a == Held(false) {
        RefusedHeld(s, slots, c, now);
      } else {
        AnsweredHeld(s, slots, c, now);
      }
    }
  }

  lemma {:induction false} TracksRun(slots: nat, calls: seq<Call>, since: int, token: string)
    requires Monotone(calls, since)
    ensures Tracks(Run(FRESH, slots, calls), calls, Answers(FRESH, slots, calls), token)
    ensures Run(FRESH, slots, calls).fence == Grants(Answers(FRESH, slots, calls))
    ensures forall t :: t in Run(FRESH, slots, calls).holders ==> t in Tokens(calls)
    decreases |calls|
  {
    if calls != [] {
      var n := |calls| - 1;
      var front, c := calls[..n], calls[n];
      assert calls == front + [c];
      MonotoneLast(front, c, since);
      TracksRun(slots, front, since, token);
      RunLast(FRESH, slots, front, c);
      var s, answers := Run(FRESH, slots, front), Answers(FRESH, slots, front);
      TracksStep(s, slots, front, answers, c, token);
      assert (answers + [Step(s, slots, c).1])[..|answers|] == answers;
      forall t | t in Step(s, slots, c).0.holders ensures t in Tokens(calls) {
        if t in s.holders {
          var i :| 0 <= i < |front| && front[i].token == t;
          assert calls[i].token == t;
        } else {
          assert calls[n].token == t;
        }
      }
    }
  }

  /** What a call is due after these calls and answers: a refresh or release succeeds exactly while the token
      holds, and an acquire is granted, with one more than the grants so far as its fence, exactly if the token holds
      or fewer than `slots` tokens do. */
  function Due(slots: nat, calls: seq<Call>, answers: seq<Answer>, c: Call): Answer
    requires |calls| == |answers|
  {
    var holds := HoldsAt(Until(calls, answers, c.token), c.now);
    if !c.action.Acquire? then Held(holds)
    else if holds || |Holding(calls, answers, c.now)| < slots then Granted(Grants(answers) + 1) else Refused
  }

  /** Every answer is the one due, going by the calls alone. */
  lemma AnsweredByCalls(slots: nat, calls: seq<Call>, c: Call, since: int)
    requires Monotone(calls + [c], since)
    ensures var answers := Answers(FRESH, slots, calls);
      Answers(FRESH, slots, calls + [c]) == answers + [Due(slots, calls, answers, c)]
  {
    MonotoneLast(calls, c, since);
    RunLast(FRESH, slots, calls, c);
    StepIsDue(slots, calls, c, since);
  }

  lemma StepIsDue(slots: nat, calls: seq<Call>, c: Call, since: int)
    requires Monotone(calls, since) && (calls != [] ==> calls[|calls| - 1].later <= c.now)
    ensures Step(Run(FRESH, slots, calls), slots, c).1 == Due(slots, calls, Answers(FRESH, slots, calls), c)
  {
    var s, answers := Run(FRESH, slots, calls), Answers(FRESH, slots, calls);
    TracksRun(slots, calls, since, c.token);
    assert HeldIn(s, c.token, c.now) <==> HoldsAt(Until(calls, answers, c.token), c.now);
    HoldingIsLive(slots, calls, since, c.now);
    StepAnswers(s, slots, c);
  }

  lemma HoldingIsLive(slots: nat, calls: seq<Call>, since: int, now: int)
    requires Monotone(calls, since) && (calls != [] ==> calls[|calls| - 1].later <= now)
    ensures Live(Run(FRESH, slots, calls), now).holders.Keys == Holding(calls, Answers(FRESH, slots, calls), now)
    ensures |Live(Run(FRESH, slots, calls), now).holders| == |Holding(calls, Answers(FRESH, slots, calls), now)|
  {
    var s, live := Run(FRESH, slots, calls), Live(Run(FRESH, slots, calls), now).holders;
    forall t ensures t in live <==> t in Holding(calls, Answers(FRESH, slots, calls), now) {
      TracksRun(slots, calls, since, t);
      assert HeldIn(s, t, now) <==> t in live;
    }
    assert |live| == |live.Keys|;
  }

  lemma StepAnswers(s: NameState, slots: nat, c: Call)
    ensures Step(s, slots, c).1 ==
      if !c.action.Acquire? then Held(HeldIn(s, c.token, c.now))
      else if HeldIn(s, c.token, c.now) || |Live(s, c.now).holders| < slots then Granted(s.fence + 1) else Refused
  {
  }
}
