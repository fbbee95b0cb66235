/** Post-commit callbacks under nested savepoints. */
module Callbacks {
  import opened Basics

  /** A transaction inside the root: a savepoint when `nested`, else a plain subtransaction. */
  datatype Tx = Tx(id: nat, nested: bool)

  datatype Entry = Entry(tags: set<nat>, callback: nat)

  /** `open` holds the transactions inside the root, outermost first; `next` is the first identity never used. */
  datatype State = State(open: seq<Tx>, next: nat, log: seq<Entry>)

  datatype Event =
    | Begin(nested: bool)
    | Register(callback: nat)
    | Release(k: nat)
    | RollBack(k: nat)
    | RollBackRoot
    | CommitRoot
    | Clear

  function Savepoints(open: seq<Tx>): set<nat>
  {
    if open == [] then {}
    else Savepoints(open[..|open| - 1]) + (if open[|open| - 1].nested then {open[|open| - 1].id} else {})
  }

  /** The entries that do not belong to savepoint `id`. */
  function Without(log: seq<Entry>, id: nat): seq<Entry>
  {
    if log == [] then [] else (if id in log[0].tags then [] else [log[0]]) + Without(log[1..], id)
  }

  lemma WithoutNext(log: seq<Entry>, i: nat, id: nat, kept: seq<Entry>)
    requires i < |log|
    ensures kept + Without(log[i..], id) ==
      (if id in log[i].tags then kept else kept + [log[i]]) + Without(log[i + 1..], id)
  {
    assert log[i..][1..] == log[i + 1..];
  }

  function CallbacksOf(log: seq<Entry>): seq<nat>
  {
    if log == [] then [] else [log[0].callback] + CallbacksOf(log[1..])
  }

  predicate Enabled(s: State, e: Event)
  {
    match e
    case Release(k) => k < |s.open|
    case RollBack(k) => k < |s.open|
    case _ => true
  }

  /** What one event does to the open transactions and the log. */
  function Step(s: State, e: Event): State
    requires Enabled(s, e)
  {
    match e
    case Begin(nested) => s.(open := s.open + [Tx(s.next, nested)], next := s.next + 1)
    case Register(callback) => s.(log := s.log + [Entry(Savepoints(s.open), callback)])
    case Release(k) => s.(open := s.open[..k])
    case RollBack(k) =>
      s.(open := s.open[..k], log := if s.open[k].nested then Without(s.log, s.open[k].id) else s.log)
    case RollBackRoot => s.(open := [], log := [])
    case CommitRoot => s.(open := [])
    case Clear => s.(log := [])
  }

  // ---- The session -----------------------------------------------------------------

  class Session {
    var open: seq<Tx>
    var next: nat
    var log: Option<seq<Entry>>
    var listening: bool

    function View(): State
      reads this
    {
      State(open, next, if log.Some? then log.value else [])
    }

    /** Rollbacks are heard whenever there is something to discard. */
    predicate Valid()
      reads this
    {
      log.Some? ==> listening
    }

    constructor ()
      ensures Valid() && View() == State([], 0, [])
    {
      open, next, log, listening := [], 0, None, false;
    }

    method BeginInner(nested: bool)
      requires Valid()
      modifies this
      ensures Valid() && View() == Step(old(View()), Begin(nested))
    {
      open, next := open + [Tx(next, nested)], next + 1;
    }

    /** Walk outwards from the innermost savepoint. */
    method OpenSavepoints() returns (savepoints: set<nat>)
      ensures savepoints == Savepoints(open)
    {
      var i := |open|;
      assert open[..|open|] == open;
      while i > 0 && !open[i - 1].nested
        invariant 0 <= i <= |open| && Savepoints(open[..i]) == Savepoints(open)
      {
        assert open[..i][..i - 1] == open[..i - 1];
        i := i - 1;
      }
      savepoints := {};
      while i > 0
        invariant 0 <= i <= |open| && savepoints + Savepoints(open[..i]) == Savepoints(open)
      {
        assert open[..i][..i - 1] == open[..i - 1];
        if open[i - 1].nested {
          savepoints := savepoints + {open[i - 1].id};
        }
        i := i - 1;
      }
    }

    method RegisterOnCommit(callback: nat)
      requires Valid()
      modifies this
      ensures Valid() && View() == Step(old(View()), Register(callback))
    {
      if !listening {
        listening := true;
      }
      var callbacks := if log.Some? then log.value else [];
      var savepoints := OpenSavepoints();
      log := Some(callbacks + [Entry(savepoints, callback)]);
    }

    method ReleaseInner(k: nat)
      requires Valid() && k < |open|
      modifies this
      ensures Valid() && View() == Step(old(View()), Release(k))
    {
      open := open[..k];
    }

    /** The filter over the queued entries. */
    method DiscardOf(id: nat)
      requires Valid()
      modifies this`log
      ensures Valid() && View() == old(View()).(log := Without(old(View()).log, id))
    {
      if log.Some? {
        var entries, kept: seq<Entry> := log.value, [];
        for i := 0 to |entries|
          invariant log == Some(entries) && kept + Without(entries[i..], id) == Without(entries, id)
        {
          WithoutNext(entries, i, id, kept);
          if id !in entries[i].tags {
            kept := kept + [entries[i]];
          }
        }
        assert entries[|entries|..] == [] && kept == Without(entries, id);
        log := Some(kept);
      }
    }

    method RollBackInner(k: nat)
      requires Valid() && k < |open|
      modifies this
      ensures Valid() && View() == Step(old(View()), RollBack(k))
    {
      var transaction := open[k];
      open := open[..k];
      if listening && transaction.nested {
        DiscardOf(transaction.id);
      }
    }

    method RollBackAll()
      requires Valid()
      modifies this
      ensures Valid() && View() == Step(old(View()), RollBackRoot)
    {
      open := [];
      if listening {
        log := None;
      }
    }

    method Commit()
      requires Valid()
      modifies this
      ensures Valid() && View() == Step(old(View()), CommitRoot)
    {
      open := [];
    }

    method DiscardOnCommit()
      requires Valid()
      modifies this`log
      ensures Valid() && View() == Step(old(View()), Clear)
    {
      log := None;
    }

    /** Every queued callback runs once, in order, whichever of them fail. */
    method RunOnCommit(fails: nat -> bool) returns (ran: seq<nat>, failed: seq<nat>)
      requires Valid()
      modifies this`log
      ensures Valid() && View() == Step(old(View()), Clear)
      ensures ran == CallbacksOf(old(View()).log)
      ensures forall c :: c in failed <==> c in ran && fails(c)
    {
      var callbacks := if log.Some? then log.value else [];
      log := None;
      ran, failed := [], [];
      for i := 0 to |callbacks|
        invariant log == None && ran + CallbacksOf(callbacks[i..]) == CallbacksOf(callbacks)
        invariant forall c :: c in failed <==> c in ran && fails(c)
      {
        var callback := callbacks[i].callback;
        ran := ran + [callback];
        if fails(callback) {
          failed := failed + [callback];
        }
      }
      assert callbacks[|callbacks|..] == [];
    }
  }

  // ---- Reference: one list per open transaction --------------------------------------

  /** `lists[0]` belongs to the root and `lists[i + 1]` to the i-th transaction inside it. */
  datatype Frames<T> = Frames(kinds: seq<bool>, lists: seq<seq<T>>)

  function Flatten<T>(lists: seq<seq<T>>): seq<T>
  {
    if lists == [] then [] else lists[0] + Flatten(lists[1..])
  }

  /** Ending transaction `k` hands its list, and those inside it, to the one around it. */
  function Merge<T>(f: Frames<T>, k: nat): Frames<T>
    requires k < |f.lists| && k <= |f.kinds|
  {
    Frames(f.kinds[..k], f.lists[..k] + [Flatten(f.lists[k..])])
  }

  function Nothing<T>(n: nat): seq<seq<T>> { seq(n, _ => []) }

  predicate Fits<T>(f: Frames<T>, e: Event)
  {
    && |f.lists| == |f.kinds| + 1
    && match e
       case Release(k) => k < |f.kinds|
       case RollBack(k) => k < |f.kinds|
       case _ => true
  }

  /** Release appends to the parent's list; rolling back a savepoint discards its list. */
  function FrameStep<T>(f: Frames<T>, e: Event, entry: T): (r: Frames<T>)
    requires Fits(f, e)
    ensures |r.lists| == |r.kinds| + 1
  {
    match e
    case Begin(nested) => Frames(f.kinds + [nested], f.lists + [[]])
    case Register(_) => Frames(f.kinds, f.lists[..|f.kinds|] + [f.lists[|f.kinds|] + [entry]])
    case Release(k) => Merge(f, k)
    case RollBack(k) => if f.kinds[k] then Frames(f.kinds[..k], f.lists[..k + 1]) else Merge(f, k)
    case RollBackRoot => Frames([], [[]])
    case CommitRoot => Merge(f, 0)
    case Clear => Frames(f.kinds, Nothing(|f.lists|))
  }

  /** The queued entries, list by list: each carries just the open savepoints around its list. */
  ghost predicate Tagged(s: State, f: Frames<Entry>)
  {
    && |f.kinds| == |s.open| && |f.lists| == |s.open| + 1
    && (forall i :: 0 <= i < |s.open| ==> s.open[i].nested == f.kinds[i] && s.open[i].id < s.next)
    && (forall i, j :: 0 <= i < j < |s.open| ==> s.open[i].id != s.open[j].id)
    && (forall j :: 0 <= j < |f.lists| ==> TagsFit(s.open, s.next, f.lists[j], j))
    && s.log == Flatten(f.lists)
  }

  ghost predicate TagsFit(open: seq<Tx>, next: nat, entries: seq<Entry>, j: nat)
  {
    forall e :: e in entries ==> Around(open, next, e, j)
  }

  ghost predicate Around(open: seq<Tx>, next: nat, e: Entry, j: nat)
  {
    && (forall t :: t in e.tags ==> t < next)
    && (forall i :: 0 <= i < |open| ==> (open[i].id in e.tags <==> open[i].nested && i < j))
  }

  lemma {:induction false} SavepointsAre(open: seq<Tx>)
    ensures forall t :: t in Savepoints(open) <==> exists i :: 0 <= i < |open| && open[i].nested && open[i].id == t
  {
    if open != [] {
      var front := open[..|open| - 1];
      SavepointsAre(front);
      forall t | t in Savepoints(open)
        ensures exists i :: 0 <= i < |open| && open[i].nested && open[i].id == t
      {
        if t in Savepoints(front) {
          var i :| 0 <= i < |front| && front[i].nested && front[i].id == t;
          assert open[i] == front[i];
        }
      }
      forall i | 0 <= i < |open| && open[i].nested ensures open[i].id in Savepoints(open) {
        if i < |front| {
          assert front[i] == open[i];
        }
      }
    }
  }

  lemma {:induction false} FlattenAppend<T>(a: seq<seq<T>>, b: seq<seq<T>>)
    ensures Flatten(a + b) == Flatten(a) + Flatten(b)
  {
    if a == [] {
      assert a + b == b;
    } else {
      FlattenAppend(a[1..], b);
      assert (a + b)[1..] == a[1..] + b;
    }
  }

  lemma {:induction false} FlattenMembers<T>(lists: seq<seq<T>>, x: T)
    requires x in Flatten(lists)
    ensures exists j :: 0 <= j < |lists| && x in lists[j]
  {
    if x !in lists[0] {
      FlattenMembers(lists[1..], x);
      var j :| 0 <= j < |lists[1..]| && x in lists[1..][j];
      assert lists[j + 1] == lists[1..][j];
    }
  }

  lemma {:induction false} WithoutAppend(a: seq<Entry>, b: seq<Entry>, id: nat)
    ensures Without(a + b, id) == Without(a, id) + Without(b, id)
  {
    if a == [] {
      assert a + b == b;
    } else {
      var s := a + b;
      assert s[0] == a[0] && s[1..] == a[1..] + b;
      WithoutAppend(a[1..], b, id);
      var head := if id in a[0].tags then [] else [a[0]];
      assert Without(s, id) == head + (Without(a[1..], id) + Without(b, id));
    }
  }

  lemma {:induction false} WithoutNone(a: seq<Entry>, id: nat)
    ensures (forall e :: e in a ==> id !in e.tags) ==> Without(a, id) == a
    ensures (forall e :: e in a ==> id in e.tags) ==> Without(a, id) == []
  {
    if a != [] {
      WithoutNone(a[1..], id);
      assert a == [a[0]] + a[1..];
    }
  }

  /** Discarding by tag cuts the log exactly where the savepoint began. */
  lemma Cut(s: State, f: Frames<Entry>, k: nat)
    requires Tagged(s, f) && k < |s.open| && s.open[k].nested
    ensures Without(s.log, s.open[k].id) == Flatten(f.lists[..k + 1])
  {
    var id, below, above := s.open[k].id, f.lists[..k + 1], f.lists[k + 1..];
    assert f.lists == below + above;
    FlattenAppend(below, above);
    WithoutAppend(Flatten(below), Flatten(above), id);
    forall e: Entry | e in Flatten(below) ensures id !in e.tags {
      FlattenMembers(below, e);
      var j :| 0 <= j < |below| && e in below[j];
      assert TagsFit(s.open, s.next, f.lists[j], j) && Around(s.open, s.next, e, j);
    }
    forall e: Entry | e in Flatten(above) ensures id in e.tags {
      FlattenMembers(above, e);
      var j :| 0 <= j < |above| && e in above[j];
      assert TagsFit(s.open, s.next, f.lists[j + k + 1], j + k + 1) && Around(s.open, s.next, e, j + k + 1);
    }
    WithoutNone(Flatten(below), id);
    WithoutNone(Flatten(above), id);
  }

  /** With fewer transactions open, the tags still say which savepoints are around an entry. */
  lemma Narrowed(open: seq<Tx>, next: nat, entries: seq<Entry>, j: nat, k: nat)
    requires TagsFit(open, next, entries, j) && k <= |open|
    ensures TagsFit(open[..k], next, entries, if j < k then j else k)
  {
    forall e | e in entries ensures Around(open[..k], next, e, if j < k then j else k) {
      assert Around(open, next, e, j);
    }
  }

  lemma MergeKeeps(s: State, f: Frames<Entry>, k: nat)
    requires Tagged(s, f) && k <= |s.open|
    ensures Tagged(s.(open := s.open[..k]), Merge(f, k))
  {
    var r, open := Merge(f, k), s.open[..k];
    FlattenAppend(f.lists[..k], f.lists[k..]);
    assert f.lists == f.lists[..k] + f.lists[k..];
    FlattenAppend(f.lists[..k], [Flatten(f.lists[k..])]);
    assert Flatten([Flatten(f.lists[k..])]) == Flatten(f.lists[k..]);
    forall j | 0 <= j < |r.lists| ensures TagsFit(open, s.next, r.lists[j], j) {
      if j < k {
        assert r.lists[j] == f.lists[j];
        Narrowed(s.open, s.next, f.lists[j], j, k);
      } else {
        forall e | e in r.lists[j] ensures Around(open, s.next, e, j) {
          FlattenMembers(f.lists[k..], e);
          var i :| 0 <= i < |f.lists[k..]| && e in f.lists[k..][i];
          assert e in f.lists[k + i];
          Narrowed(s.open, s.next, f.lists[k + i], k + i, k);
        }
      }
    }
  }

  // ---- Refinement ------------------------------------------------------------------

  function Initial(): State { State([], 0, []) }

  function Empty<T>(): Frames<T> { Frames([], [[]]) }

  /** An event for a transaction that is not open does not happen. */
  function Next(s: State, e: Event): State { if Enabled(s, e) then Step(s, e) else s }

  function NextFrames<T>(f: Frames<T>, e: Event, entry: T): Frames<T>
  {
    if Fits(f, e) then FrameStep(f, e, entry) else f
  }

  function Run(events: seq<Event>): State
  {
    if events == [] then Initial() else Next(Run(events[..|events| - 1]), events[|events| - 1])
  }

  function RunFrames(events: seq<Event>): Frames<nat>
  {
    if events == [] then Empty() else
    var e := events[|events| - 1];
    NextFrames(RunFrames(events[..|events| - 1]), e, if e.Register? then e.callback else 0)
  }

  function Registered(s: State, e: Event): Entry
  {
    Entry(Savepoints(s.open), if e.Register? then e.callback else 0)
  }

  lemma RegisterTagged(s: State, f: Frames<Entry>, callback: nat)
    requires Tagged(s, f)
    ensures Tagged(Step(s, Register(callback)), FrameStep(f, Register(callback), Entry(Savepoints(s.open), callback)))
  {
    var n, entry := |s.open|, Entry(Savepoints(s.open), callback);
    var r := FrameStep(f, Register(callback), entry);
    SavepointsAre(s.open);
    assert f.lists == f.lists[..n] + [f.lists[n]];
    FlattenAppend(f.lists[..n], [f.lists[n]]);
    FlattenAppend(f.lists[..n], [f.lists[n] + [entry]]);
    assert Flatten([f.lists[n]]) == f.lists[n] && Flatten([f.lists[n] + [entry]]) == f.lists[n] + [entry];
    assert Around(s.open, s.next, entry, n);
    forall j | 0 <= j < |r.lists| ensures TagsFit(s.open, s.next, r.lists[j], j) {
      assert TagsFit(s.open, s.next, f.lists[j], j);
    }
  }

  lemma BeginTagged(s: State, f: Frames<Entry>, nested: bool)
    requires Tagged(s, f)
    ensures Tagged(Step(s, Begin(nested)), FrameStep(f, Begin(nested), Entry({}, 0)))
  {
    var r, t := FrameStep(f, Begin(nested), Entry({}, 0)), Step(s, Begin(nested));
    FlattenAppend(f.lists, [[]]);
    assert Flatten<Entry>([[]]) == [];
    forall j | 0 <= j < |r.lists| ensures TagsFit(t.open, t.next, r.lists[j], j) {
      if j < |f.lists| {
        assert TagsFit(s.open, s.next, f.lists[j], j);
        forall e | e in r.lists[j] ensures Around(t.open, t.next, e, j) {
          assert Around(s.open, s.next, e, j);
        }
      }
    }
  }

  lemma RollBackTagged(s: State, f: Frames<Entry>, k: nat)
    requires Tagged(s, f) && k < |s.open| && s.open[k].nested
    ensures Tagged(Step(s, RollBack(k)), FrameStep(f, RollBack(k), Entry({}, 0)))
  {
    var r := FrameStep(f, RollBack(k), Entry({}, 0));
    Cut(s, f, k);
    forall j | 0 <= j < |r.lists| ensures TagsFit(s.open[..k], s.next, r.lists[j], j) {
      assert r.lists[j] == f.lists[j];
      Narrowed(s.open, s.next, f.lists[j], j, k);
    }
  }

  lemma {:induction false} FlattenNothing<T>(n: nat)
    ensures Flatten(Nothing<T>(n)) == []
  {
    if n > 0 {
      FlattenNothing<T>(n - 1);
      assert Nothing<T>(n)[1..] == Nothing<T>(n - 1);
    }
  }

  /** The log and the lists stay in step, whatever happens. */
  lemma StepTagged(s: State, f: Frames<Entry>, e: Event)
    requires Tagged(s, f)
    ensures Enabled(s, e) == Fits(f, e)
    ensures Tagged(Next(s, e), NextFrames(f, e, Registered(s, e)))
  {
    match e
    case Begin(nested) => BeginTagged(s, f, nested);
    case Register(callback) => RegisterTagged(s, f, callback);
    case Release(k) =>
      if k < |s.open| {
        MergeKeeps(s, f, k);
      }
    case RollBack(k) =>
      if k < |s.open| {
        if s.open[k].nested {
          RollBackTagged(s, f, k);
        } else {
          MergeKeeps(s, f, k);
        }
      }
    case RollBackRoot =>
    case CommitRoot =>
      assert s.open[..0] == [];
      MergeKeeps(s, f, 0);
    case Clear => FlattenNothing<Entry>(|f.lists|);
  }

  function Strip(lists: seq<seq<Entry>>): (r: seq<seq<nat>>)
    ensures |r| == |lists| && forall i :: 0 <= i < |r| ==> r[i] == CallbacksOf(lists[i])
  {
    seq(|lists|, i requires 0 <= i < |lists| => CallbacksOf(lists[i]))
  }

  lemma {:induction false} CallbacksAppend(a: seq<Entry>, b: seq<Entry>)
    ensures CallbacksOf(a + b) == CallbacksOf(a) + CallbacksOf(b)
  {
    if a == [] {
      assert a + b == b;
    } else {
      CallbacksAppend(a[1..], b);
      assert (a + b)[1..] == a[1..] + b;
    }
  }

  lemma {:induction false} StripFlatten(lists: seq<seq<Entry>>)
    ensures CallbacksOf(Flatten(lists)) == Flatten(Strip(lists))
  {
    if lists != [] {
      StripFlatten(lists[1..]);
      CallbacksAppend(lists[0], Flatten(lists[1..]));
      assert Strip(lists)[1..] == Strip(lists[1..]);
    }
  }

  lemma StripMerge(f: Frames<Entry>, k: nat)
    requires k < |f.lists| && k <= |f.kinds|
    ensures Strip(Merge(f, k).lists) == Merge(Frames(f.kinds, Strip(f.lists)), k).lists
  {
    StripFlatten(f.lists[k..]);
    assert Strip(f.lists[k..]) == Strip(f.lists)[k..];
  }

  lemma StripStep(f: Frames<Entry>, e: Event, entry: Entry)
    ensures Strip(NextFrames(f, e, entry).lists) == NextFrames(Frames(f.kinds, Strip(f.lists)), e, entry.callback).lists
    ensures NextFrames(f, e, entry).kinds == NextFrames(Frames(f.kinds, Strip(f.lists)), e, entry.callback).kinds
  {
    if Fits(f, e) {
      match e
      case Register(_) =>
        CallbacksAppend(f.lists[|f.kinds|], [entry]);
        assert CallbacksOf([entry]) == [entry.callback];
      case Release(k) => StripMerge(f, k);
      case RollBack(k) => StripMerge(f, k);
      case CommitRoot => StripMerge(f, 0);
      case _ =>
    }
  }

  /** The lists with tags that a run of events leaves. */
  lemma {:induction false} RunTagged(events: seq<Event>) returns (f: Frames<Entry>)
    ensures Tagged(Run(events), f) && RunFrames(events) == Frames(f.kinds, Strip(f.lists))
  {
    if events == [] {
      f := Empty();
      assert Strip(f.lists) == [[]];
    } else {
      var front, e := events[..|events| - 1], events[|events| - 1];
      var before := RunTagged(front);
      f := NextFrames(before, e, Registered(Run(front), e));
      StepTagged(Run(front), before, e);
      StripStep(before, e, Registered(Run(front), e));
    }
  }

  /** After any run the tagged log holds the lists of the open transactions, outermost first. */
  lemma LogIsLists(events: seq<Event>)
    ensures CallbacksOf(Run(events).log) == Flatten(RunFrames(events).lists)
  {
    var f := RunTagged(events);
    StripFlatten(f.lists);
  }

  // ---- Which callbacks survive -------------------------------------------------------

  /** Event `j` undoes, or clears away, what was queued at event `i`. */
  ghost predicate Undoes(events: seq<Event>, i: nat, j: nat)
    requires i < j < |events|
  {
    match events[j]
    case RollBackRoot => true
    case Clear => true
    case RollBack(k) =>
      var open := Run(events[..j]).open;
      k < |open| && open[k].nested && open[k].id in Savepoints(Run(events[..i]).open)
    case _ => false
  }

  ghost predicate Undone(events: seq<Event>, i: nat)
  {
    exists j :: i < j < |events| && Undoes(events, i, j)
  }

  /** What was registered among the first `n` events and never undone, in order. */
  ghost function Surviving(events: seq<Event>, n: nat): seq<Entry>
    requires n <= |events|
  {
    if n == 0 then [] else
    Surviving(events, n - 1) +
    (if events[n - 1].Register? && !Undone(events, n - 1)
     then [Registered(Run(events[..n - 1]), events[n - 1])] else [])
  }

  lemma UndoneLater(front: seq<Event>, e: Event, i: nat)
    requires i < |front|
    ensures Undone(front + [e], i) <==> Undone(front, i) || Undoes(front + [e], i, |front|)
  {
    var events := front + [e];
    assert forall j :: 0 <= j <= |front| ==> events[..j] == front[..j];
    forall j | i < j < |front| ensures Undoes(events, i, j) == Undoes(front, i, j) {
    }
  }

  /** One more event filters what survived so far. */
  lemma {:induction false} SurvivingStep(front: seq<Event>, e: Event, n: nat)
    requires n <= |front|
    ensures e.RollBackRoot? || e.Clear? ==> Surviving(front + [e], n) == []
    ensures e.RollBack? && e.k < |Run(front).open| && Run(front).open[e.k].nested ==>
      Surviving(front + [e], n) == Without(Surviving(front, n), Run(front).open[e.k].id)
    ensures
      !(e.RollBackRoot? || e.Clear? || (e.RollBack? && e.k < |Run(front).open| && Run(front).open[e.k].nested)) ==>
      Surviving(front + [e], n) == Surviving(front, n)
  {
    if n > 0 {
      var events := front + [e];
      SurvivingStep(front, e, n - 1);
      UndoneLater(front, e, n - 1);
      assert events[..n - 1] == front[..n - 1] && events[..|front|] == front;
      if e.RollBack? && e.k < |Run(front).open| && Run(front).open[e.k].nested {
        var id, entry := Run(front).open[e.k].id, Registered(Run(front[..n - 1]), front[n - 1]);
        WithoutAppend(Surviving(front, n - 1), [entry], id);
        assert Without([entry], id) == if id in entry.tags then [] else [entry];
        assert Undoes(events, n - 1, |front|) <==> id in entry.tags;
        assert Surviving(front, n) ==
          if front[n - 1].Register? && !Undone(front, n - 1) then Surviving(front, n - 1) + [entry]
          else Surviving(front, n - 1);
      }
    }
  }

  /** After any run, what is queued is what was registered and not undone, once each and in order. */
  lemma {:induction false} LogSurvives(events: seq<Event>)
    ensures Run(events).log == Surviving(events, |events|)
  {
    if events != [] {
      var n := |events| - 1;
      var front, e := events[..n], events[n];
      LogSurvives(front);
      assert events == front + [e];
      SurvivingStep(front, e, n);
      assert events[..n] == front;
    }
  }
}
