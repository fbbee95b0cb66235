/** One task at a time per key, through locks that live only while somebody uses them. */
module SingleFlight {
  import opened Basics

  datatype Flight = Flight(users: nat, holder: Option<nat>)

  /** A task keeps the flight it found when it entered, whatever the table says later. */
  datatype Task = Task(key: nat, flight: nat, phase: Phase)
  datatype Phase = Waiting | Inside | Leaving

  /** `flights` are the lock objects by identity; `locks` names the one in use for a key. */
  datatype State = State(locks: map<nat, nat>, flights: map<nat, Flight>, next: nat, tasks: map<nat, Task>)

  /** The stretches of `hold` between which other tasks may run; a waiting task may be cancelled. */
  datatype Event = Enter(t: nat, key: nat) | Acquire(t: nat) | Release(t: nat) | Leave(t: nat)

  function Initial(): State { State(map[], map[], 0, map[]) }

  predicate Known(s: State, t: nat)
  {
    && t in s.tasks && s.tasks[t].flight in s.flights
    && s.tasks[t].key in s.locks && s.flights[s.tasks[t].flight].users > 0
  }

  predicate Enabled(s: State, e: Event)
  {
    match e
    case Enter(t, key) => t !in s.tasks && (key in s.locks ==> s.locks[key] in s.flights)
    case Acquire(t) => Known(s, t) && s.tasks[t].phase.Waiting? && s.flights[s.tasks[t].flight].holder.None?
    case Release(t) => Known(s, t) && s.tasks[t].phase.Inside?
    case Leave(t) => Known(s, t) && (s.tasks[t].phase.Leaving? || s.tasks[t].phase.Waiting?)
  }

  function Step(s: State, e: Event): State
    requires Enabled(s, e)
  {
    match e
    case Enter(t, key) =>
      var id := if key in s.locks then s.locks[key] else s.next;
      var flight := if key in s.locks then s.flights[id] else Flight(0, None);
      State(s.locks[key := id], s.flights[id := flight.(users := flight.users + 1)],
            if key in s.locks then s.next else s.next + 1, s.tasks[t := Task(key, id, Waiting)])
    case Acquire(t) =>
      var id := s.tasks[t].flight;
      s.(flights := s.flights[id := s.flights[id].(holder := Some(t))],
        tasks := s.tasks[t := s.tasks[t].(phase := Inside)])
    case Release(t) =>
      var id := s.tasks[t].flight;
      s.(flights := s.flights[id := s.flights[id].(holder := None)],
        tasks := s.tasks[t := s.tasks[t].(phase := Leaving)])
    case Leave(t) =>
      var id, key := s.tasks[t].flight, s.tasks[t].key;
      var users := s.flights[id].users - 1;
      s.(flights := s.flights[id := s.flights[id].(users := users)],
         locks := if users == 0 then s.locks - {key} else s.locks, tasks := s.tasks - {t})
  }

  function Next(s: State, e: Event): State { if Enabled(s, e) then Step(s, e) else s }

  function Run(events: seq<Event>): State
  {
    if events == [] then Initial() else Next(Run(events[..|events| - 1]), events[|events| - 1])
  }

  // ---- What every run keeps -----------------------------------------------------------

  function Users(s: State, key: nat): set<nat> { set t | t in s.tasks && s.tasks[t].key == key }

  /** The key's entry counts exactly the tasks that use it. */
  ghost predicate EntryOk(s: State, key: nat)
  {
    && (key in s.locks <==> Users(s, key) != {})
    && (key in s.locks ==>
      s.locks[key] in s.flights && s.locks[key] < s.next && s.flights[s.locks[key]].users == |Users(s, key)|)
  }

  /** A task's flight is the one its key names, and it holds it exactly while inside. */
  ghost predicate TaskOk(s: State, t: nat)
    requires t in s.tasks
  {
    var task := s.tasks[t];
    && task.key in s.locks && s.locks[task.key] == task.flight && task.flight in s.flights
    && (task.phase.Inside? <==> s.flights[task.flight].holder == Some(t))
  }

  ghost predicate Inv(s: State)
  {
    && (forall key :: EntryOk(s, key))
    && (forall t :: t in s.tasks ==> TaskOk(s, t))
    && (forall a, b :: a in s.locks && b in s.locks && a != b ==> s.locks[a] != s.locks[b])
    && (forall key :: key in s.locks ==> HolderOk(s, key))
  }

  ghost predicate HolderOk(s: State, key: nat)
    requires key in s.locks
  {
    s.locks[key] in s.flights && s.flights[s.locks[key]].holder.Some? ==>
      var h := s.flights[s.locks[key]].holder.value;
      h in s.tasks && s.tasks[h].key == key
  }

  /** Whoever uses a key can take its next step. */
  lemma UsersKnown(s: State, t: nat)
    requires Inv(s) && t in s.tasks
    ensures Known(s, t)
  {
    assert TaskOk(s, t) && EntryOk(s, s.tasks[t].key);
    assert t in Users(s, s.tasks[t].key);
  }

  lemma UsersAfterEnter(s: State, t: nat, key: nat, k: nat)
    requires Enabled(s, Enter(t, key))
    ensures Users(Step(s, Enter(t, key)), k) == Users(s, k) + if k == key then {t} else {}
    ensures t !in Users(s, k)
  {
  }

  lemma EnterUsers(s: State, t: nat, key: nat, k: nat)
    requires EntryOk(s, k) && EntryOk(s, key)
    requires (key in s.locks && k in s.locks && k != key ==> s.locks[k] != s.locks[key])
    requires Enabled(s, Enter(t, key))
    ensures EntryOk(Step(s, Enter(t, key)), k)
  {
    UsersAfterEnter(s, t, key, k);
    if k == key {
      assert |Users(s, k) + {t}| == |Users(s, k)| + 1;
      assert t in Users(s, k) + {t};
    } else {
      assert Users(s, k) + {} == Users(s, k);
    }
  }

  lemma EnterTask(s: State, t: nat, key: nat, u: nat)
    requires Inv(s) && Enabled(s, Enter(t, key)) && u in Step(s, Enter(t, key)).tasks
    ensures TaskOk(Step(s, Enter(t, key)), u)
  {
    assert EntryOk(s, key);
    if u != t {
      assert TaskOk(s, u);
      assert EntryOk(s, s.tasks[u].key);
    } else if key in s.locks {
      assert HolderOk(s, key);
    }
  }

  lemma EnterKeeps(s: State, t: nat, key: nat)
    requires Inv(s) && Enabled(s, Enter(t, key))
    ensures Inv(Step(s, Enter(t, key)))
  {
    var r := Step(s, Enter(t, key));
    assert EntryOk(s, key);
    forall k ensures EntryOk(r, k) {
      assert EntryOk(s, k);
      EnterUsers(s, t, key, k);
    }
    forall u | u in r.tasks ensures TaskOk(r, u) {
      EnterTask(s, t, key, u);
    }
    forall a, b | a in r.locks && b in r.locks && a != b ensures r.locks[a] != r.locks[b] {
      assert EntryOk(s, a) && EntryOk(s, b);
    }
    forall k | k in r.locks ensures HolderOk(r, k) {
      assert EntryOk(s, k);
      assert k in s.locks ==> HolderOk(s, k);
    }
  }

  lemma TurnKeeps(s: State, e: Event)
    requires Inv(s) && Enabled(s, e) && (e.Acquire? || e.Release?)
    ensures Inv(Step(s, e))
  {
    var r := Step(s, e);
    assert TaskOk(s, e.t);
    forall k ensures EntryOk(r, k) {
      assert EntryOk(s, k);
      assert Users(r, k) == Users(s, k);
    }
    forall u | u in r.tasks ensures TaskOk(r, u) {
      assert TaskOk(s, u);
    }
    forall k | k in r.locks ensures HolderOk(r, k) {
      assert HolderOk(s, k);
    }
  }

  lemma LeaveUsers(s: State, t: nat, k: nat)
    requires Inv(s) && Enabled(s, Leave(t))
    ensures EntryOk(Step(s, Leave(t)), k)
  {
    var r, key := Step(s, Leave(t)), s.tasks[t].key;
    assert TaskOk(s, t) && EntryOk(s, key) && EntryOk(s, k);
    if k == key {
      assert t in Users(s, key) && Users(r, key) == Users(s, key) - {t};
      assert |Users(r, key)| == |Users(s, key)| - 1;
    } else {
      assert Users(r, k) == Users(s, k);
    }
  }

  lemma LeaveKeeps(s: State, t: nat)
    requires Inv(s) && Enabled(s, Leave(t))
    ensures Inv(Step(s, Leave(t)))
  {
    var r, key := Step(s, Leave(t)), s.tasks[t].key;
    assert TaskOk(s, t);
    forall k ensures EntryOk(r, k) {
      LeaveUsers(s, t, k);
    }
    forall u | u in r.tasks ensures TaskOk(r, u) {
      assert TaskOk(s, u);
      assert u in Users(r, s.tasks[u].key) && EntryOk(r, s.tasks[u].key);
    }
    forall k | k in r.locks ensures HolderOk(r, k) {
      assert HolderOk(s, k);
    }
  }

  lemma NextKeeps(s: State, e: Event)
    requires Inv(s)
    ensures Inv(Next(s, e))
  {
    if Enabled(s, e) {
      match e
      case Enter(t, key) => EnterKeeps(s, t, key);
      case Acquire(t) => TurnKeeps(s, e);
      case Release(t) => TurnKeeps(s, e);
      case Leave(t) => LeaveKeeps(s, t);
    }
  }

  lemma {:induction false} RunKeeps(events: seq<Event>)
    ensures Inv(Run(events))
  {
    if events != [] {
      RunKeeps(events[..|events| - 1]);
      NextKeeps(Run(events[..|events| - 1]), events[|events| - 1]);
    } else {
      assert forall key :: Users(Initial(), key) == {};
    }
  }

  /** In every run at most one task is inside per key. */
  lemma OneInside(events: seq<Event>, a: nat, b: nat)
    ensures var s := Run(events);
      a in s.tasks && b in s.tasks && s.tasks[a].phase.Inside? && s.tasks[b].phase.Inside?
        && s.tasks[a].key == s.tasks[b].key
      ==> a == b
  {
    RunKeeps(events);
    var s := Run(events);
    if a in s.tasks && b in s.tasks {
      assert TaskOk(s, a) && TaskOk(s, b);
    }
  }

  /** In every run a key has an entry exactly while it has users, and the entry counts them. */
  lemma EntryWhileUsed(events: seq<Event>, key: nat)
    ensures var s := Run(events);
      && (key in s.locks <==> exists t :: t in s.tasks && s.tasks[t].key == key)
      && (key in s.locks ==> s.locks[key] in s.flights && s.flights[s.locks[key]].users == |Users(s, key)|)
  {
    RunKeeps(events);
    var s := Run(events);
    assert EntryOk(s, key);
    if t :| t in s.tasks && s.tasks[t].key == key {
      assert t in Users(s, key);
    }
    if key in s.locks {
      assert Users(s, key) != {};
      assert exists t :: t in Users(s, key);
    }
  }

  /** No task is stuck: when nobody is inside, any user of the key may go in. */
  lemma FreeLockOpens(events: seq<Event>, t: nat)
    ensures var s := Run(events);
      t in s.tasks && s.tasks[t].phase.Waiting?
        && (forall u :: u in Users(s, s.tasks[t].key) ==> !s.tasks[u].phase.Inside?)
      ==> Enabled(s, Acquire(t))
  {
    RunKeeps(events);
    var s := Run(events);
    if t in s.tasks && s.tasks[t].phase.Waiting? {
      UsersKnown(s, t);
      assert TaskOk(s, t) && HolderOk(s, s.tasks[t].key);
      var holder := s.flights[s.tasks[t].flight].holder;
      if holder.Some? {
        assert TaskOk(s, holder.value) && holder.value in Users(s, s.tasks[t].key);
      }
    }
  }

  // ---- The table itself ---------------------------------------------------------------

  class FlightTable {
    var locks: map<nat, nat>
    var flights: map<nat, Flight>
    var next: nat
    ghost var tasks: map<nat, Task>

    ghost function View(): State
      reads this
    {
      State(locks, flights, next, tasks)
    }

    constructor ()
      ensures View() == Initial()
    {
      locks, flights, next, tasks := map[], map[], 0, map[];
    }

    /** Find or create the key's flight and count one more user. */
    method EnterHold(t: nat, key: nat) returns (id: nat)
      requires Inv(View()) && Enabled(View(), Enter(t, key))
      modifies this
      ensures View() == Step(old(View()), Enter(t, key)) && Inv(View()) && id == tasks[t].flight
    {
      assert EntryOk(View(), key);
      EnterKeeps(View(), t, key);
      if key !in locks {
        locks, flights, next := locks[key := next], flights[next := Flight(0, None)], next + 1;
      }
      id := locks[key];
      flights := flights[id := flights[id].(users := flights[id].users + 1)];
      tasks := tasks[t := Task(key, id, Waiting)];
    }

    /** The last user to leave removes the entry. */
    method LeaveHold(t: nat, key: nat, id: nat)
      requires Inv(View()) && Enabled(View(), Leave(t)) && tasks[t].key == key && tasks[t].flight == id
      modifies this
      ensures View() == Step(old(View()), Leave(t)) && Inv(View())
    {
      LeaveKeeps(View(), t);
      flights := flights[id := flights[id].(users := flights[id].users - 1)];
      if flights[id].users == 0 {
        locks := locks - {key};
      }
      tasks := tasks - {t};
    }
  }
}
