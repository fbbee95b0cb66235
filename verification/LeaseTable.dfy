/** Leases in the slot table: one row per (name, slot), a lease in slot 0, a semaphore in
  slots `0..n-1` with its fence counter in slot -1.  Rows are never deleted. */
module LeaseTable {
  import opened Basics

  datatype Slot = Slot(holder: string, fence: nat, expires: int)

  /** The rows of one name. */
  type Rows = map<int, Slot>

  const COUNTER := -1
  const FREE := ""
  const EPOCH := 0

  // ---- The statements of one transaction -------------------------------------------

  /** Claim a slot that is missing, expired or already the token's, on SQLite. */
  function TakeSlot(rows: Rows, slot: int, token: string, ttl: int, now: int): (Rows, Option<nat>)
  {
    if slot !in rows then (rows[slot := Slot(token, 1, now + ttl)], Some(1))
    else if rows[slot].expires <= now || rows[slot].holder == token then
      (rows[slot := Slot(token, rows[slot].fence + 1, now + ttl)], Some(rows[slot].fence + 1))
    else (rows, None)
  }

  /** The same on Postgres: an expired placeholder first, then a conditional update. */
  function TakeSlotByPlaceholder(rows: Rows, slot: int, token: string, ttl: int, now: int): (Rows, Option<nat>)
  {
    var placed := if slot in rows then rows else rows[slot := Slot(FREE, 0, EPOCH)];
    if placed[slot].expires <= now || placed[slot].holder == token then
      (placed[slot := Slot(token, placed[slot].fence + 1, now + ttl)], Some(placed[slot].fence + 1))
    else (placed, None)
  }

  function Claim(sqlite: bool, rows: Rows, slot: int, token: string, ttl: int, now: int): (Rows, Option<nat>)
  {
    if sqlite then TakeSlot(rows, slot, token, ttl, now) else TakeSlotByPlaceholder(rows, slot, token, ttl, now)
  }

  function FenceOf(rows: Rows, slot: int): nat { if slot in rows then rows[slot].fence else 0 }

  function NextCounter(rows: Rows): (Rows, nat)
  {
    var fence := FenceOf(rows, COUNTER) + 1;
    (rows[COUNTER := if COUNTER in rows then rows[COUNTER].(fence := fence) else Slot(FREE, fence, EPOCH)], fence)
  }

  predicate Owns(rows: Rows, slot: int, token: string, now: int)
  {
    slot in rows && rows[slot].holder == token && rows[slot].expires > now
  }

  /** The first of the slots `i..n-1` that can be claimed. */
  function TakeFirst(rows: Rows, i: nat, n: nat, token: string, ttl: int, now: int): (Rows, bool)
    decreases n - i
  {
    if i >= n then (rows, false) else
    var (next, fence) := TakeSlot(rows, i, token, ttl, now);
    if fence.Some? then (next, true) else TakeFirst(rows, i + 1, n, token, ttl, now)
  }

  function SemaphoreAcquire(rows: Rows, mine: Option<int>, token: string, n: nat, ttl: int, now: int)
    : (Rows, Option<nat>)
  {
    var (next, taken) := match mine
      case Some(slot) => (TakeSlot(rows, slot, token, ttl, now).0, TakeSlot(rows, slot, token, ttl, now).1.Some?)
      case None => TakeFirst(rows, 0, n, token, ttl, now);
    if taken then (NextCounter(next).0, Some(NextCounter(next).1)) else (rows, None)
  }

  /** The same by either dialect's claims, which may leave placeholders behind. */
  function ClaimFirst(sqlite: bool, rows: Rows, i: nat, n: nat, token: string, ttl: int, now: int): (Rows, bool)
    decreases n - i
  {
    if i >= n then (rows, false) else
    var (next, fence) := Claim(sqlite, rows, i, token, ttl, now);
    if fence.Some? then (next, true) else ClaimFirst(sqlite, next, i + 1, n, token, ttl, now)
  }

  function AcquireBy(sqlite: bool, rows: Rows, mine: Option<int>, token: string, n: nat, ttl: int, now: int)
    : (Rows, Option<nat>)
  {
    var (next, taken) := match mine
      case Some(slot) => (Claim(sqlite, rows, slot, token, ttl, now).0,
        Claim(sqlite, rows, slot, token, ttl, now).1.Some?)
      case None => ClaimFirst(sqlite, rows, 0, n, token, ttl, now);
    if taken then (NextCounter(next).0, Some(NextCounter(next).1)) else (next, None)
  }

  /** Extend (`Some(ttl)`) or end (`None`) the token's unexpired holds in slot 0 or in any slot. */
  function HeldUpdate(rows: Rows, token: string, ttl: Option<int>, anySlot: bool, now: int): (Rows, bool)
  {
    var expires := if ttl.Some? then now + ttl.value else now;
    (map s | s in rows :: if Matched(rows, s, token, anySlot, now) then rows[s].(expires := expires) else rows[s],
     exists s :: s in rows && Matched(rows, s, token, anySlot, now))
  }

  predicate Matched(rows: Rows, s: int, token: string, anySlot: bool, now: int)
    requires s in rows
  {
    (if anySlot then s >= 0 else s == 0) && Owns(rows, s, token, now)
  }

  // ---- The backend -----------------------------------------------------------------

  function RowsOf(table: map<string, Rows>, name: string): Rows { if name in table then table[name] else map[] }

  /** The answer of the unordered, limited query for the token's own slot. */
  predicate OwnSlot(rows: Rows, token: string, now: int, mine: Option<int>)
  {
    match mine
    case Some(s) => s >= 0 && Owns(rows, s, token, now)
    case None => forall s :: s in rows && s >= 0 ==> !Owns(rows, s, token, now)
  }

  method AnyOf<T>(s: set<T>) returns (x: T)
    requires s != {}
    ensures x in s
  {
    x :| x in s;
  }

  class DbLeaseBackend {
    var table: map<string, Rows>
    const sqlite: bool

    constructor (sqlite: bool)
      ensures table == map[] && this.sqlite == sqlite
    {
      this.sqlite := sqlite;
      table := map[];
    }

    method ClaimSlot(name: string, slot: int, token: string, ttl: int, now: int) returns (fence: Option<nat>)
      modifies this
      ensures var rows := RowsOf(old(table), name);
        var (next, answer) := Claim(sqlite, rows, slot, token, ttl, now);
        table == old(table)[name := next] && fence == answer
    {
      var rows := RowsOf(table, name);
      var taken := false;
      if sqlite {
        if slot !in rows {
          rows := rows[slot := Slot(token, 1, now + ttl)];
          taken := true;
        }
      } else if slot !in rows {
        rows := rows[slot := Slot(FREE, 0, EPOCH)];
      }
      if !taken && (rows[slot].expires <= now || rows[slot].holder == token) {
        rows := rows[slot := Slot(token, rows[slot].fence + 1, now + ttl)];
        taken := true;
      }
      table := table[name := rows];
      return if taken then Some(rows[slot].fence) else None;
    }

    method BumpCounter(name: string) returns (fence: nat)
      modifies this
      ensures var (next, answer) := NextCounter(RowsOf(old(table), name));
        table == old(table)[name := next] && fence == answer
    {
      var rows := RowsOf(table, name);
      if COUNTER in rows {
        rows := rows[COUNTER := rows[COUNTER].(fence := rows[COUNTER].fence + 1)];
      } else {
        rows := rows[COUNTER := Slot(FREE, 1, EPOCH)];
      }
      table := table[name := rows];
      fence := rows[COUNTER].fence;
    }

    method FindOwnSlot(name: string, token: string, now: int) returns (mine: Option<int>)
      ensures OwnSlot(RowsOf(table, name), token, now, mine)
    {
      var rows := RowsOf(table, name);
      var left := rows.Keys;
      while left != {}
        invariant left <= rows.Keys
        invariant forall s :: s in rows && s >= 0 && s !in left ==> !Owns(rows, s, token, now)
        decreases left
      {
        var s := AnyOf(left);
        if s >= 0 && Owns(rows, s, token, now) {
          return Some(s);
        }
        left := left - {s};
      }
      return None;
    }

    /** One transaction, alone. */
    method AcquireSemaphore(name: string, token: string, slots: nat, ttl: int, now: int) returns (fence: Option<nat>)
      modifies this
      ensures exists mine ::
        && OwnSlot(RowsOf(old(table), name), token, now, mine)
        && RowsOf(table, name) == AcquireBy(sqlite, RowsOf(old(table), name), mine, token, slots, ttl, now).0
        && fence == AcquireBy(sqlite, RowsOf(old(table), name), mine, token, slots, ttl, now).1
      ensures forall other :: other in old(table) && other != name ==>
        other in table && table[other] == old(table)[other]
    {
      ghost var rows := RowsOf(table, name);
      var mine := FindOwnSlot(name, token, now);
      assert OwnSlot(rows, token, now, mine);
      if mine.Some? {
        var taken := ClaimSlot(name, mine.value, token, ttl, now);
        if taken.None? {
          return None;
        }
        var counter := BumpCounter(name);
        return Some(counter);
      }
      for i := 0 to slots
        invariant forall other :: other in old(table) && other != name ==>
          other in table && table[other] == old(table)[other]
        invariant ClaimFirst(sqlite, rows, 0, slots, token, ttl, now) ==
          ClaimFirst(sqlite, RowsOf(table, name), i, slots, token, ttl, now)
      {
        var taken := ClaimSlot(name, i, token, ttl, now);
        if taken.Some? {
          var counter := BumpCounter(name);
          return Some(counter);
        }
      }
      return None;
    }

    method UpdateHeld(name: string, token: string, ttl: Option<int>, anySlot: bool, now: int) returns (held: bool)
      modifies this
      ensures var (next, answer) := HeldUpdate(RowsOf(old(table), name), token, ttl, anySlot, now);
        RowsOf(table, name) == next && held == answer
      ensures forall other :: other in old(table) && other != name ==>
        other in table && table[other] == old(table)[other]
    {
      var rows := RowsOf(table, name);
      var expires := if ttl.Some? then now + ttl.value else now;
      var left, count := rows.Keys, 0;
      var updated := rows;
      while left != {}
        invariant left <= rows.Keys == updated.Keys
        invariant forall s :: s in left ==> updated[s] == rows[s]
        invariant forall s :: s in rows && s !in left ==>
          updated[s] == if Matched(rows, s, token, anySlot, now) then rows[s].(expires := expires) else rows[s]
        invariant count >= 0 && table == old(table)
        invariant count > 0 <==> exists s :: s in rows && s !in left && Matched(rows, s, token, anySlot, now)
        decreases left
      {
        var s := AnyOf(left);
        if Matched(rows, s, token, anySlot, now) {
          updated := updated[s := rows[s].(expires := expires)];
          count := count + 1;
        }
        left := left - {s};
      }
      table := table[name := updated];
      return count > 0;
    }
  }
}
