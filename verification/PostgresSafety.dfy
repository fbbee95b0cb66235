/** What every interleaving of Postgres lease transactions guarantees. */
module PostgresSafety {
  import opened Basics
  import opened LeaseTable
  import opened PostgresLeases

  // ---- One move --------------------------------------------------------------------

  /** How a committed row may change, at database time `clock`. */
  ghost predicate Step(old_: Slot, new_: Slot, clock: int)
  {
    && (new_.holder != old_.holder ==> old_.expires <= clock && new_.fence == old_.fence + 1)
    && old_.fence <= new_.fence <= old_.fence + 1
  }

  /** Committing transaction `i` grants slot `s`, or counts the grant where `s` is the counter: it is a claim that
      wrote the row. */
  ghost predicate Granting(st: State, i: nat, s: int)
  {
    InPhase(st, i, Finished) && s in st.dirty && s in st.locks && st.locks[s] == i && st.dirty[s] != PLACEHOLDER
  }

  /** A row changes only by a commit; it goes to another holder only once the previous hold
      has expired, and every grant, to another holder or the same, takes the next fence; it is
      never deleted. */
  lemma RowStep(st: State, m: Move, s: int)
    requires Inv(st) && Enabled(st, m) && s in st.committed
    ensures s in Apply(st, m).committed
    ensures Step(st.committed[s], Apply(st, m).committed[s], st.clock)
    ensures Apply(st, m).committed[s] != st.committed[s] ==>
      m.Commit? && s in st.locks && st.locks[s] == m.i
        && (s >= 0 ==> Apply(st, m).committed[s].holder == st.txs[m.i].token)
    ensures m.Commit? && Granting(st, m.i, s) ==> Apply(st, m).committed[s].fence == st.committed[s].fence + 1
  {
    if m.Commit? && Granting(st, m.i, s) {
      GrantStep(st, m.i, s);
    }
    if m.Commit? && s in st.dirty && s in Locked(st, m.i) {
      assert Lawful(st, s);
      assert TxOk(st, m.i);
    }
  }

  /** A committed claim: the row takes the next fence, and a slot is its transaction's until its ttl has passed
      from its clock reading, which lies between the row's lock and the commit. */
  lemma GrantStep(st: State, i: nat, s: int)
    requires Inv(st) && Granting(st, i, s)
    ensures Enabled(st, Commit(i)) && s in Apply(st, Commit(i)).committed
    ensures Apply(st, Commit(i)).committed[s].fence == Committed(st, s).fence + 1
    ensures s >= 0 ==> Apply(st, Commit(i)).committed[s].holder == st.txs[i].token
    ensures s >= 0 ==> st.txs[i].ttl.Some? && s in st.lockedAt && st.lockedAt[s] <= st.txs[i].now <= st.clock
    ensures s >= 0 ==> Apply(st, Commit(i)).committed[s].expires == st.txs[i].now + st.txs[i].ttl.value
  {
    assert TxOk(st, i);
    assert Lawful(st, s) && s in Locked(st, i);
  }

  // ---- Whole runs ------------------------------------------------------------------

  ghost predicate Legal(st: State, moves: seq<Move>)
    decreases |moves|
  {
    moves == [] || (Enabled(st, moves[0]) && Legal(Apply(st, moves[0]), moves[1..]))
  }

  ghost function After(st: State, moves: seq<Move>): State
    requires Legal(st, moves)
    decreases |moves|
  {
    if moves == [] then st else After(Apply(st, moves[0]), moves[1..])
  }

  lemma StartOk(clock: int)
    ensures Inv(Start(clock))
  {
  }

  lemma {:induction false} RunKeeps(st: State, moves: seq<Move>)
    requires Inv(st) && Legal(st, moves)
    ensures Inv(After(st, moves)) && st.clock <= After(st, moves).clock
    decreases |moves|
  {
    if moves != [] {
      MoveKeeps(st, moves[0]);
      ClockOn(st, moves[0]);
      RunKeeps(Apply(st, moves[0]), moves[1..]);
    }
  }

  /** No transaction of this token commits during the run. */
  ghost predicate Quiet(st: State, moves: seq<Move>, token: string)
    requires Legal(st, moves)
    decreases |moves|
  {
    moves == [] ||
    (!(moves[0].Commit? && st.txs[moves[0].i].token == token) && Quiet(Apply(st, moves[0]), moves[1..], token))
  }

  /** Mutual exclusion: from the commit that gave it a slot until its expiry, a token keeps
      the slot, untouched, in every interleaving, unless one of its own transactions commits. */
  lemma {:induction false} HoldStands(st: State, moves: seq<Move>, s: int)
    requires Inv(st) && Legal(st, moves) && s in st.committed && s >= 0
    requires Quiet(st, moves, st.committed[s].holder)
    requires After(st, moves).clock < st.committed[s].expires
    ensures s in After(st, moves).committed && After(st, moves).committed[s] == st.committed[s]
    decreases |moves|
  {
    if moves != [] {
      var next := Apply(st, moves[0]);
      RunKeeps(st, moves);
      MoveKeeps(st, moves[0]);
      RunKeeps(next, moves[1..]);
      RowStep(st, moves[0], s);
      HoldStands(next, moves[1..], s);
    }
  }

  /** Along every run a row's fence never falls, and a different holder has a higher one. */
  lemma {:induction false} TakeoverOutranks(st: State, moves: seq<Move>, s: int)
    requires Inv(st) && Legal(st, moves) && s in st.committed
    ensures s in After(st, moves).committed
    ensures After(st, moves).committed[s].fence >= st.committed[s].fence
    ensures After(st, moves).committed[s].holder != st.committed[s].holder ==>
      After(st, moves).committed[s].fence > st.committed[s].fence
    decreases |moves|
  {
    if moves != [] {
      MoveKeeps(st, moves[0]);
      RowStep(st, moves[0], s);
      TakeoverOutranks(Apply(st, moves[0]), moves[1..], s);
    }
  }

  /** The last of these moves commits a claim that wrote row `s`. */
  ghost predicate GrantsLast(st: State, moves: seq<Move>, s: int)
    requires Legal(st, moves)
    decreases |moves|
  {
    moves != [] &&
    if |moves| > 1 then GrantsLast(Apply(st, moves[0]), moves[1..], s)
    else
      moves[0].Commit? && Granting(st, moves[0].i, s)
  }

  /** Along every run a later grant of a slot, to whichever token, outranks every fence the slot had before, and
      so does what a later semaphore grant takes from the counter. */
  lemma {:induction false} GrantOutranks(st: State, moves: seq<Move>, s: int)
    requires Inv(st) && Legal(st, moves) && GrantsLast(st, moves, s)
    ensures s in After(st, moves).committed && After(st, moves).committed[s].fence > Committed(st, s).fence
    decreases |moves|
  {
    if |moves| > 1 {
      MoveKeeps(st, moves[0]);
      if s in st.committed {
        RowStep(st, moves[0], s);
      } else {
        NewRow(st, moves[0], s);
      }
      GrantOutranks(Apply(st, moves[0]), moves[1..], s);
    } else {
      GrantStep(st, moves[0].i, s);
      assert After(st, moves) == Apply(st, moves[0]);
    }
  }

  /** A row starts with a fence no lower than a placeholder's. */
  lemma NewRow(st: State, m: Move, s: int)
    requires Inv(st) && Enabled(st, m) && s !in st.committed
    ensures Committed(Apply(st, m), s).fence >= PLACEHOLDER.fence
  {
  }

  // ---- Semaphores: every grant is counted ----------------------------------------------

  /** A claim that counts and is about to commit slot `s` has taken the counter. */
  ghost predicate Counted(st: State, i: nat, s: int)
  {
    s >= 0 && Granting(st, i, s) && st.txs[i].counted ==> Granting(st, i, COUNTER)
  }

  predicate SameRow(a: State, b: State, s: int)
  {
    (s in a.dirty <==> s in b.dirty) && (s in a.dirty ==> a.dirty[s] == b.dirty[s])
  }

  lemma SlotWrites(st: State, m: Move, i: nat, s: int)
    requires Inv(st) && Enabled(st, m) && (m.Insert? || m.Update? || m.Count?)
    requires m.i != i && s in st.locks && st.locks[s] == i
    ensures SameRow(st, Apply(st, m), s)
  {
    if m.Update? {
      assert TxOk(st, m.i);
    }
  }

  lemma RowWrites(st: State, m: Move, i: nat, s: int)
    requires Inv(st) && Enabled(st, m) && (m.LockOne? || m.UpdateOne?)
    requires m.i != i && s in st.locks && st.locks[s] == i
    ensures SameRow(st, Apply(st, m), s)
  {
  }

  lemma OthersRows(st: State, m: Move, i: nat, s: int)
    requires Inv(st) && Enabled(st, m) && i in st.txs && Apart(m, i) && s in st.locks && st.locks[s] == i
    ensures SameRow(st, Apply(st, m), s)
  {
    if m.Insert? || m.Update? || m.Count? {
      SlotWrites(st, m, i, s);
    } else if m.LockOne? || m.UpdateOne? {
      RowWrites(st, m, i, s);
    }
  }

  lemma OthersCounted(st: State, m: Move, i: nat, s: int)
    requires Inv(st) && Enabled(st, m) && i in st.txs && Apart(m, i) && Counted(st, i, s)
    ensures Counted(Apply(st, m), i, s)
  {
    OthersLocks(st, m, i);
    if s >= 0 && Granting(Apply(st, m), i, s) && st.txs[i].counted {
      OthersRows(st, m, i, s);
      OthersRows(st, m, i, COUNTER);
    }
  }

  /** A claim that fails, or does not count, ends with nothing to count. */
  lemma UpdateCounted(st: State, i: nat, s: int)
    requires Inv(st) && Enabled(st, Update(i))
    ensures Counted(Apply(st, Update(i)), i, s)
  {
    if s in st.dirty && st.locks[s] == i {
      OnlyPlaceholders(st, i, s);
    }
  }

  lemma CountCounted(st: State, i: nat, s: int)
    requires Inv(st) && Enabled(st, Count(i))
    ensures Counted(Apply(st, Count(i)), i, s)
  {
  }

  lemma OwnCounted(st: State, m: Move, s: int)
    requires Inv(st) && Enabled(st, m) && !m.Tick? && m.i in st.txs
    ensures Counted(Apply(st, m), m.i, s)
  {
    if m.Update? {
      UpdateCounted(st, m.i, s);
    } else if m.Count? {
      CountCounted(st, m.i, s);
    }
  }

  lemma CounterTaken(st: State, m: Move, i: nat, s: int)
    requires Inv(st) && Enabled(st, m) && Counted(st, i, s)
    ensures Counted(Apply(st, m), i, s)
  {
    if i in st.txs {
      if Apart(m, i) {
        OthersCounted(st, m, i, s);
      } else {
        OwnCounted(st, m, s);
      }
    } else {
      assert s in st.locks ==> st.locks[s] != i;
    }
  }

  lemma {:induction false} CountedRun(st: State, moves: seq<Move>, i: nat, s: int)
    requires Inv(st) && Legal(st, moves) && Counted(st, i, s)
    ensures Counted(After(st, moves), i, s)
    decreases |moves|
  {
    if moves != [] {
      MoveKeeps(st, moves[0]);
      CounterTaken(st, moves[0], i, s);
      CountedRun(Apply(st, moves[0]), moves[1..], i, s);
    }
  }

  /** In every run, committing a semaphore's claim of a slot raises the counter row by exactly one. */
  lemma CounterStep(clock: int, moves: seq<Move>, i: nat, s: int)
    requires Legal(Start(clock), moves)
    requires var st := After(Start(clock), moves); s >= 0 && Granting(st, i, s) && st.txs[i].counted
    ensures var st := After(Start(clock), moves);
      && Granting(st, i, COUNTER) && COUNTER in Apply(st, Commit(i)).committed
      && Apply(st, Commit(i)).committed[COUNTER].fence == Committed(st, COUNTER).fence + 1
  {
    StartOk(clock);
    RunKeeps(Start(clock), moves);
    CountedRun(Start(clock), moves, i, s);
    GrantStep(After(Start(clock), moves), i, COUNTER);
  }

  // ---- A refresh never revives a lapsed hold ---------------------------------------

  predicate Holding(phase: Phase) { phase in {HeldReading, HeldScanning, HeldUpdating} }

  /** Rows that match the transaction's WHERE clause on holder and slot. */
  ghost predicate Matches(st: State, tx: Tx, s: int)
  {
    s in st.committed && st.committed[s].holder == tx.token && (if tx.anySlot then s >= 0 else s == 0)
  }

  /** Every matching row is locked by the transaction, or is about to be; and once it has read
      the clock, it had locked them before. */
  ghost predicate LocksFirst(st: State, i: nat)
    requires i in st.txs
  {
    var tx := st.txs[i];
    && (tx.phase == HeldLocking ==> forall s :: Matches(st, tx, s) ==>
      s in tx.pending || (s in st.locks && st.locks[s] == i))
    && (Holding(tx.phase) ==> forall s :: Matches(st, tx, s) ==> s in st.locks && st.locks[s] == i)
    && (tx.phase in {HeldScanning, HeldUpdating} ==> forall s :: Matches(st, tx, s) && s in st.lockedAt ==>
      st.lockedAt[s] <= tx.now)
    && (tx.phase == HeldUpdating ==> forall s ::
      s in st.dirty && s in st.locks && st.locks[s] == i && s in st.lockedAt ==> st.lockedAt[s] <= tx.now)
    && (tx.phase in {HeldFinding, HeldLocking, HeldReading, HeldScanning} ==>
      forall s :: s in st.dirty && s in st.locks ==> st.locks[s] != i)
  }

  /** Refreshing or releasing, as against claiming. */
  predicate Held(tx: Tx) { tx.phase in {HeldFinding, HeldLocking, HeldReading, HeldScanning, HeldUpdating} }

  /** A refresh or release runs beside a claim of the same token only if that token is in `may`. */
  ghost predicate Separate(st: State, may: set<string>)
  {
    && (forall i, j ::
      i in st.txs && j in st.txs && Held(st.txs[i]) && !Held(st.txs[j]) && st.txs[i].token == st.txs[j].token ==>
      st.txs[i].token in may)
    && (forall i :: i in st.txs && Held(st.txs[i]) ==> st.txs[i].token != FREE)
  }

  /** Never beside one: as when each owner awaits its acquire before it refreshes. */
  ghost predicate Alone(st: State) { Separate(st, {}) }

  ghost predicate Inv2(st: State) { Inv(st) && Alone(st) && forall i :: i in st.txs ==> LocksFirst(st, i) }

  predicate Apart(m: Move, i: nat) { m.Tick? || m.i != i }

  /** What a move can do to the locks: nothing, lock one free row, or release its own. */
  ghost predicate LocksMove(st: State, next: State, i: nat)
  {
    || (next.locks == st.locks && next.lockedAt == st.lockedAt)
    || (exists s :: s !in st.locks && next.locks == st.locks[s := i] && next.lockedAt == st.lockedAt[s := st.clock])
    || (next.locks == st.locks - Locked(st, i) && next.lockedAt == st.lockedAt)
  }

  predicate SameLocks(a: State, b: State) { a.locks == b.locks && a.lockedAt == b.lockedAt }

  lemma LockRowMoves(st: State, next: State, s: int, i: nat)
    requires SameLocks(next, LockRow(st, s, i)) || SameLocks(next, st)
    ensures LocksMove(st, next, i)
  {
  }

  lemma RowMoves(st: State, m: Move)
    requires Enabled(st, m) && (m.LockOne? || m.UpdateOne?)
    ensures SameLocks(Apply(st, m), LockRow(st, m.s, m.i)) || SameLocks(Apply(st, m), st)
  {
  }

  lemma SlotMoves(st: State, m: Move)
    requires Enabled(st, m) && (m.Insert? || m.Lock? || m.Count?)
    ensures var s := if m.Count? then COUNTER else st.txs[m.i].order[0];
      SameLocks(Apply(st, m), LockRow(st, s, m.i)) || SameLocks(Apply(st, m), st)
  {
  }

  lemma MoveLocks(st: State, m: Move)
    requires Enabled(st, m) && !m.Tick?
    ensures LocksMove(st, Apply(st, m), m.i)
  {
    if m.LockOne? || m.UpdateOne? {
      RowMoves(st, m);
      LockRowMoves(st, Apply(st, m), m.s, m.i);
    } else if m.Insert? || m.Lock? || m.Count? {
      SlotMoves(st, m);
      LockRowMoves(st, Apply(st, m), if m.Count? then COUNTER else st.txs[m.i].order[0], m.i);
    }
  }

  /** A move of one transaction leaves another one's locks and uncommitted rows as they were. */
  lemma OthersLocks(st: State, m: Move, i: nat)
    requires Inv(st) && Enabled(st, m) && i in st.txs && Apart(m, i)
    ensures i in Apply(st, m).txs && Apply(st, m).txs[i] == st.txs[i]
    ensures forall s :: s in st.locks && st.locks[s] == i ==>
      s in Apply(st, m).locks && Apply(st, m).locks[s] == i && Apply(st, m).lockedAt[s] == st.lockedAt[s]
    ensures forall s :: s in Apply(st, m).locks && Apply(st, m).locks[s] == i ==> s in st.locks && st.locks[s] == i
  {
    OthersTx(st, m, i);
    if !m.Tick? {
      MoveLocks(st, m);
    }
  }

  lemma OthersTx(st: State, m: Move, i: nat)
    requires Enabled(st, m) && i in st.txs && Apart(m, i)
    ensures i in Apply(st, m).txs && Apply(st, m).txs[i] == st.txs[i]
  {
    match m
    case Tick(_) =>
    case UpdateOne(_, _) =>
    case Commit(_) =>
    case _ =>
  }

  lemma OthersDirty(st: State, m: Move, i: nat)
    requires Inv(st) && Enabled(st, m) && i in st.txs && Apart(m, i)
    ensures forall s :: s in st.locks && st.locks[s] == i && s in Apply(st, m).dirty ==> s in st.dirty
  {
  }

  lemma OthersMatch(st: State, m: Move, i: nat)
    requires Inv(st) && Alone(st) && Enabled(st, m) && i in st.txs && Apart(m, i) && Held(st.txs[i])
    ensures forall s :: Matches(Apply(st, m), st.txs[i], s) ==> Matches(st, st.txs[i], s)
  {
    if m.Commit? {
      forall s | Matches(Apply(st, m), st.txs[i], s) ensures Matches(st, st.txs[i], s) {
        if s in st.dirty && s in Locked(st, m.i) {
          assert Lawful(st, s);
        }
      }
    } else {
      OnlyCommits(st, m);
    }
  }

  lemma OnlyCommits(st: State, m: Move)
    requires Enabled(st, m) && !m.Commit?
    ensures Apply(st, m).committed == st.committed
  {
  }

  lemma OthersKeep(st: State, m: Move, i: nat)
    requires Inv2(st) && Enabled(st, m) && i in st.txs && Apart(m, i)
    ensures i in Apply(st, m).txs && LocksFirst(Apply(st, m), i)
  {
    OthersLocks(st, m, i);
    if Held(st.txs[i]) {
      OthersDirty(st, m, i);
      OthersMatch(st, m, i);
      assert LocksFirst(st, i);
      forall s | s in st.locks && st.locks[s] == i ensures s in st.lockedAt {}
    }
  }

  lemma FindKeepsFirst(st: State, i: nat)
    requires Inv2(st) && Enabled(st, Find(i))
    ensures LocksFirst(Apply(st, Find(i)), i)
  {
    var tx := st.txs[i];
    assert LocksFirst(st, i);
    var next := Apply(st, Find(i));
    var found := MatchingRows(st, tx.token, tx.anySlot);
    assert forall s :: Matches(next, next.txs[i], s) ==> s in found;
    if found == {} {
      assert forall s :: s !in found;
    }
  }

  lemma LockedOrLeft(st: State, i: nat, s: int, t: int)
    requires Inv2(st) && Enabled(st, LockOne(i, s)) && Matches(st, st.txs[i], t)
    ensures t in st.txs[i].pending - {s} || (t in Apply(st, LockOne(i, s)).locks
      && Apply(st, LockOne(i, s)).locks[t] == i)
  {
    assert LocksFirst(st, i);
    assert t == s ==> HeldBy(st, s, st.txs[i].token, st.txs[i].anySlot);
  }

  lemma LockOneKeepsFirst(st: State, i: nat, s: int)
    requires Inv2(st) && Enabled(st, LockOne(i, s))
    ensures LocksFirst(Apply(st, LockOne(i, s)), i)
  {
    var tx, next := st.txs[i], Apply(st, LockOne(i, s));
    assert LocksFirst(st, i);
    var left := tx.pending - {s};
    forall t | Matches(next, next.txs[i], t) ensures t in left || (t in next.locks && next.locks[t] == i) {
      LockedOrLeft(st, i, s, t);
    }
    if left == {} {
      assert forall t :: t !in left;
    }
  }

  lemma UpdateOneKeepsFirst(st: State, i: nat, s: int)
    requires Inv2(st) && Enabled(st, UpdateOne(i, s))
    ensures LocksFirst(Apply(st, UpdateOne(i, s)), i)
  {
    var tx, next := st.txs[i], Apply(st, UpdateOne(i, s));
    assert LocksFirst(st, i);
    ReadyToProlong(st, i, s);
    if CanProlong(st, tx, s) {
      assert Matches(st, tx, s);
      assert next.locks == st.locks && next.lockedAt == st.lockedAt;
    }
  }

  lemma ClaimsKeep(st: State, i: nat)
    requires i in st.txs && st.txs[i].phase in {Inserting, Locking, Reading, Updating, Counting, Finished}
    ensures LocksFirst(st, i)
  {
  }

  lemma ClaimMoves(st: State, m: Move)
    requires Inv2(st) && Enabled(st, m) && (m.BeginClaim? || m.Insert? || m.Lock? || m.Update? || m.Count?)
    ensures LocksFirst(Apply(st, m), m.i)
  {
    ClaimsKeep(Apply(st, m), m.i);
  }

  lemma HeldMoves(st: State, m: Move)
    requires Inv2(st) && Enabled(st, m) && (m.BeginHeld? || m.ReadClock? || m.Scan?)
    ensures LocksFirst(Apply(st, m), m.i)
  {
    assert !m.BeginHeld? ==> LocksFirst(st, m.i);
  }

  lemma OwnKeep(st: State, m: Move)
    requires Inv2(st) && Enabled(st, m) && !m.Tick? && m.i in Apply(st, m).txs
    ensures LocksFirst(Apply(st, m), m.i)
  {
    if m.Find? {
      FindKeepsFirst(st, m.i);
    } else if m.LockOne? {
      LockOneKeepsFirst(st, m.i, m.s);
    } else if m.UpdateOne? {
      UpdateOneKeepsFirst(st, m.i, m.s);
    } else if m.BeginHeld? || m.ReadClock? || m.Scan? {
      HeldMoves(st, m);
    } else {
      ClaimMoves(st, m);
    }
  }

  /** While no refresh or release runs beside a claim of its token, every move keeps the order "lock the
      matching rows, then read the clock, then update". */
  lemma AloneKeeps(st: State, m: Move)
    requires Inv2(st) && Enabled(st, m) && Alone(Apply(st, m))
    ensures Inv2(Apply(st, m))
  {
    MoveKeeps(st, m);
    forall i | i in Apply(st, m).txs ensures LocksFirst(Apply(st, m), i) {
      if Apart(m, i) {
        OthersKeep(st, m, i);
      } else {
        OwnKeep(st, m);
      }
    }
  }

  ghost predicate Disciplined(st: State, moves: seq<Move>, may: set<string>)
    requires Legal(st, moves)
    decreases |moves|
  {
    Separate(st, may) && (moves == [] || Disciplined(Apply(st, moves[0]), moves[1..], may))
  }

  lemma {:induction false} AloneRun(st: State, moves: seq<Move>)
    requires Inv2(st) && Legal(st, moves) && Disciplined(st, moves, {})
    ensures Inv2(After(st, moves))
    decreases |moves|
  {
    if moves != [] {
      assert Disciplined(Apply(st, moves[0]), moves[1..], {});
      AloneKeeps(st, moves[0]);
      AloneRun(Apply(st, moves[0]), moves[1..]);
    }
  }

  /** The transaction is about to give an expired hold a later expiry: the hold had lapsed
      when the row's lock was granted. */
  ghost predicate Revives(st: State, i: nat, s: int)
  {
    && InPhase(st, i, HeldUpdating) && s in st.dirty && s in st.committed && s in st.locks && st.locks[s] == i
    && s in st.lockedAt
    && st.committed[s].expires <= st.lockedAt[s] && st.dirty[s].expires > st.committed[s].expires
  }

  /** What a refresh prolongs was unexpired when its row's lock was granted. */
  lemma ProlongsInTime(st: State, i: nat, s: int)
    requires Inv2(st) && InPhase(st, i, HeldUpdating) && s in st.dirty && s in st.committed && st.locks[s] == i
    ensures st.lockedAt[s] < st.committed[s].expires
  {
    assert Lawful(st, s) && LocksFirst(st, i);
  }

  /** In every run in which no refresh or release runs beside a claim of its token, no refresh
      revives a hold that lapsed while it waited for the row's lock. */
  lemma NoRevival(clock: int, moves: seq<Move>, i: nat, s: int)
    requires Legal(Start(clock), moves) && Disciplined(Start(clock), moves, {})
    ensures !Revives(After(Start(clock), moves), i, s)
  {
    var st := After(Start(clock), moves);
    StartOk(clock);
    AloneRun(Start(clock), moves);
    if InPhase(st, i, HeldUpdating) && s in st.dirty && s in st.committed && st.locks[s] == i {
      ProlongsInTime(st, i, s);
    }
  }

  // ---- What a transaction was begun with, and when it read the clock ---------------------

  predicate BeginsTx(m: Move, i: nat) { (m.BeginClaim? || m.BeginHeld?) && m.i == i }

  /** The move that began the transaction now numbered `i`; `before` if none of these did. */
  function Begun(moves: seq<Move>, i: nat, before: Option<Move>): Option<Move>
    decreases |moves|
  {
    if moves == [] then before else Begun(moves[1..], i, if BeginsTx(moves[0], i) then Some(moves[0]) else before)
  }

  /** The database time at transaction `i`'s latest clock reading. */
  ghost function ReadAt(st: State, moves: seq<Move>, i: nat, before: Option<int>): Option<int>
    requires Legal(st, moves)
    decreases |moves|
  {
    if moves == [] then before
    else ReadAt(Apply(st, moves[0]), moves[1..], i, if moves[0] == ReadClock(i) then Some(st.clock) else before)
  }

  /** The transaction is the one that `begun` asked for. */
  ghost predicate AsBegun(st: State, i: nat, begun: Option<Move>)
  {
    i in st.txs ==> begun.Some? && AskedFor(st.txs[i], begun.value)
  }

  predicate AskedFor(tx: Tx, m: Move)
  {
    match m
    case BeginClaim(_, token, ttl, _, counted) =>
      !Held(tx) && tx.token == token && tx.ttl == Some(ttl) && tx.counted == counted
    case BeginHeld(_, token, prolong, anySlot) =>
      Held(tx) && tx.token == token && tx.ttl == prolong && tx.anySlot == anySlot
    case _ => false
  }

  lemma BeginsAsAsked(st: State, m: Move)
    requires Enabled(st, m) && (m.BeginClaim? || m.BeginHeld?)
    ensures AsBegun(Apply(st, m), m.i, Some(m))
  {
  }

  predicate SameTask(a: Tx, b: Tx)
  {
    Held(a) == Held(b) && a.token == b.token && a.ttl == b.ttl && a.counted == b.counted && a.anySlot == b.anySlot
  }

  lemma RowTask(st: State, m: Move)
    requires Enabled(st, m) && (m.LockOne? || m.UpdateOne?)
    ensures SameTask(st.txs[m.i], Apply(st, m).txs[m.i])
  {
  }

  lemma OwnTask(st: State, m: Move)
    requires Enabled(st, m) && !m.Tick? && m.i in st.txs && m.i in Apply(st, m).txs
    ensures SameTask(st.txs[m.i], Apply(st, m).txs[m.i])
  {
    if m.UpdateOne? || m.LockOne? {
      RowTask(st, m);
    } else if m.Insert? || m.Lock? || m.Update? || m.Count? {
      ClaimTask(st, m);
    }
  }

  lemma ClaimTask(st: State, m: Move)
    requires Enabled(st, m) && (m.Insert? || m.Lock? || m.Update? || m.Count?)
    ensures m.i in Apply(st, m).txs && SameTask(st.txs[m.i], Apply(st, m).txs[m.i])
  {
    if m.Update? {
      UpdateTask(st, m.i);
    } else {
      var phase := if m.Insert? then Locking else if m.Lock? then Reading else Finished;
      assert Apply(st, m).txs[m.i] == st.txs[m.i].(phase := phase);
    }
  }

  lemma UpdateTask(st: State, i: nat)
    requires OnSlot(st, i, Updating)
    ensures i in ApplyUpdate(st, i).txs && SameTask(st.txs[i], ApplyUpdate(st, i).txs[i])
  {
  }

  lemma OwnAsBegun(st: State, m: Move, begun: Option<Move>)
    requires Enabled(st, m) && !m.Tick? && m.i in st.txs && AsBegun(st, m.i, begun)
    ensures AsBegun(Apply(st, m), m.i, begun)
  {
    if m.i in Apply(st, m).txs {
      OwnTask(st, m);
    }
  }

  lemma {:induction false} BegunRun(st: State, moves: seq<Move>, i: nat, before: Option<Move>)
    requires Legal(st, moves) && AsBegun(st, i, before)
    ensures AsBegun(After(st, moves), i, Begun(moves, i, before))
    decreases |moves|
  {
    if moves != [] {
      var m, next := moves[0], Apply(st, moves[0]);
      if BeginsTx(m, i) {
        BeginsAsAsked(st, m);
      } else if i in st.txs && Apart(m, i) {
        OthersTxStays(st, m, i);
      } else if i in st.txs {
        OwnAsBegun(st, m, before);
      } else if i in next.txs {
        NoNewTx(st, m, i);
      }
      BegunRun(next, moves[1..], i, if BeginsTx(m, i) then Some(m) else before);
    }
  }

  lemma OthersTxStays(st: State, m: Move, i: nat)
    requires Enabled(st, m) && i in st.txs && Apart(m, i)
    ensures i in Apply(st, m).txs ==> Apply(st, m).txs[i] == st.txs[i]
  {
    OthersTx(st, m, i);
  }

  predicate HasRead(phase: Phase) { phase in {Updating, Counting, HeldScanning, HeldUpdating} }

  /** Whatever transaction `i` goes by, for slot `s`, is its latest clock reading. */
  ghost predicate GoesBy(st: State, i: nat, s: int, read: Option<int>)
  {
    i in st.txs && (HasRead(st.txs[i].phase) || (s >= 0 && Granting(st, i, s))) ==> read == Some(st.txs[i].now)
  }

  lemma OthersGoBy(st: State, m: Move, i: nat, s: int, read: Option<int>)
    requires Inv(st) && Enabled(st, m) && i in st.txs && Apart(m, i) && GoesBy(st, i, s, read)
    ensures GoesBy(Apply(st, m), i, s, read)
  {
    OthersLocks(st, m, i);
    if s >= 0 && Granting(Apply(st, m), i, s) {
      OthersRows(st, m, i, s);
    }
  }

  lemma UpdateGoesBy(st: State, i: nat, s: int, read: Option<int>)
    requires Inv(st) && Enabled(st, Update(i)) && GoesBy(st, i, s, read)
    ensures GoesBy(Apply(st, Update(i)), i, s, read)
  {
    if s in st.dirty && st.locks[s] == i {
      OnlyPlaceholders(st, i, s);
    }
  }

  lemma CountGoesBy(st: State, i: nat, s: int, read: Option<int>)
    requires Inv(st) && Enabled(st, Count(i)) && GoesBy(st, i, s, read)
    ensures GoesBy(Apply(st, Count(i)), i, s, read)
  {
  }

  lemma SlotGoesBy(st: State, m: Move, s: int, read: Option<int>)
    requires Inv(st) && Enabled(st, m) && (m.Insert? || m.Lock?)
    ensures GoesBy(Apply(st, m), m.i, s, read)
  {
  }

  lemma RowGoesBy(st: State, m: Move, s: int, read: Option<int>)
    requires Inv(st) && Enabled(st, m) && (m.LockOne? || m.UpdateOne?) && GoesBy(st, m.i, s, read)
    ensures GoesBy(Apply(st, m), m.i, s, read)
  {
  }

  lemma RestGoesBy(st: State, m: Move, s: int, read: Option<int>)
    requires Inv(st) && Enabled(st, m) && !m.Tick? && !m.Update? && !m.Count? && !m.ReadClock?
    requires m.i in st.txs && GoesBy(st, m.i, s, read)
    ensures GoesBy(Apply(st, m), m.i, s, read)
  {
    if m.LockOne? || m.UpdateOne? {
      RowGoesBy(st, m, s, read);
    } else if m.Insert? || m.Lock? {
      SlotGoesBy(st, m, s, read);
    }
  }

  lemma NewGoesBy(st: State, m: Move, s: int, read: Option<int>)
    requires Inv(st) && Enabled(st, m) && (m.BeginClaim? || m.BeginHeld?)
    ensures GoesBy(Apply(st, m), m.i, s, read)
  {
    assert s in st.locks ==> st.locks[s] != m.i;
  }

  lemma ReadingGoesBy(st: State, i: nat, s: int)
    requires Inv(st) && Enabled(st, ReadClock(i))
    ensures GoesBy(Apply(st, ReadClock(i)), i, s, Some(st.clock))
  {
  }

  lemma GoesByStep(st: State, m: Move, i: nat, s: int, read: Option<int>)
    requires Inv(st) && Enabled(st, m) && GoesBy(st, i, s, read)
    ensures GoesBy(Apply(st, m), i, s, if m == ReadClock(i) then Some(st.clock) else read)
  {
    if i in st.txs && Apart(m, i) {
      OthersGoBy(st, m, i, s, read);
    } else if m == ReadClock(i) {
      ReadingGoesBy(st, i, s);
    } else if m == Update(i) {
      UpdateGoesBy(st, i, s, read);
    } else if m == Count(i) {
      CountGoesBy(st, i, s, read);
    } else if i in st.txs {
      RestGoesBy(st, m, s, read);
    } else if i in Apply(st, m).txs {
      NoNewTx(st, m, i);
      NewGoesBy(st, m, s, read);
    }
  }

  lemma {:induction false} GoesByRun(st: State, moves: seq<Move>, i: nat, s: int, before: Option<int>)
    requires Inv(st) && Legal(st, moves) && GoesBy(st, i, s, before)
    ensures GoesBy(After(st, moves), i, s, ReadAt(st, moves, i, before))
    decreases |moves|
  {
    if moves != [] {
      MoveKeeps(st, moves[0]);
      GoesByStep(st, moves[0], i, s, before);
      GoesByRun(Apply(st, moves[0]), moves[1..], i, s, if moves[0] == ReadClock(i) then Some(st.clock) else before);
    }
  }

  // ---- How long a grant lasts ------------------------------------------------------------

  /** In every run a committed claim of a slot holds it for the ttl it was begun with, counted from its own clock
      reading, and that reading lies between the row's lock and the commit. */
  lemma GrantLasts(clock: int, moves: seq<Move>, i: nat, s: int)
    requires Legal(Start(clock), moves) && s >= 0 && Granting(After(Start(clock), moves), i, s)
    ensures var st := After(Start(clock), moves);
      var (begun, read) := (Begun(moves, i, None), ReadAt(Start(clock), moves, i, None));
      && begun.Some? && begun.value.BeginClaim? && read.Some?
      && s in st.lockedAt && st.lockedAt[s] <= read.value <= st.clock
      && Enabled(st, Commit(i)) && s in Apply(st, Commit(i)).committed
      && Apply(st, Commit(i)).committed[s].holder == begun.value.token
      && Apply(st, Commit(i)).committed[s].expires == read.value + begun.value.ttl
  {
    StartOk(clock);
    RunKeeps(Start(clock), moves);
    BegunRun(Start(clock), moves, i, None);
    GoesByRun(Start(clock), moves, i, s, None);
    GrantStep(After(Start(clock), moves), i, s);
  }

  /** Row `s` is still `row`, or whoever locks it has done so since `row` expired. */
  ghost predicate StillOr(st: State, s: int, row: Slot)
  {
    s in st.committed &&
    (st.committed[s] == row ||
     (row.expires <= st.clock && (s in st.locks && s in st.lockedAt ==> row.expires <= st.lockedAt[s])))
  }

  lemma StillOrStep(st: State, m: Move, s: int, row: Slot)
    requires Inv(st) && Enabled(st, m) && s >= 0 && StillOr(st, s, row)
    requires !(m.Commit? && st.txs[m.i].token == row.holder)
    ensures StillOr(Apply(st, m), s, row)
  {
    RowStep(st, m, s);
    MoveKeeps(st, m);
    if !m.Tick? {
      MoveLocks(st, m);
      if Apply(st, m).committed[s] != st.committed[s] {
        Unlocks(st, m.i, s);
      }
    }
    ClockOn(st, m);
  }

  lemma Unlocks(st: State, i: nat, s: int)
    requires Enabled(st, Commit(i))
    ensures s in st.locks && st.locks[s] == i ==> s !in Apply(st, Commit(i)).locks
  {
  }

  lemma ClockOn(st: State, m: Move)
    requires Enabled(st, m)
    ensures st.clock <= Apply(st, m).clock
  {
    match m
    case UpdateOne(_, _) =>
    case LockOne(_, _) =>
    case _ =>
  }

  lemma {:induction false} StillOrRun(st: State, moves: seq<Move>, s: int, row: Slot)
    requires Inv(st) && Legal(st, moves) && s >= 0 && StillOr(st, s, row) && Quiet(st, moves, row.holder)
    ensures StillOr(After(st, moves), s, row)
    decreases |moves|
  {
    if moves != [] {
      StillOrStep(st, moves[0], s, row);
      MoveKeeps(st, moves[0]);
      StillOrRun(Apply(st, moves[0]), moves[1..], s, row);
    }
  }

  /** Exclusion by clock readings: unless the holder commits something itself, nobody else's claim of the slot
      commits with a clock reading before the hold's expiry. */
  lemma ClaimsWait(st: State, moves: seq<Move>, j: nat, s: int)
    requires Inv(st) && Legal(st, moves) && s in st.committed && s >= 0 && Quiet(st, moves, st.committed[s].holder)
    requires Granting(After(st, moves), j, s) && After(st, moves).txs[j].token != st.committed[s].holder
    ensures st.committed[s].expires <= After(st, moves).txs[j].now
  {
    var end := After(st, moves);
    RunKeeps(st, moves);
    StillOrRun(st, moves, s, st.committed[s]);
    assert Lawful(end, s);
  }

  /** Both together: after token `a`'s grant of a slot, no other token's claim of it reads the clock, in a
      transaction that commits, before the grant's own reading plus its ttl, unless `a` commits something. */
  lemma GrantExcludes(clock: int, moves: seq<Move>, i: nat, s: int, more: seq<Move>, j: nat)
    requires Legal(Start(clock), moves) && s >= 0 && Granting(After(Start(clock), moves), i, s)
    requires Legal(Apply(After(Start(clock), moves), Commit(i)), more)
    requires var (st, granted) := (After(Start(clock), moves), Apply(After(Start(clock), moves), Commit(i)));
      && Quiet(granted, more, st.txs[i].token)
      && Granting(After(granted, more), j, s) && After(granted, more).txs[j].token != st.txs[i].token
    ensures var (begun, read) := (Begun(moves, i, None), ReadAt(Start(clock), moves, i, None));
      && begun.Some? && begun.value.BeginClaim? && read.Some?
      && read.value + begun.value.ttl <=
        After(Apply(After(Start(clock), moves), Commit(i)), more).txs[j].now
  {
    var st := After(Start(clock), moves);
    StartOk(clock);
    RunKeeps(Start(clock), moves);
    GrantLasts(clock, moves, i, s);
    GrantStep(st, i, s);
    MoveKeeps(st, Commit(i));
    ClaimsWait(Apply(st, Commit(i)), more, j, s);
  }

  // ---- Which slot a claim takes ----------------------------------------------------------

  /** By its clock reading, the slot that claim `i` looks at is held, unexpired, by another token. */
  ghost predicate RefusedNow(st: State, i: nat)
  {
    OnSlot(st, i, Updating) &&
    var s := st.txs[i].order[0];
    s in st.committed && st.committed[s].expires > st.txs[i].now && st.committed[s].holder != st.txs[i].token
  }

  /** The slots that were held by others when claim `i` looked, in the order it looked. */
  ghost function Refused(st: State, moves: seq<Move>, i: nat, before: seq<int>): seq<int>
    requires Legal(st, moves)
    decreases |moves|
  {
    if moves == [] then before
    else Refused(Apply(st, moves[0]), moves[1..], i, RefusedBy(st, moves[0], i, before))
  }

  ghost function RefusedBy(st: State, m: Move, i: nat, before: seq<int>): seq<int>
  {
    if BeginsTx(m, i) then []
    else if m == Update(i) && RefusedNow(st, i) then before + [st.txs[i].order[0]]
    else before
  }

  /** A claim has been refused the slots before the one it is at, and is over once it is granted one. */
  ghost predicate InOrder(st: State, i: nat, order: seq<int>, refused: seq<int>)
  {
    i in st.txs && !Held(st.txs[i]) ==>
    var tx := st.txs[i];
    && tx.ttl.Some? && refused + tx.order == order && (tx.phase == Updating ==> EPOCH <= tx.now)
    && if tx.phase in {Counting, Finished} then tx.order != [] ==> Written(st, i, tx.order[0]) else tx.order != []
  }

  /** The transaction has written the slot's row as a grant. */
  ghost predicate Written(st: State, i: nat, s: int)
  {
    s in st.dirty && s in st.locks && st.locks[s] == i && st.dirty[s] != PLACEHOLDER
  }

  lemma OthersInOrder(st: State, m: Move, i: nat, order: seq<int>, refused: seq<int>)
    requires Inv(st) && Enabled(st, m) && i in st.txs && Apart(m, i) && InOrder(st, i, order, refused)
    ensures InOrder(Apply(st, m), i, order, refused)
  {
    OthersLocks(st, m, i);
    if !Held(st.txs[i]) && st.txs[i].phase in {Counting, Finished} && st.txs[i].order != [] {
      OthersRows(st, m, i, st.txs[i].order[0]);
    }
  }

  /** The update takes the slot unless another holds it, and goes on to the next one if it does. */
  lemma UpdateInOrder(st: State, i: nat, order: seq<int>, refused: seq<int>)
    requires Inv(st) && Enabled(st, Update(i)) && InOrder(st, i, order, refused)
    ensures InOrder(Apply(st, Update(i)), i, order, RefusedBy(st, Update(i), i, refused))
  {
    var tx := st.txs[i];
    ReadyToUpdate(st, i);
    assert refused + tx.order == (refused + [tx.order[0]]) + tx.order[1..];
  }

  lemma CountInOrder(st: State, i: nat, order: seq<int>, refused: seq<int>)
    requires Inv(st) && Enabled(st, Count(i)) && InOrder(st, i, order, refused)
    ensures InOrder(Apply(st, Count(i)), i, order, refused)
  {
    assert TxOk(st, i);
  }

  lemma RestInOrder(st: State, m: Move, order: seq<int>, refused: seq<int>)
    requires Inv(st) && Enabled(st, m) && !m.Tick? && !m.Update? && !m.Count? && EPOCH <= st.clock
    requires m.i in st.txs && InOrder(st, m.i, order, refused)
    ensures InOrder(Apply(st, m), m.i, order, refused)
  {
    if m.LockOne? || m.UpdateOne? {
      RowTask(st, m);
    } else if m.Insert? || m.Lock? {
      assert Apply(st, m).txs[m.i] == st.txs[m.i].(phase := if m.Insert? then Locking else Reading);
    }
  }

  lemma InOrderStep(st: State, m: Move, i: nat, order: seq<int>, refused: seq<int>)
    requires Inv(st) && Enabled(st, m) && EPOCH <= st.clock && !BeginsTx(m, i) && InOrder(st, i, order, refused)
    ensures InOrder(Apply(st, m), i, order, RefusedBy(st, m, i, refused))
  {
    if i in st.txs && Apart(m, i) {
      OthersInOrder(st, m, i, order, refused);
    } else if m == Update(i) {
      UpdateInOrder(st, i, order, refused);
    } else if m == Count(i) {
      CountInOrder(st, i, order, refused);
    } else if i in st.txs {
      RestInOrder(st, m, order, refused);
    } else if i in Apply(st, m).txs {
      NoNewTx(st, m, i);
    }
  }

  function OrderOf(begun: Option<Move>): seq<int>
  {
    if begun.Some? && begun.value.BeginClaim? then begun.value.order else []
  }

  lemma BeginInOrder(st: State, m: Move, i: nat)
    requires Enabled(st, m) && BeginsTx(m, i)
    ensures InOrder(Apply(st, m), i, OrderOf(Some(m)), [])
  {
    assert [] + OrderOf(Some(m)) == OrderOf(Some(m));
  }

  lemma {:induction false} InOrderRun(st: State, moves: seq<Move>, i: nat, begun: Option<Move>, refused: seq<int>)
    requires Inv(st) && Legal(st, moves) && EPOCH <= st.clock && InOrder(st, i, OrderOf(begun), refused)
    ensures InOrder(After(st, moves), i, OrderOf(Begun(moves, i, begun)), Refused(st, moves, i, refused))
    decreases |moves|
  {
    if moves != [] {
      var m := moves[0];
      MoveKeeps(st, m);
      ClockOn(st, m);
      if BeginsTx(m, i) {
        BeginInOrder(st, m, i);
      } else {
        InOrderStep(st, m, i, OrderOf(begun), refused);
      }
      InOrderRun(Apply(st, m), moves[1..], i, if BeginsTx(m, i) then Some(m) else begun, RefusedBy(st, m, i, refused));
    }
  }

  /** A claim that is over has written no slot but the one it is at. */
  ghost predicate OnlyLast(st: State, i: nat, s: int)
  {
    i in st.txs && st.txs[i].phase in {Counting, Finished} && s >= 0 && Written(st, i, s) ==>
      st.txs[i].order != [] && st.txs[i].order[0] == s
  }

  lemma UpdateOnlyLast(st: State, i: nat, s: int)
    requires Inv(st) && Enabled(st, Update(i))
    ensures OnlyLast(Apply(st, Update(i)), i, s)
  {
    if s in st.dirty && st.locks[s] == i {
      OnlyPlaceholders(st, i, s);
    }
  }

  lemma OnlyLastStep(st: State, m: Move, i: nat, s: int)
    requires Inv(st) && Enabled(st, m) && OnlyLast(st, i, s)
    ensures OnlyLast(Apply(st, m), i, s)
  {
    if i in st.txs && Apart(m, i) {
      OthersLocks(st, m, i);
      if s in st.locks && st.locks[s] == i {
        OthersRows(st, m, i, s);
      }
    } else if m == Update(i) {
      UpdateOnlyLast(st, i, s);
    } else if m == Count(i) {
      CountOnlyLast(st, i, s);
    } else if i in st.txs {
      NotOver(st, m);
    } else if i in Apply(st, m).txs {
      NoNewTx(st, m, i);
      assert s in st.locks ==> st.locks[s] != i;
    }
  }

  lemma CountOnlyLast(st: State, i: nat, s: int)
    requires Inv(st) && Enabled(st, Count(i)) && OnlyLast(st, i, s)
    ensures OnlyLast(Apply(st, Count(i)), i, s)
  {
  }

  lemma NotOver(st: State, m: Move)
    requires Enabled(st, m) && !m.Tick? && m.i in st.txs && !m.Update? && !m.Count?
    ensures m.i in Apply(st, m).txs ==> Apply(st, m).txs[m.i].phase !in {Counting, Finished}
  {
    if m.LockOne? || m.UpdateOne? {
      RowNotOver(st, m);
    }
  }

  lemma RowNotOver(st: State, m: Move)
    requires Enabled(st, m) && (m.LockOne? || m.UpdateOne?)
    ensures Apply(st, m).txs[m.i].phase !in {Counting, Finished}
  {
  }

  lemma {:induction false} OnlyLastRun(st: State, moves: seq<Move>, i: nat, s: int)
    requires Inv(st) && Legal(st, moves) && OnlyLast(st, i, s)
    ensures OnlyLast(After(st, moves), i, s)
    decreases |moves|
  {
    if moves != [] {
      MoveKeeps(st, moves[0]);
      OnlyLastStep(st, moves[0], i, s);
      OnlyLastRun(Apply(st, moves[0]), moves[1..], i, s);
    }
  }

  /** In every run a claim that is about to commit was granted the first slot of its order that no other token held
      when it looked, and no other slot, or found every one of them held. */
  lemma ClaimsInOrder(clock: int, moves: seq<Move>, i: nat)
    requires EPOCH <= clock && Legal(Start(clock), moves) && InPhase(After(Start(clock), moves), i, Finished)
    ensures var st := After(Start(clock), moves);
      var (order, refused) := (OrderOf(Begun(moves, i, None)), Refused(Start(clock), moves, i, []));
      if |refused| < |order| then
        && refused == order[..|refused|] && Granting(st, i, order[|refused|])
        && forall s :: s >= 0 && Granting(st, i, s) ==> s == order[|refused|]
      else refused == order && forall s :: s >= 0 ==> !Granting(st, i, s)
  {
    var st := After(Start(clock), moves);
    var order, refused := OrderOf(Begun(moves, i, None)), Refused(Start(clock), moves, i, []);
    StartOk(clock);
    RunKeeps(Start(clock), moves);
    assert InOrder(Start(clock), i, [], []);
    InOrderRun(Start(clock), moves, i, None, []);
    assert order == refused + st.txs[i].order;
    forall s | s >= 0 && Granting(st, i, s) ensures st.txs[i].order != [] && st.txs[i].order[0] == s {
      OnlyLastRun(Start(clock), moves, i, s);
    }
    if |refused| < |order| {
      assert order[|refused|] == st.txs[i].order[0];
    } else {
      assert st.txs[i].order == [] && refused + [] == refused;
    }
  }

  // ---- What a refresh or release does ----------------------------------------------------

  /** Every row the update found is still to be visited, is written, or had expired; nothing else is written. */
  ghost predicate Visits(st: State, i: nat)
  {
    InPhase(st, i, HeldUpdating) ==>
    && (forall s :: Matches(st, st.txs[i], s) ==>
      s in st.txs[i].pending || (s in st.dirty && s in st.locks && st.locks[s] == i) ||
      st.committed[s].expires <= st.txs[i].now)
    && (forall s :: s in st.dirty && s in st.locks && st.locks[s] == i ==> Matches(st, st.txs[i], s))
  }

  lemma ScanVisits(st: State, i: nat)
    requires Inv2(st) && Enabled(st, Scan(i))
    ensures Visits(Apply(st, Scan(i)), i)
  {
    assert LocksFirst(st, i);
    var next := Apply(st, Scan(i));
    forall s | Matches(next, next.txs[i], s) ensures s in next.txs[i].pending {
      assert s in MatchingRows(st, st.txs[i].token, st.txs[i].anySlot);
    }
  }

  lemma UpdateOneVisits(st: State, i: nat, s: int)
    requires Inv2(st) && Enabled(st, UpdateOne(i, s)) && Visits(st, i)
    ensures Visits(Apply(st, UpdateOne(i, s)), i)
  {
    var tx, next := st.txs[i], Apply(st, UpdateOne(i, s));
    assert LocksFirst(st, i);
    ReadyToProlong(st, i, s);
    if CanProlong(st, tx, s) {
      assert Matches(st, tx, s);
      ProlongedIs(st, i, s);
      assert next.locks == st.locks && next.dirty.Keys == st.dirty.Keys + {s};
    } else {
      assert next == Visited(st, i, s);
      assert Matches(st, tx, s) ==> st.committed[s].expires <= tx.now;
    }
  }

  /** Another transaction's move leaves a matching row alone: it is locked. */
  lemma OthersCommitted(st: State, m: Move, i: nat, s: int)
    requires Inv2(st) && Enabled(st, m) && InPhase(st, i, HeldUpdating) && Apart(m, i) && Matches(st, st.txs[i], s)
    ensures s in Apply(st, m).committed && Apply(st, m).committed[s] == st.committed[s]
  {
    assert LocksFirst(st, i);
    RowStep(st, m, s);
  }

  lemma OthersVisit(st: State, m: Move, i: nat)
    requires Inv2(st) && Enabled(st, m) && i in st.txs && Apart(m, i) && Visits(st, i)
    ensures Visits(Apply(st, m), i)
  {
    var next := Apply(st, m);
    OthersLocks(st, m, i);
    if InPhase(st, i, HeldUpdating) {
      OthersMatch(st, m, i);
      forall s | Matches(st, st.txs[i], s) ensures next.committed[s] == st.committed[s] && s in next.committed {
        OthersCommitted(st, m, i, s);
      }
      forall s | s in st.locks && st.locks[s] == i ensures SameRow(st, next, s) {
        OthersRows(st, m, i, s);
      }
      WrittenMatch(st, next, i);
    }
  }

  lemma WrittenMatch(st: State, next: State, i: nat)
    requires InPhase(st, i, HeldUpdating) && i in next.txs && next.txs[i] == st.txs[i] && Visits(st, i)
    requires forall s :: Matches(next, st.txs[i], s) ==> Matches(st, st.txs[i], s)
    requires forall s :: Matches(st, st.txs[i], s) ==> s in next.committed && next.committed[s] == st.committed[s]
    requires forall s :: s in st.locks && st.locks[s] == i ==> s in next.locks && next.locks[s] == i
    requires forall s :: s in next.locks && next.locks[s] == i ==> s in st.locks && st.locks[s] == i
    requires forall s :: s in st.locks && st.locks[s] == i ==> SameRow(st, next, s)
    ensures Visits(next, i)
  {
  }

  lemma VisitsStep(st: State, m: Move, i: nat)
    requires Inv2(st) && Enabled(st, m) && Visits(st, i)
    ensures Visits(Apply(st, m), i)
  {
    if i in st.txs && Apart(m, i) {
      OthersVisit(st, m, i);
    } else if m == Scan(i) {
      ScanVisits(st, i);
    } else if m.UpdateOne? && m.i == i {
      UpdateOneVisits(st, i, m.s);
    } else if !Apart(m, i) {
      NotUpdating(st, m, i);
    } else if i in Apply(st, m).txs {
      NoNewTx(st, m, i);
    }
  }

  lemma ClaimsNotUpdating(st: State, m: Move)
    requires Enabled(st, m) && (m.Insert? || m.Lock? || m.Update? || m.Count?)
    ensures !InPhase(Apply(st, m), m.i, HeldUpdating)
  {
  }

  lemma NotUpdating(st: State, m: Move, i: nat)
    requires Enabled(st, m) && !m.Tick? && m.i == i && !m.Scan? && !m.UpdateOne?
    ensures !InPhase(Apply(st, m), i, HeldUpdating)
  {
    if m.Insert? || m.Lock? || m.Update? || m.Count? {
      ClaimsNotUpdating(st, m);
    }
  }

  lemma {:induction false} VisitsRun(st: State, moves: seq<Move>, i: nat)
    requires Inv2(st) && Legal(st, moves) && Disciplined(st, moves, {}) && Visits(st, i)
    ensures Visits(After(st, moves), i) && Inv2(After(st, moves))
    decreases |moves|
  {
    if moves != [] {
      assert Disciplined(Apply(st, moves[0]), moves[1..], {});
      AloneKeeps(st, moves[0]);
      VisitsStep(st, moves[0], i);
      VisitsRun(Apply(st, moves[0]), moves[1..], i);
    }
  }

  /** What a refresh makes of a hold that is unexpired at its clock reading, and a release likewise. */
  function Moved(row: Slot, prolong: Option<int>, read: int): Slot
  {
    row.(expires := if prolong.Some? then read + prolong.value else read)
  }

  /** In every run in which no refresh or release runs beside a claim of its token: committing one moves the expiry
      of exactly the unexpired holds of its token, all of them, to its clock reading, plus the ttl for a refresh. */
  lemma HeldCommits(clock: int, moves: seq<Move>, i: nat, s: int)
    requires Legal(Start(clock), moves) && Disciplined(Start(clock), moves, {})
    requires Enabled(After(Start(clock), moves), Commit(i)) && Held(After(Start(clock), moves).txs[i])
    ensures var st := After(Start(clock), moves);
      var (begun, read) := (Begun(moves, i, None), ReadAt(Start(clock), moves, i, None));
      && begun.Some? && begun.value.BeginHeld? && read.Some? && read.value <= st.clock
      && (s in Apply(st, Commit(i)).committed <==> s in st.committed)
      && (s in st.committed ==>
        var row, b := st.committed[s], begun.value;
        Apply(st, Commit(i)).committed[s] ==
          if row.holder == b.token && (if b.anySlot then s >= 0 else s == 0) && row.expires > read.value
          then Moved(row, b.prolong, read.value) else row)
  {
    var st := After(Start(clock), moves);
    StartOk(clock);
    VisitsRun(Start(clock), moves, i);
    BegunRun(Start(clock), moves, i, None);
    GoesByRun(Start(clock), moves, i, s, None);
    CommitsVisited(st, i, s);
  }

  lemma CommitsVisited(st: State, i: nat, s: int)
    requires Inv2(st) && Visits(st, i) && Enabled(st, Commit(i)) && InPhase(st, i, HeldUpdating)
    ensures var (tx, next) := (st.txs[i], Apply(st, Commit(i)));
      && tx.now <= st.clock && (s in next.committed <==> s in st.committed)
      && (s in st.committed ==>
        next.committed[s] ==
          if Matches(st, tx, s) && st.committed[s].expires > tx.now then Moved(st.committed[s], tx.ttl, tx.now)
          else st.committed[s])
  {
    assert TxOk(st, i);
    if s in st.dirty && s in Locked(st, i) {
      assert Lawful(st, s);
    }
  }

  /** So a release that commits leaves its token no unexpired hold of those slots. */
  lemma ReleaseEnds(clock: int, moves: seq<Move>, i: nat, s: int)
    requires Legal(Start(clock), moves) && Disciplined(Start(clock), moves, {})
    requires Enabled(After(Start(clock), moves), Commit(i)) && Held(After(Start(clock), moves).txs[i])
    requires After(Start(clock), moves).txs[i].ttl.None?
    ensures var (st, next) := (After(Start(clock), moves), Apply(After(Start(clock), moves), Commit(i)));
      s in next.committed && next.committed[s].holder == st.txs[i].token
      && (if st.txs[i].anySlot then s >= 0 else s == 0) ==>
      next.committed[s].expires <= st.clock
  {
    HeldCommits(clock, moves, i, s);
    BegunRun(Start(clock), moves, i, None);
  }

  // ---- The condition matters -------------------------------------------------------

  function RefreshTx(t: string, phase: Phase, pending: set<int>): Tx
  {
    Tx(t, Some(100), [], false, false, phase, 0, pending)
  }

  function AcquireTx(t: string, phase: Phase): Tx { Tx(t, Some(5), [0], false, false, phase, 0, {}) }

  function RefreshMoves(t: string): seq<Move> { [BeginHeld(1, t, Some(100), false), Find(1), ReadClock(1)] }

  function AcquireMoves(t: string): seq<Move>
  {
    [BeginClaim(2, t, 5, [0], false), Insert(2), Lock(2), ReadClock(2), Update(2), Commit(2)]
  }

  function LateMoves(): seq<Move> { [Tick(10), Scan(1), UpdateOne(1, 0)] }

  lemma LegalCons(st: State, m: Move, moves: seq<Move>)
    requires Enabled(st, m) && Legal(Apply(st, m), moves)
    ensures Legal(st, [m] + moves) && After(st, [m] + moves) == After(Apply(st, m), moves)
  {
    assert ([m] + moves)[1..] == moves;
  }

  lemma {:induction false} LegalAppend(st: State, a: seq<Move>, b: seq<Move>)
    requires Legal(st, a) && Legal(After(st, a), b)
    ensures Legal(st, a + b) && After(st, a + b) == After(After(st, a), b)
    decreases |a|
  {
    if a == [] {
      assert a + b == b;
    } else {
      LegalAppend(Apply(st, a[0]), a[1..], b);
      LegalCons(st, a[0], a[1..] + b);
      assert a + b == [a[0]] + (a[1..] + b);
    }
  }

  /** A refresh starts before its token holds anything, and reads the clock at 0. */
  lemma RefreshWaits(t: string)
    ensures Legal(Start(0), RefreshMoves(t))
    ensures After(Start(0), RefreshMoves(t)) ==
      State(map[], map[], map[], map[], map[1 := RefreshTx(t, HeldScanning, {})], 0)
  {
    var a, b := State(map[], map[], map[], map[], map[1 := RefreshTx(t, HeldFinding, {})], 0),
      State(map[], map[], map[], map[], map[1 := RefreshTx(t, HeldReading, {})], 0);
    var end := State(map[], map[], map[], map[], map[1 := RefreshTx(t, HeldScanning, {})], 0);
    assert Apply(Start(0), BeginHeld(1, t, Some(100), false)) == a;
    assert MatchingRows(a, t, false) == {};
    assert Apply(a, Find(1)) == b;
    assert Apply(b, ReadClock(1)) == end;
    LegalCons(b, ReadClock(1), []);
    LegalCons(a, Find(1), [ReadClock(1)]);
    LegalCons(Start(0), BeginHeld(1, t, Some(100), false), [Find(1), ReadClock(1)]);
  }

  function Mid(t: string, locked: bool, dirty: Rows, phase: Phase): State
  {
    State(map[], if locked then map[0 := 2] else map[], if locked then map[0 := 0] else map[], dirty,
          map[1 := RefreshTx(t, HeldScanning, {}), 2 := AcquireTx(t, phase)], 0)
  }

  lemma AcquireLocks(t: string)
    ensures var st := State(map[], map[], map[], map[], map[1 := RefreshTx(t, HeldScanning, {})], 0);
      && Enabled(st, BeginClaim(2, t, 5, [0], false))
      && Apply(st, BeginClaim(2, t, 5, [0], false)) == Mid(t, false, map[], Inserting)
      && Enabled(Mid(t, false, map[], Inserting), Insert(2))
      && Apply(Mid(t, false, map[], Inserting), Insert(2)) == Mid(t, true, map[0 := PLACEHOLDER], Locking)
      && Enabled(Mid(t, true, map[0 := PLACEHOLDER], Locking), Lock(2))
      && Apply(Mid(t, true, map[0 := PLACEHOLDER], Locking), Lock(2)) == Mid(t, true, map[0 := PLACEHOLDER], Reading)
  {
  }

  lemma AcquireReads(t: string)
    ensures Enabled(Mid(t, true, map[0 := PLACEHOLDER], Reading), ReadClock(2))
    ensures Apply(Mid(t, true, map[0 := PLACEHOLDER], Reading), ReadClock(2)) ==
      Mid(t, true, map[0 := PLACEHOLDER], Updating)
    ensures Enabled(Mid(t, true, map[0 := PLACEHOLDER], Updating), Update(2))
    ensures Apply(Mid(t, true, map[0 := PLACEHOLDER], Updating), Update(2)) ==
      Mid(t, true, map[0 := Slot(t, 1, 5)], Finished)
  {
    assert map[0 := PLACEHOLDER][0 := Slot(t, 1, 5)] == map[0 := Slot(t, 1, 5)];
  }

  lemma AcquireClaims(t: string)
    ensures var end := State(map[0 := Slot(t, 1, 5)], map[], map[0 := 0], map[],
      map[1 := RefreshTx(t, HeldScanning, {})], 0);
      && Enabled(Mid(t, true, map[0 := Slot(t, 1, 5)], Finished), Commit(2))
      && Apply(Mid(t, true, map[0 := Slot(t, 1, 5)], Finished), Commit(2)) == end
  {
    assert Locked(Mid(t, true, map[0 := Slot(t, 1, 5)], Finished), 2) == {0};
  }

  /** The same token acquires slot 0 for five ticks. */
  lemma AcquireRuns(t: string)
    ensures var st := State(map[], map[], map[], map[], map[1 := RefreshTx(t, HeldScanning, {})], 0);
      && Legal(st, AcquireMoves(t))
      && After(st, AcquireMoves(t)) == State(map[0 := Slot(t, 1, 5)], map[], map[0 := 0], map[],
        map[1 := RefreshTx(t, HeldScanning, {})], 0)
  {
    var st := State(map[], map[], map[], map[], map[1 := RefreshTx(t, HeldScanning, {})], 0);
    AcquireLocks(t);
    AcquireReads(t);
    AcquireClaims(t);
    LegalCons(Mid(t, true, map[0 := Slot(t, 1, 5)], Finished), Commit(2), []);
    LegalCons(Mid(t, true, map[0 := PLACEHOLDER], Updating), Update(2), [Commit(2)]);
    LegalCons(Mid(t, true, map[0 := PLACEHOLDER], Reading), ReadClock(2), [Update(2), Commit(2)]);
    LegalCons(Mid(t, true, map[0 := PLACEHOLDER], Locking), Lock(2), [ReadClock(2), Update(2), Commit(2)]);
    LegalCons(Mid(t, false, map[], Inserting), Insert(2), [Lock(2), ReadClock(2), Update(2), Commit(2)]);
    LegalCons(st, BeginClaim(2, t, 5, [0], false), [Insert(2), Lock(2), ReadClock(2), Update(2), Commit(2)]);
  }

  /** Ten ticks later, five after the hold lapsed, the refresh updates it. */
  lemma RefreshScans(t: string)
    ensures var rows: Rows := map[0 := Slot(t, 1, 5)];
      var a := State(rows, map[], map[0 := 0], map[], map[1 := RefreshTx(t, HeldScanning, {})], 10);
      Enabled(a, Scan(1)) && Apply(a, Scan(1)) ==
        State(rows, map[], map[0 := 0], map[], map[1 := RefreshTx(t, HeldUpdating, {0})], 10)
  {
    var a := State(map[0 := Slot(t, 1, 5)], map[], map[0 := 0], map[], map[1 := RefreshTx(t, HeldScanning, {})], 10);
    assert MatchingRows(a, t, false) == {0};
  }

  lemma RefreshWrites(t: string)
    ensures var rows: Rows := map[0 := Slot(t, 1, 5)];
      var b := State(rows, map[], map[0 := 0], map[], map[1 := RefreshTx(t, HeldUpdating, {0})], 10);
      Enabled(b, UpdateOne(1, 0)) && Apply(b, UpdateOne(1, 0)) ==
        State(rows, map[0 := 1], map[0 := 10], map[0 := Slot(t, 1, 100)], map[1 := RefreshTx(t, HeldUpdating, {})], 10)
  {
    var b := State(map[0 := Slot(t, 1, 5)], map[], map[0 := 0], map[], map[1 := RefreshTx(t, HeldUpdating, {0})], 10);
    assert {0} - {0} == {} && map[0 := 0][0 := 10] == map[0 := 10];
    assert CanProlong(b, b.txs[1], 0);
  }

  lemma RefreshUpdates(t: string)
    ensures var st := State(map[0 := Slot(t, 1, 5)], map[], map[0 := 0], map[],
      map[1 := RefreshTx(t, HeldScanning, {})], 0);
      Legal(st, LateMoves()) && Revives(After(st, LateMoves()), 1, 0)
  {
    var rows: Rows := map[0 := Slot(t, 1, 5)];
    var st := State(rows, map[], map[0 := 0], map[], map[1 := RefreshTx(t, HeldScanning, {})], 0);
    var a := State(rows, map[], map[0 := 0], map[], map[1 := RefreshTx(t, HeldScanning, {})], 10);
    var b := State(rows, map[], map[0 := 0], map[], map[1 := RefreshTx(t, HeldUpdating, {0})], 10);
    var c := State(rows, map[0 := 1], map[0 := 10], map[0 := Slot(t, 1, 100)],
      map[1 := RefreshTx(t, HeldUpdating, {})], 10);
    assert Apply(st, Tick(10)) == a;
    RefreshScans(t);
    RefreshWrites(t);
    LegalCons(b, UpdateOne(1, 0), []);
    LegalCons(a, Scan(1), [UpdateOne(1, 0)]);
    LegalCons(st, Tick(10), [Scan(1), UpdateOne(1, 0)]);
  }

  function Trace(t: string): seq<Move> { RefreshMoves(t) + AcquireMoves(t) + LateMoves() }

  /** Without the condition it fails: a refresh whose locking statement matched no row, since
      the same token was only acquiring at the same time, revives a hold that lapsed since. */
  lemma SharedTokenRevives(t: string)
    ensures Legal(Start(0), Trace(t)) && Revives(After(Start(0), Trace(t)), 1, 0)
  {
    RefreshWaits(t);
    AcquireRuns(t);
    RefreshUpdates(t);
    LegalAppend(Start(0), RefreshMoves(t), AcquireMoves(t));
    LegalAppend(Start(0), RefreshMoves(t) + AcquireMoves(t), LateMoves());
  }

  ghost predicate Only(st: State, t: string) { forall i :: i in st.txs ==> st.txs[i].token == t }

  ghost predicate Begins(m: Move, t: string) { (m.BeginClaim? || m.BeginHeld?) ==> m.token == t }

  lemma TokenStays(st: State, m: Move)
    requires Enabled(st, m) && !m.Tick? && m.i in st.txs && m.i in Apply(st, m).txs
    ensures Apply(st, m).txs[m.i].token == st.txs[m.i].token
  {
    match m
    case UpdateOne(_, _) =>
    case LockOne(_, _) =>
    case _ =>
  }

  lemma NoNewTx(st: State, m: Move, i: nat)
    requires Enabled(st, m) && i in Apply(st, m).txs && i !in st.txs
    ensures !m.Tick? && m.i == i && (m.BeginClaim? || m.BeginHeld?) && Apply(st, m).txs[i].token == m.token
  {
    match m
    case UpdateOne(_, _) =>
    case LockOne(_, _) =>
    case _ =>
  }

  lemma OnlyStays(st: State, m: Move, t: string)
    requires Only(st, t) && Enabled(st, m) && Begins(m, t)
    ensures Only(Apply(st, m), t)
  {
    forall i | i in Apply(st, m).txs ensures Apply(st, m).txs[i].token == t {
      if i !in st.txs {
        NoNewTx(st, m, i);
      } else if Apart(m, i) {
        OthersTx(st, m, i);
      } else {
        TokenStays(st, m);
      }
    }
  }

  lemma {:induction false} OnlyDisciplined(st: State, moves: seq<Move>, t: string, may: set<string>)
    requires Only(st, t) && Legal(st, moves) && t in may && t != FREE && forall k :: 0 <= k < |moves| ==>
      Begins(moves[k], t)
    ensures Disciplined(st, moves, may)
    decreases |moves|
  {
    if moves != [] {
      OnlyStays(st, moves[0], t);
      OnlyDisciplined(Apply(st, moves[0]), moves[1..], t, may);
    }
  }

  /** No run in which only tokens of `may` refresh or release beside their own claims revives a hold. */
  ghost predicate FreeOfRevival(may: set<string>)
  {
    forall clock, moves, i, s :: Legal(Start(clock), moves) && Disciplined(Start(clock), moves, may) ==>
      !Revives(After(Start(clock), moves), i, s)
  }

  /** The overlap is the only danger: runs are free of revival exactly where it is allowed to no token. */
  lemma NoRevivalIff(may: set<string>)
    ensures FreeOfRevival(may) <==> forall t :: t in may ==> t == FREE
  {
    if t :| t in may && t != FREE {
      SharedTokenRevives(t);
      OnlyDisciplined(Start(0), Trace(t), t, may);
    } else {
      forall clock, moves, i, s | Legal(Start(clock), moves) && Disciplined(Start(clock), moves, may)
        ensures !Revives(After(Start(clock), moves), i, s)
      {
        NeverFree(Start(clock), moves, may);
        NoRevival(clock, moves, i, s);
      }
    }
  }

  lemma {:induction false} NeverFree(st: State, moves: seq<Move>, may: set<string>)
    requires Legal(st, moves) && Disciplined(st, moves, may) && forall t :: t in may ==> t == FREE
    ensures Disciplined(st, moves, {})
    decreases |moves|
  {
    if moves != [] {
      NeverFree(Apply(st, moves[0]), moves[1..], may);
    }
  }
}
