/** The slot table under concurrent Postgres transactions: row locks, clock reads after the
  lock, conditional updates and commits, interleaved in any order while time passes. */
module PostgresLeases {
  import opened Basics
  import opened LeaseTable

  /** Where a transaction stands.  A claim goes through the first five phases for each slot it
      tries; a refresh or release through the `Held` phases. */
  datatype Phase =
    | Inserting | Locking | Reading | Updating | Counting
    | HeldFinding | HeldLocking | HeldReading | HeldScanning | HeldUpdating
    | Finished

  /** `order`: the slots a claim still tries.  `ttl` is `None` for a release.  `pending`: the
      rows of the running locking or updating statement still to be visited. */
  datatype Tx = Tx(token: string, ttl: Option<int>, order: seq<int>, counted: bool, anySlot: bool, phase: Phase,
      now: int, pending: set<int>)

  /** The rows of one name: committed versions, row locks with the time they were granted,
      uncommitted versions of locked rows, running transactions and the database clock. */
  datatype State = State(committed: Rows, locks: map<int, nat>, lockedAt: map<int, int>, dirty: Rows,
      txs: map<nat, Tx>, clock: int)

  const PLACEHOLDER := Slot(FREE, 0, EPOCH)

  /** The version of a row that its lock holder, or anyone when it is unlocked, works on. */
  function Current(st: State, s: int): Slot
  {
    if s in st.dirty then st.dirty[s] else if s in st.committed then st.committed[s] else PLACEHOLDER
  }

  function Committed(st: State, s: int): Slot { if s in st.committed then st.committed[s] else PLACEHOLDER }

  predicate Exists(st: State, s: int) { s in st.dirty || s in st.committed }

  predicate Free(st: State, s: int, i: nat) { s in st.locks ==> st.locks[s] == i }

  /** Does the row match the WHERE clause on holder and slot? */
  predicate HeldBy(st: State, s: int, token: string, anySlot: bool)
  {
    Exists(st, s) && Current(st, s).holder == token && (if anySlot then s >= 0 else s == 0)
  }

  function MatchingRows(st: State, token: string, anySlot: bool): set<int>
  {
    set s | s in st.committed && st.committed[s].holder == token && (if anySlot then s >= 0 else s == 0)
  }

  function LockRow(st: State, s: int, i: nat): State
  {
    if s in st.locks then st else st.(locks := st.locks[s := i], lockedAt := st.lockedAt[s := st.clock])
  }

  function SetTx(st: State, i: nat, tx: Tx): State { st.(txs := st.txs[i := tx]) }

  // ---- Moves -----------------------------------------------------------------------

  datatype Move =
    | Tick(span: nat)
    | BeginClaim(i: nat, token: string, ttl: int, order: seq<int>, counted: bool)
    | BeginHeld(i: nat, token: string, prolong: Option<int>, anySlot: bool)
    | Insert(i: nat) | Lock(i: nat) | ReadClock(i: nat) | Update(i: nat) | Count(i: nat)
    | Find(i: nat) | LockOne(i: nat, s: int) | Scan(i: nat) | UpdateOne(i: nat, s: int)
    | Commit(i: nat) | Abort(i: nat)

  predicate InPhase(st: State, i: nat, phase: Phase) { i in st.txs && st.txs[i].phase == phase }

  predicate OnSlot(st: State, i: nat, phase: Phase) { InPhase(st, i, phase) && st.txs[i].order != [] }

  predicate Enabled(st: State, m: Move)
  {
    match m
    case Tick(_) => true
    case BeginClaim(i, _, _, order, _) => i !in st.txs && forall k :: 0 <= k < |order| ==> order[k] >= 0
    case BeginHeld(i, _, _, _) => i !in st.txs
    // ON CONFLICT DO NOTHING waits for a concurrent uncommitted insert of the same row.
    case Insert(i) => OnSlot(st, i, Inserting)
      && (st.txs[i].order[0] in st.committed || Free(st, st.txs[i].order[0], i))
    case Lock(i) => OnSlot(st, i, Locking) && Exists(st, st.txs[i].order[0]) && Free(st, st.txs[i].order[0], i)
    case ReadClock(i) => OnSlot(st, i, Reading) || (InPhase(st, i, HeldReading) && st.txs[i].pending == {})
    case Update(i) => OnSlot(st, i, Updating)
    case Count(i) => InPhase(st, i, Counting) && Free(st, COUNTER, i)
    case Find(i) => InPhase(st, i, HeldFinding)
    case LockOne(i, s) => InPhase(st, i, HeldLocking) && s in st.txs[i].pending && Free(st, s, i)
    case Scan(i) => InPhase(st, i, HeldScanning)
    case UpdateOne(i, s) => InPhase(st, i, HeldUpdating) && s in st.txs[i].pending && Free(st, s, i)
    case Commit(i) => InPhase(st, i, Finished) || (InPhase(st, i, HeldUpdating) && st.txs[i].pending == {})
    case Abort(i) => i in st.txs
  }

  /** The statement that claims the slot: a conditional update of the locked row. */
  function ApplyUpdate(st: State, i: nat): State
    requires OnSlot(st, i, Updating)
  {
    var tx := st.txs[i];
    var s := tx.order[0];
    var row := Current(st, s);
    if CanClaim(tx, row) then
      SetTx(st, i, tx.(phase := if tx.counted then Counting else Finished))
        .(dirty := st.dirty[s := Slot(tx.token, row.fence + 1, tx.now + tx.ttl.value)])
    else
      SetTx(st, i, tx.(order := tx.order[1..], phase := if tx.order[1..] == [] then Finished else Inserting))
  }

  /** Lock one row the statement found, unless it no longer matches. */
  function ApplyLockOne(st: State, i: nat, s: int): State
    requires i in st.txs
  {
    var tx := st.txs[i];
    var left := tx.pending - {s};
    var next := SetTx(st, i, tx.(pending := left, phase := if left == {} then HeldReading else HeldLocking));
    if HeldBy(st, s, tx.token, tx.anySlot) then LockRow(next, s, i) else next
  }

  /** Update one row the statement found, unless it no longer matches; waits for its lock. */
  function ApplyUpdateOne(st: State, i: nat, s: int): State
    requires i in st.txs
  {
    var tx := st.txs[i];
    var next := SetTx(st, i, tx.(pending := tx.pending - {s}));
    var row := Current(st, s);
    if CanProlong(st, tx, s) then
      var locked := LockRow(next, s, i);
      locked.(dirty := st.dirty[s := row.(expires := if tx.ttl.Some? then tx.now + tx.ttl.value else tx.now)])
    else next
  }

  function Locked(st: State, i: nat): set<int> { set s | s in st.locks && st.locks[s] == i }

  function End(st: State, i: nat): State
  {
    st.(locks := st.locks - Locked(st, i), dirty := st.dirty - Locked(st, i), txs := st.txs - {i})
  }

  function Apply(st: State, m: Move): State
    requires Enabled(st, m)
  {
    match m
    case Tick(span) => st.(clock := st.clock + span)
    case BeginClaim(i, token, ttl, order, counted) =>
      SetTx(st, i, Tx(token, Some(ttl), order, counted, false,
        if order == [] then Finished else Inserting, st.clock, {}))
    case BeginHeld(i, token, prolong, anySlot) =>
      SetTx(st, i, Tx(token, prolong, [], false, anySlot, HeldFinding, st.clock, {}))
    case Insert(i) =>
      var s, next := st.txs[i].order[0], SetTx(st, i, st.txs[i].(phase := Locking));
      if Exists(st, s) then next else LockRow(next, s, i).(dirty := st.dirty[s := PLACEHOLDER])
    case Lock(i) => LockRow(SetTx(st, i, st.txs[i].(phase := Reading)), st.txs[i].order[0], i)
    case ReadClock(i) =>
      SetTx(st, i, st.txs[i].(now := st.clock, phase := if st.txs[i].phase == Reading then Updating else HeldScanning))
    case Update(i) => ApplyUpdate(st, i)
    case Count(i) =>
      var row := Current(st, COUNTER);
      LockRow(SetTx(st, i, st.txs[i].(phase := Finished)), COUNTER, i)
        .(dirty := st.dirty[COUNTER := row.(fence := row.fence + 1)])
    case Find(i) =>
      var found := MatchingRows(st, st.txs[i].token, st.txs[i].anySlot);
      SetTx(st, i, st.txs[i].(pending := found, phase := if found == {} then HeldReading else HeldLocking))
    case LockOne(i, s) => ApplyLockOne(st, i, s)
    case Scan(i) => SetTx(st, i, st.txs[i].(pending := MatchingRows(st, st.txs[i].token, st.txs[i].anySlot),
      phase := HeldUpdating))
    case UpdateOne(i, s) => ApplyUpdateOne(st, i, s)
    case Commit(i) => End(st.(committed := st.committed + map s | s in st.dirty && s in Locked(st, i) ::
      st.dirty[s]), i)
    case Abort(i) => End(st, i)
  }

  function Start(clock: int): State { State(map[], map[], map[], map[], map[], clock) }

  // ---- The invariant ---------------------------------------------------------------

  /** What an uncommitted version may be, against the committed one. */
  ghost predicate Grants(old_: Slot, new_: Slot, tx: Tx)
  {
    && new_.holder == tx.token && new_.fence == old_.fence + 1
    && tx.ttl.Some? && new_.expires == tx.now + tx.ttl.value
    && (old_.expires <= tx.now || old_.holder == tx.token)
  }

  ghost predicate Prolongs(old_: Slot, new_: Slot, tx: Tx)
  {
    new_.holder == old_.holder == tx.token && new_.fence == old_.fence && old_.expires > tx.now
    && new_.expires == if tx.ttl.Some? then tx.now + tx.ttl.value else tx.now
  }

  ghost predicate Counts(old_: Slot, new_: Slot) { new_ == old_.(fence := old_.fence + 1) }

  ghost predicate Lawful(st: State, s: int)
    requires s in st.locks && st.locks[s] in st.txs && s in st.dirty
  {
    var tx := st.txs[st.locks[s]];
    || (s !in st.committed && st.dirty[s] == PLACEHOLDER)
    || (s >= 0 && Grants(Committed(st, s), st.dirty[s], tx) && tx.phase in {Counting, Finished} && s in st.lockedAt
      && st.lockedAt[s] <= tx.now)
    || (s >= 0 && s in st.committed && Prolongs(st.committed[s], st.dirty[s], tx) && tx.phase == HeldUpdating)
    || (s == COUNTER && Counts(Committed(st, s), st.dirty[s]) && tx.phase == Finished)
  }

  ghost predicate TxOk(st: State, i: nat)
    requires i in st.txs
  {
    var tx := st.txs[i];
    && tx.now <= st.clock
    && (forall k :: 0 <= k < |tx.order| ==> tx.order[k] >= 0)
    && (tx.phase in {Reading, Updating} ==> tx.order != [] && tx.order[0] in st.locks && st.locks[tx.order[0]] == i)
    && (tx.phase == Updating ==> tx.order[0] in st.lockedAt && st.lockedAt[tx.order[0]] <= tx.now)
    && (tx.phase == HeldUpdating ==> forall s :: s in tx.pending && s in st.dirty && s in st.locks ==> st.locks[s] != i)
  }

  ghost predicate Inv(st: State)
  {
    && (forall s :: s in st.locks ==> st.locks[s] in st.txs && s in st.lockedAt && st.lockedAt[s] <= st.clock)
    && (forall s :: s in st.dirty ==> s in st.locks)
    && (forall s :: s in st.dirty && s in st.locks && st.locks[s] in st.txs ==> Lawful(st, s))
    && (forall i :: i in st.txs ==> TxOk(st, i))
  }

  /** A move that changes one transaction only keeps the invariant if that transaction's own
      versions stay lawful. */
  lemma SetTxKeeps(st: State, i: nat, tx: Tx)
    requires Inv(st) && TxOk(SetTx(st, i, tx), i)
    requires forall s :: s in st.dirty && st.locks[s] == i ==> Lawful(SetTx(st, i, tx), s)
    ensures Inv(SetTx(st, i, tx))
  {
    var next := SetTx(st, i, tx);
    forall s | s in st.dirty && st.locks[s] != i ensures Lawful(next, s) {
      assert Lawful(st, s);
    }
    forall j | j in st.txs && j != i ensures TxOk(next, j) {
      assert TxOk(st, j);
    }
  }

  lemma LockRowKeeps(st: State, s: int, i: nat)
    requires Inv(st) && i in st.txs && Free(st, s, i)
    ensures Inv(LockRow(st, s, i))
  {
    var next := LockRow(st, s, i);
    forall j | j in st.txs ensures TxOk(next, j) {
      assert TxOk(st, j);
    }
    forall t | t in st.dirty ensures Lawful(next, t) {
      assert Lawful(st, t);
    }
  }

  /** Writing a lawful version of a row one has locked. */
  lemma WriteKeeps(st: State, s: int, row: Slot)
    requires Inv(st) && s in st.locks && Lawful(st.(dirty := st.dirty[s := row]), s)
    requires st.txs[st.locks[s]].phase == HeldUpdating ==> s !in st.txs[st.locks[s]].pending
    ensures Inv(st.(dirty := st.dirty[s := row]))
  {
    var next := st.(dirty := st.dirty[s := row]);
    forall t | t in next.dirty && t != s ensures Lawful(next, t) {
      assert Lawful(st, t);
    }
    forall j | j in st.txs ensures TxOk(next, j) {
      assert TxOk(st, j);
    }
  }

  lemma TickKeeps(st: State, span: nat)
    requires Inv(st)
    ensures Inv(st.(clock := st.clock + span))
  {
    var next := st.(clock := st.clock + span);
    forall t | t in st.dirty ensures Lawful(next, t) {
      assert Lawful(st, t);
    }
    forall j | j in st.txs ensures TxOk(next, j) {
      assert TxOk(st, j);
    }
  }

  lemma EndKeeps(st: State, i: nat, committed: Rows)
    requires Inv(st) && i in st.txs
    requires forall s :: s !in Locked(st, i) ==>
      (s in committed <==> s in st.committed) && (s in committed ==> committed[s] == st.committed[s])
    ensures Inv(End(st.(committed := committed), i))
  {
    var next := End(st.(committed := committed), i);
    forall t | t in next.dirty ensures Lawful(next, t) {
      assert t !in Locked(st, i);
      assert Lawful(st, t);
    }
    forall j | j in next.txs ensures TxOk(next, j) {
      assert TxOk(st, j);
    }
  }

  predicate Early(phase: Phase) { phase !in {Counting, Finished, HeldUpdating} }

  /** Until it claims or prolongs, a transaction has written nothing but placeholders. */
  lemma OnlyPlaceholders(st: State, i: nat, s: int)
    requires Inv(st) && i in st.txs && Early(st.txs[i].phase) && s in st.dirty && st.locks[s] == i
    ensures s !in st.committed && st.dirty[s] == PLACEHOLDER
  {
    assert Lawful(st, s);
  }

  /** A transaction that has written placeholders only may move to any phase. */
  lemma EarlyKeeps(st: State, i: nat, tx: Tx)
    requires Inv(st) && i in st.txs && Early(st.txs[i].phase) && TxOk(SetTx(st, i, tx), i)
    ensures Inv(SetTx(st, i, tx))
  {
    forall s | s in st.dirty && st.locks[s] == i ensures Lawful(SetTx(st, i, tx), s) {
      OnlyPlaceholders(st, i, s);
    }
    SetTxKeeps(st, i, tx);
  }

  lemma ClaimKeeps(st: State, i: nat, tx: Tx, s: int, row: Slot)
    requires Inv(st) && i in st.txs && st.txs[i].phase == Updating && s in st.locks && st.locks[s] == i && s >= 0
    requires tx.phase in {Counting, Finished} && s in st.lockedAt && st.lockedAt[s] <= tx.now
    requires tx.order == st.txs[i].order && tx.now == st.txs[i].now
    requires Grants(Committed(st, s), row, tx)
    ensures Inv(SetTx(st, i, tx).(dirty := st.dirty[s := row]))
  {
    assert TxOk(st, i);
    EarlyKeeps(st, i, tx);
    WriteKeeps(SetTx(st, i, tx), s, row);
  }

  lemma FailKeeps(st: State, i: nat, tx: Tx)
    requires Inv(st) && i in st.txs && st.txs[i].phase == Updating && tx.phase in {Inserting, Finished}
    requires tx.now == st.txs[i].now
    requires forall k :: 0 <= k < |tx.order| ==> tx.order[k] >= 0
    ensures Inv(SetTx(st, i, tx))
  {
    assert TxOk(st, i);
    EarlyKeeps(st, i, tx);
  }

  /** A claim about to update has locked the row before it read the clock, and has not
      written it yet. */
  lemma ReadyToUpdate(st: State, i: nat)
    requires Inv(st) && OnSlot(st, i, Updating)
    ensures var (tx, s) := (st.txs[i], st.txs[i].order[0]);
      && s >= 0 && s in st.locks && st.locks[s] == i && s in st.lockedAt && st.lockedAt[s] <= tx.now <= st.clock
      && Current(st, s) == Committed(st, s)
      && forall k :: 0 <= k < |tx.order[1..]| ==> tx.order[1..][k] >= 0
  {
    assert TxOk(st, i);
    var s := st.txs[i].order[0];
    if s in st.dirty {
      OnlyPlaceholders(st, i, s);
    }
  }

  predicate CanClaim(tx: Tx, row: Slot) { tx.ttl.Some? && (row.expires <= tx.now || row.holder == tx.token) }

  lemma ClaimedKeeps(st: State, i: nat)
    requires Inv(st) && OnSlot(st, i, Updating) && CanClaim(st.txs[i], Current(st, st.txs[i].order[0]))
    ensures Inv(ApplyUpdate(st, i))
  {
    var tx := st.txs[i];
    var s, done := tx.order[0], tx.(phase := if tx.counted then Counting else Finished);
    var row := Slot(tx.token, Current(st, s).fence + 1, tx.now + tx.ttl.value);
    ReadyToUpdate(st, i);
    ClaimKeeps(st, i, done, s, row);
    assert ApplyUpdate(st, i) == SetTx(st, i, done).(dirty := st.dirty[s := row]);
  }

  lemma UpdateKeeps(st: State, i: nat)
    requires Inv(st) && OnSlot(st, i, Updating)
    ensures Inv(ApplyUpdate(st, i))
  {
    var tx := st.txs[i];
    if CanClaim(tx, Current(st, tx.order[0])) {
      ClaimedKeeps(st, i);
    } else {
      ReadyToUpdate(st, i);
      FailKeeps(st, i, tx.(order := tx.order[1..], phase := if tx.order[1..] == [] then Finished else Inserting));
    }
  }

  lemma InsertKeeps(st: State, i: nat)
    requires Inv(st) && Enabled(st, Insert(i))
    ensures Inv(Apply(st, Insert(i)))
  {
    var s, tx := st.txs[i].order[0], st.txs[i].(phase := Locking);
    assert TxOk(st, i);
    EarlyKeeps(st, i, tx);
    if !Exists(st, s) {
      LockRowKeeps(SetTx(st, i, tx), s, i);
      WriteKeeps(LockRow(SetTx(st, i, tx), s, i), s, PLACEHOLDER);
    }
  }

  lemma LockKeeps(st: State, i: nat)
    requires Inv(st) && Enabled(st, Lock(i))
    ensures Inv(Apply(st, Lock(i)))
  {
    var s, tx := st.txs[i].order[0], st.txs[i].(phase := Reading);
    assert TxOk(st, i);
    LockRowKeeps(st, s, i);
    EarlyKeeps(LockRow(st, s, i), i, tx);
    assert LockRow(SetTx(st, i, tx), s, i) == SetTx(LockRow(st, s, i), i, tx);
  }

  /** Before it counts, a claim has not written the counter. */
  lemma CounterUntouched(st: State, i: nat)
    requires Inv(st) && InPhase(st, i, Counting) && Free(st, COUNTER, i)
    ensures Current(st, COUNTER) == Committed(st, COUNTER)
  {
    if COUNTER in st.dirty {
      assert Lawful(st, COUNTER);
    }
  }

  lemma CountIs(st: State, i: nat)
    requires Enabled(st, Count(i))
    ensures var (tx, row) := (st.txs[i].(phase := Finished), Current(st, COUNTER));
      Apply(st, Count(i)) ==
        LockRow(SetTx(st, i, tx), COUNTER, i).(dirty := st.dirty[COUNTER := row.(fence := row.fence + 1)])
  {
  }

  lemma CountLawful(st: State, i: nat, t: int)
    requires Inv(st) && Enabled(st, Count(i)) && t in Apply(st, Count(i)).dirty
    ensures var next := Apply(st, Count(i));
      t in next.locks && next.locks[t] in next.txs && Lawful(next, t)
  {
    CountIs(st, i);
    if t == COUNTER {
      CounterUntouched(st, i);
    } else {
      assert Lawful(st, t);
    }
  }

  lemma CountTxOk(st: State, i: nat, j: nat)
    requires Inv(st) && Enabled(st, Count(i)) && j in Apply(st, Count(i)).txs
    ensures TxOk(Apply(st, Count(i)), j)
  {
    CountIs(st, i);
    assert TxOk(st, j);
  }

  lemma CountKeeps(st: State, i: nat)
    requires Inv(st) && Enabled(st, Count(i))
    ensures Inv(Apply(st, Count(i)))
  {
    var next := Apply(st, Count(i));
    forall t | t in next.dirty ensures t in next.locks && next.locks[t] in next.txs && Lawful(next, t) {
      CountLawful(st, i, t);
    }
    forall j | j in next.txs ensures TxOk(next, j) {
      CountTxOk(st, i, j);
    }
    CountIs(st, i);
  }

  lemma LockOneKeeps(st: State, i: nat, s: int)
    requires Inv(st) && Enabled(st, LockOne(i, s))
    ensures Inv(Apply(st, LockOne(i, s)))
  {
    var tx := st.txs[i];
    var left := tx.pending - {s};
    assert TxOk(st, i);
    EarlyKeeps(st, i, tx.(pending := left, phase := if left == {} then HeldReading else HeldLocking));
    if HeldBy(st, s, tx.token, tx.anySlot) {
      LockRowKeeps(Apply(st, LockOne(i, s)).(locks := st.locks, lockedAt := st.lockedAt), s, i);
    }
  }

  lemma VisitKeeps(st: State, i: nat, s: int)
    requires Inv(st) && InPhase(st, i, HeldUpdating)
    ensures Inv(SetTx(st, i, st.txs[i].(pending := st.txs[i].pending - {s})))
  {
    var tx := st.txs[i].(pending := st.txs[i].pending - {s});
    assert TxOk(st, i);
    forall t | t in st.dirty && st.locks[t] == i ensures Lawful(SetTx(st, i, tx), t) {
      assert Lawful(st, t);
    }
    SetTxKeeps(st, i, tx);
  }

  /** A row found by the running update is unwritten, and committed if it exists at all. */
  lemma ReadyToProlong(st: State, i: nat, s: int)
    requires Inv(st) && Enabled(st, UpdateOne(i, s))
    ensures s !in st.dirty && st.txs[i].now <= st.clock
  {
    assert TxOk(st, i);
  }

  lemma ProlongKeeps(st: State, i: nat, s: int, row: Slot)
    requires Inv(st) && InPhase(st, i, HeldUpdating) && Free(st, s, i) && s !in st.dirty && s >= 0 && s in st.committed
    requires s !in st.txs[i].pending && Prolongs(st.committed[s], row, st.txs[i])
    ensures Inv(LockRow(st, s, i).(dirty := st.dirty[s := row]))
  {
    LockRowKeeps(st, s, i);
    WriteKeeps(LockRow(st, s, i), s, row);
  }

  predicate CanProlong(st: State, tx: Tx, s: int)
  {
    HeldBy(st, s, tx.token, tx.anySlot) && Current(st, s).expires > tx.now
  }

  /** The row a refresh or release writes, and the state it writes it in. */
  function Visited(st: State, i: nat, s: int): State
    requires i in st.txs
  {
    SetTx(st, i, st.txs[i].(pending := st.txs[i].pending - {s}))
  }

  function ProlongedRow(st: State, tx: Tx, s: int): Slot
  {
    Current(st, s).(expires := if tx.ttl.Some? then tx.now + tx.ttl.value else tx.now)
  }

  lemma ProlongReady(st: State, i: nat, s: int)
    requires Inv(st) && Enabled(st, UpdateOne(i, s)) && CanProlong(st, st.txs[i], s)
    ensures var next := Visited(st, i, s);
      && InPhase(next, i, HeldUpdating) && Free(next, s, i) && s !in next.dirty && s >= 0 && s in next.committed
      && s !in next.txs[i].pending && Prolongs(next.committed[s], ProlongedRow(st, st.txs[i], s), next.txs[i])
  {
    ReadyToProlong(st, i, s);
  }

  lemma ProlongedIs(st: State, i: nat, s: int)
    requires i in st.txs && CanProlong(st, st.txs[i], s)
    ensures ApplyUpdateOne(st, i, s) ==
      LockRow(Visited(st, i, s), s, i).(dirty := st.dirty[s := ProlongedRow(st, st.txs[i], s)])
  {
  }

  lemma ProlongedKeeps(st: State, i: nat, s: int)
    requires Inv(st) && Enabled(st, UpdateOne(i, s)) && CanProlong(st, st.txs[i], s)
    ensures Inv(ApplyUpdateOne(st, i, s))
  {
    VisitKeeps(st, i, s);
    ProlongReady(st, i, s);
    ProlongKeeps(Visited(st, i, s), i, s, ProlongedRow(st, st.txs[i], s));
    ProlongedIs(st, i, s);
  }

  lemma UpdateOneKeeps(st: State, i: nat, s: int)
    requires Inv(st) && Enabled(st, UpdateOne(i, s))
    ensures Inv(ApplyUpdateOne(st, i, s))
  {
    if CanProlong(st, st.txs[i], s) {
      ProlongedKeeps(st, i, s);
    } else {
      VisitKeeps(st, i, s);
    }
  }

  lemma BeginKeeps(st: State, i: nat, tx: Tx)
    requires Inv(st) && i !in st.txs && tx.now <= st.clock
    requires tx.phase !in {Reading, Updating, HeldUpdating} && forall k :: 0 <= k < |tx.order| ==> tx.order[k] >= 0
    ensures Inv(SetTx(st, i, tx))
  {
    SetTxKeeps(st, i, tx);
  }

  lemma RestKeeps(st: State, m: Move)
    requires Inv(st) && Enabled(st, m) && (m.ReadClock? || m.Find? || m.Scan?)
    ensures Inv(Apply(st, m))
  {
    var i := m.i;
    var tx := st.txs[i];
    var found := MatchingRows(st, tx.token, tx.anySlot);
    assert TxOk(st, i);
    if m.ReadClock? {
      EarlyKeeps(st, i, tx.(now := st.clock, phase := if tx.phase == Reading then Updating else HeldScanning));
    } else if m.Find? {
      EarlyKeeps(st, i, tx.(pending := found, phase := if found == {} then HeldReading else HeldLocking));
    } else {
      forall s | s in found && s in st.dirty && st.locks[s] == i ensures false {
        OnlyPlaceholders(st, i, s);
      }
      EarlyKeeps(st, i, tx.(pending := found, phase := HeldUpdating));
    }
  }

  /** Every move of every transaction keeps the invariant. */
  lemma MoveKeeps(st: State, m: Move)
    requires Inv(st) && Enabled(st, m)
    ensures Inv(Apply(st, m))
  {
    match m
    case Tick(span) => TickKeeps(st, span);
    case BeginClaim(i, token, ttl, order, counted) =>
      BeginKeeps(st, i, Tx(token, Some(ttl), order, counted, false,
        if order == [] then Finished else Inserting, st.clock, {}));
    case BeginHeld(i, token, prolong, anySlot) =>
      BeginKeeps(st, i, Tx(token, prolong, [], false, anySlot, HeldFinding, st.clock, {}));
    case Insert(i) => InsertKeeps(st, i);
    case Lock(i) => LockKeeps(st, i);
    case ReadClock(i) => RestKeeps(st, m);
    case Update(i) => UpdateKeeps(st, i);
    case Count(i) => CountKeeps(st, i);
    case Find(i) => RestKeeps(st, m);
    case LockOne(i, s) => LockOneKeeps(st, i, s);
    case Scan(i) => RestKeeps(st, m);
    case UpdateOne(i, s) => UpdateOneKeeps(st, i, s);
    case Commit(i) => EndKeeps(st, i, st.committed + map s | s in st.dirty && s in Locked(st, i) :: st.dirty[s]);
    case Abort(i) => EndKeeps(st, i, st.committed);
  }
}
