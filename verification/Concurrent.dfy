/** Transactions running concurrently under row locks, one statement or one row lock at a time.

    Every transaction reads committed rows, waits for row locks, re-checks a row against its WHERE
    clause once it has the lock (READ COMMITTED), keeps its writes to itself until it commits, and
    carries its own start time as now(). Any number of them may be in flight, in any interleaving. */
module Concurrent {
  import opened Common
  import opened Tables
  import opened Atomic
  import opened Runs

  type Tid = nat

  datatype Request =
    | HoldReq(req: HoldRequest, ref: HoldRef, expiresAt: Time)
    | ConfirmReq(ref: HoldRef, booking: string)
    | ReleaseReq(ref: HoldRef)
    | CancelReq(trip: Uuid, seat: string, legs: seq<int>)
    | ReapReq
    | PurgeReq(retentionDays: int)
    | SnapshotReq(trip: Uuid)

  datatype Pc =
    | Start      // begun, no statement run yet
    | Choosing   // reaper and purge: locking seat_holds rows one at a time
    | Found      // confirm and release: the seat_holds row is locked
    | Locking    // locking seat_inventory rows one at a time
    | Ready      // all writes buffered

  datatype Buffer = Buffer(rows: map<SeatLeg, Row>, holds: Holds, gone: set<HoldRef>)

  const EMPTY: Buffer := Buffer(map[], map[], {})

  /** `batch` and `holds`: the seat_holds rows locked so far, in order, as read under the lock.
      `rows`: the same for seat_inventory. `candidates` and `todo`: what a running statement's
      snapshot matched and it has yet to lock. */
  datatype Txn = Txn(
    request: Request,
    now: Time,
    pc: Pc,
    candidates: set<HoldRef>,
    batch: seq<HoldRef>,
    holds: Holds,
    todo: set<SeatLeg>,
    rows: map<SeatLeg, Row>,
    buffer: Buffer)

  /** A finished transaction: the operation it amounted to, its answer, its events. */
  datatype Entry = Entry(op: Op, answer: Answer, events: seq<Event>)

  datatype Sent = Sent(entry: nat, event: Event)

  /** `begun`: references drawn by holds that have begun, whether or not they finished.
      `sent[i]`: how many events of `log[i]` have been published so far. */
  datatype Sys = Sys(
    world: World,
    begun: set<HoldRef>,
    txns: map<Tid, Txn>,
    rowLocks: map<SeatLeg, Tid>,
    holdLocks: map<HoldRef, Tid>,
    log: seq<Entry>,
    sent: seq<nat>,
    published: seq<Sent>)

  // ---------------------------------------------------------------- what a transaction's statements match

  predicate Answerable(tx: Txn) { tx.request.ConfirmReq? || tx.request.ReleaseReq? }

  /** The WHERE clause of the statement that locks seat_holds rows. */
  predicate Wanted(tx: Txn, h: Hold) {
    match tx.request
    case ConfirmReq(_, _) => !Expired(h, tx.now)
    case ReleaseReq(_) => Active(h)
    case ReapReq => Reapable(h, tx.now)
    case PurgeReq(days) => Purgeable(h, tx.now, days)
    case _ => false
  }

  /** The WHERE clause of the statements that lock seat_inventory rows. */
  predicate RowMatches(tx: Txn, k: SeatLeg, row: Row) {
    match tx.request
    case HoldReq(req, _, _) => Names(req.trip, req.seat, req.legs, k)
    case CancelReq(trip, seat, legs) => Names(trip, seat, legs, k)
    case PurgeReq(_) => false
    case SnapshotReq(_) => false
    case _ => IsHeldBy(row, ToSet(tx.batch))
  }

  function MatchedRows(tx: Txn, inv: Inventory): set<SeatLeg> {
    set k | k in inv && RowMatches(tx, k, inv[k])
  }

  function OpOf(tx: Txn): Op {
    match tx.request
    case HoldReq(req, ref, expiresAt) => HoldSeat(req, ref, expiresAt)
    case ConfirmReq(ref, booking) => Confirm(ref, booking, tx.now)
    case ReleaseReq(ref) => Release(ref)
    case CancelReq(trip, seat, legs) => Cancel(trip, seat, legs)
    case ReapReq => Reap(tx.batch, tx.now)
    case PurgeReq(days) => Purge(ToSet(tx.batch), tx.now, days)
    case SnapshotReq(trip) => Snapshot(trip)
  }

  function WriteAll(rows: map<SeatLeg, Row>, w: RowWrite): map<SeatLeg, Row> {
    map k | k in rows :: Rewritten(w, rows[k])
  }

  /** The writes, computed from the rows as the transaction read them. */
  function Buffered(tx: Txn): Buffer {
    match tx.request
    case HoldReq(req, ref, expiresAt) =>
      Buffer(WriteAll(tx.rows, MarkHeld(ref)), map[ref := HoldRow(req, expiresAt)], {})
    case ConfirmReq(ref, booking) =>
      Buffer(WriteAll(tx.rows, Book), map r | r in tx.holds :: tx.holds[r].(booking := Some(booking)), {})
    case ReleaseReq(_) => Buffer(WriteAll(tx.rows, ClearHold), map[], ToSet(tx.batch))
    case CancelReq(_, _, _) => Buffer(WriteAll(tx.rows, Wipe), map[], {})
    case ReapReq => Buffer(WriteAll(tx.rows, ClearHold), map[], ToSet(tx.batch))
    case PurgeReq(_) => Buffer(map[], map[], ToSet(tx.batch))
    case SnapshotReq(_) => EMPTY
  }

  function Flush(db: Db, b: Buffer): Db {
    Db(map k | k in db.inventory :: if k in b.rows then b.rows[k] else db.inventory[k],
       (db.holds + b.holds) - b.gone)
  }

  /** What the caller is told and what is published, from the values the transaction read. */
  function Committed(tx: Txn): Entry
    requires !tx.request.SnapshotReq?
    requires forall r :: r in tx.batch ==> r in tx.holds
    requires tx.request.ConfirmReq? || tx.request.ReleaseReq? ==> tx.batch == [tx.request.ref]
  {
    var op := OpOf(tx);
    match tx.request
    case HoldReq(req, ref, expiresAt) =>
      Entry(op, HoldOk(ref, expiresAt), [InventoryUpdated(req.trip, req.seat, req.legs)])
    case ConfirmReq(ref, _) =>
      var h := tx.holds[ref];
      Entry(op, ConfirmOk, [InventoryUpdated(h.trip, h.seat, h.legs)])
    case ReleaseReq(ref) => Entry(op, Released(true), ReleasePair(tx.holds[ref]))
    case CancelReq(trip, seat, legs) => Entry(op, Cancelled, [InventoryUpdated(trip, seat, legs)])
    case ReapReq => Entry(op, Reaped(|tx.batch|), ReapEvents(tx.holds, tx.batch))
    case PurgeReq(_) => Entry(op, Purged, [])
  }

  // ---------------------------------------------------------------- steps

  /** A step inside a transaction that finishes nothing. */
  datatype Move =
    | Scan                 // run the first multi-row statement: take its snapshot
    | Find                 // SELECT ... FROM seat_holds WHERE hold_ref = $1 ... FOR UPDATE
    | Take(ref: HoldRef)   // lock a candidate seat_holds row and re-check it
    | Skip(ref: HoldRef)   // SKIP LOCKED
    | ScanHeld             // run the statement on seat_inventory WHERE hold_ref = ...
    | Lock(k: SeatLeg)     // lock an inventory row and re-check it
    | Write                // buffer the UPDATE, INSERT and DELETE statements

  /** How a transaction ends with an answer. All but a commit roll back. */
  datatype Ending =
    | Miss      // Find, finding nothing
    | Reject    // confirm finds the hold consumed
    | Refuse    // hold finds rows missing or taken
    | Read      // the snapshot's single SELECT
    | Commit

  datatype Action =
    | Begin(t: Tid, request: Request, now: Time)
    | Step(t: Tid, move: Move)
    | End(t: Tid, ending: Ending)
    | Abort(t: Tid)         // the database or the caller gives up: no answer from the tables
    | Publish(entry: nat)   // the next event of a finished transaction, after its commit

  predicate Finds(db: Db, tx: Txn)
    requires Answerable(tx)
  {
    tx.request.ref in db.holds && Wanted(tx, db.holds[tx.request.ref])
  }

  predicate CanMove(s: Sys, tx: Txn, m: Move) {
    var db := s.world.db;
    match m
    case Scan => tx.pc == Start && !Answerable(tx) && !tx.request.SnapshotReq?
    case Find => tx.pc == Start && Answerable(tx) && Finds(db, tx) && tx.request.ref !in s.holdLocks
    case Take(ref) =>
      tx.pc == Choosing && ref in tx.candidates && ref !in s.holdLocks
      && (tx.request.ReapReq? ==> |tx.batch| < BATCH_LIMIT)
    case Skip(ref) => tx.pc == Choosing && tx.request.ReapReq? && ref in tx.candidates && ref in s.holdLocks
    case ScanHeld =>
      (tx.pc == Found
       && (tx.request.ConfirmReq? ==> tx.request.ref in tx.holds && Active(tx.holds[tx.request.ref])))
      || (tx.pc == Choosing && (tx.candidates == {} || (tx.request.ReapReq? && |tx.batch| == BATCH_LIMIT)))
    case Lock(k) =>
      tx.pc == Locking && k in tx.todo && k in db.inventory && k !in s.rowLocks
      && (tx.request.HoldReq? ==> forall l :: l in tx.todo ==> k.leg <= l.leg)
    case Write =>
      tx.pc == Locking && tx.todo == {}
      && (tx.request.HoldReq? ==>
            HoldRefusal(tx.rows, tx.request.req.legs).None? && tx.request.ref !in db.holds)
  }

  predicate CanEnd(db: Db, tx: Txn, e: Ending) {
    match e
    case Miss => tx.pc == Start && Answerable(tx) && !Finds(db, tx)
    case Reject =>
      tx.pc == Found && tx.request.ConfirmReq? && tx.request.ref in tx.holds && !Active(tx.holds[tx.request.ref])
    case Refuse =>
      tx.pc == Locking && tx.todo == {} && tx.request.HoldReq?
      && HoldRefusal(tx.rows, tx.request.req.legs).Some?
    case Read => tx.pc == Start && tx.request.SnapshotReq?
    case Commit =>
      tx.pc == Ready && !tx.request.SnapshotReq? && (forall r :: r in tx.batch ==> r in tx.holds)
      && (Answerable(tx) ==> tx.batch == [tx.request.ref])
  }

  predicate Enabled(s: Sys, a: Action) {
    match a
    case Begin(t, request, _) =>
      t !in s.txns && (request.HoldReq? ==> request.ref !in s.begun)
      && (request.PurgeReq? ==> request.retentionDays > 0)
    case Step(t, m) => t in s.txns && CanMove(s, s.txns[t], m)
    case End(t, e) => t in s.txns && CanEnd(s.world.db, s.txns[t], e)
    case Abort(t) => t in s.txns
    case Publish(i) => i < |s.log| && |s.sent| == |s.log| && s.sent[i] < |s.log[i].events|
  }

  function Begun(request: Request, now: Time): Txn {
    Txn(request, now, Start, {}, [], map[], {}, map[], EMPTY)
  }

  function Candidates(db: Db, tx: Txn): set<HoldRef> {
    set r | r in db.holds && Wanted(tx, db.holds[r])
  }

  function Scanned(db: Db, tx: Txn): Txn {
    if tx.request.ReapReq? || tx.request.PurgeReq?
    then tx.(pc := Choosing, candidates := Candidates(db, tx))
    else tx.(pc := Locking, todo := MatchedRows(tx, db.inventory))
  }

  function HasFound(db: Db, tx: Txn): Txn
    requires Answerable(tx) && tx.request.ref in db.holds
  {
    tx.(pc := Found, batch := [tx.request.ref], holds := map[tx.request.ref := db.holds[tx.request.ref]])
  }

  /** Re-check the candidate under its lock: keep it if it still matches. */
  function Taken(db: Db, tx: Txn, ref: HoldRef): Txn {
    if ref in db.holds && Wanted(tx, db.holds[ref])
    then tx.(candidates := tx.candidates - {ref}, batch := tx.batch + [ref], holds := tx.holds[ref := db.holds[ref]])
    else tx.(candidates := tx.candidates - {ref})
  }

  function Skipped(tx: Txn, ref: HoldRef): Txn {
    tx.(candidates := tx.candidates - {ref})
  }

  function HeldScanned(db: Db, tx: Txn): Txn {
    tx.(pc := Locking, candidates := {}, todo := MatchedRows(tx, db.inventory))
  }

  /** Re-check the row under its lock: keep it if it still matches. */
  function Locked(db: Db, tx: Txn, k: SeatLeg): Txn
    requires k in db.inventory
  {
    if RowMatches(tx, k, db.inventory[k])
    then tx.(todo := tx.todo - {k}, rows := tx.rows[k := db.inventory[k]])
    else tx.(todo := tx.todo - {k})
  }

  function Written(tx: Txn): Txn {
    tx.(pc := Ready, buffer := Buffered(tx))
  }

  function Moved(s: Sys, tx: Txn, m: Move): Txn
    requires CanMove(s, tx, m)
  {
    var db := s.world.db;
    match m
    case Scan => Scanned(db, tx)
    case Find => HasFound(db, tx)
    case Take(ref) => Taken(db, tx, ref)
    case Skip(ref) => Skipped(tx, ref)
    case ScanHeld => HeldScanned(db, tx)
    case Lock(k) => Locked(db, tx, k)
    case Write => Written(tx)
  }

  function RowLocksAfter(s: Sys, t: Tid, tx: Txn, m: Move): map<SeatLeg, Tid>
    requires CanMove(s, tx, m)
  {
    if m.Lock? && RowMatches(tx, m.k, s.world.db.inventory[m.k]) then s.rowLocks[m.k := t] else s.rowLocks
  }

  function HoldLocksAfter(s: Sys, t: Tid, tx: Txn, m: Move): map<HoldRef, Tid>
    requires CanMove(s, tx, m)
  {
    var holds := s.world.db.holds;
    if m.Find? then s.holdLocks[tx.request.ref := t]
    else if m.Take? && m.ref in holds && Wanted(tx, holds[m.ref]) then s.holdLocks[m.ref := t]
    else s.holdLocks
  }

  /** The tables after the ending. */
  function EndDb(db: Db, tx: Txn, e: Ending): Db {
    if e.Commit? then Flush(db, tx.buffer) else db
  }

  /** What the caller is told, and what is then published. */
  function EndEntry(db: Db, tx: Txn, e: Ending): Entry
    requires CanEnd(db, tx, e)
  {
    match e
    case Miss =>
      Entry(OpOf(tx), if tx.request.ConfirmReq? then ConfirmFailed(HoldExpiredOrMissing) else Released(false), [])
    case Reject => Entry(OpOf(tx), ConfirmFailed(HoldAlreadyConsumed), [])
    case Refuse =>
      var reason := HoldRefusal(tx.rows, tx.request.req.legs).value;
      Entry(OpOf(tx), HoldFailed(reason, [tx.request.req.seat]), [])
    case Read => Entry(OpOf(tx), Rows(Join(db, tx.request.trip)), [])
    case Commit => Committed(tx)
  }

  /** Remove a transaction and everything it has locked. */
  function Drop(s: Sys, t: Tid): Sys {
    s.(txns := s.txns - {t},
       rowLocks := map k | k in s.rowLocks && s.rowLocks[k] != t :: s.rowLocks[k],
       holdLocks := map r | r in s.holdLocks && s.holdLocks[r] != t :: s.holdLocks[r])
  }

  function Finish(s: Sys, t: Tid, db: Db, e: Entry): Sys {
    Drop(s, t).(
      world := World(db, if e.op.HoldSeat? then s.world.used + {e.op.ref} else s.world.used),
      log := s.log + [e],
      sent := s.sent + [0])
  }

  function Act(s: Sys, a: Action): Sys
    requires Enabled(s, a)
  {
    match a
    case Begin(t, request, now) =>
      s.(txns := s.txns[t := Begun(request, now)],
         begun := if request.HoldReq? then s.begun + {request.ref} else s.begun)
    case Step(t, m) =>
      var tx := s.txns[t];
      s.(txns := s.txns[t := Moved(s, tx, m)],
         rowLocks := RowLocksAfter(s, t, tx, m),
         holdLocks := HoldLocksAfter(s, t, tx, m))
    case End(t, e) =>
      var tx := s.txns[t];
      Finish(s, t, EndDb(s.world.db, tx, e), EndEntry(s.world.db, tx, e))
    case Abort(t) => Drop(s, t)
    case Publish(i) =>
      s.(sent := s.sent[i := s.sent[i] + 1],
         published := s.published + [Sent(i, s.log[i].events[s.sent[i]])])
  }

  // ---------------------------------------------------------------- the invariant

  /** The rows it has read under lock are as they were, and match. */
  predicate RowsRead(db: Db, tx: Txn) {
    (forall k :: k in tx.rows ==> k in db.inventory && tx.rows[k] == db.inventory[k] && RowMatches(tx, k, tx.rows[k]))
    && forall k :: k in tx.todo ==> k in db.inventory
  }

  /** So are the holds, each of them once in the batch. */
  predicate HoldsRead(db: Db, tx: Txn) {
    (forall r :: r in tx.holds ==> r in db.holds && tx.holds[r] == db.holds[r] && Wanted(tx, tx.holds[r]))
    && tx.holds.Keys == ToSet(tx.batch) && Distinct(tx.batch)
    && tx.candidates !! tx.holds.Keys
    && (tx.request.ReapReq? ==> |tx.batch| <= BATCH_LIMIT)
  }

  predicate PhaseOk(db: Db, tx: Txn) {
    && (tx.pc == Start ==> tx.rows == map[] && tx.batch == [] && tx.candidates == {})
    && (tx.pc != Start && Answerable(tx) ==> tx.batch == [tx.request.ref])
    && (tx.pc == Choosing ==> (tx.request.ReapReq? || tx.request.PurgeReq?) && tx.rows == map[])
    && (tx.pc == Found ==> Answerable(tx) && tx.rows == map[])
    && (tx.pc != Start ==> !tx.request.SnapshotReq?)
    && (tx.request.PurgeReq? ==> tx.request.retentionDays > 0)
    && (tx.pc in {Locking, Ready} ==>
          && (forall k :: k in MatchedRows(tx, db.inventory) ==> k in tx.todo || k in tx.rows)
          && (tx.request.ConfirmReq? ==> tx.request.ref in tx.holds && Active(tx.holds[tx.request.ref])))
    && (tx.pc == Ready ==>
          && tx.todo == {} && tx.buffer == Buffered(tx)
          && (tx.request.HoldReq? ==> HoldRefusal(tx.rows, tx.request.req.legs).None?))
  }

  /** What a transaction in flight may rely on: everything it read is still so, it has every row its
      statements match, and its buffer is what its reads call for. */
  predicate TxnOk(db: Db, tx: Txn) {
    RowsRead(db, tx) && HoldsRead(db, tx) && PhaseOk(db, tx)
  }

  predicate RowLocksOk(txns: map<Tid, Txn>, rowLocks: map<SeatLeg, Tid>) {
    (forall k :: k in rowLocks ==> rowLocks[k] in txns && k in txns[rowLocks[k]].rows)
    && forall t, k :: t in txns && k in txns[t].rows ==> k in rowLocks && rowLocks[k] == t
  }

  predicate HoldLocksOk(txns: map<Tid, Txn>, holdLocks: map<HoldRef, Tid>) {
    (forall r :: r in holdLocks ==> holdLocks[r] in txns && r in txns[holdLocks[r]].holds)
    && forall t, r :: t in txns && r in txns[t].holds ==> r in holdLocks && holdLocks[r] == t
  }

  /** The owner maps and the rows transactions have read under lock say the same. */
  predicate LocksOk(txns: map<Tid, Txn>, rowLocks: map<SeatLeg, Tid>, holdLocks: map<HoldRef, Tid>) {
    RowLocksOk(txns, rowLocks) && HoldLocksOk(txns, holdLocks)
  }

  /** The reference of a hold in flight is its own: no table, log entry or other hold has it. */
  predicate RefsOk(txns: map<Tid, Txn>, used: set<HoldRef>, begun: set<HoldRef>) {
    && used <= begun
    && (forall t :: t in txns && txns[t].request.HoldReq? ==>
          txns[t].request.ref in begun && txns[t].request.ref !in used)
    && (forall t, u :: t in txns && u in txns && txns[t].request.HoldReq? && txns[u].request.HoldReq? && t != u
          ==> txns[t].request.ref != txns[u].request.ref)
  }

  predicate AllOk(db: Db, txns: map<Tid, Txn>) {
    forall t :: t in txns ==> TxnOk(db, txns[t])
  }

  predicate SysInv(s: Sys) {
    Inv(s.world) && LocksOk(s.txns, s.rowLocks, s.holdLocks) && RefsOk(s.txns, s.world.used, s.begun)
    && AllOk(s.world.db, s.txns) && |s.sent| == |s.log|
  }

  // ---------------------------------------------------------------- finishing steps are atomic operations

  lemma FlushedRows(db: Db, b: Buffer, rows: map<SeatLeg, Row>, keys: set<SeatLeg>, w: RowWrite)
    requires rows.Keys == keys && (forall k :: k in rows ==> k in db.inventory && rows[k] == db.inventory[k])
    requires b.rows == WriteAll(rows, w)
    ensures Flush(db, b).inventory == UpdateRows(db.inventory, keys, w)
  {
  }

  lemma HoldRowsAreSelected(db: Db, tx: Txn)
    requires TxnOk(db, tx) && tx.pc in {Locking, Ready} && tx.todo == {} && tx.request.HoldReq?
    ensures var req := tx.request.req;
            tx.rows == Selected(db.inventory, Matching(db.inventory, req.trip, req.seat, req.legs))
            && tx.rows.Keys == Matching(db.inventory, req.trip, req.seat, req.legs)
  {
    var req := tx.request.req;
    assert Matching(db.inventory, req.trip, req.seat, req.legs) == MatchedRows(tx, db.inventory);
  }

  lemma HoldFlush(db: Db, b: Buffer, rows: map<SeatLeg, Row>, keys: set<SeatLeg>, ref: HoldRef, h: Hold)
    requires rows.Keys == keys && (forall k :: k in rows ==> k in db.inventory && rows[k] == db.inventory[k])
    requires b == Buffer(WriteAll(rows, MarkHeld(ref)), map[ref := h], {})
    ensures Flush(db, b) == Db(UpdateRows(db.inventory, keys, MarkHeld(ref)), db.holds[ref := h])
  {
    FlushedRows(db, b, rows, keys, MarkHeld(ref));
    assert Flush(db, b).holds == db.holds[ref := h];
  }

  lemma HoldCommitRefines(db: Db, tx: Txn)
    requires TxnOk(db, tx) && tx.pc == Ready && tx.request.HoldReq? && tx.request.ref !in db.holds
    ensures var HoldReq(req, ref, expiresAt) := tx.request;
            var o := ApplyHold(db, req, ref, expiresAt);
            Flush(db, tx.buffer) == o.db && Committed(tx) == Entry(OpOf(tx), o.answer, o.events)
  {
    var HoldReq(req, ref, expiresAt) := tx.request;
    HoldRowsAreSelected(db, tx);
    HoldFlush(db, tx.buffer, tx.rows, tx.rows.Keys, ref, HoldRow(req, expiresAt));
    assert HoldRefusal(tx.rows, req.legs).None?;
  }

  lemma ConfirmCommitRefines(db: Db, tx: Txn)
    requires TxnOk(db, tx) && tx.pc == Ready && tx.request.ConfirmReq?
    ensures Flush(db, tx.buffer) == Apply(db, OpOf(tx)).db
    ensures Committed(tx) == Entry(OpOf(tx), Apply(db, OpOf(tx)).answer, Apply(db, OpOf(tx)).events)
  {
    assert ToSet(tx.batch) == {tx.request.ref};
    assert tx.rows.Keys == HeldBy(db.inventory, {tx.request.ref});
    FlushedRows(db, tx.buffer, tx.rows, tx.rows.Keys, Book);
  }

  lemma UnholdFlush(db: Db, tx: Txn)
    requires TxnOk(db, tx) && tx.pc == Ready && (tx.request.ReleaseReq? || tx.request.ReapReq?)
    ensures Flush(db, tx.buffer) == Unhold(db, ToSet(tx.batch))
  {
    assert tx.rows.Keys == HeldBy(db.inventory, ToSet(tx.batch));
    FlushedRows(db, tx.buffer, tx.rows, tx.rows.Keys, ClearHold);
  }

  lemma ReleaseCommitRefines(db: Db, tx: Txn)
    requires TxnOk(db, tx) && tx.pc == Ready && tx.request.ReleaseReq?
    ensures Flush(db, tx.buffer) == Apply(db, OpOf(tx)).db
    ensures Committed(tx) == Entry(OpOf(tx), Apply(db, OpOf(tx)).answer, Apply(db, OpOf(tx)).events)
  {
    UnholdFlush(db, tx);
    assert ToSet(tx.batch) == {tx.request.ref};
    assert tx.request.ref in tx.holds && Wanted(tx, tx.holds[tx.request.ref]);
  }

  lemma ReapCommitRefines(db: Db, tx: Txn)
    requires TxnOk(db, tx) && tx.pc == Ready && tx.request.ReapReq? && Possible(db, OpOf(tx))
    ensures Flush(db, tx.buffer) == Apply(db, OpOf(tx)).db
    ensures Committed(tx) == Entry(OpOf(tx), Apply(db, OpOf(tx)).answer, Apply(db, OpOf(tx)).events)
  {
    UnholdFlush(db, tx);
    SameReapEvents(tx.holds, db.holds, tx.batch);
  }

  lemma SameReapEvents(holds: Holds, holds': Holds, batch: seq<HoldRef>)
    requires forall r :: r in batch ==> r in holds && r in holds' && holds[r] == holds'[r]
    ensures ReapEvents(holds, batch) == ReapEvents(holds', batch)
  {
  }

  lemma CancelCommitRefines(db: Db, tx: Txn)
    requires TxnOk(db, tx) && tx.pc == Ready && tx.request.CancelReq?
    ensures Flush(db, tx.buffer) == Apply(db, OpOf(tx)).db
    ensures Committed(tx) == Entry(OpOf(tx), Apply(db, OpOf(tx)).answer, Apply(db, OpOf(tx)).events)
  {
    assert tx.rows.Keys == Matching(db.inventory, tx.request.trip, tx.request.seat, tx.request.legs);
    FlushedRows(db, tx.buffer, tx.rows, tx.rows.Keys, Wipe);
  }

  /** A commit, computed from what the transaction read on its way, is the atomic operation applied
      to the tables as they are at the commit. */
  lemma CommitRefines(w: World, tx: Txn)
    requires Inv(w) && TxnOk(w.db, tx) && tx.pc == Ready
    requires tx.request.HoldReq? ==> tx.request.ref !in w.used
    ensures Legal(w, OpOf(tx))
    ensures Flush(w.db, tx.buffer) == Apply(w.db, OpOf(tx)).db
    ensures Committed(tx) == Entry(OpOf(tx), Apply(w.db, OpOf(tx)).answer, Apply(w.db, OpOf(tx)).events)
  {
    match tx.request {
      case HoldReq(_, _, _) => HoldCommitRefines(w.db, tx);
      case ConfirmReq(_, _) => ConfirmCommitRefines(w.db, tx);
      case CancelReq(_, _, _) => CancelCommitRefines(w.db, tx);
      case PurgeReq(_) => assert Flush(w.db, tx.buffer).inventory == w.db.inventory;
      case ReleaseReq(_) => ReleaseCommitRefines(w.db, tx);
      case ReapReq => ReapCommitRefines(w.db, tx);
      case SnapshotReq(_) =>
    }
  }

  /** An answer given without a commit is that of the atomic operation at that moment. */
  lemma RollbackRefines(w: World, tx: Txn, e: Ending)
    requires Inv(w) && TxnOk(w.db, tx) && CanEnd(w.db, tx, e) && !e.Commit?
    requires tx.request.HoldReq? ==> tx.request.ref !in w.used
    ensures Legal(w, OpOf(tx))
    ensures Apply(w.db, OpOf(tx)) == Outcome(w.db, EndEntry(w.db, tx, e).answer, EndEntry(w.db, tx, e).events)
  {
    if e.Refuse? {
      HoldRowsAreSelected(w.db, tx);
    }
  }

  lemma EndRefines(w: World, tx: Txn, e: Ending)
    requires Inv(w) && TxnOk(w.db, tx) && CanEnd(w.db, tx, e)
    requires tx.request.HoldReq? ==> tx.request.ref !in w.used
    ensures Legal(w, OpOf(tx))
    ensures var o := Apply(w.db, OpOf(tx));
            EndDb(w.db, tx, e) == o.db && EndEntry(w.db, tx, e) == Entry(OpOf(tx), o.answer, o.events)
  {
    if e.Commit? {
      CommitRefines(w, tx);
    } else {
      RollbackRefines(w, tx, e);
    }
  }

  // ---------------------------------------------------------------- every step keeps the invariant

  /** What a transaction relies on survives the commit of another. */
  lemma TxnFrame(db: Db, db': Db, tx: Txn)
    requires TxnOk(db, tx) && db'.inventory.Keys == db.inventory.Keys
    requires forall k :: k in tx.rows ==> db'.inventory[k] == db.inventory[k]
    requires forall r :: r in tx.holds ==> r in db'.holds && db'.holds[r] == db.holds[r]
    requires forall k :: k in db.inventory && IsHeldBy(db'.inventory[k], ToSet(tx.batch))
               ==> IsHeldBy(db.inventory[k], ToSet(tx.batch))
    ensures TxnOk(db', tx)
  {
    assert MatchedRows(tx, db'.inventory) <= MatchedRows(tx, db.inventory);
  }

  lemma DropKeepsRowLocks(txns: map<Tid, Txn>, rowLocks: map<SeatLeg, Tid>, t: Tid)
    requires RowLocksOk(txns, rowLocks)
    ensures RowLocksOk(txns - {t}, map k | k in rowLocks && rowLocks[k] != t :: rowLocks[k])
  {
  }

  lemma DropKeepsHoldLocks(txns: map<Tid, Txn>, holdLocks: map<HoldRef, Tid>, t: Tid)
    requires HoldLocksOk(txns, holdLocks)
    ensures HoldLocksOk(txns - {t}, map r | r in holdLocks && holdLocks[r] != t :: holdLocks[r])
  {
  }

  lemma DropKeepsLocks(s: Sys, t: Tid)
    requires LocksOk(s.txns, s.rowLocks, s.holdLocks) && t in s.txns
    ensures var s' := Drop(s, t); LocksOk(s'.txns, s'.rowLocks, s'.holdLocks)
  {
    DropKeepsRowLocks(s.txns, s.rowLocks, t);
    DropKeepsHoldLocks(s.txns, s.holdLocks, t);
  }

  lemma FinishKeepsRefs(txns: map<Tid, Txn>, used: set<HoldRef>, begun: set<HoldRef>, t: Tid)
    requires RefsOk(txns, used, begun) && t in txns
    ensures RefsOk(txns - {t}, used, begun)
    ensures txns[t].request.HoldReq? ==> RefsOk(txns - {t}, used + {txns[t].request.ref}, begun)
  {
  }

  lemma FinishedRefs(s: Sys, t: Tid, db: Db, e: Entry)
    requires RefsOk(s.txns, s.world.used, s.begun) && t in s.txns && e.op == OpOf(s.txns[t])
    ensures var s' := Finish(s, t, db, e); RefsOk(s'.txns, s'.world.used, s'.begun)
  {
    FinishKeepsRefs(s.txns, s.world.used, s.begun, t);
  }

  lemma FinishedWorld(s: Sys, t: Tid, db: Db, e: Entry)
    requires Inv(s.world) && t in s.txns && Legal(s.world, e.op) && db == Apply(s.world.db, e.op).db
    ensures Finish(s, t, db, e).world == Next(s.world, e.op) && Inv(Finish(s, t, db, e).world)
  {
    InvStep(s.world, e.op);
  }

  lemma FinishKeepsInv(s: Sys, t: Tid, db: Db, e: Entry)
    requires SysInv(s) && t in s.txns && e.op == OpOf(s.txns[t])
    requires Legal(s.world, e.op) && db == Apply(s.world.db, e.op).db
    requires AllOk(db, s.txns - {t})
    ensures SysInv(Finish(s, t, db, e))
    ensures Finish(s, t, db, e).world == Next(s.world, e.op)
  {
    FinishedWorld(s, t, db, e);
    FinishedRefs(s, t, db, e);
    DropKeepsLocks(s, t);
  }

  lemma LockedApart(txns: map<Tid, Txn>, rowLocks: map<SeatLeg, Tid>, holdLocks: map<HoldRef, Tid>, t: Tid, u: Tid)
    requires LocksOk(txns, rowLocks, holdLocks) && t in txns && u in txns && u != t
    ensures txns[t].rows.Keys !! txns[u].rows.Keys && txns[t].holds.Keys !! txns[u].holds.Keys
  {
    assert forall k :: k in txns[t].rows ==> rowLocks[k] == t;
    assert forall r :: r in txns[t].holds ==> holdLocks[r] == t;
  }

  /** A commit writes only rows its transaction has locked, and creates only its own reference. */
  lemma CommitLeavesOthers(s: Sys, t: Tid, u: Tid)
    requires LocksOk(s.txns, s.rowLocks, s.holdLocks) && t in s.txns && u in s.txns && u != t
    requires TxnOk(s.world.db, s.txns[t]) && TxnOk(s.world.db, s.txns[u]) && s.txns[t].pc == Ready
    requires s.txns[t].request.HoldReq? ==> s.txns[t].request.ref !in s.world.db.holds
    ensures TxnOk(Flush(s.world.db, s.txns[t].buffer), s.txns[u])
  {
    LockedApart(s.txns, s.rowLocks, s.holdLocks, t, u);
    BufferWithinLocks(s.world.db, s.txns[t]);
    FlushLeavesOther(s.world.db, s.txns[t].buffer, s.txns[u]);
  }

  lemma BufferWithinLocks(db: Db, tx: Txn)
    requires TxnOk(db, tx) && tx.pc == Ready
    ensures tx.buffer.rows.Keys <= tx.rows.Keys
    ensures tx.buffer.gone <= tx.holds.Keys
    ensures tx.buffer.holds.Keys <= tx.holds.Keys + (if tx.request.HoldReq? then {tx.request.ref} else {})
    ensures forall k :: k in tx.buffer.rows && tx.buffer.rows[k].holdRef.Some?
              ==> tx.request.HoldReq? && tx.buffer.rows[k].holdRef.value == tx.request.ref
  {
    assert tx.buffer == Buffered(tx);
  }

  lemma FlushLeavesOther(db: Db, b: Buffer, other: Txn)
    requires TxnOk(db, other)
    requires b.rows.Keys !! other.rows.Keys && b.gone !! other.holds.Keys && b.holds.Keys !! other.holds.Keys
    requires forall k :: k in b.rows && b.rows[k].holdRef.Some? ==> b.rows[k].holdRef.value !in other.holds
    ensures TxnOk(Flush(db, b), other)
  {
    TxnFrame(db, Flush(db, b), other);
  }

  lemma WithKeepsRefs(txns: map<Tid, Txn>, used: set<HoldRef>, begun: set<HoldRef>, t: Tid, tx: Txn)
    requires RefsOk(txns, used, begun) && t in txns && tx.request == txns[t].request
    ensures RefsOk(txns[t := tx], used, begun)
  {
  }

  lemma WithKeepsLocks(s: Sys, t: Tid, tx: Txn)
    requires LocksOk(s.txns, s.rowLocks, s.holdLocks) && t in s.txns
    requires tx.rows == s.txns[t].rows && tx.holds == s.txns[t].holds
    ensures LocksOk(s.txns[t := tx], s.rowLocks, s.holdLocks)
  {
  }

  lemma RowLockKeepsLocks(s: Sys, t: Tid, tx: Txn, k: SeatLeg, row: Row)
    requires LocksOk(s.txns, s.rowLocks, s.holdLocks) && t in s.txns && k !in s.rowLocks
    requires tx.holds == s.txns[t].holds && tx.rows == s.txns[t].rows[k := row]
    ensures LocksOk(s.txns[t := tx], s.rowLocks[k := t], s.holdLocks)
  {
  }

  lemma HoldLockKeepsLocks(s: Sys, t: Tid, tx: Txn, r: HoldRef, h: Hold)
    requires LocksOk(s.txns, s.rowLocks, s.holdLocks) && t in s.txns && r !in s.holdLocks
    requires tx.rows == s.txns[t].rows && tx.holds == s.txns[t].holds[r := h]
    ensures LocksOk(s.txns[t := tx], s.rowLocks, s.holdLocks[r := t])
  {
  }

  lemma WithKeepsAll(db: Db, txns: map<Tid, Txn>, t: Tid, tx: Txn)
    requires AllOk(db, txns) && TxnOk(db, tx)
    ensures AllOk(db, txns[t := tx])
  {
  }

  lemma BeginKeepsRefs(txns: map<Tid, Txn>, used: set<HoldRef>, begun: set<HoldRef>, t: Tid, tx: Txn)
    requires RefsOk(txns, used, begun) && t !in txns && (tx.request.HoldReq? ==> tx.request.ref !in begun)
    ensures RefsOk(txns[t := tx], used, if tx.request.HoldReq? then begun + {tx.request.ref} else begun)
  {
  }

  lemma BeginKeepsLocks(s: Sys, t: Tid, tx: Txn)
    requires LocksOk(s.txns, s.rowLocks, s.holdLocks) && t !in s.txns && tx.rows == map[] && tx.holds == map[]
    ensures LocksOk(s.txns[t := tx], s.rowLocks, s.holdLocks)
  {
  }

  lemma SameMatches(tx: Txn, tx': Txn, inv: Inventory)
    requires tx'.request == tx.request && tx'.batch == tx.batch
    ensures forall k, row :: RowMatches(tx', k, row) == RowMatches(tx, k, row)
    ensures MatchedRows(tx', inv) == MatchedRows(tx, inv)
  {
  }

  lemma ScannedOk(db: Db, tx: Txn)
    requires TxnOk(db, tx) && tx.pc == Start && !Answerable(tx) && !tx.request.SnapshotReq?
    ensures TxnOk(db, Scanned(db, tx))
  {
    SameMatches(tx, Scanned(db, tx), db.inventory);
  }

  lemma HasFoundOk(db: Db, tx: Txn)
    requires TxnOk(db, tx) && tx.pc == Start && Answerable(tx)
    requires tx.request.ref in db.holds && Wanted(tx, db.holds[tx.request.ref])
    ensures TxnOk(db, HasFound(db, tx))
  {
    assert ToSet([tx.request.ref]) == {tx.request.ref};
  }

  lemma TakenHolds(db: Db, tx: Txn, ref: HoldRef)
    requires HoldsRead(db, tx) && ref in tx.candidates && ref !in tx.holds
    requires tx.request.ReapReq? ==> |tx.batch| < BATCH_LIMIT
    ensures HoldsRead(db, Taken(db, tx, ref))
  {
    assert ToSet(tx.batch + [ref]) == ToSet(tx.batch) + {ref};
    assert ref !in ToSet(tx.batch);
  }

  lemma TakenOk(db: Db, tx: Txn, ref: HoldRef)
    requires TxnOk(db, tx) && tx.pc == Choosing && ref in tx.candidates && ref !in tx.holds
    requires tx.request.ReapReq? ==> |tx.batch| < BATCH_LIMIT
    ensures TxnOk(db, Taken(db, tx, ref))
  {
    TakenHolds(db, tx, ref);
  }

  lemma HeldScannedOk(db: Db, tx: Txn)
    requires TxnOk(db, tx) && tx.pc in {Found, Choosing}
    requires tx.request.ConfirmReq? ==> tx.request.ref in tx.holds && Active(tx.holds[tx.request.ref])
    ensures TxnOk(db, HeldScanned(db, tx))
  {
    SameMatches(tx, HeldScanned(db, tx), db.inventory);
  }

  lemma LockedRows(db: Db, tx: Txn, k: SeatLeg)
    requires tx.pc == Locking && k in db.inventory
    requires forall l :: l in tx.rows ==>
               l in db.inventory && tx.rows[l] == db.inventory[l] && RowMatches(tx, l, tx.rows[l])
    requires forall l :: l in MatchedRows(tx, db.inventory) ==> l in tx.todo || l in tx.rows
    ensures var tx' := Locked(db, tx, k);
            (forall l :: l in tx'.rows ==>
               l in db.inventory && tx'.rows[l] == db.inventory[l] && RowMatches(tx, l, tx'.rows[l]))
            && (forall l :: l in MatchedRows(tx, db.inventory) ==> l in tx'.todo || l in tx'.rows)
  {
  }

  lemma LockedOk(db: Db, tx: Txn, k: SeatLeg)
    requires TxnOk(db, tx) && tx.pc == Locking && k in db.inventory
    ensures TxnOk(db, Locked(db, tx, k))
  {
    var tx' := Locked(db, tx, k);
    LockedRows(db, tx, k);
    SameMatches(tx, tx', db.inventory);
  }

  lemma WrittenOk(db: Db, tx: Txn)
    requires TxnOk(db, tx) && tx.pc == Locking && tx.todo == {}
    requires tx.request.HoldReq? ==> HoldRefusal(tx.rows, tx.request.req.legs).None?
    ensures TxnOk(db, Written(tx))
  {
    SameMatches(tx, Written(tx), db.inventory);
  }

  lemma MovedOk(s: Sys, tx: Txn, m: Move)
    requires CanMove(s, tx, m) && TxnOk(s.world.db, tx)
    requires forall r :: r in tx.holds ==> r in s.holdLocks
    ensures TxnOk(s.world.db, Moved(s, tx, m)) && Moved(s, tx, m).request == tx.request
  {
    var db := s.world.db;
    match m {
      case Scan => ScannedOk(db, tx);
      case Find => HasFoundOk(db, tx);
      case Take(ref) => TakenOk(db, tx, ref);
      case Skip(ref) => SameMatches(tx, Skipped(tx, ref), db.inventory);
      case ScanHeld => HeldScannedOk(db, tx);
      case Lock(k) => LockedOk(db, tx, k);
      case Write => WrittenOk(db, tx);
    }
  }

  lemma MovedLocks(s: Sys, t: Tid, m: Move)
    requires LocksOk(s.txns, s.rowLocks, s.holdLocks) && t in s.txns && CanMove(s, s.txns[t], m)
    requires s.txns[t].pc == Start ==> s.txns[t].holds == map[]
    ensures LocksOk(s.txns[t := Moved(s, s.txns[t], m)],
                    RowLocksAfter(s, t, s.txns[t], m), HoldLocksAfter(s, t, s.txns[t], m))
  {
    var db, tx, tx' := s.world.db, s.txns[t], Moved(s, s.txns[t], m);
    if m.Find? {
      HoldLockKeepsLocks(s, t, tx', tx.request.ref, db.holds[tx.request.ref]);
    } else if m.Take? && m.ref in db.holds && Wanted(tx, db.holds[m.ref]) {
      HoldLockKeepsLocks(s, t, tx', m.ref, db.holds[m.ref]);
    } else if m.Lock? && RowMatches(tx, m.k, db.inventory[m.k]) {
      RowLockKeepsLocks(s, t, tx', m.k, db.inventory[m.k]);
    } else {
      WithKeepsLocks(s, t, tx');
    }
  }

  lemma MovedInPlace(s: Sys, t: Tid, m: Move)
    requires LocksOk(s.txns, s.rowLocks, s.holdLocks) && t in s.txns && TxnOk(s.world.db, s.txns[t])
    requires CanMove(s, s.txns[t], m)
    ensures TxnOk(s.world.db, Moved(s, s.txns[t], m)) && Moved(s, s.txns[t], m).request == s.txns[t].request
    ensures s.txns[t].pc == Start ==> s.txns[t].holds == map[]
  {
    var tx := s.txns[t];
    assert tx.pc == Start ==> tx.holds == map[] by {
      assert tx.pc == Start ==> ToSet(tx.batch) == {};
    }
    MovedOk(s, tx, m);
  }

  lemma MoveKeepsInv(s: Sys, t: Tid, m: Move)
    requires SysInv(s) && Enabled(s, Step(t, m))
    ensures SysInv(Act(s, Step(t, m)))
  {
    MovedInPlace(s, t, m);
    MovedLocks(s, t, m);
    WithKeepsAll(s.world.db, s.txns, t, Moved(s, s.txns[t], m));
    WithKeepsRefs(s.txns, s.world.used, s.begun, t, Moved(s, s.txns[t], m));
  }

  lemma BeginKeepsInv(s: Sys, t: Tid, request: Request, now: Time)
    requires SysInv(s) && Enabled(s, Begin(t, request, now))
    ensures SysInv(Act(s, Begin(t, request, now)))
  {
    var tx := Begun(request, now);
    assert TxnOk(s.world.db, tx);
    WithKeepsAll(s.world.db, s.txns, t, tx);
    BeginKeepsRefs(s.txns, s.world.used, s.begun, t, tx);
    BeginKeepsLocks(s, t, tx);
  }

  lemma OthersUnharmed(s: Sys, t: Tid, e: Ending)
    requires SysInv(s) && Enabled(s, End(t, e))
    ensures AllOk(EndDb(s.world.db, s.txns[t], e), s.txns - {t})
  {
    if e.Commit? {
      forall u | u in s.txns && u != t ensures TxnOk(Flush(s.world.db, s.txns[t].buffer), s.txns[u]) {
        CommitLeavesOthers(s, t, u);
      }
    }
  }

  lemma EndKeepsInv(s: Sys, t: Tid, e: Ending)
    requires SysInv(s) && Enabled(s, End(t, e))
    ensures SysInv(Act(s, End(t, e))) && StepsAtomically(s, OpOf(s.txns[t]), Act(s, End(t, e)))
  {
    EndRefines(s.world, s.txns[t], e);
    OthersUnharmed(s, t, e);
    FinishKeepsInv(s, t, EndDb(s.world.db, s.txns[t], e), EndEntry(s.world.db, s.txns[t], e));
  }

  /** The step left the tables and the log alone. */
  predicate Stutters(s: Sys, s': Sys) {
    s'.world == s.world && s'.log == s.log
  }

  /** The step did to the tables what `op` does, and logged its answer and events. */
  predicate StepsAtomically(s: Sys, op: Op, s': Sys) {
    Legal(s.world, op) && s'.world == Next(s.world, op)
    && s'.log == s.log + [Entry(op, Apply(s.world.db, op).answer, Apply(s.world.db, op).events)]
  }

  /** The heart of the refinement. A transaction that ends with an answer does to the tables, and is
      told, what its atomic operation does and is told at that moment; every other step, an abort
      included, leaves the tables and the log alone. */
  lemma StepRefines(s: Sys, a: Action)
    requires SysInv(s) && Enabled(s, a)
    ensures SysInv(Act(s, a))
    ensures if a.End? then StepsAtomically(s, OpOf(s.txns[a.t]), Act(s, a)) else Stutters(s, Act(s, a))
  {
    match a {
      case Begin(t, request, now) => BeginKeepsInv(s, t, request, now);
      case Step(t, m) => MoveKeepsInv(s, t, m);
      case End(t, e) => EndKeepsInv(s, t, e);
      case Abort(t) =>
        DropKeepsLocks(s, t);
        FinishKeepsRefs(s.txns, s.world.used, s.begun, t);
      case Publish(_) =>
    }
  }
}
