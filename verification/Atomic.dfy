/** Each engine operation as one step on the two tables: new tables, answer, events published. */
module Atomic {
  import opened Common
  import opened Tables

  const BATCH_LIMIT: nat := 500

  datatype HoldRequest = HoldRequest(
    trip: Uuid,
    seat: string,
    legs: seq<int>,
    operatorId: string,
    ttlClass: TtlClass)

  /** An operation with everything it reads from outside: the fresh reference and the expiry
      computed by the caller, the transaction's own start time, and, where SQL leaves the choice
      open, the rows the database chose. */
  datatype Op =
    | HoldSeat(req: HoldRequest, ref: HoldRef, expiresAt: Time)
    | Confirm(ref: HoldRef, booking: string, now: Time)
    | Release(ref: HoldRef)
    | Cancel(trip: Uuid, seat: string, legs: seq<int>)
    | Reap(batch: seq<HoldRef>, now: Time)
    | Purge(refs: set<HoldRef>, now: Time, retentionDays: int)
    | Snapshot(trip: Uuid)

  datatype HoldFailure = IncompleteInventory | SeatConflict | TransactionError
  datatype ConfirmConflict = HoldExpiredOrMissing | HoldAlreadyConsumed

  datatype Listed = Listed(row: Row, holdExpiresAt: Option<Time>)

  datatype Answer =
    | HoldOk(ref: HoldRef, expiresAt: Time)
    | HoldFailed(reason: HoldFailure, conflictSeats: seq<string>)
    | ConfirmOk
    | ConfirmFailed(conflict: ConfirmConflict)
    | Released(success: bool)
    | Cancelled
    | Reaped(releasedCount: nat)
    | Purged
    | Rows(rows: map<SeatLeg, Listed>)

  datatype Event =
    | InventoryUpdated(trip: Uuid, seat: string, legs: seq<int>)
    | HoldsReleased(trip: Uuid, seats: seq<string>)

  datatype Outcome = Outcome(db: Db, answer: Answer, events: seq<Event>)

  predicate Expired(h: Hold, now: Time) { h.expiresAt <= now }

  predicate Active(h: Hold) { h.booking.None? }

  /** The reaper's WHERE clause. */
  predicate Reapable(h: Hold, now: Time) { Expired(h, now) && Active(h) }

  /** The retention purge's WHERE clause. */
  predicate Purgeable(h: Hold, now: Time, retentionDays: int) {
    !Active(h) && h.expiresAt < now - retentionDays * DAY
  }

  function HoldRow(req: HoldRequest, expiresAt: Time): Hold {
    Hold(req.trip, req.seat, req.legs, req.ttlClass, req.operatorId, expiresAt, None)
  }

  /** The verdict on the rows that `SELECT ... FOR UPDATE` returned. */
  function HoldRefusal(rows: map<SeatLeg, Row>, legs: seq<int>): Option<HoldFailure> {
    if |rows| != |legs| then Some(IncompleteInventory)
    else if exists k :: k in rows && !Free(rows[k]) then Some(SeatConflict)
    else None
  }

  function Selected(inv: Inventory, keys: set<SeatLeg>): map<SeatLeg, Row> {
    map k | k in inv && k in keys :: inv[k]
  }

  function ApplyHold(db: Db, req: HoldRequest, ref: HoldRef, expiresAt: Time): Outcome {
    var keys := Matching(db.inventory, req.trip, req.seat, req.legs);
    var refusal := HoldRefusal(Selected(db.inventory, keys), req.legs);
    if refusal.Some? then Outcome(db, HoldFailed(refusal.value, [req.seat]), [])
    else if ref in db.holds then Outcome(db, HoldFailed(TransactionError, [req.seat]), [])
    else Outcome(
        Db(UpdateRows(db.inventory, keys, MarkHeld(ref)), db.holds[ref := HoldRow(req, expiresAt)]),
        HoldOk(ref, expiresAt),
        [InventoryUpdated(req.trip, req.seat, req.legs)])
  }

  function ApplyConfirm(db: Db, ref: HoldRef, booking: string, now: Time): Outcome {
    if ref !in db.holds || Expired(db.holds[ref], now) then
      Outcome(db, ConfirmFailed(HoldExpiredOrMissing), [])
    else
      var h := db.holds[ref];
      if !Active(h) then Outcome(db, ConfirmFailed(HoldAlreadyConsumed), [])
      else Outcome(
          Db(UpdateRows(db.inventory, HeldBy(db.inventory, {ref}), Book),
             db.holds[ref := h.(booking := Some(booking))]),
          ConfirmOk,
          [InventoryUpdated(h.trip, h.seat, h.legs)])
  }

  function ReleasePair(h: Hold): seq<Event> {
    [InventoryUpdated(h.trip, h.seat, h.legs), HoldsReleased(h.trip, [h.seat])]
  }

  /** What releasing a set of references does to the tables, one by one or as a batch. */
  function Unhold(db: Db, refs: set<HoldRef>): Db {
    Db(UpdateRows(db.inventory, HeldBy(db.inventory, refs), ClearHold), db.holds - refs)
  }

  function ApplyRelease(db: Db, ref: HoldRef): Outcome {
    if ref !in db.holds || !Active(db.holds[ref]) then Outcome(db, Released(false), [])
    else Outcome(Unhold(db, {ref}), Released(true), ReleasePair(db.holds[ref]))
  }

  function ReapEvents(holds: Holds, batch: seq<HoldRef>): seq<Event>
    requires forall r :: r in batch ==> r in holds
  {
    seq(|batch|, i requires 0 <= i < |batch| =>
      HoldsReleased(holds[batch[i]].trip, [holds[batch[i]].seat]))
  }

  function Join(db: Db, trip: Uuid): map<SeatLeg, Listed> {
    map k | k in db.inventory && k.trip == trip ::
      var row := db.inventory[k];
      Listed(row, if row.holdRef.Some? && row.holdRef.value in db.holds
                  then Some(db.holds[row.holdRef.value].expiresAt) else None)
  }

  /** Which operations the database can produce: the reaper takes a duplicate-free batch of at most
      500 expired active holds, and a purge deletes only consumed holds past their retention. */
  predicate Possible(db: Db, op: Op) {
    match op
    case Reap(batch, now) =>
      Distinct(batch) && |batch| <= BATCH_LIMIT
      && forall r :: r in batch ==> r in db.holds && Reapable(db.holds[r], now)
    case Purge(refs, now, days) =>
      days > 0 && forall r :: r in refs ==> r in db.holds && Purgeable(db.holds[r], now, days)
    case _ => true
  }

  function Apply(db: Db, op: Op): Outcome
    requires Possible(db, op)
  {
    match op
    case HoldSeat(req, ref, expiresAt) => ApplyHold(db, req, ref, expiresAt)
    case Confirm(ref, booking, now) => ApplyConfirm(db, ref, booking, now)
    case Release(ref) => ApplyRelease(db, ref)
    case Cancel(trip, seat, legs) =>
      Outcome(db.(inventory := UpdateRows(db.inventory, Matching(db.inventory, trip, seat, legs), Wipe)),
              Cancelled, [InventoryUpdated(trip, seat, legs)])
    case Reap(batch, now) => Outcome(Unhold(db, ToSet(batch)), Reaped(|batch|), ReapEvents(db.holds, batch))
    case Purge(refs, _, _) => Outcome(db.(holds := db.holds - refs), Purged, [])
    case Snapshot(trip) => Outcome(db, Rows(Join(db, trip)), [])
  }

  /** The tables together with every hold reference ever drawn (UUID v4, never drawn twice). */
  datatype World = World(db: Db, used: set<HoldRef>)

  predicate Legal(w: World, op: Op) {
    Possible(w.db, op) && (op.HoldSeat? ==> op.ref !in w.used)
  }

  function Next(w: World, op: Op): World
    requires Legal(w, op)
  {
    World(Apply(w.db, op).db, if op.HoldSeat? then w.used + {op.ref} else w.used)
  }

  /** `ws` are the worlds before, between and after the operations `ops`. */
  predicate IsRun(ws: seq<World>, ops: seq<Op>) {
    |ws| == |ops| + 1
    && forall i {:trigger ops[i]} :: 0 <= i < |ops| ==> Legal(ws[i], ops[i]) && ws[i + 1] == Next(ws[i], ops[i])
  }

  function AnswerAt(ws: seq<World>, ops: seq<Op>, i: nat): Answer
    requires IsRun(ws, ops) && i < |ops|
  {
    Apply(ws[i].db, ops[i]).answer
  }

  function EventsAt(ws: seq<World>, ops: seq<Op>, i: nat): seq<Event>
    requires IsRun(ws, ops) && i < |ops|
  {
    Apply(ws[i].db, ops[i]).events
  }

  /** A hold with a fresh reference succeeds exactly when its legs are pairwise distinct and each of
      them is an existing free row: the row count check finds repeated and missing legs alike. */
  lemma HoldSucceedsExactlyWhen(db: Db, req: HoldRequest, ref: HoldRef, expiresAt: Time)
    requires ref !in db.holds
    ensures ApplyHold(db, req, ref, expiresAt).answer.HoldOk?
            <==> Distinct(req.legs)
                 && forall leg :: leg in req.legs ==>
                      SeatLeg(req.trip, req.seat, leg) in db.inventory
                      && Free(db.inventory[SeatLeg(req.trip, req.seat, leg)])
  {
    var keys := Matching(db.inventory, req.trip, req.seat, req.legs);
    var rows := Selected(db.inventory, keys);
    RowCountCheck(db.inventory, req.trip, req.seat, req.legs);
    assert rows.Keys == keys;
    assert |rows| == |keys|;
    if exists k :: k in rows && !Free(rows[k]) {
      var k :| k in rows && !Free(rows[k]);
      assert k == SeatLeg(req.trip, req.seat, k.leg);
    } else {
      forall leg | leg in req.legs && SeatLeg(req.trip, req.seat, leg) in db.inventory
        ensures Free(db.inventory[SeatLeg(req.trip, req.seat, leg)])
      {
        assert SeatLeg(req.trip, req.seat, leg) in rows;
      }
    }
  }
}
