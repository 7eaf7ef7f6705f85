/** What every run of engine operations keeps, and what can happen between two of its steps.
    Timestamps are those the operations carry: nothing here assumes that they grow along a run. */
module Runs {
  import opened Common
  import opened Tables
  import opened Atomic

  // ---------------------------------------------------------------- the invariant

  /** A row with a hold_ref is unbooked and points at an existing active hold that names it. */
  predicate Linked(db: Db, k: SeatLeg)
    requires k in db.inventory
  {
    var row := db.inventory[k];
    row.holdRef.Some? ==>
      var ref := row.holdRef.value;
      !row.booked && ref in db.holds && Active(db.holds[ref])
      && Names(db.holds[ref].trip, db.holds[ref].seat, db.holds[ref].legs, k)
  }

  predicate NoOrphans(db: Db) {
    forall k :: k in db.inventory ==> Linked(db, k)
  }

  predicate LegsExist(inv: Inventory, h: Hold) {
    Distinct(h.legs) && forall leg :: leg in h.legs ==> SeatLeg(h.trip, h.seat, leg) in inv
  }

  predicate Inv(w: World) {
    NoOrphans(w.db)
    && (forall r :: r in w.db.holds ==> r in w.used)
    && (forall r :: r in w.db.holds ==> LegsExist(w.db.inventory, w.db.holds[r]))
  }

  /** Inventory is seeded elsewhere: any rows, booked or not, none of them held. */
  predicate Init(w: World) {
    w.db.holds == map[] && forall k :: k in w.db.inventory ==> w.db.inventory[k].holdRef.None?
  }

  lemma HoldKeepsInv(w: World, op: Op)
    requires Inv(w) && op.HoldSeat? && Legal(w, op)
    ensures Inv(Next(w, op))
  {
    var req := op.req;
    RowCountCheck(w.db.inventory, req.trip, req.seat, req.legs);
    var keys := Matching(w.db.inventory, req.trip, req.seat, req.legs);
    assert Selected(w.db.inventory, keys).Keys == keys;
    var w' := Next(w, op);
    forall k | k in w'.db.inventory ensures Linked(w'.db, k) {
      assert Linked(w.db, k);
      if k in keys && w'.db != w.db {
        assert Free(Selected(w.db.inventory, keys)[k]);
      }
    }
  }

  lemma InvStep(w: World, op: Op)
    requires Inv(w) && Legal(w, op)
    ensures Inv(Next(w, op))
    ensures Next(w, op).db.inventory.Keys == w.db.inventory.Keys
  {
    if op.HoldSeat? {
      HoldKeepsInv(w, op);
    } else {
      var w' := Next(w, op);
      forall k | k in w'.db.inventory ensures Linked(w'.db, k) {
        assert Linked(w.db, k);
      }
    }
  }

  /** In every reachable state, partial cancels included, no row is orphaned. */
  lemma {:induction false} ReachableNoOrphans(ws: seq<World>, ops: seq<Op>)
    requires IsRun(ws, ops) && Init(ws[0])
    ensures forall i :: 0 <= i < |ws| ==> Inv(ws[i]) && NoOrphans(ws[i].db)
  {
    InvAlong(ws, ops);
  }

  lemma {:induction false} InvAlong(ws: seq<World>, ops: seq<Op>)
    requires IsRun(ws, ops) && Inv(ws[0])
    ensures forall i :: 0 <= i < |ws| ==> Inv(ws[i]) && ws[i].db.inventory.Keys == ws[0].db.inventory.Keys
  {
    for n := 0 to |ops|
      invariant forall i :: 0 <= i <= n ==> Inv(ws[i]) && ws[i].db.inventory.Keys == ws[0].db.inventory.Keys
    {
      var op := ops[n];
      InvStep(ws[n], op);
    }
  }

  lemma {:induction false} InvAt(ws: seq<World>, ops: seq<Op>, i: nat)
    requires IsRun(ws, ops) && Inv(ws[0]) && i < |ws|
    ensures Inv(ws[i]) && ws[i].db.inventory.Keys == ws[0].db.inventory.Keys
  {
    InvAlong(ws, ops);
  }

  // ---------------------------------------------------------------- no double booking

  /** Step i is a successful confirm of the hold that carries row k. */
  predicate BooksRow(ws: seq<World>, ops: seq<Op>, i: nat, k: SeatLeg)
    requires IsRun(ws, ops) && i < |ops|
  {
    ops[i].Confirm? && AnswerAt(ws, ops, i) == ConfirmOk
    && k in ws[i].db.inventory && ws[i].db.inventory[k].holdRef == Some(ops[i].ref)
  }

  predicate CancelsRow(op: Op, k: SeatLeg) {
    op.Cancel? && Names(op.trip, op.seat, op.legs, k)
  }

  lemma BookedKept(w: World, op: Op, k: SeatLeg)
    requires Inv(w) && Legal(w, op) && k in w.db.inventory && w.db.inventory[k].booked && !CancelsRow(op, k)
    ensures k in Next(w, op).db.inventory && Next(w, op).db.inventory[k].booked
  {
    assert Linked(w.db, k);
    if op.HoldSeat? && Apply(w.db, op).answer.HoldOk? && Names(op.req.trip, op.req.seat, op.req.legs, k) {
      TakenRow(w, op, k);
    }
  }

  lemma {:induction false} BookedUntilCancelled(ws: seq<World>, ops: seq<Op>, i: nat, j: nat, k: SeatLeg)
    requires IsRun(ws, ops) && i <= j <= |ops| && Inv(ws[0]) && k in ws[0].db.inventory
    requires k in ws[i].db.inventory && ws[i].db.inventory[k].booked
    requires forall m {:trigger ops[m]} :: i <= m < j ==> !CancelsRow(ops[m], k)
    ensures k in ws[j].db.inventory && ws[j].db.inventory[k].booked
  {
    for n := i to j
      invariant k in ws[n].db.inventory && ws[n].db.inventory[k].booked
    {
      InvAt(ws, ops, n);
      BookedKept(ws[n], ops[n], k);
    }
  }

  lemma ConfirmBooksRow(w: World, op: Op, k: SeatLeg)
    requires op.Confirm? && Apply(w.db, op).answer == ConfirmOk
    requires k in w.db.inventory && w.db.inventory[k].holdRef == Some(op.ref)
    ensures k in Apply(w.db, op).db.inventory && Apply(w.db, op).db.inventory[k].booked
  {
  }

  /** Two successful confirms that book the same row have a cancel naming that row between them. */
  lemma NoDoubleBooking(ws: seq<World>, ops: seq<Op>, i: nat, j: nat, k: SeatLeg)
    requires IsRun(ws, ops) && Inv(ws[0]) && i < j < |ops|
    requires BooksRow(ws, ops, i, k) && BooksRow(ws, ops, j, k)
    ensures exists m {:trigger ops[m]} :: i < m < j && CancelsRow(ops[m], k)
  {
    InvAt(ws, ops, i);
    InvAt(ws, ops, j);
    ConfirmBooksRow(ws[i], ops[i], k);
    assert Linked(ws[j].db, k);
    if forall m {:trigger ops[m]} :: i + 1 <= m < j ==> !CancelsRow(ops[m], k) {
      BookedUntilCancelled(ws, ops, i + 1, j, k);
    }
  }

  /** Step i is a successful hold that takes row k. */
  predicate TakesRow(ws: seq<World>, ops: seq<Op>, i: nat, k: SeatLeg)
    requires IsRun(ws, ops) && i < |ops|
  {
    ops[i].HoldSeat? && AnswerAt(ws, ops, i).HoldOk?
    && Names(ops[i].req.trip, ops[i].req.seat, ops[i].req.legs, k)
  }

  /** A release or reap of the hold that carries row k, or a cancel naming k. */
  predicate FreesRow(w: World, op: Op, k: SeatLeg) {
    match op
    case Release(ref) => k in HeldBy(w.db.inventory, {ref})
    case Reap(batch, _) => k in HeldBy(w.db.inventory, ToSet(batch))
    case _ => CancelsRow(op, k)
  }

  lemma {:induction false} FreedBetween(ws: seq<World>, ops: seq<Op>, i: nat, j: nat, k: SeatLeg)
    requires IsRun(ws, ops) && i <= j <= |ops|
    requires k in ws[i].db.inventory && k in ws[j].db.inventory
    requires !Free(ws[i].db.inventory[k]) && Free(ws[j].db.inventory[k])
    ensures exists m {:trigger ops[m]} :: i <= m < j && FreesRow(ws[m], ops[m], k)
    decreases j
  {
    var op := ops[j - 1];
    assert k in ws[j - 1].db.inventory;
    if Free(ws[j - 1].db.inventory[k]) {
      FreedBetween(ws, ops, i, j - 1, k);
    } else {
      assert FreesRow(ws[j - 1], op, k);
    }
  }

  lemma TakenRow(w: World, op: Op, k: SeatLeg)
    requires op.HoldSeat? && k in w.db.inventory && Names(op.req.trip, op.req.seat, op.req.legs, k)
    requires Apply(w.db, op).answer.HoldOk?
    ensures Free(w.db.inventory[k])
    ensures k in Apply(w.db, op).db.inventory && !Free(Apply(w.db, op).db.inventory[k])
  {
    var keys := Matching(w.db.inventory, op.req.trip, op.req.seat, op.req.legs);
    assert Selected(w.db.inventory, keys)[k] == w.db.inventory[k];
  }

  lemma TakenAt(ws: seq<World>, ops: seq<Op>, i: nat, k: SeatLeg)
    requires IsRun(ws, ops) && Inv(ws[0]) && i < |ops| && k in ws[0].db.inventory && TakesRow(ws, ops, i, k)
    ensures k in ws[i].db.inventory && Free(ws[i].db.inventory[k])
    ensures k in ws[i + 1].db.inventory && !Free(ws[i + 1].db.inventory[k])
  {
    InvAt(ws, ops, i);
    var op := ops[i];
    TakenRow(ws[i], op, k);
  }

  /** Two successful holds of the same row have a step between them that freed it. */
  lemma NoDoubleHold(ws: seq<World>, ops: seq<Op>, i: nat, j: nat, k: SeatLeg)
    requires IsRun(ws, ops) && Inv(ws[0]) && i < j < |ops| && k in ws[0].db.inventory
    requires TakesRow(ws, ops, i, k) && TakesRow(ws, ops, j, k)
    ensures exists m {:trigger ops[m]} :: i < m < j && FreesRow(ws[m], ops[m], k)
  {
    TakenAt(ws, ops, i, k);
    TakenAt(ws, ops, j, k);
    FreedBetween(ws, ops, i + 1, j, k);
  }

  // ---------------------------------------------------------------- holds are retired once

  /** The step ends the active life of a hold: confirmed, released or reaped. */
  predicate Retires(w: World, op: Op, ref: HoldRef)
    requires Legal(w, op)
  {
    var answer := Apply(w.db, op).answer;
    match op
    case Confirm(r, _, _) => r == ref && answer == ConfirmOk
    case Release(r) => r == ref && answer == Released(true)
    case Reap(batch, _) => ref in batch
    case _ => false
  }

  predicate Spent(w: World, ref: HoldRef) {
    ref in w.used && (ref in w.db.holds ==> !Active(w.db.holds[ref]))
  }

  lemma {:induction false} SpentForever(ws: seq<World>, ops: seq<Op>, i: nat, j: nat, ref: HoldRef)
    requires IsRun(ws, ops) && i <= j <= |ops| && Spent(ws[i], ref)
    ensures Spent(ws[j], ref)
  {
    for n := i to j
      invariant Spent(ws[n], ref)
    {
      var op := ops[n];
    }
  }

  /** No hold is retired twice, whatever the order and the timestamps of the steps. */
  lemma RetiredAtMostOnce(ws: seq<World>, ops: seq<Op>, i: nat, j: nat, ref: HoldRef)
    requires IsRun(ws, ops) && Inv(ws[0]) && i < j < |ops|
    requires Retires(ws[i], ops[i], ref)
    ensures !Retires(ws[j], ops[j], ref)
  {
    InvAlong(ws, ops);
    var first, second := ops[i], ops[j];
    assert Spent(ws[i + 1], ref);
    SpentForever(ws, ops, i + 1, j, ref);
  }

  // ---------------------------------------------------------------- the audit trail

  predicate PurgesRef(op: Op, ref: HoldRef, h: Hold) {
    op.Purge? && ref in op.refs && op.retentionDays > 0 && h.expiresAt < op.now - op.retentionDays * DAY
  }

  /** A consumed hold keeps its row unchanged through every step, until a purge that runs more than
      its retention after the hold's expiry. */
  lemma {:induction false} AuditRowPermanent(ws: seq<World>, ops: seq<Op>, i: nat, j: nat, ref: HoldRef)
    requires IsRun(ws, ops) && Inv(ws[0]) && i <= j <= |ops|
    requires ref in ws[i].db.holds && !Active(ws[i].db.holds[ref])
    ensures (ref in ws[j].db.holds && ws[j].db.holds[ref] == ws[i].db.holds[ref])
            || exists m {:trigger ops[m]} :: i <= m < j && PurgesRef(ops[m], ref, ws[i].db.holds[ref])
    decreases j
  {
    if i < j {
      AuditRowPermanent(ws, ops, i, j - 1, ref);
      InvAlong(ws, ops);
      var op := ops[j - 1];
      if op.Purge? {
        assert Possible(ws[j - 1].db, op);
      }
    }
  }

  /** After a confirm, every later confirm or release of the same reference fails. */
  lemma ConsumedStaysConsumed(ws: seq<World>, ops: seq<Op>, i: nat, j: nat, ref: HoldRef)
    requires IsRun(ws, ops) && Inv(ws[0]) && i <= j < |ops|
    requires ref in ws[i].db.holds && !Active(ws[i].db.holds[ref])
    ensures ops[j].Confirm? && ops[j].ref == ref ==> AnswerAt(ws, ops, j).ConfirmFailed?
    ensures ops[j].Release? && ops[j].ref == ref ==> AnswerAt(ws, ops, j) == Released(false)
    ensures ops[j].Reap? ==> ref !in ops[j].batch
  {
    InvAlong(ws, ops);
    SpentForever(ws, ops, i, j, ref);
    var op := ops[j];
  }

  // ---------------------------------------------------------------- events cover every change

  /** The event tells a subscriber about row k: by legs, or for the reaper by seat. */
  predicate Announces(op: Op, e: Event, k: SeatLeg) {
    if op.Reap? then e.HoldsReleased? && e.trip == k.trip && k.seat in e.seats
    else e.InventoryUpdated? && Names(e.trip, e.seat, e.legs, k)
  }

  lemma ChangeIsAnnounced(w: World, op: Op, k: SeatLeg) returns (e: Event)
    requires Inv(w) && Legal(w, op) && k in w.db.inventory
    requires Next(w, op).db.inventory[k] != w.db.inventory[k]
    ensures e in Apply(w.db, op).events && Announces(op, e, k)
  {
    assert Linked(w.db, k);
    var events := Apply(w.db, op).events;
    if op.Reap? {
      var ref := w.db.inventory[k].holdRef.value;
      var i :| 0 <= i < |op.batch| && op.batch[i] == ref;
      e := events[i];
    } else {
      e := events[0];
    }
  }

  /** If a row differs between two points of a run, a step between them published an event naming it. */
  lemma {:induction false} EventCoverage(ws: seq<World>, ops: seq<Op>, i: nat, j: nat, k: SeatLeg)
    requires IsRun(ws, ops) && Inv(ws[0]) && i <= j <= |ops|
    requires k in ws[i].db.inventory && k in ws[j].db.inventory
    requires ws[i].db.inventory[k] != ws[j].db.inventory[k]
    ensures exists m, e :: i <= m < j && e in EventsAt(ws, ops, m) && Announces(ops[m], e, k)
    decreases j
  {
    InvAt(ws, ops, j - 1);
    var op := ops[j - 1];
    assert k in ws[j - 1].db.inventory;
    if ws[j - 1].db.inventory[k] == ws[j].db.inventory[k] {
      EventCoverage(ws, ops, i, j - 1, k);
    } else {
      var e := ChangeIsAnnounced(ws[j - 1], op, k);
      assert e in EventsAt(ws, ops, j - 1) && Announces(ops[j - 1], e, k);
    }
  }
}
