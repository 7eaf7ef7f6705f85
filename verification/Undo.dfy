/** What one operation undoes of another, and what a refused one leaves behind. */
module Undo {
  import opened Common
  import opened Tables
  import opened Atomic
  import opened Runs

  function HeldKeys(w: World, hold: Op): set<SeatLeg>
    requires hold.HoldSeat?
  {
    Matching(w.db.inventory, hold.req.trip, hold.req.seat, hold.req.legs)
  }

  /** A successful hold finds its rows free and its reference on no row, and marks exactly its rows. */
  lemma HoldMarks(w: World, hold: Op)
    requires Inv(w) && hold.HoldSeat? && Legal(w, hold) && Apply(w.db, hold).answer.HoldOk?
    ensures hold.ref !in w.db.holds
    ensures forall k :: k in w.db.inventory ==> w.db.inventory[k].holdRef != Some(hold.ref)
    ensures forall k :: k in HeldKeys(w, hold) ==> w.db.inventory[k] == Row(false, None)
    ensures Next(w, hold).db == Db(UpdateRows(w.db.inventory, HeldKeys(w, hold), MarkHeld(hold.ref)),
                                   w.db.holds[hold.ref := HoldRow(hold.req, hold.expiresAt)])
  {
    forall k | k in w.db.inventory ensures Linked(w.db, k) {
    }
    forall k | k in HeldKeys(w, hold) ensures w.db.inventory[k] == Row(false, None) {
      TakenRow(w, hold, k);
    }
  }

  lemma UnmarkRestores(inv: Inventory, keys: set<SeatLeg>, ref: HoldRef)
    requires keys <= inv.Keys && forall k :: k in keys ==> inv[k] == Row(false, None)
    requires forall k :: k in inv ==> inv[k].holdRef != Some(ref)
    ensures var inv' := UpdateRows(inv, keys, MarkHeld(ref));
            HeldBy(inv', {ref}) == keys
            && UpdateRows(inv', keys, ClearHold) == inv
            && UpdateRows(UpdateRows(inv', keys, Book), keys, Wipe) == inv
  {
  }

  /** Releasing a hold puts both tables back exactly as they were before it. */
  lemma ReleaseUndoesHold(w: World, hold: Op)
    requires Inv(w) && hold.HoldSeat? && Legal(w, hold) && Apply(w.db, hold).answer.HoldOk?
    ensures var o := Apply(Next(w, hold).db, Release(hold.ref));
            o.db == w.db && o.answer == Released(true)
  {
    HoldMarks(w, hold);
    UnmarkRestores(w.db.inventory, HeldKeys(w, hold), hold.ref);
    assert Apply(Next(w, hold).db, Release(hold.ref)).db.holds == w.db.holds;
  }

  /** So does the reaper, once the hold has expired. */
  lemma ReapUndoesHold(w: World, hold: Op, now: Time)
    requires Inv(w) && hold.HoldSeat? && Legal(w, hold) && Apply(w.db, hold).answer.HoldOk? && hold.expiresAt <= now
    ensures Possible(Next(w, hold).db, Reap([hold.ref], now))
    ensures Apply(Next(w, hold).db, Reap([hold.ref], now)).db == w.db
  {
    ReleaseUndoesHold(w, hold);
    assert ToSet([hold.ref]) == {hold.ref};
  }

  /** Cancelling the legs of a confirmed hold puts the inventory back as it was before the hold; the
      hold's row stays, consumed. */
  lemma CancelUndoesBooking(w: World, hold: Op, confirm: Op)
    requires Inv(w) && hold.HoldSeat? && Legal(w, hold) && Apply(w.db, hold).answer.HoldOk?
    requires confirm.Confirm? && confirm.ref == hold.ref && confirm.now < hold.expiresAt
    ensures var w2 := Next(Next(w, hold), confirm);
            var o := Apply(w2.db, Cancel(hold.req.trip, hold.req.seat, hold.req.legs));
            Apply(Next(w, hold).db, confirm).answer == ConfirmOk && o.db.inventory == w.db.inventory
            && o.db.holds
               == w.db.holds[hold.ref := HoldRow(hold.req, hold.expiresAt).(booking := Some(confirm.booking))]
  {
    HoldMarks(w, hold);
    UnmarkRestores(w.db.inventory, HeldKeys(w, hold), hold.ref);
    var w2 := Next(Next(w, hold), confirm);
    assert Matching(w2.db.inventory, hold.req.trip, hold.req.seat, hold.req.legs) == HeldKeys(w, hold);
  }

  /** Cancel frees exactly the rows it names, whatever their state; a new hold of them then succeeds
      if each exists and is named once. */
  lemma CancelFreesRows(db: Db, cancel: Op, req: HoldRequest, ref: HoldRef, expiresAt: Time)
    requires cancel.Cancel? && req.trip == cancel.trip && req.seat == cancel.seat && req.legs == cancel.legs
    requires ref !in db.holds
    ensures var o := Apply(db, cancel);
            (forall k :: k in db.inventory ==>
               k in o.db.inventory
               && if CancelsRow(cancel, k) then Free(o.db.inventory[k]) else o.db.inventory[k] == db.inventory[k])
            && o.db.holds == db.holds
            && (ApplyHold(o.db, req, ref, expiresAt).answer.HoldOk?
                <==> Distinct(req.legs)
                     && forall leg :: leg in req.legs ==> SeatLeg(req.trip, req.seat, leg) in db.inventory)
  {
    var o := Apply(db, cancel);
    HoldSucceedsExactlyWhen(o.db, req, ref, expiresAt);
    forall leg | leg in req.legs && SeatLeg(req.trip, req.seat, leg) in db.inventory
      ensures SeatLeg(req.trip, req.seat, leg) in o.db.inventory
      ensures Free(o.db.inventory[SeatLeg(req.trip, req.seat, leg)])
    {
      assert CancelsRow(cancel, SeatLeg(req.trip, req.seat, leg));
    }
  }

  /** At every instant an active hold can be confirmed or reaped, never both and never neither. */
  lemma ConfirmableOrReapable(db: Db, ref: HoldRef, booking: string, now: Time)
    requires ref in db.holds && Active(db.holds[ref])
    ensures Apply(db, Confirm(ref, booking, now)).answer == ConfirmOk <==> !Possible(db, Reap([ref], now))
  {
    assert Distinct([ref]) && |[ref]| == 1 && ref in [ref];
  }

  predicate Refused(answer: Answer) {
    answer.HoldFailed? || answer.ConfirmFailed? || answer == Released(false)
  }

  /** A refused operation changes no table; an operation is silent exactly when it is refused, a purge, a
      read, or a reap that finds nothing. */
  lemma SilentExactlyWhen(w: World, op: Op)
    requires Inv(w) && Legal(w, op)
    ensures Refused(Apply(w.db, op).answer) ==> Apply(w.db, op).db == w.db
    ensures Apply(w.db, op).events == []
            <==> Refused(Apply(w.db, op).answer) || op.Purge? || op.Snapshot? || (op.Reap? && op.batch == [])
    ensures op.Reap? && op.batch == [] ==> Apply(w.db, op).db == w.db
  {
    if op.Reap? && op.batch == [] {
      assert ToSet(op.batch) == {};
      assert UpdateRows(w.db.inventory, {}, ClearHold) == w.db.inventory;
    }
  }
}
