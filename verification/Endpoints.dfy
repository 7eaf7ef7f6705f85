/** What each endpoint answers, stores and publishes, written out on the fields of the request and of the
    two tables. Times are in microseconds. */
module Endpoints {
  import opened Common
  import opened Tables
  import opened Atomic
  import opened Routes

  /** The code points with the Unicode property White_Space. */
  const WHITE_SPACE: set<int> :=
    {0x09, 0x0A, 0x0B, 0x0C, 0x0D, 0x20, 0x85, 0xA0, 0x1680,
     0x2000, 0x2001, 0x2002, 0x2003, 0x2004, 0x2005, 0x2006, 0x2007, 0x2008, 0x2009, 0x200A,
     0x2028, 0x2029, 0x202F, 0x205F, 0x3000}

  predicate OnlyWhiteSpace(s: string) {
    forall i :: 0 <= i < |s| ==> s[i] as int in WHITE_SPACE
  }

  lemma BlankExactlyWhen(s: string)
    ensures Blank(s) <==> OnlyWhiteSpace(s)
  {
    forall i | 0 <= i < |s| ensures IsSpace(s[i]) <==> s[i] as int in WHITE_SPACE {
    }
  }

  /** 400 answers exactly a hold without legs or with nothing but white space for a seat. */
  lemma BadRequestExactlyWhen(db: Db, call: Call, env: Env)
    ensures var h := Handle(db, call, env);
            (h.reply.status == 400 <==> call.PostHold? && (call.req.legs == [] || OnlyWhiteSpace(call.req.seat)))
            && (h.reply.status == 400 ==>
                  h.db == db && h.events == []
                  && h.reply.body == Error("BAD_REQUEST", if call.req.legs == [] then "leg_indexes must not be empty"
                                                          else "seat_no required"))
  {
    if call.PostHold? {
      BlankExactlyWhen(call.req.seat);
    }
  }

  // ---------------------------------------------------------------- hold

  /** The legs are distinct and each has a row. */
  predicate Complete(db: Db, req: HoldRequest) {
    (forall i, j :: 0 <= i < j < |req.legs| ==> req.legs[i] != req.legs[j])
    && forall i :: 0 <= i < |req.legs| ==> SeatLeg(req.trip, req.seat, req.legs[i]) in db.inventory
  }

  /** Some leg is booked or carries a hold. */
  predicate Conflicting(db: Db, req: HoldRequest)
    requires Complete(db, req)
  {
    exists i :: 0 <= i < |req.legs|
      && var row := db.inventory[SeatLeg(req.trip, req.seat, req.legs[i])];
         row.booked || row.holdRef != None
  }

  lemma HoldRefusedExactlyWhen(db: Db, req: HoldRequest)
    ensures var keys := Matching(db.inventory, req.trip, req.seat, req.legs);
            HoldRefusal(Selected(db.inventory, keys), req.legs)
            == if !Complete(db, req) then Some(IncompleteInventory)
               else if Conflicting(db, req) then Some(SeatConflict) else None
  {
    var keys := Matching(db.inventory, req.trip, req.seat, req.legs);
    var rows := Selected(db.inventory, keys);
    RowCountCheck(db.inventory, req.trip, req.seat, req.legs);
    assert rows.Keys == keys;
    assert |rows| == |keys|;
    if Complete(db, req) {
      if k :| k in rows && !Free(rows[k]) {
        var i :| 0 <= i < |req.legs| && req.legs[i] == k.leg;
        assert k == SeatLeg(req.trip, req.seat, req.legs[i]);
      }
      forall i | 0 <= i < |req.legs| ensures SeatLeg(req.trip, req.seat, req.legs[i]) in rows {
      }
    }
  }

  /** A hold past the guard: 422 for repeated or missing legs, 409 for a leg that is not free, 500 if the
      transaction fails, and 201 otherwise; the body names the reason and the seat. */
  lemma PostHoldAnswers(db: Db, req: HoldRequest, env: Env)
    requires req.legs != [] && !OnlyWhiteSpace(req.seat)
    ensures var h := Handle(db, PostHold(req), env);
            (h.reply.status == 422 <==> !env.dbFails && !Complete(db, req))
            && (h.reply.status == 409 <==> !env.dbFails && Complete(db, req) && Conflicting(db, req))
            && (h.reply.status == 201
                <==> !env.dbFails && Complete(db, req) && !Conflicting(db, req) && env.ref !in db.holds)
            && h.reply.status in {201, 409, 422, 500}
    ensures var h := Handle(db, PostHold(req), env);
            h.reply.status != 201 ==>
              h.db == db && h.events == []
              && h.reply.body == HoldResult(HoldFailed(if h.reply.status == 422 then IncompleteInventory
                                                       else if h.reply.status == 409 then SeatConflict
                                                       else TransactionError, [req.seat]))
  {
    BlankExactlyWhen(req.seat);
    HoldRefusedExactlyWhen(db, req);
  }

  /** A 201 carries the fresh reference and an expiry its class's TTL after the clock reading; exactly the
      asked rows now carry the reference, and the request is stored under it. */
  lemma PostHoldStores(db: Db, req: HoldRequest, env: Env)
    requires Handle(db, PostHold(req), env).reply.status == 201
    ensures var h := Handle(db, PostHold(req), env);
            var expiresAt := env.now + (if req.ttlClass == Short then env.ttlShort else env.ttlLong) * 1_000_000;
            h.reply.body == HoldResult(HoldOk(env.ref, expiresAt))
            && h.db.holds == db.holds[env.ref := Hold(req.trip, req.seat, req.legs, req.ttlClass, req.operatorId,
                                                      expiresAt, None)]
            && h.events == [InventoryUpdated(req.trip, req.seat, req.legs)]
    ensures var h := Handle(db, PostHold(req), env);
            h.db.inventory.Keys == db.inventory.Keys
            && forall k :: k in db.inventory ==>
                 if k.trip == req.trip && k.seat == req.seat && k.leg in req.legs
                 then db.inventory[k] == Row(false, None) && h.db.inventory[k] == Row(false, Some(env.ref))
                 else h.db.inventory[k] == db.inventory[k]
  {
    var keys := Matching(db.inventory, req.trip, req.seat, req.legs);
    forall k | k in keys ensures db.inventory[k] == Row(false, None) {
      assert Selected(db.inventory, keys)[k] == db.inventory[k];
    }
  }

  // ---------------------------------------------------------------- confirm

  /** The hold is there, has not expired, and has no booking yet. */
  predicate CanConfirm(db: Db, ref: HoldRef, now: Time) {
    ref in db.holds && now < db.holds[ref].expiresAt && db.holds[ref].booking == None
  }

  /** A confirm answers 200 exactly when the hold is there, unexpired and active; otherwise 409 with the
      reason. It books exactly the rows that carry the reference and keeps the hold with its booking. */
  lemma PostConfirmAnswers(db: Db, ref: HoldRef, booking: string, env: Env)
    requires !env.dbFails
    ensures var h := Handle(db, PostConfirm(ref, booking), env);
            if CanConfirm(db, ref, env.now) then
              var was := db.holds[ref];
              h.reply == Reply(200, Confirmed(ref, booking))
              && h.events == [InventoryUpdated(was.trip, was.seat, was.legs)]
              && h.db.holds == db.holds[ref := Hold(was.trip, was.seat, was.legs, was.ttlClass, was.operatorId,
                                                    was.expiresAt, Some(booking))]
            else
              h.reply == Reply(409, NotConfirmed(if ref in db.holds && env.now < db.holds[ref].expiresAt
                                                 then HoldAlreadyConsumed else HoldExpiredOrMissing))
              && h.db == db && h.events == []
    ensures var h := Handle(db, PostConfirm(ref, booking), env);
            CanConfirm(db, ref, env.now) ==>
              h.db.inventory.Keys == db.inventory.Keys
              && forall k :: k in db.inventory ==>
                   h.db.inventory[k] == if db.inventory[k].holdRef == Some(ref) then Row(true, None)
                                        else db.inventory[k]
  {
  }

  // ---------------------------------------------------------------- release, cancel

  /** A release answers 200, with success exactly when the hold was there and active; then the hold is
      gone, its rows carry nothing, and the two events are published in order. */
  lemma DeleteHoldAnswers(db: Db, ref: HoldRef, env: Env)
    requires !env.dbFails
    ensures var h := Handle(db, DeleteHold(ref), env);
            var active := ref in db.holds && db.holds[ref].booking == None;
            h.reply == Reply(200, Success(active))
            && (active ==>
                  var was := db.holds[ref];
                  h.events == [InventoryUpdated(was.trip, was.seat, was.legs), HoldsReleased(was.trip, [was.seat])]
                  && h.db.holds == map r | r in db.holds && r != ref :: db.holds[r])
            && (!active ==> h.db == db && h.events == [])
    ensures var h := Handle(db, DeleteHold(ref), env);
            h.db.inventory.Keys == db.inventory.Keys
            && forall k :: k in db.inventory ==>
                 h.db.inventory[k] == if ref in db.holds && db.holds[ref].booking == None
                                         && db.inventory[k].holdRef == Some(ref)
                                      then Row(db.inventory[k].booked, None) else db.inventory[k]
  {
  }

  /** A cancel answers 200 with success whatever it finds, and leaves exactly the named rows free. */
  lemma PostCancelAnswers(db: Db, trip: Uuid, seat: string, legs: seq<int>, env: Env)
    requires !env.dbFails
    ensures var h := Handle(db, PostCancelSeats(trip, seat, legs), env);
            h.reply == Reply(200, Success(true)) && h.events == [InventoryUpdated(trip, seat, legs)]
            && h.db.holds == db.holds && h.db.inventory.Keys == db.inventory.Keys
            && forall k :: k in db.inventory ==>
                 h.db.inventory[k] == if k.trip == trip && k.seat == seat && k.leg in legs then Row(false, None)
                                      else db.inventory[k]
  {
  }

  // ---------------------------------------------------------------- reads and failures

  /** The snapshot route lists exactly the trip's rows, each with the expiry of the hold it carries, if any. */
  lemma GetSnapshotAnswers(db: Db, trip: Uuid, env: Env)
    requires !env.dbFails
    ensures var h := Handle(db, GetSnapshot(trip), env);
            h.reply.status == 200 && h.reply.body.Inventory? && h.db == db && h.events == []
    ensures var rows := Handle(db, GetSnapshot(trip), env).reply.body.rows;
            forall k :: (k in rows <==> k in db.inventory && k.trip == trip)
                        && (k in rows ==>
                              rows[k].row == db.inventory[k]
                              && rows[k].holdExpiresAt
                                 == match db.inventory[k].holdRef
                                    case Some(ref) => if ref in db.holds then Some(db.holds[ref].expiresAt) else None
                                    case None => None)
  {
  }

  /** A database failure is answered 500 by every route past its guard, and changes nothing; the liveness
      probe does not touch the database. */
  lemma FailureAnswers(db: Db, call: Call, env: Env)
    requires env.dbFails && (call.PostHold? ==> call.req.legs != [] && !OnlyWhiteSpace(call.req.seat))
    ensures var h := Handle(db, call, env);
            h.db == db && h.events == []
            && h.reply == if call.Healthz? then Reply(200, Health)
                          else if call.PostHold? then
                            Reply(500, HoldResult(HoldFailed(TransactionError, [call.req.seat])))
                          else Reply(500, Error("INTERNAL", "database error"))
  {
    if call.PostHold? {
      BlankExactlyWhen(call.req.seat);
    }
  }
}
