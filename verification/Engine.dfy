/** The engine's operations as they are written: sequences of statements over the two tables, loops
    over fetched rows, and events published after the commit. Each is proved to be its atomic operation. */
module Engine {
  import opened Common
  import opened Tables
  import opened Atomic
  import opened Ordering
  import opened Snapshots
  import opened Reaper

  type HoldRecord = (HoldRef, Uuid, string, seq<int>)

  class ReservationEngine {
    /** The tables, as committed. */
    var inventory: Inventory
    var holds: Holds
    /** The reaper's advisory lock, held by whichever session took it. */
    var reaperLocked: bool
    /** Everything published, in order. */
    var events: seq<Event>

    constructor (inventory: Inventory)
      ensures this.inventory == inventory && holds == map[] && !reaperLocked && events == []
    {
      this.inventory := inventory;
      holds := map[];
      reaperLocked := false;
      events := [];
    }

    function State(): Db
      reads this
    {
      Db(inventory, holds)
    }

    method Publish(e: Event)
      modifies this`events
      ensures events == old(events) + [e]
    {
      events := events + [e];
    }

    // -------------------------------------------------------------- hold

    /** SELECT ... WHERE trip, seat, leg = ANY(legs) ORDER BY leg_index FOR UPDATE */
    method SelectRows(trip: Uuid, seat: string, legs: seq<int>) returns (keys: seq<SeatLeg>, rows: seq<Row>)
      ensures ToSet(keys) == Matching(inventory, trip, seat, legs)
      ensures |keys| == |rows| == |Matching(inventory, trip, seat, legs)|
      ensures forall i :: 0 <= i < |rows| ==> keys[i] in inventory && rows[i] == inventory[keys[i]]
      ensures forall i, j :: 0 <= i < j < |keys| ==> keys[i].leg < keys[j].leg
    {
      keys := OrderRows(Matching(inventory, trip, seat, legs), trip);
      forall i | 0 <= i < |keys| ensures keys[i] in Matching(inventory, trip, seat, legs) {
        assert keys[i] in ToSet(keys);
      }
      forall i, j | 0 <= i < j < |keys| ensures keys[i].leg < keys[j].leg {
        BeforeIrreflexive(seat);
      }
      rows := seq(|keys|, i requires 0 <= i < |keys| reads this`inventory
                  requires keys[i] in inventory => inventory[keys[i]]);
    }

    /** One transaction: on any failure it returns early and leaves no trace. */
    method RunHoldTxn(req: HoldRequest, ref: HoldRef, expiresAt: Time) returns (failure: Option<HoldFailure>)
      modifies this`inventory, this`holds
      ensures var o := ApplyHold(old(State()), req, ref, expiresAt);
              State() == o.db
              && (failure == None <==> o.answer == HoldOk(ref, expiresAt))
              && (failure.Some? ==> o.answer == HoldFailed(failure.value, [req.seat]))
    {
      ghost var selected := Selected(inventory, Matching(inventory, req.trip, req.seat, req.legs));
      assert selected.Keys == Matching(inventory, req.trip, req.seat, req.legs);
      var keys, rows := SelectRows(req.trip, req.seat, req.legs);
      assert |selected| == |selected.Keys| == |rows|;
      if |rows| != |req.legs| {
        return Some(IncompleteInventory);
      }
      for i := 0 to |rows|
        invariant forall j :: 0 <= j < i ==> Free(rows[j])
      {
        if rows[i].booked || rows[i].holdRef.Some? {
          assert keys[i] in ToSet(keys);
          assert keys[i] in selected && !Free(selected[keys[i]]);
          return Some(SeatConflict);
        }
      }
      forall k | k in selected ensures Free(selected[k]) {
        assert k in ToSet(keys);
        var i :| 0 <= i < |keys| && keys[i] == k;
      }
      assert HoldRefusal(selected, req.legs) == None;
      var marked := UpdateRows(inventory, Matching(inventory, req.trip, req.seat, req.legs), MarkHeld(ref));
      if ref in holds {
        return Some(TransactionError);  // UNIQUE (hold_ref)
      }
      inventory, holds := marked, holds[ref := HoldRow(req, expiresAt)];
      return None;
    }

    /** `ref` is the fresh UUID and `now` the instant at which the engine reads its clock. */
    method AtomicHold(req: HoldRequest, ttlSeconds: int, ref: HoldRef, now: Time) returns (answer: Answer)
      modifies this`inventory, this`holds, this`events
      ensures var o := Apply(old(State()), HoldSeat(req, ref, now + ttlSeconds * SECOND));
              State() == o.db && answer == o.answer && events == old(events) + o.events
    {
      var expiresAt := now + ttlSeconds * SECOND;
      var failure := RunHoldTxn(req, ref, expiresAt);
      match failure {
        case None =>
          Publish(InventoryUpdated(req.trip, req.seat, req.legs));
          answer := HoldOk(ref, expiresAt);
        case Some(reason) =>
          answer := HoldFailed(reason, [req.seat]);
      }
    }

    // -------------------------------------------------------------- confirm, release, cancel

    method ConfirmBooking(ref: HoldRef, booking: string, now: Time) returns (answer: Answer)
      modifies this`inventory, this`holds, this`events
      ensures var o := Apply(old(State()), Confirm(ref, booking, now));
              State() == o.db && answer == o.answer && events == old(events) + o.events
    {
      if ref !in holds || holds[ref].expiresAt <= now {
        return ConfirmFailed(HoldExpiredOrMissing);
      }
      var row := holds[ref];
      if row.booking.Some? {
        return ConfirmFailed(HoldAlreadyConsumed);
      }
      inventory := UpdateRows(inventory, HeldBy(inventory, {ref}), Book);
      holds := holds[ref := row.(booking := Some(booking))];
      Publish(InventoryUpdated(row.trip, row.seat, row.legs));
      answer := ConfirmOk;
    }

    method EmitReleasePair(trip: Uuid, seat: string, legs: seq<int>)
      modifies this`events
      ensures events == old(events) + [InventoryUpdated(trip, seat, legs), HoldsReleased(trip, [seat])]
    {
      Publish(InventoryUpdated(trip, seat, legs));
      Publish(HoldsReleased(trip, [seat]));
    }

    method ReleaseHoldByRef(ref: HoldRef) returns (answer: Answer)
      modifies this`inventory, this`holds, this`events
      ensures var o := Apply(old(State()), Release(ref));
              State() == o.db && answer == o.answer && events == old(events) + o.events
    {
      if ref !in holds || holds[ref].booking.Some? {
        return Released(false);
      }
      var row := holds[ref];
      inventory := UpdateRows(inventory, HeldBy(inventory, {ref}), ClearHold);
      holds := holds - {ref};
      EmitReleasePair(row.trip, row.seat, row.legs);
      answer := Released(true);
    }

    method CancelBookingSeats(trip: Uuid, seat: string, legs: seq<int>) returns (answer: Answer)
      modifies this`inventory, this`events
      ensures var o := Apply(old(State()), Cancel(trip, seat, legs));
              State() == o.db && answer == o.answer && events == old(events) + o.events
    {
      inventory := UpdateRows(inventory, Matching(inventory, trip, seat, legs), Wipe);
      Publish(InventoryUpdated(trip, seat, legs));
      answer := Cancelled;
    }

    // -------------------------------------------------------------- reaper

    /** SELECT ... WHERE expires_at <= now() AND booking_id IS NULL ... LIMIT 500 FOR UPDATE SKIP LOCKED:
        SQL leaves open which rows, and in which order. `locked` are the holds other sessions have locked. */
    method SelectExpired(now: Time, locked: set<HoldRef>) returns (rows: seq<HoldRecord>)
      ensures Picked(State(), now, locked, rows)
    {
      rows := [];
      ghost var eligible := Backlog(State(), now) - locked;
      var rest := Backlog(State(), now) - locked;
      while rest != {} && |rows| < BATCH_LIMIT
        invariant rest <= eligible && |rows| + |rest| == |eligible| && |rows| <= BATCH_LIMIT
        invariant forall i :: 0 <= i < |rows| ==>
                    rows[i].0 in eligible && rows[i].0 !in rest && rows[i] == Record(holds, rows[i].0)
        invariant Distinct(RefsOf(rows))
        decreases |rest|
      {
        var ref :| ref in rest;
        assert RefsOf(rows + [Record(holds, ref)]) == RefsOf(rows) + [ref];
        rows := rows + [Record(holds, ref)];
        rest := rest - {ref};
      }
    }

    /** The purge and then the batch transaction. The purge reads the engine's clock, the batch the
        database's. */
    method RunReaper(retentionDays: int, purgeNow: Time, now: Time, locked: set<HoldRef>)
      returns (released: seq<(Uuid, string, seq<int>)>, ghost batch: seq<HoldRef>)
      modifies this`inventory, this`holds
      ensures var mid := AfterPurge(old(State()), retentionDays, purgeNow);
              IsFullBatch(mid, batch, now, locked) && State() == Apply(mid, Reap(batch, now)).db
              && Describes(released, mid.holds, batch)
    {
      if retentionDays > 0 {
        holds := holds - PurgeableRefs(State(), retentionDays, purgeNow);
      }
      ghost var mid := State();
      var expired := SelectExpired(now, locked);
      batch := RefsOf(expired);
      PickedIsFullBatch(mid, now, locked, expired);
      if |expired| == 0 {
        ReapNothing(mid, batch, now);
        return [], batch;
      }
      var refs: seq<HoldRef> := [];
      released := [];
      for i := 0 to |expired|
        invariant refs == batch[..i] && |released| == i
        invariant forall j :: 0 <= j < i ==> released[j] == (expired[j].1, expired[j].2, expired[j].3)
      {
        refs := refs + [expired[i].0];
        released := released + [(expired[i].1, expired[i].2, expired[i].3)];
      }
      assert refs == batch;
      inventory := UpdateRows(inventory, HeldBy(inventory, ToSet(refs)), ClearHold);
      holds := map r | r in holds && !(r in refs && holds[r].booking.None?) :: holds[r];
      DeletedIsReaped(mid, batch, now);
      CollectedDescribes(mid, now, locked, expired, released);
    }

    /** One reaper run: skipped altogether while another session has the advisory lock. */
    method ExpireHolds(retentionDays: int, purgeNow: Time, now: Time, locked: set<HoldRef>)
      returns (releasedCount: nat, ghost batch: seq<HoldRef>)
      modifies this
      ensures old(reaperLocked) ==>
                releasedCount == 0 && State() == old(State()) && events == old(events) && reaperLocked
      ensures !old(reaperLocked) ==>
                var mid := AfterPurge(old(State()), retentionDays, purgeNow);
                IsFullBatch(mid, batch, now, locked)
                && var o := Apply(mid, Reap(batch, now));
                State() == o.db && Reaped(releasedCount) == o.answer && events == old(events) + o.events
                && !reaperLocked
    {
      if reaperLocked {
        return 0, [];
      }
      reaperLocked := true;
      var expired;
      expired, batch := RunReaper(retentionDays, purgeNow, now, locked);
      reaperLocked := false;
      ghost var mid := AfterPurge(old(State()), retentionDays, purgeNow);
      ghost var told := ReapEvents(mid.holds, batch);
      for i := 0 to |expired|
        invariant State() == Apply(mid, Reap(batch, now)).db && !reaperLocked
        invariant events == old(events) + told[..i]
      {
        Publish(HoldsReleased(expired[i].0, [expired[i].1]));
        assert told[..i + 1] == told[..i] + [told[i]];
      }
      assert told[..|expired|] == told;
      releasedCount := |expired|;
    }

    // -------------------------------------------------------------- snapshot

    method GetInventorySnapshot(trip: Uuid) returns (seats: seq<SeatState>)
      ensures IsSnapshot(Join(State(), trip), trip, seats)
    {
      seats := BuildSnapshot(Join(State(), trip), trip);
    }
  }

  function RefsOf(rows: seq<HoldRecord>): seq<HoldRef> {
    seq(|rows|, i requires 0 <= i < |rows| => rows[i].0)
  }

  function Record(holds: Holds, ref: HoldRef): HoldRecord {
    if ref in holds then (ref, holds[ref].trip, holds[ref].seat, holds[ref].legs) else (ref, "", "", [])
  }

  /** What SELECT ... SKIP LOCKED fetched. */
  predicate Picked(db: Db, now: Time, locked: set<HoldRef>, rows: seq<HoldRecord>) {
    Distinct(RefsOf(rows)) && |rows| == Min(BATCH_LIMIT, |Backlog(db, now) - locked|)
    && forall i :: 0 <= i < |rows| ==>
         rows[i].0 in Backlog(db, now) - locked && rows[i] == Record(db.holds, rows[i].0)
  }

  /** A batch the reaper can take, as large as the limit and other sessions' locks allow. */
  predicate IsFullBatch(db: Db, batch: seq<HoldRef>, now: Time, locked: set<HoldRef>) {
    Possible(db, Reap(batch, now)) && ToSet(batch) !! locked
    && |batch| == Min(BATCH_LIMIT, |Backlog(db, now) - locked|)
  }

  /** The list has the trip, seat and legs of each hold of the batch, in order. */
  predicate Describes(released: seq<(Uuid, string, seq<int>)>, holds: Holds, batch: seq<HoldRef>) {
    |released| == |batch|
    && forall i :: 0 <= i < |batch| ==>
         batch[i] in holds && released[i] == (holds[batch[i]].trip, holds[batch[i]].seat, holds[batch[i]].legs)
  }

  lemma PickedIsFullBatch(db: Db, now: Time, locked: set<HoldRef>, rows: seq<HoldRecord>)
    requires Picked(db, now, locked, rows)
    ensures IsFullBatch(db, RefsOf(rows), now, locked)
  {
    var batch := RefsOf(rows);
    forall r | r in batch ensures r in Backlog(db, now) && r !in locked {
      var i :| 0 <= i < |rows| && batch[i] == r;
    }
  }

  lemma CollectedDescribes(db: Db, now: Time, locked: set<HoldRef>, rows: seq<HoldRecord>,
                           released: seq<(Uuid, string, seq<int>)>)
    requires Picked(db, now, locked, rows) && |released| == |rows|
    requires forall i :: 0 <= i < |rows| ==> released[i] == (rows[i].1, rows[i].2, rows[i].3)
    ensures Describes(released, db.holds, RefsOf(rows))
  {
  }

  lemma ReapNothing(db: Db, batch: seq<HoldRef>, now: Time)
    requires batch == []
    ensures Apply(db, Reap(batch, now)).db == db
  {
    assert ToSet(batch) == {};
    assert UpdateRows(db.inventory, {}, ClearHold) == db.inventory;
  }

  lemma DeletedIsReaped(db: Db, batch: seq<HoldRef>, now: Time)
    requires Possible(db, Reap(batch, now))
    ensures (map r | r in db.holds && !(r in batch && db.holds[r].booking.None?) :: db.holds[r])
            == Apply(db, Reap(batch, now)).db.holds
  {
  }

  function PurgeableRefs(db: Db, retentionDays: int, now: Time): set<HoldRef> {
    set r | r in db.holds && Purgeable(db.holds[r], now, retentionDays)
  }

  /** The tables after the purge statement: everything past its retention is gone, nothing else. */
  function AfterPurge(db: Db, retentionDays: int, now: Time): Db {
    if retentionDays > 0 then Apply(db, Purge(PurgeableRefs(db, retentionDays, now), now, retentionDays)).db else db
  }

  /** The purge deletes exactly the consumed holds that expired more than the retention period (whole days)
      ago, if that period is positive, and touches nothing else. */
  lemma PurgeDeletesExactly(db: Db, retentionDays: int, now: Time)
    ensures var mid := AfterPurge(db, retentionDays, now);
            mid.inventory == db.inventory
            && (forall r :: r in mid.holds ==> r in db.holds && mid.holds[r] == db.holds[r])
            && forall r :: r in db.holds ==>
                 (r !in mid.holds
                  <==> retentionDays > 0 && db.holds[r].booking.Some?
                       && db.holds[r].expiresAt < now - retentionDays * 86_400_000_000)
  {
  }

  /** The batch takes only expired holds without a booking that nobody has locked, at most 500 of them, and
      leaves such a hold behind only when it is full. */
  lemma BatchTakesExactly(db: Db, batch: seq<HoldRef>, now: Time, locked: set<HoldRef>)
    requires IsFullBatch(db, batch, now, locked)
    ensures |batch| <= 500
    ensures forall r :: r in batch ==>
              r in db.holds && db.holds[r].booking == None && db.holds[r].expiresAt <= now && r !in locked
    ensures |batch| < 500 ==>
              forall r :: r in db.holds && db.holds[r].booking == None && db.holds[r].expiresAt <= now && r !in locked
                ==> r in batch
  {
    var eligible := Backlog(db, now) - locked;
    DistinctByCount(batch);
    assert ToSet(batch) <= eligible;
    SubsetCount(ToSet(batch), eligible);
    if |batch| < 500 {
      assert ToSet(batch) == eligible;
      forall r | r in eligible ensures r in batch {
        assert r in ToSet(batch);
      }
    }
  }

  lemma ReapLeaves(db: Db, batch: seq<HoldRef>, now: Time)
    requires Possible(db, Reap(batch, now))
    ensures var end := Apply(db, Reap(batch, now)).db;
            end.holds == (map r | r in db.holds && r !in batch :: db.holds[r])
            && end.inventory.Keys == db.inventory.Keys
            && forall k :: k in db.inventory ==>
                 end.inventory[k] == if db.inventory[k].holdRef.Some? && db.inventory[k].holdRef.value in batch
                                     then Row(db.inventory[k].booked, None) else db.inventory[k]
  {
  }

  /** What a whole reaper run leaves of the tables it found: the holds purged and those of the batch are
      gone, the others are as they were; the rows that carried a hold of the batch carry none, the others
      are as they were. */
  lemma ReaperRunLeaves(db: Db, retentionDays: int, purgeNow: Time, now: Time, batch: seq<HoldRef>)
    requires Possible(AfterPurge(db, retentionDays, purgeNow), Reap(batch, now))
    ensures var end := Apply(AfterPurge(db, retentionDays, purgeNow), Reap(batch, now)).db;
            (forall r :: r in end.holds ==> r in db.holds && end.holds[r] == db.holds[r])
            && (forall r :: r in db.holds ==>
                  (r !in end.holds
                   <==> r in batch
                        || (retentionDays > 0 && db.holds[r].booking.Some?
                            && db.holds[r].expiresAt < purgeNow - retentionDays * 86_400_000_000)))
            && end.inventory.Keys == db.inventory.Keys
            && forall k :: k in db.inventory ==>
                 end.inventory[k] == if db.inventory[k].holdRef.Some? && db.inventory[k].holdRef.value in batch
                                     then Row(db.inventory[k].booked, None) else db.inventory[k]
  {
    PurgeDeletesExactly(db, retentionDays, purgeNow);
    ReapLeaves(AfterPurge(db, retentionDays, purgeNow), batch, now);
  }

  /** One holds.released for each hold of the batch, in order, with its trip and seat. */
  lemma ReapPublishes(db: Db, batch: seq<HoldRef>, now: Time)
    requires Possible(db, Reap(batch, now))
    ensures var o := Apply(db, Reap(batch, now));
            o.answer == Reaped(|batch|) && |o.events| == |batch|
            && forall i :: 0 <= i < |batch| ==>
                 batch[i] in db.holds
                 && o.events[i] == HoldsReleased(db.holds[batch[i]].trip, [db.holds[batch[i]].seat])
  {
  }
}
