/** When an active hold owns exactly the rows of its leg list, and what that says about counts. */
module Ownership {
  import opened Common
  import opened Tables
  import opened Atomic
  import opened Runs

  function Owned(db: Db, ref: HoldRef): set<SeatLeg> {
    HeldBy(db.inventory, {ref})
  }

  predicate OwnsExactly(db: Db, ref: HoldRef)
    requires ref in db.holds
  {
    var h := db.holds[ref];
    Owned(db, ref) == Requested(h.trip, h.seat, h.legs)
  }

  predicate ExactOwnership(db: Db) {
    forall r :: r in db.holds && Active(db.holds[r]) ==> OwnsExactly(db, r)
  }

  /** The cancel names a row that a live hold carries. */
  predicate CancelsHeldRow(db: Db, op: Op) {
    op.Cancel?
    && exists k :: k in Matching(db.inventory, op.trip, op.seat, op.legs) && db.inventory[k].holdRef.Some?
  }

  /** An active hold never owns more than its legs. */
  lemma OwnedWithinLegs(w: World, ref: HoldRef)
    requires Inv(w) && ref in w.db.holds
    ensures Owned(w.db, ref) <= Requested(w.db.holds[ref].trip, w.db.holds[ref].seat, w.db.holds[ref].legs)
  {
    forall k | k in Owned(w.db, ref)
      ensures k in Requested(w.db.holds[ref].trip, w.db.holds[ref].seat, w.db.holds[ref].legs)
    {
      assert Linked(w.db, k);
    }
  }

  lemma NewHoldOwnsExactly(w: World, op: Op)
    requires Inv(w) && op.HoldSeat? && Legal(w, op) && op.ref in Next(w, op).db.holds
    ensures OwnsExactly(Next(w, op).db, op.ref)
  {
    var keys := Matching(w.db.inventory, op.req.trip, op.req.seat, op.req.legs);
    RowCountCheck(w.db.inventory, op.req.trip, op.req.seat, op.req.legs);
    assert Selected(w.db.inventory, keys).Keys == keys;
    assert keys == Requested(op.req.trip, op.req.seat, op.req.legs);
    assert forall k :: k in w.db.inventory ==> Linked(w.db, k);
    assert Owned(Next(w, op).db, op.ref) == keys;
  }

  lemma OwnedRowKept(w: World, op: Op, r: HoldRef, k: SeatLeg)
    requires Inv(w) && Legal(w, op) && !CancelsHeldRow(w.db, op) && k in w.db.inventory
    requires r in Next(w, op).db.holds && Active(Next(w, op).db.holds[r]) && !(op.HoldSeat? && r == op.ref)
    ensures k in Owned(Next(w, op).db, r) <==> k in Owned(w.db, r)
  {
    assert Linked(w.db, k);
    if op.HoldSeat? {
      var keys := Matching(w.db.inventory, op.req.trip, op.req.seat, op.req.legs);
      assert k in keys ==> Selected(w.db.inventory, keys)[k] == w.db.inventory[k];
    }
  }

  lemma OwnershipKept(w: World, op: Op, r: HoldRef)
    requires Inv(w) && Legal(w, op) && ExactOwnership(w.db) && !CancelsHeldRow(w.db, op)
    requires r in Next(w, op).db.holds && Active(Next(w, op).db.holds[r])
    ensures OwnsExactly(Next(w, op).db, r)
  {
    if op.HoldSeat? && r == op.ref {
      NewHoldOwnsExactly(w, op);
    } else {
      HoldKept(w, op, r);
      InvStep(w, op);
      forall k | k in w.db.inventory ensures k in Owned(Next(w, op).db, r) <==> k in Owned(w.db, r) {
        OwnedRowKept(w, op, r, k);
      }
      assert Owned(Next(w, op).db, r) == Owned(w.db, r);
    }
  }

  lemma HoldKept(w: World, op: Op, r: HoldRef)
    requires Legal(w, op) && ExactOwnership(w.db) && !(op.HoldSeat? && r == op.ref)
    requires r in Next(w, op).db.holds && Active(Next(w, op).db.holds[r])
    ensures r in w.db.holds && Next(w, op).db.holds[r] == w.db.holds[r] && OwnsExactly(w.db, r)
  {
  }

  /** Exact ownership survives a step exactly when the step is not a cancel naming a held row. */
  lemma ExactOwnershipStep(w: World, op: Op)
    requires Inv(w) && Legal(w, op) && ExactOwnership(w.db)
    ensures ExactOwnership(Next(w, op).db) <==> !CancelsHeldRow(w.db, op)
  {
    if CancelsHeldRow(w.db, op) {
      var k :| k in Matching(w.db.inventory, op.trip, op.seat, op.legs) && w.db.inventory[k].holdRef.Some?;
      var r := w.db.inventory[k].holdRef.value;
      assert Linked(w.db, k);
      assert k in Owned(w.db, r) && k !in Owned(Next(w, op).db, r);
      assert OwnsExactly(w.db, r);
      assert !OwnsExactly(Next(w, op).db, r);
    } else {
      forall r | r in Next(w, op).db.holds && Active(Next(w, op).db.holds[r])
        ensures OwnsExactly(Next(w, op).db, r)
      {
        OwnershipKept(w, op, r);
      }
    }
  }

  /** A run keeps exact ownership throughout exactly when no cancel in it names a held row. */
  lemma {:induction false} ExactOwnershipAlong(ws: seq<World>, ops: seq<Op>)
    requires IsRun(ws, ops) && Inv(ws[0]) && ExactOwnership(ws[0].db)
    ensures (forall i :: 0 <= i < |ws| ==> ExactOwnership(ws[i].db))
            <==> (forall i {:trigger ops[i]} :: 0 <= i < |ops| ==> !CancelsHeldRow(ws[i].db, ops[i]))
  {
    if forall i {:trigger ops[i]} :: 0 <= i < |ops| ==> !CancelsHeldRow(ws[i].db, ops[i]) {
      for n := 0 to |ops|
        invariant forall i :: 0 <= i <= n ==> ExactOwnership(ws[i].db)
      {
        InvAt(ws, ops, n);
        var op := ops[n];
        ExactOwnershipStep(ws[n], op);
      }
    } else {
      var i :| 0 <= i < |ops| && CancelsHeldRow(ws[i].db, ops[i]);
      InvAt(ws, ops, i);
      if ExactOwnership(ws[i].db) {
        ExactOwnershipStep(ws[i], ops[i]);
      }
    }
  }

  // ---------------------------------------------------------------- counting rows

  function HeldRows(inv: Inventory): set<SeatLeg> { set k | k in inv && inv[k].holdRef.Some? }
  function BookedRows(inv: Inventory): set<SeatLeg> { set k | k in inv && inv[k].booked }
  function FreeRows(inv: Inventory): set<SeatLeg> { set k | k in inv && Free(inv[k]) }

  function ActiveRefs(holds: Holds): set<HoldRef> { set r | r in holds && Active(holds[r]) }

  /** The leg counts of the given holds, added up. */
  ghost function LegSum(holds: Holds, refs: set<HoldRef>): nat
    requires refs <= holds.Keys
  {
    if refs == {} then 0
    else var r :| r in refs; |holds[r].legs| + LegSum(holds, refs - {r})
  }

  lemma {:induction false} LegSumSplit(holds: Holds, refs: set<HoldRef>, r: HoldRef)
    requires refs <= holds.Keys && r in refs
    ensures LegSum(holds, refs) == |holds[r].legs| + LegSum(holds, refs - {r})
    decreases refs
  {
    var c :| c in refs && LegSum(holds, refs) == |holds[c].legs| + LegSum(holds, refs - {c});
    if c != r {
      LegSumSplit(holds, refs - {c}, r);
      LegSumSplit(holds, refs - {r}, c);
      assert refs - {c} - {r} == refs - {r} - {c};
    }
  }

  lemma {:induction false} OwnedCount(w: World, refs: set<HoldRef>)
    requires Inv(w) && refs <= ActiveRefs(w.db.holds)
    ensures |HeldBy(w.db.inventory, refs)| <= LegSum(w.db.holds, refs)
    ensures |HeldBy(w.db.inventory, refs)| == LegSum(w.db.holds, refs)
            <==> forall r :: r in refs ==> OwnsExactly(w.db, r)
    decreases refs
  {
    if refs == {} {
      assert HeldBy(w.db.inventory, refs) == {};
    } else {
      var r :| r in refs;
      var rest, h := refs - {r}, w.db.holds[r];
      LegSumSplit(w.db.holds, refs, r);
      OwnedCount(w, rest);
      assert HeldBy(w.db.inventory, refs) == HeldBy(w.db.inventory, rest) + Owned(w.db, r);
      OwnedWithinLegs(w, r);
      RequestedCount(h.trip, h.seat, h.legs);
      DistinctByCount(h.legs);
      SubsetCount(Owned(w.db, r), Requested(h.trip, h.seat, h.legs));
      assert forall x :: x in refs <==> x in rest || x == r;
    }
  }

  /** Held rows never outnumber the legs of the active holds, and match them exactly under exact
      ownership and only then. */
  lemma HeldRowsCount(w: World)
    requires Inv(w)
    ensures |HeldRows(w.db.inventory)| <= LegSum(w.db.holds, ActiveRefs(w.db.holds))
    ensures |HeldRows(w.db.inventory)| == LegSum(w.db.holds, ActiveRefs(w.db.holds)) <==> ExactOwnership(w.db)
  {
    var refs := ActiveRefs(w.db.holds);
    forall k | k in HeldRows(w.db.inventory) ensures k in HeldBy(w.db.inventory, refs) {
      assert Linked(w.db, k);
    }
    assert HeldRows(w.db.inventory) == HeldBy(w.db.inventory, refs);
    OwnedCount(w, refs);
  }

  lemma RowsPartition(w: World)
    requires Inv(w)
    ensures |FreeRows(w.db.inventory)| + |HeldRows(w.db.inventory)| + |BookedRows(w.db.inventory)|
            == |w.db.inventory.Keys|
  {
    var inv := w.db.inventory;
    forall k | k in inv ensures !(inv[k].booked && inv[k].holdRef.Some?) {
      assert Linked(w.db, k);
    }
    assert inv.Keys == FreeRows(inv) + HeldRows(inv) + BookedRows(inv);
    assert FreeRows(inv) !! HeldRows(inv) && (FreeRows(inv) + HeldRows(inv)) !! BookedRows(inv);
  }

  /** Free, held and booked rows add up to the same total at every point of a run. */
  lemma {:induction false} SeatsConserved(ws: seq<World>, ops: seq<Op>, i: nat)
    requires IsRun(ws, ops) && Inv(ws[0]) && i < |ws|
    ensures |FreeRows(ws[i].db.inventory)| + |HeldRows(ws[i].db.inventory)| + |BookedRows(ws[i].db.inventory)|
            == |ws[0].db.inventory.Keys|
  {
    InvAt(ws, ops, i);
    RowsPartition(ws[i]);
  }

  // ---------------------------------------------------------------- confirm

  /** A successful confirm turns exactly the rows its hold owns into booked rows. */
  lemma ConfirmMovesOwnedRows(w: World, op: Op)
    requires Inv(w) && op.Confirm? && Apply(w.db, op).answer == ConfirmOk
    ensures Owned(w.db, op.ref) !! BookedRows(w.db.inventory)
    ensures BookedRows(Next(w, op).db.inventory) == BookedRows(w.db.inventory) + Owned(w.db, op.ref)
    ensures HeldRows(Next(w, op).db.inventory) == HeldRows(w.db.inventory) - Owned(w.db, op.ref)
  {
    forall k | k in w.db.inventory ensures Linked(w.db, k) {
    }
  }

  /** Every leg of the confirmed hold is booked afterwards exactly when each one was still owned by
      the hold, or had been freed by a cancel and booked since. */
  lemma ConfirmBooksEveryLeg(w: World, op: Op)
    requires Inv(w) && op.Confirm? && Apply(w.db, op).answer == ConfirmOk
    ensures var h := w.db.holds[op.ref];
            (Requested(h.trip, h.seat, h.legs) <= BookedRows(Next(w, op).db.inventory)
             <==> Requested(h.trip, h.seat, h.legs) - Owned(w.db, op.ref) <= BookedRows(w.db.inventory))
    ensures ExactOwnership(w.db) ==>
              var h := w.db.holds[op.ref];
              Requested(h.trip, h.seat, h.legs) <= BookedRows(Next(w, op).db.inventory)
  {
    ConfirmMovesOwnedRows(w, op);
    if ExactOwnership(w.db) {
      assert OwnsExactly(w.db, op.ref);
    }
  }

  lemma CancelLosesTheRow(w: World, op: Op, k: SeatLeg, ref: HoldRef)
    requires op.Cancel? && k in w.db.inventory && w.db.inventory[k] == Row(false, Some(ref))
    requires Names(op.trip, op.seat, op.legs, k)
    requires ref in w.db.holds && Active(w.db.holds[ref])
    requires Names(w.db.holds[ref].trip, w.db.holds[ref].seat, w.db.holds[ref].legs, k)
    ensures CancelsHeldRow(w.db, op) && !ExactOwnership(Next(w, op).db)
    ensures Next(w, op).db.holds == w.db.holds
    ensures k in Next(w, op).db.inventory && Next(w, op).db.inventory[k] == Row(false, None)
  {
    var h := w.db.holds[ref];
    assert k in Matching(w.db.inventory, op.trip, op.seat, op.legs);
    assert k in Requested(h.trip, h.seat, h.legs) && k !in Owned(Next(w, op).db, ref);
    assert !OwnsExactly(Next(w, op).db, ref);
  }

  /** Exact ownership does fail: hold two legs, cancel one of them, confirm. The confirm succeeds and
      leaves the cancelled leg free, although the hold and the published event list it. */
  lemma PartialCancelLosesALeg() returns (w: World, hold: Op, cancel: Op, confirm: Op)
    ensures Init(w) && hold.HoldSeat? && cancel.Cancel? && confirm.Confirm?
    ensures Legal(w, hold) && Legal(Next(w, hold), cancel)
    ensures CancelsHeldRow(Next(w, hold).db, cancel) && !ExactOwnership(Next(Next(w, hold), cancel).db)
    ensures var w2 := Next(Next(w, hold), cancel);
            Apply(w2.db, confirm).answer == ConfirmOk
            && Apply(w2.db, confirm).events == [InventoryUpdated("trip", "1A", [0, 1])]
            && SeatLeg("trip", "1A", 0) in FreeRows(Next(w2, confirm).db.inventory)
  {
    var k, req := SeatLeg("trip", "1A", 0), HoldRequest("trip", "1A", [0, 1], "op", Short);
    w := World(Db(map[k := Row(false, None), SeatLeg("trip", "1A", 1) := Row(false, None)], map[]), {});
    hold, cancel, confirm := HoldSeat(req, "ref", 300 * SECOND), Cancel("trip", "1A", [0]), Confirm("ref", "BK-1", 0);
    PairCanBeHeld(w.db, req, "ref", 300 * SECOND);
    var w1 := Next(w, hold);
    HeldRow(w.db, req, "ref", 300 * SECOND, k);
    CancelLosesTheRow(w1, cancel, k, "ref");
    ConfirmLeavesFree(Next(w1, cancel).db, confirm, k);
  }

  lemma PairCanBeHeld(db: Db, req: HoldRequest, ref: HoldRef, expiresAt: Time)
    requires req.legs == [0, 1] && ref !in db.holds
    requires forall leg :: leg in {0, 1} ==>
               SeatLeg(req.trip, req.seat, leg) in db.inventory
               && Free(db.inventory[SeatLeg(req.trip, req.seat, leg)])
    ensures ApplyHold(db, req, ref, expiresAt).answer.HoldOk?
  {
    HoldSucceedsExactlyWhen(db, req, ref, expiresAt);
  }

  lemma HeldRow(db: Db, req: HoldRequest, ref: HoldRef, expiresAt: Time, k: SeatLeg)
    requires ApplyHold(db, req, ref, expiresAt).answer.HoldOk?
    requires k in db.inventory && Names(req.trip, req.seat, req.legs, k)
    ensures var db' := ApplyHold(db, req, ref, expiresAt).db;
            k in db'.inventory && db'.inventory[k] == db.inventory[k].(holdRef := Some(ref))
            && db'.holds == db.holds[ref := HoldRow(req, expiresAt)]
  {
  }

  lemma ConfirmLeavesFree(db: Db, confirm: Op, k: SeatLeg)
    requires confirm.Confirm? && confirm.ref in db.holds && Active(db.holds[confirm.ref])
    requires !Expired(db.holds[confirm.ref], confirm.now) && k in db.inventory && db.inventory[k] == Row(false, None)
    ensures var o, h := Apply(db, confirm), db.holds[confirm.ref];
            o.answer == ConfirmOk && o.events == [InventoryUpdated(h.trip, h.seat, h.legs)]
            && k in FreeRows(o.db.inventory)
  {
  }
}
