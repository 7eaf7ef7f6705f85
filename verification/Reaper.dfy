/** The reaper's batch against single releases, and how fast it drains a backlog. */
module Reaper {
  import opened Common
  import opened Tables
  import opened Atomic
  import opened Runs

  /** release_hold_by_ref applied to one reference after another. */
  function ReleaseEach(db: Db, refs: seq<HoldRef>): Db {
    if refs == [] then db
    else ApplyRelease(ReleaseEach(db, refs[..|refs| - 1]), refs[|refs| - 1]).db
  }

  lemma {:induction false} ReleaseEachIsUnhold(db: Db, refs: seq<HoldRef>)
    requires NoOrphans(db)
    requires forall r :: r in refs ==> r in db.holds && Active(db.holds[r])
    ensures ReleaseEach(db, refs) == Unhold(db, ToSet(refs))
  {
    if refs == [] {
      assert ToSet(refs) == {};
      assert UpdateRows(db.inventory, {}, ClearHold) == db.inventory;
    } else {
      var n := |refs| - 1;
      var init, last := refs[..n], refs[n];
      assert refs == init + [last];
      assert ToSet(refs) == ToSet(init) + {last};
      ReleaseEachIsUnhold(db, init);
      var mid := ReleaseEach(db, init);
      if last in init {
        assert ToSet(refs) == ToSet(init);
      } else {
        assert ApplyRelease(mid, last).db == Unhold(mid, {last});
        assert Unhold(mid, {last}).inventory == Unhold(db, ToSet(refs)).inventory;
      }
    }
  }

  /** One reaper batch leaves the same two tables as releasing its references one at a time, in any order. */
  lemma BatchEqualsSingles(w: World, batch: seq<HoldRef>, now: Time, order: seq<HoldRef>)
    requires Inv(w) && Possible(w.db, Reap(batch, now)) && ToSet(order) == ToSet(batch)
    ensures ReleaseEach(w.db, order) == Apply(w.db, Reap(batch, now)).db
  {
    forall r | r in order ensures r in w.db.holds && Active(w.db.holds[r]) {
      assert r in ToSet(order);
      assert r in batch;
    }
    ReleaseEachIsUnhold(w.db, order);
  }

  // ---------------------------------------------------------------- draining

  function Backlog(db: Db, now: Time): set<HoldRef> {
    set r | r in db.holds && Reapable(db.holds[r], now)
  }

  function Min(a: int, b: int): int { if a < b then a else b }
  function Max(a: int, b: int): int { if a < b then b else a }

  /** With no candidate row locked, the reaper takes 500 rows, or all of them if there are fewer. */
  predicate FullBatch(w: World, op: Op) {
    op.Reap? && Legal(w, op) && |op.batch| == Min(BATCH_LIMIT, |Backlog(w.db, op.now)|)
  }

  lemma ReapShrinksBacklog(w: World, op: Op, t: Time)
    requires FullBatch(w, op) && Backlog(w.db, t) == Backlog(w.db, op.now)
    ensures Backlog(Next(w, op).db, t) == Backlog(w.db, t) - ToSet(op.batch)
    ensures |Backlog(Next(w, op).db, t)| == Max(0, |Backlog(w.db, t)| - BATCH_LIMIT)
    ensures HeldBy(Next(w, op).db.inventory, ToSet(op.batch)) == {}
  {
    var refs := ToSet(op.batch);
    DistinctByCount(op.batch);
    assert refs <= Backlog(w.db, t);
    assert Backlog(Next(w, op).db, t) == Backlog(w.db, t) - refs;
    assert |Backlog(w.db, t)| == |Backlog(w.db, t) - refs| + |refs| by {
      assert Backlog(w.db, t) == (Backlog(w.db, t) - refs) + refs;
    }
  }

  /** A run of full-batch reaps during which no further hold expires: each sees the backlog of time t. */
  predicate QuietReaping(ws: seq<World>, ops: seq<Op>, t: Time) {
    IsRun(ws, ops)
    && forall i {:trigger ops[i]} :: 0 <= i < |ops| ==>
         FullBatch(ws[i], ops[i]) && Backlog(ws[i].db, t) == Backlog(ws[i].db, ops[i].now)
  }

  /** Every run removes 500 from the backlog until it is empty, and what left the backlog holds no row. */
  lemma {:induction false} DrainProgress(ws: seq<World>, ops: seq<Op>, t: Time, i: nat)
    requires QuietReaping(ws, ops, t) && i <= |ops|
    ensures |Backlog(ws[i].db, t)| == Max(0, |Backlog(ws[0].db, t)| - BATCH_LIMIT * i)
    ensures Backlog(ws[i].db, t) <= Backlog(ws[0].db, t)
    ensures HeldBy(ws[i].db.inventory, Backlog(ws[0].db, t) - Backlog(ws[i].db, t)) == {}
  {
    if i == 0 {
      assert Backlog(ws[0].db, t) - Backlog(ws[0].db, t) == {};
    } else {
      DrainProgress(ws, ops, t, i - 1);
      var op := ops[i - 1];
      ReapShrinksBacklog(ws[i - 1], op, t);
      var gone := Backlog(ws[0].db, t) - Backlog(ws[i].db, t);
      var goneBefore := Backlog(ws[0].db, t) - Backlog(ws[i - 1].db, t);
      assert HeldBy(ws[i].db.inventory, gone)
          <= HeldBy(ws[i].db.inventory, ToSet(op.batch)) + HeldBy(ws[i - 1].db.inventory, goneBefore);
    }
  }

  /** ceil(n / 500) runs empty a backlog of n holds and free all their rows, and no fewer runs do. */
  lemma DrainBound(ws: seq<World>, ops: seq<Op>, t: Time)
    requires QuietReaping(ws, ops, t)
    ensures var n := |Backlog(ws[0].db, t)|;
            Backlog(ws[|ops|].db, t) == {} <==> |ops| >= (n + BATCH_LIMIT - 1) / BATCH_LIMIT
    ensures |ops| >= (|Backlog(ws[0].db, t)| + BATCH_LIMIT - 1) / BATCH_LIMIT
            ==> HeldBy(ws[|ops|].db.inventory, Backlog(ws[0].db, t)) == {}
  {
    DrainProgress(ws, ops, t, |ops|);
    var left := Backlog(ws[|ops|].db, t);
    assert |left| == 0 <==> left == {};
    if left == {} {
      assert Backlog(ws[0].db, t) - left == Backlog(ws[0].db, t);
    }
  }

  // ---------------------------------------------------------------- draining amid other work

  /** Among the first n steps, those that are full batches. */
  function FullTurns(ws: seq<World>, ops: seq<Op>, n: nat): nat
    requires |ws| == |ops| + 1 && n <= |ops|
  {
    if n == 0 then 0
    else FullTurns(ws, ops, n - 1) + if FullBatch(ws[n - 1], ops[n - 1]) then 1 else 0
  }

  /** Any operations, in which no hold newly becomes reapable: none is taken that expires by t, and no full
      batch finds more than had expired by t. */
  predicate NothingExpires(ws: seq<World>, ops: seq<Op>, t: Time) {
    IsRun(ws, ops)
    && forall i {:trigger ops[i]} :: 0 <= i < |ops| ==>
         (ops[i].HoldSeat? ==> t < ops[i].expiresAt)
         && (FullBatch(ws[i], ops[i]) ==> Backlog(ws[i].db, ops[i].now) == Backlog(ws[i].db, t))
  }

  /** A reference once drawn keeps its expiry for as long as it is in the table. */
  lemma ExpiryKept(w: World, op: Op, r: HoldRef)
    requires Inv(w) && Legal(w, op) && r in w.used && r in Next(w, op).db.holds
    ensures r in w.db.holds && Next(w, op).db.holds[r].expiresAt == w.db.holds[r].expiresAt
  {
  }

  lemma BacklogNeverGrows(w: World, op: Op, t: Time)
    requires Inv(w) && Legal(w, op) && (op.HoldSeat? ==> t < op.expiresAt)
    ensures Backlog(Next(w, op).db, t) <= Backlog(w.db, t)
  {
  }

  /** References that have been drawn, and have expired by t if they are still in the table. */
  predicate ExpiredOrGone(w: World, refs: set<HoldRef>, t: Time) {
    refs <= w.used && forall r :: r in refs && r in w.db.holds ==> Expired(w.db.holds[r], t)
  }

  lemma GoneHoldsNoRow(w: World, refs: set<HoldRef>, t: Time)
    requires Inv(w) && ExpiredOrGone(w, refs, t)
    ensures HeldBy(w.db.inventory, refs - Backlog(w.db, t)) == {}
  {
    forall k | k in w.db.inventory ensures !IsHeldBy(w.db.inventory[k], refs - Backlog(w.db, t)) {
      assert Linked(w.db, k);
    }
  }

  lemma StepDrains(w: World, op: Op, refs: set<HoldRef>, t: Time)
    requires Inv(w) && Legal(w, op) && ExpiredOrGone(w, refs, t) && (op.HoldSeat? ==> t < op.expiresAt)
    requires FullBatch(w, op) ==> Backlog(w.db, op.now) == Backlog(w.db, t)
    ensures ExpiredOrGone(Next(w, op), refs, t)
    ensures Backlog(Next(w, op).db, t) <= Backlog(w.db, t)
    ensures |Backlog(Next(w, op).db, t)| <= Max(0, |Backlog(w.db, t)| - if FullBatch(w, op) then BATCH_LIMIT else 0)
  {
    forall r | r in refs && r in Next(w, op).db.holds ensures Expired(Next(w, op).db.holds[r], t) {
      ExpiryKept(w, op, r);
    }
    BacklogNeverGrows(w, op, t);
    SubsetCount(Backlog(Next(w, op).db, t), Backlog(w.db, t));
    if FullBatch(w, op) {
      ReapShrinksBacklog(w, op, t);
    }
  }

  /** Whatever else runs, each full batch takes 500 off the backlog at least, or all that is left of it,
      and what has left it, by whichever operation, holds no row. */
  lemma {:induction false} DrainsAmidOthers(ws: seq<World>, ops: seq<Op>, t: Time, n: nat)
    requires NothingExpires(ws, ops, t) && Inv(ws[0]) && n <= |ops|
    ensures |Backlog(ws[n].db, t)| <= Max(0, |Backlog(ws[0].db, t)| - BATCH_LIMIT * FullTurns(ws, ops, n))
    ensures Backlog(ws[n].db, t) <= Backlog(ws[0].db, t)
    ensures HeldBy(ws[n].db.inventory, Backlog(ws[0].db, t) - Backlog(ws[n].db, t)) == {}
  {
    for i := 0 to n
      invariant |Backlog(ws[i].db, t)| <= Max(0, |Backlog(ws[0].db, t)| - BATCH_LIMIT * FullTurns(ws, ops, i))
      invariant Backlog(ws[i].db, t) <= Backlog(ws[0].db, t) && ExpiredOrGone(ws[i], Backlog(ws[0].db, t), t)
    {
      InvAt(ws, ops, i);
      var op := ops[i];
      StepDrains(ws[i], op, Backlog(ws[0].db, t), t);
    }
    InvAt(ws, ops, n);
    GoneHoldsNoRow(ws[n], Backlog(ws[0].db, t), t);
  }

  /** So ceil(n / 500) full batches, with anything in between, empty a backlog of n and free all its rows. */
  lemma DrainedAmidOthers(ws: seq<World>, ops: seq<Op>, t: Time)
    requires NothingExpires(ws, ops, t) && Inv(ws[0])
    requires FullTurns(ws, ops, |ops|) >= (|Backlog(ws[0].db, t)| + BATCH_LIMIT - 1) / BATCH_LIMIT
    ensures Backlog(ws[|ops|].db, t) == {} && HeldBy(ws[|ops|].db.inventory, Backlog(ws[0].db, t)) == {}
  {
    DrainsAmidOthers(ws, ops, t, |ops|);
    assert |Backlog(ws[|ops|].db, t)| == 0;
    assert Backlog(ws[0].db, t) - Backlog(ws[|ops|].db, t) == Backlog(ws[0].db, t);
  }

  /** `ticks` are the reaper's turns in a run of arbitrary operations; between two of them at most 500
      holds newly become reapable. */
  predicate SteadyLoad(ws: seq<World>, ops: seq<Op>, ticks: seq<nat>) {
    IsRun(ws, ops)
    && (forall n {:trigger ticks[n]} :: 0 <= n < |ticks| ==> ticks[n] < |ops| && FullBatch(ws[ticks[n]], ops[ticks[n]]))
    && forall n {:trigger ticks[n]} :: 0 < n < |ticks| ==>
         |Backlog(ws[ticks[n]].db, ops[ticks[n]].now)
          - Backlog(ws[ticks[n - 1] + 1].db, ops[ticks[n - 1]].now)| <= BATCH_LIMIT
  }

  /** Under that load the backlog the reaper finds never exceeds the larger of its first backlog and 500. */
  lemma {:induction false} BacklogBounded(ws: seq<World>, ops: seq<Op>, ticks: seq<nat>, n: nat)
    requires SteadyLoad(ws, ops, ticks) && n < |ticks|
    ensures |Backlog(ws[ticks[n]].db, ops[ticks[n]].now)|
            <= Max(|Backlog(ws[ticks[0]].db, ops[ticks[0]].now)|, BATCH_LIMIT)
  {
    if n > 0 {
      BacklogBounded(ws, ops, ticks, n - 1);
      var before, tick := ticks[n - 1], ticks[n];
      var op := ops[before];
      ReapShrinksBacklog(ws[before], op, op.now);
      var found, left := Backlog(ws[tick].db, ops[tick].now), Backlog(ws[before + 1].db, op.now);
      assert found <= left + (found - left);
      SubsetCount(found, left + (found - left));
    }
  }
}
