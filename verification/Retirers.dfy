/** Confirms, releases and reapers lock the rows that their references are on, in no stated order. Among
    themselves, and whatever else runs and commits, they never wait in a circle. */
module Retirers {
  import opened Common
  import opened Tables
  import opened Atomic
  import opened Concurrent
  import opened Interleavings
  import opened Deadlock

  /** The request locks rows by the reference they carry. */
  predicate ByReference(r: Request) { r.ConfirmReq? || r.ReleaseReq? || r.ReapReq? }

  predicate LocksByReference(tx: Txn) { ByReference(tx.request) && tx.pc == Locking }

  /** Nothing that b has yet to lock carries a reference of a. */
  predicate Clear(inv: Inventory, a: Txn, b: Txn) {
    forall l :: l in b.todo && l in inv ==> !IsHeldBy(inv[l], ToSet(a.batch))
  }

  /** An order, by when they ran the statement that locks rows, in which nothing that a later one has yet
      to lock carries a reference of an earlier one. */
  predicate Ranked(inv: Inventory, txns: map<Tid, Txn>, rank: map<Tid, nat>, next: nat) {
    (forall t :: t in txns && LocksByReference(txns[t]) ==> t in rank && rank[t] < next)
    && forall t, u :: t in txns && u in txns && t != u && LocksByReference(txns[t]) && LocksByReference(txns[u]) ==>
         rank[t] != rank[u] && (rank[t] < rank[u] ==> Clear(inv, txns[t], txns[u]))
  }

  // ---------------------------------------------------------------- every step keeps the order

  /** Two transactions have no reference in common, so what one is about to lock is clear of the other. */
  lemma ScannedClear(db: Db, txns: map<Tid, Txn>, holdLocks: map<HoldRef, Tid>, t: Tid, u: Tid)
    requires HoldLocksOk(txns, holdLocks) && t in txns && u in txns && t != u
    requires HoldsRead(db, txns[t]) && HoldsRead(db, txns[u]) && ByReference(txns[u].request)
    ensures Clear(db.inventory, txns[t], HeldScanned(db, txns[u]))
  {
    assert ToSet(txns[t].batch) !! ToSet(txns[u].batch) by {
      assert forall r :: r in txns[t].holds ==> holdLocks[r] == t;
    }
  }

  lemma ScanHeldKeepsRanked(s: Sys, u: Tid, rank: map<Tid, nat>, next: nat)
    requires SysInv(s) && Ranked(s.world.db.inventory, s.txns, rank, next)
    requires u in s.txns && ByReference(s.txns[u].request)
    ensures Ranked(s.world.db.inventory, s.txns[u := HeldScanned(s.world.db, s.txns[u])], rank[u := next], next + 1)
  {
    var db := s.world.db;
    forall t | t in s.txns && t != u ensures Clear(db.inventory, s.txns[t], HeldScanned(db, s.txns[u])) {
      assert TxnOk(db, s.txns[t]) && TxnOk(db, s.txns[u]);
      ScannedClear(db, s.txns, s.holdLocks, t, u);
    }
  }

  /** The step leaves the transaction's references alone and gives it no new row to lock. */
  predicate Shrinks(tx: Txn, tx': Txn) {
    LocksByReference(tx') ==> LocksByReference(tx) && tx'.batch == tx.batch && tx'.todo <= tx.todo
  }

  lemma ShrinkKeepsRanked(inv: Inventory, txns: map<Tid, Txn>, t: Tid, tx: Txn, rank: map<Tid, nat>, next: nat)
    requires Ranked(inv, txns, rank, next) && t in txns && Shrinks(txns[t], tx)
    ensures Ranked(inv, txns[t := tx], rank, next)
  {
  }

  lemma MoveShrinks(s: Sys, tx: Txn, m: Move)
    requires CanMove(s, tx, m) && (m.ScanHeld? ==> !ByReference(tx.request))
    ensures Shrinks(tx, Moved(s, tx, m))
  {
  }

  /** No row comes to carry a reference that was already in use. */
  predicate NoReuse(inv: Inventory, inv': Inventory, refs: set<HoldRef>) {
    inv'.Keys == inv.Keys && forall k :: k in inv && IsHeldBy(inv'[k], refs) ==> IsHeldBy(inv[k], refs)
  }

  lemma FlushReusesNothing(w: World, tx: Txn, refs: set<HoldRef>)
    requires TxnOk(w.db, tx) && tx.pc == Ready && refs <= w.used
    requires tx.request.HoldReq? ==> tx.request.ref !in w.used
    ensures NoReuse(w.db.inventory, Flush(w.db, tx.buffer).inventory, refs)
  {
    BufferWithinLocks(w.db, tx);
  }

  lemma DropKeepsRanked(inv: Inventory, txns: map<Tid, Txn>, t: Tid, inv': Inventory, rank: map<Tid, nat>, next: nat)
    requires Ranked(inv, txns, rank, next)
    requires forall u :: u in txns ==> NoReuse(inv, inv', ToSet(txns[u].batch))
    ensures Ranked(inv', txns - {t}, rank, next)
  {
    forall a, b | a in txns && b in txns && Clear(inv, txns[a], txns[b]) ensures Clear(inv', txns[a], txns[b]) {
      assert NoReuse(inv, inv', ToSet(txns[a].batch));
    }
  }

  lemma BatchInUse(s: Sys, t: Tid)
    requires SysInv(s) && t in s.txns
    ensures ToSet(s.txns[t].batch) <= s.world.used
  {
    assert TxnOk(s.world.db, s.txns[t]);
  }

  lemma EndKeepsRanked(s: Sys, t: Tid, e: Ending, rank: map<Tid, nat>, next: nat)
    requires SysInv(s) && Enabled(s, End(t, e)) && Ranked(s.world.db.inventory, s.txns, rank, next)
    ensures Ranked(EndDb(s.world.db, s.txns[t], e).inventory, s.txns - {t}, rank, next)
  {
    var inv, inv' := s.world.db.inventory, EndDb(s.world.db, s.txns[t], e).inventory;
    forall u | u in s.txns ensures NoReuse(inv, inv', ToSet(s.txns[u].batch)) {
      if e.Commit? {
        BatchInUse(s, u);
        assert TxnOk(s.world.db, s.txns[t]);
        FlushReusesNothing(s.world, s.txns[t], ToSet(s.txns[u].batch));
      }
    }
    DropKeepsRanked(inv, s.txns, t, inv', rank, next);
  }

  lemma StepKeepsRanked(s: Sys, a: Action, rank: map<Tid, nat>, next: nat) returns (rank': map<Tid, nat>, next': nat)
    requires SysInv(s) && Enabled(s, a) && Ranked(s.world.db.inventory, s.txns, rank, next)
    ensures Ranked(Act(s, a).world.db.inventory, Act(s, a).txns, rank', next')
  {
    rank', next' := rank, next;
    match a {
      case Step(t, m) =>
        if m.ScanHeld? && ByReference(s.txns[t].request) {
          ScanHeldKeepsRanked(s, t, rank, next);
          rank', next' := rank[t := next], next + 1;
        } else {
          MoveShrinks(s, s.txns[t], m);
          ShrinkKeepsRanked(s.world.db.inventory, s.txns, t, Moved(s, s.txns[t], m), rank, next);
        }
      case End(t, e) => EndKeepsRanked(s, t, e, rank, next);
      case _ =>
    }
  }

  lemma {:induction false} ReachableRanked(ss: seq<Sys>, acts: seq<Action>) returns (rank: map<Tid, nat>, next: nat)
    requires IsTrace(ss, acts) && Idle(ss[0])
    ensures SysInv(ss[|acts|]) && Ranked(ss[|acts|].world.db.inventory, ss[|acts|].txns, rank, next)
    decreases |acts|
  {
    if acts == [] {
      rank, next := map[], 0;
    } else {
      var n := |acts| - 1;
      TracePrefix(ss, acts);
      rank, next := ReachableRanked(ss[..n + 1], acts[..n]);
      StepRefines(ss[n], acts[n]);
      rank, next := StepKeepsRanked(ss[n], acts[n], rank, next);
    }
  }

  // ---------------------------------------------------------------- no circle

  /** t, which locks by reference, waits for u, which does too and itself has rows yet to lock. */
  predicate RetirerWaits(s: Sys, t: Tid, k: SeatLeg, u: Tid) {
    Waits(s, t, k, u) && LocksByReference(s.txns[t]) && LocksByReference(s.txns[u])
  }

  lemma RetirerWaitsGoUp(s: Sys, t: Tid, k: SeatLeg, u: Tid, rank: map<Tid, nat>, next: nat)
    requires SysInv(s) && Ranked(s.world.db.inventory, s.txns, rank, next) && RetirerWaits(s, t, k, u)
    ensures t in rank && u in rank && rank[t] < rank[u]
  {
    assert k in s.txns[u].rows;
    assert TxnOk(s.world.db, s.txns[u]) && RowMatches(s.txns[u], k, s.world.db.inventory[k]);
    assert !Clear(s.world.db.inventory, s.txns[u], s.txns[t]);
  }

  predicate Rises(path: seq<Tid>, rank: map<Tid, nat>, i: nat) {
    i + 1 < |path| && path[i] in rank && path[i + 1] in rank && rank[path[i]] < rank[path[i + 1]]
  }

  lemma {:induction false} RanksRise(path: seq<Tid>, rank: map<Tid, nat>, n: nat)
    requires 1 <= n < |path| && forall i :: 0 <= i < n ==> Rises(path, rank, i)
    ensures path[0] in rank && path[n] in rank && rank[path[0]] < rank[path[n]]
  {
    assert Rises(path, rank, n - 1);
    if n > 1 {
      RanksRise(path, rank, n - 1);
    }
  }

  /** In any reachable state of any mix, commits included, no cycle of waits, of any length, is made of
      confirms, releases and reapers alone. */
  lemma RetirersNoWaitCycle(ss: seq<Sys>, acts: seq<Action>, path: seq<Tid>, rows: seq<SeatLeg>)
    requires IsTrace(ss, acts) && Idle(ss[0])
    requires |path| == |rows| + 1 && |rows| >= 1
    requires forall i {:trigger rows[i]} :: 0 <= i < |rows| ==> RetirerWaits(ss[|acts|], path[i], rows[i], path[i + 1])
    ensures path[|rows|] != path[0]
  {
    var rank, next := ReachableRanked(ss, acts);
    forall i | 0 <= i < |rows| ensures Rises(path, rank, i) {
      RetirerWaitsGoUp(ss[|acts|], path[i], rows[i], path[i + 1], rank, next);
    }
    RanksRise(path, rank, |rows|);
  }
}
