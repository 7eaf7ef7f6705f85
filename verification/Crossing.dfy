/** Two transactions of any kinds that each wait for a row the other has locked: when they can get there. */
module Crossing {
  import opened Common
  import opened Tables
  import opened Runs
  import opened Atomic
  import opened Concurrent
  import opened Interleavings
  import opened Deadlock
  import opened Retirers

  predicate Crossed(s: Sys, t: Tid, u: Tid, k: SeatLeg, l: SeatLeg) {
    Waits(s, t, k, u) && Waits(s, u, l, t)
  }

  // ---------------------------------------------------------------- it is a deadlock

  lemma CrossedStays(s: Sys, a: Action, s': Sys, t: Tid, u: Tid, k: SeatLeg, l: SeatLeg)
    requires Goes(s, a, s') && Crossed(s, t, u, k, l) && a != Abort(t) && a != Abort(u)
    ensures Crossed(s', t, u, k, l)
  {
  }

  /** Whatever the rest of the system does, neither of the two ever ends until one of them is aborted. */
  lemma {:induction false} CrossedUntilAborted(ss: seq<Sys>, acts: seq<Action>, t: Tid, u: Tid, k: SeatLeg, l: SeatLeg)
    requires IsTrace(ss, acts) && Crossed(ss[0], t, u, k, l)
    requires forall i {:trigger acts[i]} :: 0 <= i < |acts| ==> acts[i] != Abort(t) && acts[i] != Abort(u)
    ensures Crossed(ss[|acts|], t, u, k, l)
  {
    for n := 0 to |acts|
      invariant Crossed(ss[n], t, u, k, l)
    {
      var a := acts[n];
      CrossedStays(ss[n], a, ss[n + 1], t, u, k, l);
    }
  }

  // ---------------------------------------------------------------- only with two rows in common

  /** The existing rows that a request names, and those that two requests both name. */
  function AskedRows(inv: Inventory, r: Request): set<SeatLeg> {
    set k | k in inv && Asks(r, k)
  }

  function Shared(inv: Inventory, c: Request, d: Request): set<SeatLeg> {
    set k | k in inv && Asks(c, k) && Asks(d, k)
  }

  lemma RowsAreAsked(db: Db, tx: Txn, k: SeatLeg)
    requires TxnOk(db, tx) && Orderly(tx) && tx.pc == Locking && NamesRows(tx.request)
    requires k in tx.todo || k in tx.rows
    ensures k in db.inventory && Asks(tx.request, k)
  {
  }

  lemma TwoMembers<T>(s: set<T>, x: T, y: T)
    requires x in s && y in s && x != y
    ensures |s| >= 2
  {
    assert s == {x, y} + (s - {x, y});
  }

  /** In any reachable state of any mix, a hold or cancel that waits while another transaction waits for
      it names at least two existing rows; one that names a single row is in no cycle of waits. */
  lemma BlockedBlockerNamesTwo(s: Sys, t: Tid, k: SeatLeg, u: Tid, l: SeatLeg, v: Tid)
    requires RowLocksOk(s.txns, s.rowLocks) && Waits(s, t, k, u) && Waits(s, u, l, v)
    requires TxnOk(s.world.db, s.txns[u]) && Orderly(s.txns[u]) && NamesRows(s.txns[u].request)
    ensures |AskedRows(s.world.db.inventory, s.txns[u].request)| >= 2
  {
    assert k in s.txns[u].rows;
    RowsAreAsked(s.world.db, s.txns[u], k);
    RowsAreAsked(s.world.db, s.txns[u], l);
    TwoMembers(AskedRows(s.world.db.inventory, s.txns[u].request), k, l);
  }

  /** Two that name their rows and are crossed have at least two existing rows in common, and they are not
      both holds. */
  lemma CrossedHaveTwoInCommon(s: Sys, t: Tid, u: Tid, k: SeatLeg, l: SeatLeg)
    requires RowLocksOk(s.txns, s.rowLocks) && Crossed(s, t, u, k, l)
    requires TxnOk(s.world.db, s.txns[t]) && Orderly(s.txns[t]) && NamesRows(s.txns[t].request)
    requires TxnOk(s.world.db, s.txns[u]) && Orderly(s.txns[u]) && NamesRows(s.txns[u].request)
    ensures |Shared(s.world.db.inventory, s.txns[t].request, s.txns[u].request)| >= 2
    ensures !s.txns[t].request.HoldReq? || !s.txns[u].request.HoldReq?
  {
    var db := s.world.db;
    assert k in s.txns[u].rows && l in s.txns[t].rows;
    RowsAreAsked(db, s.txns[t], k);
    RowsAreAsked(db, s.txns[t], l);
    RowsAreAsked(db, s.txns[u], k);
    RowsAreAsked(db, s.txns[u], l);
    TwoMembers(Shared(db.inventory, s.txns[t].request, s.txns[u].request), k, l);
  }

  // ---------------------------------------------------------------- what a request would lock

  function Expirees(db: Db, now: Time): set<HoldRef> {
    set r | r in db.holds && Reapable(db.holds[r], now)
  }

  predicate Confirmable(db: Db, ref: HoldRef, now: Time) {
    ref in db.holds && Active(db.holds[ref]) && !Expired(db.holds[ref], now)
  }

  /** The rows that a transaction beginning at `now` would lock on these tables: those it names, or those
      its references are on; for the reaper, those of any expired active hold. */
  function Wants(db: Db, r: Request, now: Time): set<SeatLeg> {
    match r
    case HoldReq(_, _, _) => AskedRows(db.inventory, r)
    case CancelReq(_, _, _) => AskedRows(db.inventory, r)
    case ConfirmReq(ref, _) => if Confirmable(db, ref, now) then HeldBy(db.inventory, {ref}) else {}
    case ReleaseReq(ref) => if ref in db.holds && Active(db.holds[ref]) then HeldBy(db.inventory, {ref}) else {}
    case ReapReq => HeldBy(db.inventory, Expirees(db, now))
    case PurgeReq(_) => {}
    case SnapshotReq(_) => {}
  }

  /** As long as nothing commits, what a transaction has yet to lock still matches. */
  predicate UpToDate(db: Db, tx: Txn) {
    tx.pc == Locking ==> tx.todo <= MatchedRows(tx, db.inventory)
  }

  predicate AllUpToDate(s: Sys) {
    forall t :: t in s.txns ==> UpToDate(s.world.db, s.txns[t])
  }

  predicate Commits(a: Action) { a.End? && a.ending.Commit? }

  lemma MoveKeepsUpToDate(s: Sys, tx: Txn, m: Move)
    requires CanMove(s, tx, m) && UpToDate(s.world.db, tx)
    ensures UpToDate(s.world.db, Moved(s, tx, m))
  {
  }

  lemma GoKeepsUpToDate(s: Sys, a: Action, s': Sys)
    requires AllUpToDate(s) && Goes(s, a, s') && !Commits(a)
    ensures AllUpToDate(s') && s'.world.db == s.world.db
  {
    if a.Step? {
      MoveKeepsUpToDate(s, s.txns[a.t], a.move);
    }
  }

  lemma LocksWithinWants(db: Db, tx: Txn)
    requires TxnOk(db, tx) && UpToDate(db, tx) && tx.pc == Locking
    ensures tx.todo + tx.rows.Keys <= MatchedRows(tx, db.inventory) <= Wants(db, tx.request, tx.now)
  {
    if tx.request.ConfirmReq? || tx.request.ReleaseReq? {
      assert tx.request.ref in tx.holds && ToSet(tx.batch) == {tx.request.ref};
    } else if tx.request.ReapReq? {
      assert forall r :: r in tx.batch ==> r in tx.holds && r in Expirees(db, tx.now);
    }
  }

  // ---------------------------------------------------------------- states reached without a commit

  /** Some interleaving in which nothing commits leads from nothing in flight, on the tables of w, to s. */
  ghost predicate Reachable(w: World, s: Sys) {
    exists ss: seq<Sys>, acts: seq<Action> :: ReachedBy(w, s, ss, acts)
  }

  predicate ReachedBy(w: World, s: Sys, ss: seq<Sys>, acts: seq<Action>) {
    IsTrace(ss, acts) && Idle(ss[0]) && ss[0].world == w && ss[|acts|] == s
    && forall i {:trigger acts[i]} :: 0 <= i < |acts| ==> !Commits(acts[i])
  }

  lemma StartIsReachable(w: World, s: Sys)
    requires Idle(s) && s.world == w
    ensures Reachable(w, s)
  {
    assert ReachedBy(w, s, [s], []);
  }

  lemma ReachesNext(w: World, s: Sys, a: Action, s': Sys)
    requires Reachable(w, s) && Goes(s, a, s') && !Commits(a)
    ensures Reachable(w, s')
  {
    var ss, acts :| ReachedBy(w, s, ss, acts);
    TraceOneMore(ss, acts, a, s');
    var ss', acts' := ss + [s'], acts + [a];
    assert ss'[0] == ss[0] && ss'[|acts'|] == s';
    assert ReachedBy(w, s', ss', acts');
  }

  lemma {:induction false} UpToDateAlong(ss: seq<Sys>, acts: seq<Action>)
    requires IsTrace(ss, acts) && Idle(ss[0]) && forall i {:trigger acts[i]} :: 0 <= i < |acts| ==> !Commits(acts[i])
    ensures AllUpToDate(ss[|acts|]) && ss[|acts|].world.db == ss[0].world.db
  {
    for n := 0 to |acts|
      invariant AllUpToDate(ss[n]) && ss[n].world.db == ss[0].world.db
    {
      var a := acts[n];
      GoKeepsUpToDate(ss[n], a, ss[n + 1]);
    }
  }

  lemma ReachableIsGood(w: World, s: Sys)
    requires Reachable(w, s)
    ensures SysInv(s) && AllOrderly(s) && AllUpToDate(s) && s.world.db == w.db
  {
    var ss, acts :| ReachedBy(w, s, ss, acts);
    ReachableOrderly(ss, acts);
    UpToDateAlong(ss, acts);
  }

  // ---------------------------------------------------------------- only with two rows that both want

  lemma RetirersNeverCross(ss: seq<Sys>, acts: seq<Action>, t: Tid, u: Tid, k: SeatLeg, l: SeatLeg)
    requires IsTrace(ss, acts) && Idle(ss[0]) && Crossed(ss[|acts|], t, u, k, l)
    ensures !(ByReference(ss[|acts|].txns[t].request) && ByReference(ss[|acts|].txns[u].request))
  {
    var s := ss[|acts|];
    if ByReference(s.txns[t].request) && ByReference(s.txns[u].request) {
      var rank, next := ReachableRanked(ss, acts);
      RetirerWaitsGoUp(s, t, k, u, rank, next);
      RetirerWaitsGoUp(s, u, l, t, rank, next);
    }
  }

  lemma CrossedWantBoth(w: World, s: Sys, t: Tid, u: Tid, k: SeatLeg, l: SeatLeg)
    requires Reachable(w, s) && Crossed(s, t, u, k, l)
    ensures |Wants(w.db, s.txns[t].request, s.txns[t].now) * Wants(w.db, s.txns[u].request, s.txns[u].now)| >= 2
  {
    ReachableIsGood(w, s);
    assert TxnOk(w.db, s.txns[t]) && UpToDate(w.db, s.txns[t]) && TxnOk(w.db, s.txns[u]) && UpToDate(w.db, s.txns[u]);
    assert k in s.txns[u].rows && l in s.txns[t].rows;
    LocksWithinWants(w.db, s.txns[t]);
    LocksWithinWants(w.db, s.txns[u]);
    TwoMembers(Wants(w.db, s.txns[t].request, s.txns[t].now) * Wants(w.db, s.txns[u].request, s.txns[u].now), k, l);
  }

  /** One of the two names its rows, one of the two is not a hold. */
  predicate CanOppose(c: Request, d: Request) {
    (NamesRows(c) || NamesRows(d)) && !(c.HoldReq? && d.HoldReq?)
  }

  lemma LockersNameOrRefer(db: Db, tx: Txn)
    requires TxnOk(db, tx) && UpToDate(db, tx) && tx.pc == Locking && tx.todo != {}
    ensures NamesRows(tx.request) || ByReference(tx.request)
  {
    LocksWithinWants(db, tx);
  }

  lemma HoldsNeverCross(w: World, s: Sys, t: Tid, u: Tid, k: SeatLeg, l: SeatLeg)
    requires Reachable(w, s) && Crossed(s, t, u, k, l)
    ensures !(s.txns[t].request.HoldReq? && s.txns[u].request.HoldReq?)
  {
    ReachableIsGood(w, s);
    assert k in s.txns[u].rows && l in s.txns[t].rows;
    assert Orderly(s.txns[t]) && Orderly(s.txns[u]);
  }

  lemma CrossedCanOppose(w: World, s: Sys, t: Tid, u: Tid, k: SeatLeg, l: SeatLeg)
    requires Reachable(w, s) && Crossed(s, t, u, k, l)
    ensures CanOppose(s.txns[t].request, s.txns[u].request)
  {
    HoldsNeverCross(w, s, t, u, k, l);
    var ss, acts :| ReachedBy(w, s, ss, acts);
    RetirersNeverCross(ss, acts, t, u, k, l);
    ReachableIsGood(w, s);
    LockersNameOrRefer(w.db, s.txns[t]);
    LockersNameOrRefer(w.db, s.txns[u]);
  }

  // ---------------------------------------------------------------- and with two they can

  /** t is locking rows, for this request, begun at this time. */
  predicate IsLocking(s: Sys, t: Tid, r: Request, now: Time) {
    t in s.txns && s.txns[t].pc == Locking && s.txns[t].request == r && s.txns[t].now == now
  }

  /** Only transaction t has changed, and no lock has been given back. */
  predicate OnlyMoved(s: Sys, t: Tid, s': Sys) {
    s'.world == s.world && s'.txns.Keys == s.txns.Keys + {t}
    && (forall v :: v in s.txns && v != t ==> s'.txns[v] == s.txns[v])
    && forall j :: j in s.rowLocks ==> j in s'.rowLocks && s'.rowLocks[j] == s.rowLocks[j]
  }

  lemma CanLock(w: World, s: Sys, t: Tid, r: Request, now: Time, j: SeatLeg)
    requires Reachable(w, s) && IsLocking(s, t, r, now) && j in s.txns[t].todo && j !in s.rowLocks
    requires r.HoldReq? ==> IsNext(s.txns[t], j)
    ensures Enabled(s, Step(t, Lock(j))) && RowMatches(s.txns[t], j, s.world.db.inventory[j])
  {
    ReachableIsGood(w, s);
    assert UpToDate(s.world.db, s.txns[t]);
    assert j in MatchedRows(s.txns[t], s.world.db.inventory);
  }

  lemma LockGives(s: Sys, t: Tid, r: Request, now: Time, j: SeatLeg)
    requires IsLocking(s, t, r, now) && j !in s.rowLocks
    requires Enabled(s, Step(t, Lock(j))) && RowMatches(s.txns[t], j, s.world.db.inventory[j])
    ensures var s' := Act(s, Step(t, Lock(j)));
            OnlyMoved(s, t, s') && IsLocking(s', t, r, now)
            && s'.txns[t].todo == s.txns[t].todo - {j} && s'.rowLocks == s.rowLocks[j := t]
  {
  }

  lemma LocksOne(w: World, s: Sys, t: Tid, r: Request, now: Time, j: SeatLeg) returns (s': Sys)
    requires Reachable(w, s) && IsLocking(s, t, r, now) && j in s.txns[t].todo && j !in s.rowLocks
    requires r.HoldReq? ==> IsNext(s.txns[t], j)
    ensures Reachable(w, s') && OnlyMoved(s, t, s') && IsLocking(s', t, r, now)
    ensures s'.txns[t].todo == s.txns[t].todo - {j} && s'.rowLocks == s.rowLocks[j := t]
  {
    CanLock(w, s, t, r, now, j);
    LockGives(s, t, r, now, j);
    s' := Act(s, Step(t, Lock(j)));
    ReachesNext(w, s, Step(t, Lock(j)), s');
  }

  /** t can lock its rows from the lowest leg up to and including k, if none of those is locked. */
  lemma {:induction false} LocksUpTo(w: World, s: Sys, t: Tid, r: Request, now: Time, k: SeatLeg) returns (s': Sys)
    requires Reachable(w, s) && IsLocking(s, t, r, now) && k in s.txns[t].todo
    requires forall j :: j in s.txns[t].todo && j.leg <= k.leg ==> j !in s.rowLocks
    ensures Reachable(w, s') && OnlyMoved(s, t, s') && IsLocking(s', t, r, now)
    ensures k in s'.rowLocks && s'.rowLocks[k] == t
    ensures forall j :: j in s.txns[t].todo && j.leg > k.leg ==> j in s'.txns[t].todo
    decreases |s.txns[t].todo|
  {
    var j := LowestExists(s.txns[t].todo);
    s' := LocksOne(w, s, t, r, now, j);
    if j != k {
      s' := LocksUpTo(w, s', t, r, now, k);
    }
  }

  /** The transaction that is not a hold locks the higher row, the other one the lower: they are crossed. */
  lemma LockingCrosses(w: World, s: Sys, c: Request, n: Time, d: Request, m: Time, k: SeatLeg, l: SeatLeg)
    returns (s': Sys)
    requires Reachable(w, s) && !d.HoldReq? && s.rowLocks == map[] && k.leg < l.leg
    requires IsLocking(s, 0, c, n) && k in s.txns[0].todo && l in s.txns[0].todo
    requires IsLocking(s, 1, d, m) && k in s.txns[1].todo && l in s.txns[1].todo
    ensures Reachable(w, s') && Crossed(s', 0, 1, l, k) && IsLocking(s', 0, c, n) && IsLocking(s', 1, d, m)
  {
    var mid := LocksOne(w, s, 1, d, m, l);
    assert mid.txns[0] == s.txns[0];
    s' := LocksUpTo(w, mid, 0, c, n, k);
    assert s'.txns[1] == mid.txns[1] && l in mid.rowLocks;
  }

  // ---------------------------------------------------------------- getting to the row locks

  lemma BeginsOne(w: World, s: Sys, t: Tid, r: Request, now: Time) returns (s': Sys)
    requires Reachable(w, s) && t !in s.txns && (r.HoldReq? ==> r.ref !in s.begun) && !r.PurgeReq?
    ensures Reachable(w, s') && OnlyMoved(s, t, s') && s'.rowLocks == s.rowLocks && s'.holdLocks == s.holdLocks
    ensures t in s'.txns && s'.txns[t] == Begun(r, now)
  {
    s' := Act(s, Begin(t, r, now));
    ReachesNext(w, s, Begin(t, r, now), s');
  }

  lemma NamerScans(w: World, s: Sys, t: Tid, r: Request, now: Time) returns (s': Sys)
    requires Reachable(w, s) && t in s.txns && s.txns[t] == Begun(r, now) && NamesRows(r) && s.world.db == w.db
    ensures Reachable(w, s') && OnlyMoved(s, t, s') && s'.rowLocks == s.rowLocks && s'.holdLocks == s.holdLocks
    ensures IsLocking(s', t, r, now) && s'.txns[t].todo == Wants(w.db, r, now)
  {
    s' := Act(s, Step(t, Scan));
    ReachesNext(w, s, Step(t, Scan), s');
    assert MatchedRows(s.txns[t], w.db.inventory) == Wants(w.db, r, now);
  }

  /** Confirm or release: find the hold, lock its row, and scan the rows it is on. */
  lemma FinderFinds(w: World, s: Sys, t: Tid, r: Request, now: Time) returns (s': Sys)
    requires Reachable(w, s) && t in s.txns && s.txns[t] == Begun(r, now) && s.world.db == w.db
    requires (r.ConfirmReq? || r.ReleaseReq?) && s.holdLocks == map[] && Wants(w.db, r, now) != {}
    ensures Reachable(w, s') && OnlyMoved(s, t, s') && s'.rowLocks == s.rowLocks
    ensures t in s'.txns && s'.txns[t] == HasFound(w.db, Begun(r, now)) && Active(w.db.holds[r.ref])
  {
    s' := Act(s, Step(t, Find));
    ReachesNext(w, s, Step(t, Find), s');
  }

  lemma FinderScans(w: World, s: Sys, t: Tid, r: Request, now: Time) returns (s': Sys)
    requires Reachable(w, s) && t in s.txns && s.world.db == w.db && (r.ConfirmReq? || r.ReleaseReq?)
    requires Wants(w.db, r, now) != {} && Finds(w.db, Begun(r, now)) && Active(w.db.holds[r.ref])
    requires s.txns[t] == HasFound(w.db, Begun(r, now))
    ensures Reachable(w, s') && OnlyMoved(s, t, s') && s'.rowLocks == s.rowLocks
    ensures IsLocking(s', t, r, now) && s'.txns[t].todo == Wants(w.db, r, now)
  {
    s' := Act(s, Step(t, ScanHeld));
    ReachesNext(w, s, Step(t, ScanHeld), s');
    assert ToSet([r.ref]) == {r.ref};
    assert MatchedRows(s.txns[t], w.db.inventory) == Wants(w.db, r, now);
  }

  /** The reaper is taking candidates, none of which anyone has locked. */
  predicate IsTaking(db: Db, s: Sys, t: Tid, now: Time) {
    t in s.txns && s.txns[t].pc == Choosing && s.txns[t].request == ReapReq && s.txns[t].now == now
    && s.txns[t].candidates <= Expirees(db, now) && |s.txns[t].batch| <= BATCH_LIMIT
    && forall r :: r in s.txns[t].candidates ==> r !in s.holdLocks
  }

  lemma ReaperScans(w: World, s: Sys, t: Tid, now: Time) returns (s': Sys)
    requires Reachable(w, s) && t in s.txns && s.txns[t] == Begun(ReapReq, now) && s.world.db == w.db
    requires s.holdLocks == map[]
    ensures Reachable(w, s') && OnlyMoved(s, t, s') && s'.rowLocks == s.rowLocks
    ensures IsTaking(w.db, s', t, now) && s'.txns[t].candidates == Expirees(w.db, now) && s'.txns[t].batch == []
  {
    s' := Act(s, Step(t, Scan));
    ReachesNext(w, s, Step(t, Scan), s');
  }

  lemma ReaperTakes(w: World, s: Sys, t: Tid, now: Time, r: HoldRef) returns (s': Sys)
    requires Reachable(w, s) && IsTaking(w.db, s, t, now) && s.world.db == w.db
    requires r in s.txns[t].candidates && |s.txns[t].batch| < BATCH_LIMIT
    ensures Reachable(w, s') && OnlyMoved(s, t, s') && s'.rowLocks == s.rowLocks && IsTaking(w.db, s', t, now)
    ensures s'.txns[t].candidates == s.txns[t].candidates - {r} && s'.txns[t].batch == s.txns[t].batch + [r]
  {
    s' := Act(s, Step(t, Take(r)));
    ReachesNext(w, s, Step(t, Take(r)), s');
  }

  lemma {:induction false} ReaperTakesRest(w: World, s: Sys, t: Tid, now: Time) returns (s': Sys)
    requires Reachable(w, s) && IsTaking(w.db, s, t, now) && s.world.db == w.db
    ensures Reachable(w, s') && OnlyMoved(s, t, s') && s'.rowLocks == s.rowLocks && IsTaking(w.db, s', t, now)
    ensures s'.txns[t].candidates == {} || |s'.txns[t].batch| == BATCH_LIMIT
    ensures forall r :: r in s.txns[t].batch ==> r in s'.txns[t].batch
    decreases |s.txns[t].candidates|
  {
    s' := s;
    if s.txns[t].candidates != {} && |s.txns[t].batch| < BATCH_LIMIT {
      var r := Member(s.txns[t].candidates);
      s' := ReaperTakes(w, s, t, now, r);
      s' := ReaperTakesRest(w, s', t, now);
    }
  }

  lemma ReaperScansHeld(w: World, s: Sys, t: Tid, now: Time) returns (s': Sys)
    requires Reachable(w, s) && IsTaking(w.db, s, t, now) && s.world.db == w.db
    requires s.txns[t].candidates == {} || |s.txns[t].batch| == BATCH_LIMIT
    ensures Reachable(w, s') && OnlyMoved(s, t, s') && s'.rowLocks == s.rowLocks && IsLocking(s', t, ReapReq, now)
    ensures s'.txns[t].todo == HeldBy(w.db.inventory, ToSet(s.txns[t].batch))
  {
    s' := Act(s, Step(t, ScanHeld));
    ReachesNext(w, s, Step(t, ScanHeld), s');
    assert MatchedRows(s.txns[t], w.db.inventory) == HeldBy(w.db.inventory, ToSet(s.txns[t].batch));
  }

  /** The reaper can put two given references, or one, into its batch. */
  lemma ReaperTakesTwo(w: World, s: Sys, t: Tid, now: Time, r: HoldRef, r': HoldRef) returns (s': Sys)
    requires Reachable(w, s) && IsTaking(w.db, s, t, now) && s.world.db == w.db
    requires s.txns[t].batch == [] && r in s.txns[t].candidates && r' in s.txns[t].candidates
    ensures Reachable(w, s') && OnlyMoved(s, t, s') && s'.rowLocks == s.rowLocks && IsTaking(w.db, s', t, now)
    ensures r in s'.txns[t].batch && r' in s'.txns[t].batch
  {
    s' := ReaperTakes(w, s, t, now, r);
    if r' != r {
      s' := ReaperTakes(w, s', t, now, r');
    }
  }

  lemma ReaperPrepares(w: World, s: Sys, t: Tid, now: Time, k: SeatLeg, l: SeatLeg) returns (s': Sys)
    requires Reachable(w, s) && t in s.txns && s.txns[t] == Begun(ReapReq, now) && s.world.db == w.db
    requires s.holdLocks == map[] && k in Wants(w.db, ReapReq, now) && l in Wants(w.db, ReapReq, now)
    ensures Reachable(w, s') && OnlyMoved(s, t, s') && s'.rowLocks == s.rowLocks && IsLocking(s', t, ReapReq, now)
    ensures k in s'.txns[t].todo && l in s'.txns[t].todo
  {
    var s1 := ReaperScans(w, s, t, now);
    var s2 := ReaperTakesTwo(w, s1, t, now, w.db.inventory[k].holdRef.value, w.db.inventory[l].holdRef.value);
    var s3 := ReaperTakesRest(w, s2, t, now);
    s' := ReaperScansHeld(w, s3, t, now);
  }

  /** Any transaction that wants two rows can get to where both of them are left to lock. */
  lemma Prepares(w: World, s: Sys, t: Tid, r: Request, now: Time, k: SeatLeg, l: SeatLeg) returns (s': Sys)
    requires Reachable(w, s) && s.world.db == w.db && t !in s.txns && (r.HoldReq? ==> r.ref !in s.begun)
    requires k in Wants(w.db, r, now) && l in Wants(w.db, r, now) && (!NamesRows(r) ==> s.holdLocks == map[])
    ensures Reachable(w, s') && OnlyMoved(s, t, s') && s'.rowLocks == s.rowLocks && IsLocking(s', t, r, now)
    ensures k in s'.txns[t].todo && l in s'.txns[t].todo
    ensures NamesRows(r) ==> s'.holdLocks == s.holdLocks
  {
    var s1 := BeginsOne(w, s, t, r, now);
    if NamesRows(r) {
      s' := NamerScans(w, s1, t, r, now);
    } else if r.ReapReq? {
      s' := ReaperPrepares(w, s1, t, now, k, l);
    } else {
      var s2 := FinderFinds(w, s1, t, r, now);
      s' := FinderScans(w, s2, t, r, now);
    }
  }

  /** Both have their snapshots, and nothing is locked. */
  lemma BothPrepare(w: World, c: Request, n: Time, d: Request, m: Time, k: SeatLeg, l: SeatLeg) returns (s: Sys)
    requires Inv(w) && (NamesRows(c) || NamesRows(d)) && !d.HoldReq? && (c.HoldReq? ==> c.ref !in w.used)
    requires {k, l} <= Wants(w.db, c, n) && {k, l} <= Wants(w.db, d, m)
    ensures Reachable(w, s) && s.rowLocks == map[]
    ensures IsLocking(s, 0, c, n) && k in s.txns[0].todo && l in s.txns[0].todo
    ensures IsLocking(s, 1, d, m) && k in s.txns[1].todo && l in s.txns[1].todo
  {
    var s0 := Sys(w, w.used, map[], map[], map[], [], [], []);
    StartIsReachable(w, s0);
    if NamesRows(c) {
      var mid := Prepares(w, s0, 0, c, n, k, l);
      s := Prepares(w, mid, 1, d, m, k, l);
      assert s.txns[0] == mid.txns[0];
    } else {
      var mid := Prepares(w, s0, 1, d, m, k, l);
      s := Prepares(w, mid, 0, c, n, k, l);
      assert s.txns[1] == mid.txns[1];
    }
  }

  // ---------------------------------------------------------------- the exact condition

  /** Two rows that both want, of different legs, the lower one first. */
  lemma TwoLegs(db: Db, c: Request, n: Time, d: Request, m: Time) returns (k: SeatLeg, l: SeatLeg)
    requires NamesRows(c) || NamesRows(d)
    requires |Wants(db, c, n) * Wants(db, d, m)| >= 2
    ensures {k, l} <= Wants(db, c, n) && {k, l} <= Wants(db, d, m) && k.leg < l.leg
  {
    var both := Wants(db, c, n) * Wants(db, d, m);
    l := HighestExists(both);
    assert both - {l} != {} by {
      assert both == (both - {l}) + {l};
    }
    k := Member(both - {l});
  }

  /** A transaction with request c begun at n and one with request d begun at m get to wait for each other,
      before anything commits. */
  ghost predicate CanCross(w: World, c: Request, n: Time, d: Request, m: Time) {
    exists s, t, u, k, l :: CrossReached(w, c, n, d, m, s, t, u, k, l)
  }

  ghost predicate CrossReached(w: World, c: Request, n: Time, d: Request, m: Time,
                               s: Sys, t: Tid, u: Tid, k: SeatLeg, l: SeatLeg)
  {
    Reachable(w, s) && Crossed(s, t, u, k, l) && IsLocking(s, t, c, n) && IsLocking(s, u, d, m)
  }

  lemma WantingLetsCross(w: World, c: Request, n: Time, d: Request, m: Time)
    requires Inv(w) && (NamesRows(c) || NamesRows(d)) && !d.HoldReq? && (c.HoldReq? ==> c.ref !in w.used)
    requires |Wants(w.db, c, n) * Wants(w.db, d, m)| >= 2
    ensures CanCross(w, c, n, d, m) && CanCross(w, d, m, c, n)
  {
    var k, l := TwoLegs(w.db, c, n, d, m);
    var mid := BothPrepare(w, c, n, d, m, k, l);
    var s := LockingCrosses(w, mid, c, n, d, m, k, l);
    assert CrossReached(w, c, n, d, m, s, 0, 1, l, k);
    assert CrossReached(w, d, m, c, n, s, 1, 0, k, l);
  }

  /** Two transactions of any kinds can deadlock on rows if and only if at least two rows are wanted by
      both, one of the two names its rows, and they are not both holds. */
  lemma DeadlockExactlyWhen(w: World, c: Request, n: Time, d: Request, m: Time)
    requires Inv(w) && (c.HoldReq? ==> c.ref !in w.used) && (d.HoldReq? ==> d.ref !in w.used)
    ensures CanCross(w, c, n, d, m) <==> CanOppose(c, d) && |Wants(w.db, c, n) * Wants(w.db, d, m)| >= 2
  {
    if CanCross(w, c, n, d, m) {
      var s, t, u, k, l :| CrossReached(w, c, n, d, m, s, t, u, k, l);
      CrossedCanOppose(w, s, t, u, k, l);
      CrossedWantBoth(w, s, t, u, k, l);
    }
    if CanOppose(c, d) && |Wants(w.db, c, n) * Wants(w.db, d, m)| >= 2 {
      if !d.HoldReq? {
        WantingLetsCross(w, c, n, d, m);
      } else {
        assert Wants(w.db, c, n) * Wants(w.db, d, m) == Wants(w.db, d, m) * Wants(w.db, c, n);
        WantingLetsCross(w, d, m, c, n);
      }
    }
  }

  // ---------------------------------------------------------------- amid commits

  /** The two requests get to wait for each other in some interleaving, with anything else in flight and
      commits along the way. */
  ghost predicate CanCrossAmidCommits(w: World, c: Request, d: Request) {
    exists ss: seq<Sys>, acts: seq<Action>, t, u, k, l :: CrossedAfter(w, c, d, ss, acts, t, u, k, l)
  }

  predicate CrossedAfter(w: World, c: Request, d: Request,
                         ss: seq<Sys>, acts: seq<Action>, t: Tid, u: Tid, k: SeatLeg, l: SeatLeg)
  {
    IsTrace(ss, acts) && Idle(ss[0]) && ss[0].world == w && Crossed(ss[|acts|], t, u, k, l)
    && ss[|acts|].txns[t].request == c && ss[|acts|].txns[u].request == d
  }

  lemma CrossedAfterIsShared(w: World, c: Request, d: Request,
                             ss: seq<Sys>, acts: seq<Action>, t: Tid, u: Tid, k: SeatLeg, l: SeatLeg)
    requires NamesRows(c) && NamesRows(d) && CrossedAfter(w, c, d, ss, acts, t, u, k, l)
    ensures |Shared(w.db.inventory, c, d)| >= 2 && !(c.HoldReq? && d.HoldReq?)
  {
    ReachableOrderly(ss, acts);
    var s := ss[|acts|];
    assert TxnOk(s.world.db, s.txns[t]) && Orderly(s.txns[t]) && TxnOk(s.world.db, s.txns[u]) && Orderly(s.txns[u]);
    CrossedHaveTwoInCommon(s, t, u, k, l);
    assert Shared(s.world.db.inventory, c, d) == Shared(w.db.inventory, c, d);
  }

  lemma CrossesQuietly(w: World, c: Request, n: Time, d: Request, m: Time)
    requires CanCross(w, c, n, d, m)
    ensures CanCrossAmidCommits(w, c, d)
  {
    var s, t, u, k, l :| CrossReached(w, c, n, d, m, s, t, u, k, l);
    var ss, acts :| ReachedBy(w, s, ss, acts);
    assert CrossedAfter(w, c, d, ss, acts, t, u, k, l);
  }

  /** For two requests that name their rows, commits make no difference: the rows they name in common are
      always the same ones. */
  lemma NamersDeadlockExactlyWhen(w: World, c: Request, d: Request)
    requires Inv(w) && NamesRows(c) && NamesRows(d)
    requires (c.HoldReq? ==> c.ref !in w.used) && (d.HoldReq? ==> d.ref !in w.used)
    ensures CanCrossAmidCommits(w, c, d)
            <==> |Shared(w.db.inventory, c, d)| >= 2 && !(c.HoldReq? && d.HoldReq?)
  {
    if CanCrossAmidCommits(w, c, d) {
      var ss: seq<Sys>, acts: seq<Action>, t, u, k, l :| CrossedAfter(w, c, d, ss, acts, t, u, k, l);
      CrossedAfterIsShared(w, c, d, ss, acts, t, u, k, l);
    }
    if |Shared(w.db.inventory, c, d)| >= 2 && !(c.HoldReq? && d.HoldReq?) {
      assert Wants(w.db, c, 0) * Wants(w.db, d, 0) == Shared(w.db.inventory, c, d);
      DeadlockExactlyWhen(w, c, 0, d, 0);
      CrossesQuietly(w, c, 0, d, 0);
    }
  }

  /** For two cancels: exactly when both name some two existing rows. Cancels of one leg never deadlock. */
  lemma CancelsDeadlockExactlyWhen(w: World, c: Request, d: Request)
    requires Inv(w) && c.CancelReq? && d.CancelReq?
    ensures CanCrossAmidCommits(w, c, d)
            <==> |Matching(w.db.inventory, c.trip, c.seat, c.legs)
                  * Matching(w.db.inventory, d.trip, d.seat, d.legs)| >= 2
  {
    NamersDeadlockExactlyWhen(w, c, d);
    assert Matching(w.db.inventory, c.trip, c.seat, c.legs) * Matching(w.db.inventory, d.trip, d.seat, d.legs)
        == Shared(w.db.inventory, c, d);
  }
}
