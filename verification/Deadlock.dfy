/** Holds lock inventory rows in ascending leg order: no cycle of waits is made of holds alone, and when
    only holds are in flight all of them finish. */
module Deadlock {
  import opened Common
  import opened Tables
  import opened Atomic
  import opened Runs
  import opened Concurrent
  import opened Interleavings

  /** Holds and cancels say which rows they lock, whatever is in them. */
  predicate NamesRows(r: Request) { r.HoldReq? || r.CancelReq? }

  predicate Asks(r: Request, k: SeatLeg) {
    match r
    case HoldReq(req, _, _) => Names(req.trip, req.seat, req.legs, k)
    case CancelReq(trip, seat, legs) => Names(trip, seat, legs, k)
    case _ => false
  }

  /** A hold or cancel that is locking rows has only rows it names left to lock, and a hold has locked
      only legs below those. */
  predicate Orderly(tx: Txn) {
    tx.pc == Locking && NamesRows(tx.request) ==>
      (forall l :: l in tx.todo ==> Asks(tx.request, l))
      && (tx.request.HoldReq? ==> forall k, l :: k in tx.rows && l in tx.todo ==> k.leg < l.leg)
  }

  predicate AllOrderly(s: Sys) {
    forall t :: t in s.txns ==> Orderly(s.txns[t])
  }

  lemma MoveKeepsOrderly(s: Sys, tx: Txn, m: Move)
    requires CanMove(s, tx, m) && TxnOk(s.world.db, tx) && Orderly(tx)
    ensures Orderly(Moved(s, tx, m))
  {
  }

  lemma StepKeepsOrderly(s: Sys, a: Action)
    requires SysInv(s) && AllOrderly(s) && Enabled(s, a)
    ensures AllOrderly(Act(s, a))
  {
    if a.Step? {
      MoveKeepsOrderly(s, s.txns[a.t], a.move);
    }
  }

  lemma GoKeeps(s: Sys, a: Action, s': Sys)
    requires SysInv(s) && AllOrderly(s) && Goes(s, a, s')
    ensures SysInv(s') && AllOrderly(s') && s'.world.db.inventory.Keys == s.world.db.inventory.Keys
  {
    StepRefines(s, a);
    StepKeepsOrderly(s, a);
    if a.End? {
      InvStep(s.world, OpOf(s.txns[a.t]));
    }
  }

  /** In every reachable state of any mix of transactions the holds have locked in ascending order. */
  lemma {:induction false} ReachableOrderly(ss: seq<Sys>, acts: seq<Action>)
    requires IsTrace(ss, acts) && Idle(ss[0])
    ensures SysInv(ss[|acts|]) && AllOrderly(ss[|acts|])
    ensures ss[|acts|].world.db.inventory.Keys == ss[0].world.db.inventory.Keys
  {
    for n := 0 to |acts|
      invariant SysInv(ss[n]) && AllOrderly(ss[n])
      invariant ss[n].world.db.inventory.Keys == ss[0].world.db.inventory.Keys
    {
      var a := acts[n];
      GoKeeps(ss[n], a, ss[n + 1]);
    }
  }

  // ---------------------------------------------------------------- waiting

  /** t has yet to lock the row k, which another transaction u has locked. */
  predicate Waits(s: Sys, t: Tid, k: SeatLeg, u: Tid) {
    t in s.txns && u in s.txns && t != u
    && s.txns[t].pc == Locking && k in s.txns[t].todo && k in s.rowLocks && s.rowLocks[k] == u
  }

  /** The row a hold locks next: the lowest leg it has yet to lock. */
  predicate IsNext(tx: Txn, k: SeatLeg) {
    k in tx.todo && forall l :: l in tx.todo ==> k.leg <= l.leg
  }

  /** The hold t waits for the row k, which u has locked. */
  predicate HoldWaits(s: Sys, t: Tid, k: SeatLeg, u: Tid) {
    t in s.txns && u in s.txns && s.txns[t].request.HoldReq? && s.txns[t].pc == Locking && IsNext(s.txns[t], k)
    && k in s.rowLocks && s.rowLocks[k] == u
  }

  /** A hold that waits for a hold waits for a lower leg than that one does. */
  lemma WaitsGoUp(s: Sys, t: Tid, k: SeatLeg, u: Tid, u': Tid, l: SeatLeg, v: Tid)
    requires SysInv(s) && AllOrderly(s) && HoldWaits(s, t, k, u) && HoldWaits(s, u', l, v)
    ensures u == u' ==> k.leg < l.leg
  {
    if u == u' {
      assert k in s.txns[u].rows && Orderly(s.txns[u]);
    }
  }

  /** So, in any mix of transactions, no cycle of waits, of any length, consists of holds alone. */
  lemma {:induction false} NoWaitCycle(s: Sys, path: seq<Tid>, rows: seq<SeatLeg>)
    requires SysInv(s) && AllOrderly(s)
    requires |path| == |rows| + 1 && |rows| >= 1
    requires forall i {:trigger rows[i]} :: 0 <= i < |rows| ==> HoldWaits(s, path[i], rows[i], path[i + 1])
    ensures path[|rows|] != path[0]
  {
    var n := |rows| - 1;
    for i := 0 to n
      invariant rows[0].leg <= rows[i].leg
    {
      var k, l := rows[i], rows[i + 1];
      WaitsGoUp(s, path[i], k, path[i + 1], path[i + 1], l, path[i + 2]);
    }
    WaitsGoUp(s, path[n], rows[n], path[n + 1], path[0], rows[0], path[1]);
  }

  // ---------------------------------------------------------------- progress

  predicate OnlyHolds(s: Sys) {
    forall t :: t in s.txns ==> s.txns[t].request.HoldReq?
  }

  predicate Progresses(a: Action) { a.Step? || a.End? }

  lemma LowestExists(keys: set<SeatLeg>) returns (k: SeatLeg)
    requires keys != {}
    ensures k in keys && forall l :: l in keys ==> k.leg <= l.leg
  {
    var some := Member(keys);
    var legs := set l | l in keys :: l.leg;
    assert some.leg in legs;
    var m := LeastExists(legs);
    k :| k in keys && k.leg == m;
    assert forall l :: l in keys ==> l.leg in legs;
  }

  lemma HighestExists(keys: set<SeatLeg>) returns (k: SeatLeg)
    requires keys != {}
    ensures k in keys && forall l :: l in keys ==> l.leg <= k.leg
  {
    var some := Member(keys);
    var negated := set l | l in keys :: -l.leg;
    assert -some.leg in negated;
    var m := LeastExists(negated);
    k :| k in keys && -k.leg == m;
    assert forall l :: l in keys ==> -l.leg in negated;
  }

  /** What a hold does next, when nothing is in its way. */
  lemma HoldCanGo(s: Sys, t: Tid) returns (a: Action)
    requires SysInv(s) && t in s.txns && s.txns[t].request.HoldReq?
    requires s.txns[t].pc == Locking ==>
               s.txns[t].todo == {} || exists k :: IsNext(s.txns[t], k) && k !in s.rowLocks
    ensures Enabled(s, a) && Progresses(a) && a.t == t
  {
    var tx := s.txns[t];
    assert TxnOk(s.world.db, tx);
    match tx.pc {
      case Start => a := Step(t, Scan);
      case Ready => a := End(t, Commit);
      case Locking =>
        if tx.todo == {} {
          a := if HoldRefusal(tx.rows, tx.request.req.legs).Some? then End(t, Refuse) else Step(t, Write);
        } else {
          var k :| IsNext(tx, k) && k !in s.rowLocks;
          a := Step(t, Lock(k));
        }
      case _ =>
    }
  }

  /** The hold that has locked the highest locked leg, or any hold if nothing is locked. */
  lemma Foremost(s: Sys) returns (t: Tid)
    requires SysInv(s) && s.txns != map[]
    ensures t in s.txns
    ensures s.rowLocks != map[] ==> exists k :: k in s.txns[t].rows && forall l :: l in s.rowLocks ==> l.leg <= k.leg
  {
    if s.rowLocks == map[] {
      assert s.txns.Keys != {};
      t := Member(s.txns.Keys);
    } else {
      assert s.rowLocks.Keys != {};
      var top := HighestExists(s.rowLocks.Keys);
      t := s.rowLocks[top];
      assert top in s.txns[t].rows;
    }
  }

  lemma ForemostIsClear(s: Sys, t: Tid)
    requires AllOrderly(s) && t in s.txns && s.txns[t].request.HoldReq?
    requires s.txns[t].pc == Locking && s.txns[t].todo != {}
    requires s.rowLocks != map[] ==> exists k :: k in s.txns[t].rows && forall l :: l in s.rowLocks ==> l.leg <= k.leg
    ensures exists k :: IsNext(s.txns[t], k) && k !in s.rowLocks
  {
    var k := LowestExists(s.txns[t].todo);
    assert Orderly(s.txns[t]);
    assert IsNext(s.txns[t], k) && k !in s.rowLocks;
  }

  /** With only holds in flight, however they overlap, some unfinished hold can always step: the one
      that has locked the highest locked leg waits for nobody. */
  lemma HoldsNeverDeadlock(s: Sys) returns (a: Action)
    requires SysInv(s) && AllOrderly(s) && OnlyHolds(s) && s.txns != map[]
    ensures Enabled(s, a) && Progresses(a)
  {
    var t := Foremost(s);
    if s.txns[t].pc == Locking && s.txns[t].todo != {} {
      ForemostIsClear(s, t);
    }
    a := HoldCanGo(s, t);
  }

  // ---------------------------------------------------------------- completion

  /** How many steps a hold has left, at most. */
  function Work(tx: Txn): nat {
    match tx.pc
    case Start => if tx.request.HoldReq? then |tx.request.req.legs| + 3 else 0
    case Locking => |tx.todo| + 2
    case Ready => 1
    case _ => 0
  }

  ghost function WorkOf(txns: map<Tid, Txn>, ts: set<Tid>): nat
    requires ts <= txns.Keys
  {
    if ts == {} then 0
    else var t :| t in ts; Work(txns[t]) + WorkOf(txns, ts - {t})
  }

  lemma {:induction false} WorkSplit(txns: map<Tid, Txn>, ts: set<Tid>, t: Tid)
    requires ts <= txns.Keys && t in ts
    ensures WorkOf(txns, ts) == Work(txns[t]) + WorkOf(txns, ts - {t})
    decreases ts
  {
    var c :| c in ts && WorkOf(txns, ts) == Work(txns[c]) + WorkOf(txns, ts - {c});
    if c != t {
      WorkSplit(txns, ts - {c}, t);
      WorkSplit(txns, ts - {t}, c);
      assert ts - {c} - {t} == ts - {t} - {c};
    }
  }

  lemma {:induction false} WorkFrame(txns: map<Tid, Txn>, txns': map<Tid, Txn>, ts: set<Tid>)
    requires ts <= txns.Keys && ts <= txns'.Keys && forall t :: t in ts ==> txns'[t] == txns[t]
    ensures WorkOf(txns', ts) == WorkOf(txns, ts)
    decreases ts
  {
    if ts != {} {
      var t :| t in ts;
      WorkSplit(txns, ts, t);
      WorkSplit(txns', ts, t);
      WorkFrame(txns, txns', ts - {t});
    }
  }

  ghost function TotalWork(s: Sys): nat {
    WorkOf(s.txns, s.txns.Keys)
  }

  lemma ScanUsesWork(db: Db, tx: Txn)
    requires tx.pc == Start && tx.request.HoldReq?
    ensures Work(Scanned(db, tx)) < Work(tx)
  {
    var req := tx.request.req;
    RowCountCheck(db.inventory, req.trip, req.seat, req.legs);
    assert MatchedRows(tx, db.inventory) == Matching(db.inventory, req.trip, req.seat, req.legs);
  }

  lemma MoveUsesWork(s: Sys, tx: Txn, m: Move)
    requires CanMove(s, tx, m) && tx.request.HoldReq? && tx.pc != Choosing && tx.pc != Found
    ensures Work(Moved(s, tx, m)) < Work(tx)
  {
    if m.Scan? {
      ScanUsesWork(s.world.db, tx);
    }
  }

  lemma HoldPhases(db: Db, tx: Txn)
    requires TxnOk(db, tx) && tx.request.HoldReq?
    ensures tx.pc != Choosing && tx.pc != Found
  {
  }

  lemma MoveUsesTotal(s: Sys, t: Tid, m: Move)
    requires t in s.txns && TxnOk(s.world.db, s.txns[t]) && OnlyHolds(s) && Enabled(s, Step(t, m))
    ensures var s' := Act(s, Step(t, m));
            OnlyHolds(s') && TotalWork(s') < TotalWork(s) && |s'.txns| == |s.txns| && s'.log == s.log
  {
    var tx, s' := s.txns[t], Act(s, Step(t, m));
    HoldPhases(s.world.db, tx);
    MoveUsesWork(s, tx, m);
    MoveKeepsRequest(s, tx, m);
    WorkSplit(s.txns, s.txns.Keys, t);
    WorkFrame(s.txns, s'.txns, s.txns.Keys - {t});
    assert s'.txns.Keys == s.txns.Keys;
    WorkSplit(s'.txns, s.txns.Keys, t);
    assert |s'.txns| == |s'.txns.Keys|;
  }

  lemma EndUsesTotal(s: Sys, t: Tid, e: Ending)
    requires t in s.txns && TxnOk(s.world.db, s.txns[t]) && OnlyHolds(s) && Enabled(s, End(t, e))
    ensures var s' := Act(s, End(t, e));
            OnlyHolds(s') && TotalWork(s') < TotalWork(s) && |s'.txns| == |s.txns| - 1 && |s'.log| == |s.log| + 1
  {
    var s' := Act(s, End(t, e));
    EndNeedsWork(s, s.txns[t], e);
    WorkSplit(s.txns, s.txns.Keys, t);
    WorkFrame(s.txns, s'.txns, s.txns.Keys - {t});
    assert s'.txns.Keys == s.txns.Keys - {t};
    assert |s'.txns| == |s'.txns.Keys|;
  }

  /** Every step of a hold uses up some of the work left in the system. */
  lemma StepUsesWork(s: Sys, a: Action)
    requires SysInv(s) && OnlyHolds(s) && Enabled(s, a) && Progresses(a)
    ensures OnlyHolds(Act(s, a)) && TotalWork(Act(s, a)) < TotalWork(s)
    ensures |Act(s, a).txns| + |Act(s, a).log| == |s.txns| + |s.log|
  {
    assert TxnOk(s.world.db, s.txns[a.t]);
    if a.Step? {
      MoveUsesTotal(s, a.t, a.move);
    } else {
      EndUsesTotal(s, a.t, a.ending);
    }
  }

  lemma EndNeedsWork(s: Sys, tx: Txn, e: Ending)
    requires CanEnd(s.world.db, tx, e) && TxnOk(s.world.db, tx) && tx.request.HoldReq?
    ensures Work(tx) > 0
  {
  }

  lemma AbortUsesTotal(s: Sys, t: Tid)
    requires t in s.txns && TxnOk(s.world.db, s.txns[t]) && OnlyHolds(s)
    ensures var s' := Act(s, Abort(t));
            OnlyHolds(s') && TotalWork(s') < TotalWork(s) && |s'.txns| == |s.txns| - 1 && s'.log == s.log
  {
    var s' := Act(s, Abort(t));
    HoldPhases(s.world.db, s.txns[t]);
    WorkSplit(s.txns, s.txns.Keys, t);
    WorkFrame(s.txns, s'.txns, s.txns.Keys - {t});
    assert s'.txns.Keys == s.txns.Keys - {t};
    assert |s'.txns| == |s'.txns.Keys|;
  }

  /** How many of the actions are not publishing, and how many are aborts. */
  function Turns(acts: seq<Action>): nat {
    if acts == [] then 0
    else Turns(acts[..|acts| - 1]) + if acts[|acts| - 1].Publish? then 0 else 1
  }

  function Aborts(acts: seq<Action>): nat {
    if acts == [] then 0
    else Aborts(acts[..|acts| - 1]) + if acts[|acts| - 1].Abort? then 1 else 0
  }

  /** Nothing but holds in flight, and nothing else begins. */
  predicate HoldsRunOut(ss: seq<Sys>, acts: seq<Action>) {
    IsTrace(ss, acts) && SysInv(ss[0]) && AllOrderly(ss[0]) && OnlyHolds(ss[0])
    && forall i {:trigger acts[i]} :: 0 <= i < |acts| ==> !acts[i].Begin?
  }

  lemma HoldStepKeeps(s: Sys, a: Action, s': Sys)
    requires SysInv(s) && AllOrderly(s) && OnlyHolds(s) && Goes(s, a, s') && !a.Begin?
    ensures SysInv(s') && AllOrderly(s') && OnlyHolds(s')
    ensures TotalWork(s') + (if a.Publish? then 0 else 1) <= TotalWork(s)
    ensures |s'.txns| + |s'.log| + (if a.Abort? then 1 else 0) == |s.txns| + |s.log|
  {
    GoKeeps(s, a, s');
    if a.Abort? {
      assert TxnOk(s.world.db, s.txns[a.t]);
      AbortUsesTotal(s, a.t);
    } else if Progresses(a) {
      StepUsesWork(s, a);
    }
  }

  lemma {:induction false} RunOutAt(ss: seq<Sys>, acts: seq<Action>, n: nat)
    requires HoldsRunOut(ss, acts) && n <= |acts|
    ensures SysInv(ss[n]) && AllOrderly(ss[n]) && OnlyHolds(ss[n])
    decreases n
  {
    if n > 0 {
      RunOutAt(ss, acts, n - 1);
      HoldStepKeeps(ss[n - 1], acts[n - 1], ss[n]);
    }
  }

  lemma RunOutTurn(ss: seq<Sys>, acts: seq<Action>, n: nat)
    requires HoldsRunOut(ss, acts) && n < |acts|
    ensures TotalWork(ss[n + 1]) + (if acts[n].Publish? then 0 else 1) <= TotalWork(ss[n])
    ensures |ss[n + 1].txns| + |ss[n + 1].log| + (if acts[n].Abort? then 1 else 0) == |ss[n].txns| + |ss[n].log|
  {
    RunOutAt(ss, acts, n);
    HoldStepKeeps(ss[n], acts[n], ss[n + 1]);
  }

  /** Whatever the scheduler does, aborts and publishing included, concurrent holds take at most
      TotalWork turns; every one that has gone was aborted or ended with an answer, once. */
  lemma {:induction false} HoldsTerminate(ss: seq<Sys>, acts: seq<Action>)
    requires HoldsRunOut(ss, acts)
    ensures TotalWork(ss[|acts|]) + Turns(acts) <= TotalWork(ss[0])
    ensures |ss[|acts|].txns| + |ss[|acts|].log| + Aborts(acts) == |ss[0].txns| + |ss[0].log|
  {
    var work := seq(|ss|, i requires 0 <= i < |ss| => TotalWork(ss[i]));
    var left := seq(|ss|, i requires 0 <= i < |ss| => |ss[i].txns| + |ss[i].log|);
    forall n | 0 <= n < |acts|
      ensures work[n + 1] + (if acts[n].Publish? then 0 else 1) <= work[n]
      ensures left[n + 1] + (if acts[n].Abort? then 1 else 0) == left[n]
    {
      RunOutTurn(ss, acts, n);
    }
    CountDown(work, left, acts);
  }

  lemma {:induction false} CountDown(work: seq<nat>, left: seq<nat>, acts: seq<Action>)
    requires |work| == |left| == |acts| + 1
    requires forall n {:trigger acts[n]} :: 0 <= n < |acts| ==>
               work[n + 1] + (if acts[n].Publish? then 0 else 1) <= work[n]
               && left[n + 1] + (if acts[n].Abort? then 1 else 0) == left[n]
    ensures work[|acts|] + Turns(acts) <= work[0]
    ensures left[|acts|] + Aborts(acts) == left[0]
    decreases |acts|
  {
    if acts != [] {
      var n := |acts| - 1;
      CountDown(work[..n + 1], left[..n + 1], acts[..n]);
      var last := acts[n];
    }
  }

  /** So every schedule that goes on for as long as some hold can step ends them all: each one that was
      not aborted has been answered. */
  lemma MaximalSchedulesEndAll(ss: seq<Sys>, acts: seq<Action>)
    requires HoldsRunOut(ss, acts)
    requires forall a :: Progresses(a) ==> !Enabled(ss[|acts|], a)
    ensures ss[|acts|].txns == map[]
    ensures |ss[|acts|].log| == |ss[0].log| + |ss[0].txns| - Aborts(acts)
  {
    HoldsTerminate(ss, acts);
    RunOutAt(ss, acts, |acts|);
    if ss[|acts|].txns != map[] {
      var a := HoldsNeverDeadlock(ss[|acts|]);
    }
  }

  /** The schedule steps from s, never aborting, until every transaction has ended with its own answer. */
  predicate Completes(s: Sys, ss: seq<Sys>, acts: seq<Action>) {
    IsTrace(ss, acts) && ss[0] == s
    && (forall i {:trigger acts[i]} :: 0 <= i < |acts| ==> Progresses(acts[i]))
    && ss[|acts|].txns == map[] && |ss[|acts|].log| == |s.log| + |s.txns|
  }

  lemma TraceFrom(s: Sys, a: Action, ss: seq<Sys>, acts: seq<Action>)
    requires IsTrace(ss, acts) && Goes(s, a, ss[0])
    ensures IsTrace([s] + ss, [a] + acts)
  {
    var ss', acts' := [s] + ss, [a] + acts;
    forall i {:trigger acts'[i]} | 0 <= i < |acts'| ensures Goes(ss'[i], acts'[i], ss'[i + 1]) {
      if i > 0 {
        var later := acts[i - 1];
      }
    }
  }

  lemma CompletesFrom(s: Sys, a: Action, ss: seq<Sys>, acts: seq<Action>)
    requires |ss| > 0 && Goes(s, a, ss[0]) && Progresses(a) && Completes(ss[0], ss, acts)
    requires |ss[0].txns| + |ss[0].log| == |s.txns| + |s.log|
    ensures Completes(s, [s] + ss, [a] + acts)
  {
    TraceFrom(s, a, ss, acts);
    var acts' := [a] + acts;
    forall i {:trigger acts'[i]} | 0 <= i < |acts'| ensures Progresses(acts'[i]) {
      if i > 0 {
        var later := acts[i - 1];
      }
    }
  }

  lemma NextHoldStep(s: Sys) returns (a: Action, s': Sys)
    requires SysInv(s) && AllOrderly(s) && OnlyHolds(s) && s.txns != map[]
    ensures Enabled(s, a) && Progresses(a) && s' == Act(s, a)
    ensures SysInv(s') && AllOrderly(s') && OnlyHolds(s') && TotalWork(s') < TotalWork(s)
    ensures |s'.txns| + |s'.log| == |s.txns| + |s.log|
  {
    a := HoldsNeverDeadlock(s);
    s' := Act(s, a);
    StepRefines(s, a);
    StepKeepsOrderly(s, a);
    StepUsesWork(s, a);
  }

  /** And they can all be run to completion: from any state with only holds in flight, some schedule of
      at most TotalWork steps, none of them an abort, ends every one of them with its own answer. */
  lemma {:induction false} HoldsComplete(s: Sys) returns (ss: seq<Sys>, acts: seq<Action>)
    requires SysInv(s) && AllOrderly(s) && OnlyHolds(s)
    ensures Completes(s, ss, acts) && |acts| <= TotalWork(s)
    decreases TotalWork(s)
  {
    if s.txns == map[] {
      ss, acts := [s], [];
    } else {
      var a, s' := NextHoldStep(s);
      ss, acts := HoldsComplete(s');
      CompletesFrom(s, a, ss, acts);
      ss, acts := [s] + ss, [a] + acts;
    }
  }

}
