/** Every request can be carried through: alone, it runs to its end without an abort and its operation
    takes effect; and every event of a finished transaction can be published. */
module Completion {
  import opened Common
  import opened Tables
  import opened Atomic
  import opened Concurrent
  import opened Interleavings
  import opened Deadlock

  /** Some actions, none of them an abort, lead from s to s'. */
  ghost predicate Leads(s: Sys, s': Sys) {
    exists ss: seq<Sys>, acts: seq<Action> :: LeadsBy(s, s', ss, acts)
  }

  predicate LeadsBy(s: Sys, s': Sys, ss: seq<Sys>, acts: seq<Action>) {
    IsTrace(ss, acts) && ss[0] == s && ss[|acts|] == s'
    && forall i {:trigger acts[i]} :: 0 <= i < |acts| ==> !acts[i].Abort?
  }

  lemma LeadsNowhere(s: Sys)
    ensures Leads(s, s)
  {
    assert LeadsBy(s, s, [s], []);
  }

  lemma LeadsOn(s: Sys, s': Sys, a: Action, s'': Sys)
    requires Leads(s, s') && Goes(s', a, s'') && !a.Abort?
    ensures Leads(s, s'')
  {
    var ss, acts :| LeadsBy(s, s', ss, acts);
    TraceOneMore(ss, acts, a, s'');
    var ss', acts' := ss + [s''], acts + [a];
    assert ss'[0] == s && ss'[|acts'|] == s'';
    assert LeadsBy(s, s'', ss', acts');
  }

  // ---------------------------------------------------------------- one transaction on its own

  /** What a reaper or purge has still to take, or has taken, is everything it wants. */
  predicate Covers(db: Db, tx: Txn) {
    (tx.pc == Choosing ==> forall r :: r in db.holds && Wanted(tx, db.holds[r]) ==> r in tx.candidates || r in tx.batch)
    && (tx.pc in {Locking, Ready} && (tx.request.ReapReq? || tx.request.PurgeReq?) ==>
          Took(db, tx))
  }

  predicate Took(db: Db, tx: Txn) {
    (tx.request.ReapReq? && |tx.batch| == BATCH_LIMIT)
    || forall r :: r in db.holds && Wanted(tx, db.holds[r]) ==> r in tx.batch
  }

  predicate Apart(tx: Txn) { tx.todo !! tx.rows.Keys && (tx.pc == Start ==> tx.todo == {}) }

  lemma MoveKeepsApart(s: Sys, tx: Txn, m: Move)
    requires CanMove(s, tx, m) && TxnOk(s.world.db, tx) && Apart(tx)
    ensures Apart(Moved(s, tx, m))
  {
  }

  lemma MoveKeepsCovers(s: Sys, tx: Txn, m: Move)
    requires CanMove(s, tx, m) && TxnOk(s.world.db, tx) && Covers(s.world.db, tx) && !m.Skip?
    ensures Covers(s.world.db, Moved(s, tx, m))
  {
  }

  /** Only t is in flight, and it has begun with this request at this time. */
  predicate Solo(s: Sys, t: Tid, r: Request, now: Time) {
    SysInv(s) && s.txns.Keys == {t} && s.txns[t].request == r && s.txns[t].now == now
    && Apart(s.txns[t]) && Covers(s.world.db, s.txns[t])
  }

  lemma LocksAreOwn(s: Sys, t: Tid, r: Request, now: Time)
    requires Solo(s, t, r, now)
    ensures forall k :: k in s.txns[t].todo ==> k !in s.rowLocks
    ensures forall h :: h in s.txns[t].candidates ==> h !in s.holdLocks
    ensures s.txns[t].pc == Start ==> s.holdLocks == map[]
  {
    var tx := s.txns[t];
    assert TxnOk(s.world.db, tx);
    assert tx.pc == Start ==> ToSet(tx.batch) == {};
  }

  lemma SoloSteps(s: Sys, t: Tid, r: Request, now: Time, m: Move) returns (s': Sys)
    requires Solo(s, t, r, now) && CanMove(s, s.txns[t], m) && !m.Skip?
    ensures Goes(s, Step(t, m), s') && Solo(s', t, r, now) && s'.world == s.world && s'.log == s.log
    ensures s'.begun == s.begun && s'.txns[t] == Moved(s, s.txns[t], m)
  {
    s' := Act(s, Step(t, m));
    assert TxnOk(s.world.db, s.txns[t]);
    StepRefines(s, Step(t, m));
    MoveKeepsRequest(s, s.txns[t], m);
    MoveKeepsApart(s, s.txns[t], m);
    MoveKeepsCovers(s, s.txns[t], m);
  }

  /** The transaction's next action: it is at its end, or this move is open to it. */
  lemma SoloNext(s: Sys, t: Tid, r: Request, now: Time) returns (e: Option<Ending>, m: Move)
    requires Solo(s, t, r, now)
    ensures e.Some? ==> CanEnd(s.world.db, s.txns[t], e.value)
    ensures e.None? ==> CanMove(s, s.txns[t], m) && !m.Skip?
  {
    var db, tx := s.world.db, s.txns[t];
    assert TxnOk(db, tx);
    LocksAreOwn(s, t, r, now);
    e, m := None, Scan;
    match tx.pc {
      case Start =>
        if Answerable(tx) {
          if Finds(db, tx) {
            m := Find;
          } else {
            e := Some(Miss);
          }
        } else if r.SnapshotReq? {
          e := Some(Read);
        }
      case Choosing =>
        if tx.candidates == {} || (r.ReapReq? && |tx.batch| == BATCH_LIMIT) {
          m := ScanHeld;
        } else {
          var ref := Member(tx.candidates);
          m := Take(ref);
        }
      case Found =>
        assert tx.request.ref in tx.holds;
        if r.ConfirmReq? && !Active(tx.holds[tx.request.ref]) {
          e := Some(Reject);
        } else {
          m := ScanHeld;
        }
      case Locking =>
        if tx.todo != {} {
          var k := LowestExists(tx.todo);
          m := Lock(k);
        } else if r.HoldReq? && HoldRefusal(tx.rows, r.req.legs).Some? {
          e := Some(Refuse);
        } else {
          m := Write;
        }
      case Ready => e := Some(Commit);
    }
  }

  function Phase(pc: Pc): nat {
    match pc
    case Start => 4
    case Choosing => 3
    case Found => 3
    case Locking => 2
    case Ready => 1
  }

  lemma MoveAdvances(s: Sys, tx: Txn, m: Move)
    requires CanMove(s, tx, m)
    ensures var tx' := Moved(s, tx, m);
            Phase(tx'.pc) < Phase(tx.pc)
            || (tx'.pc == tx.pc && |tx'.candidates| + |tx'.todo| < |tx.candidates| + |tx.todo|)
  {
  }

  predicate IsExpiredActive(h: Hold, now: Time) {
    h.booking == None && h.expiresAt <= now
  }

  predicate IsPastRetention(h: Hold, now: Time, retentionDays: int) {
    h.booking != None && h.expiresAt < now - retentionDays * 86_400_000_000
  }

  /** The request has been served between s and s': its operation has been applied to the tables, logged
      with its answer and events, and nothing is left in flight. A reaper takes all expired active holds
      up to 500; a purge takes every consumed hold past its retention. */
  predicate Served(s: Sys, s': Sys, r: Request, now: Time) {
    |s'.log| == |s.log| + 1
    && var op := s'.log[|s.log|].op;
       StepsAtomically(s, op, s') && Serves(op, r, now) && TakesAll(s.world.db.holds, op, now)
       && s'.txns == map[] && SysInv(s')
  }

  predicate TakesAll(holds: Holds, op: Op, now: Time) {
    (op.Reap? && |op.batch| < 500 ==> forall h :: h in holds && IsExpiredActive(holds[h], now) ==> h in op.batch)
    && (op.Purge? ==> forall h :: h in holds && IsPastRetention(holds[h], now, op.retentionDays) ==> h in op.refs)
  }

  lemma EndTakesAll(db: Db, tx: Txn, e: Ending)
    requires TxnOk(db, tx) && Covers(db, tx) && CanEnd(db, tx, e)
    ensures Serves(OpOf(tx), tx.request, tx.now) && TakesAll(db.holds, OpOf(tx), tx.now)
  {
  }

  lemma SoloEnds(s: Sys, t: Tid, r: Request, now: Time, e: Ending) returns (s': Sys)
    requires Solo(s, t, r, now) && CanEnd(s.world.db, s.txns[t], e)
    ensures Goes(s, End(t, e), s') && Served(s, s', r, now) && s'.begun == s.begun
  {
    s' := Act(s, End(t, e));
    assert TxnOk(s.world.db, s.txns[t]);
    EndTakesAll(s.world.db, s.txns[t], e);
    StepRefines(s, End(t, e));
    assert s'.txns.Keys == {};
  }

  lemma {:induction false} SoloFinishes(s: Sys, t: Tid, r: Request, now: Time, start: Sys) returns (s': Sys)
    requires Solo(s, t, r, now) && Leads(start, s) && s.world == start.world && s.log == start.log
    ensures Leads(start, s') && Served(start, s', r, now) && s'.begun == s.begun
    decreases Phase(s.txns[t].pc), |s.txns[t].candidates| + |s.txns[t].todo|
  {
    var e, m := SoloNext(s, t, r, now);
    if e.Some? {
      s' := SoloEnds(s, t, r, now, e.value);
      LeadsOn(start, s, End(t, e.value), s');
    } else {
      MoveAdvances(s, s.txns[t], m);
      var mid := SoloSteps(s, t, r, now, m);
      LeadsOn(start, s, Step(t, m), mid);
      s' := SoloFinishes(mid, t, r, now, start);
    }
  }

  /** A hold's reference has not been drawn before; a purge is asked for only with a positive retention. */
  predicate CanBegin(s: Sys, r: Request) {
    (r.HoldReq? ==> r.ref !in s.begun) && (r.PurgeReq? ==> r.retentionDays > 0)
  }

  /** Whenever nothing is in flight, any request whatever can be served, at any start time. */
  lemma EveryRequestCompletes(s: Sys, t: Tid, r: Request, now: Time) returns (s': Sys)
    requires SysInv(s) && s.txns == map[] && CanBegin(s, r)
    ensures Leads(s, s') && Served(s, s', r, now)
    ensures s'.begun == if r.HoldReq? then s.begun + {r.ref} else s.begun
  {
    LeadsNowhere(s);
    var mid := Act(s, Begin(t, r, now));
    StepRefines(s, Begin(t, r, now));
    LeadsOn(s, s, Begin(t, r, now), mid);
    assert mid.txns.Keys == {t};
    s' := SoloFinishes(mid, t, r, now, s);
  }

  // ---------------------------------------------------------------- schedules

  datatype Job = Job(request: Request, now: Time)

  lemma LeadsVia(s: Sys, s': Sys, s'': Sys)
    requires Leads(s, s') && Leads(s', s'')
    ensures Leads(s, s'')
  {
    var ss: seq<Sys>, acts: seq<Action> :| LeadsBy(s, s', ss, acts);
    var ss': seq<Sys>, acts': seq<Action> :| LeadsBy(s', s'', ss', acts');
    var all, steps := ss + ss'[1..], acts + acts';
    forall i {:trigger steps[i]} | 0 <= i < |steps| ensures Goes(all[i], steps[i], all[i + 1]) && !steps[i].Abort? {
      if i < |acts| {
        var a := acts[i];
      } else {
        var a := acts'[i - |acts|];
      }
    }
    assert all[0] == s && all[|steps|] == s'';
    assert LeadsBy(s, s'', all, steps);
  }

  /** The references of the holds are new and all different, and the purges have a positive retention. */
  predicate CanSchedule(begun: set<HoldRef>, jobs: seq<Job>) {
    forall i :: 0 <= i < |jobs| ==>
      (jobs[i].request.PurgeReq? ==> jobs[i].request.retentionDays > 0)
      && (jobs[i].request.HoldReq? ==> NewAt(begun, jobs, i))
  }

  predicate NewAt(begun: set<HoldRef>, jobs: seq<Job>, i: nat)
    requires i < |jobs| && jobs[i].request.HoldReq?
  {
    jobs[i].request.ref !in begun
    && forall h :: 0 <= h < i && jobs[h].request.HoldReq? ==> jobs[h].request.ref != jobs[i].request.ref
  }

  lemma CanScheduleEarlier(begun: set<HoldRef>, jobs: seq<Job>)
    requires jobs != [] && CanSchedule(begun, jobs)
    ensures CanSchedule(begun, jobs[..|jobs| - 1])
    ensures jobs[|jobs| - 1].request.HoldReq? ==> NewAt(begun, jobs, |jobs| - 1)
  {
    var earlier := jobs[..|jobs| - 1];
    forall i | 0 <= i < |earlier| && earlier[i].request.HoldReq? ensures NewAt(begun, earlier, i) {
      assert NewAt(begun, jobs, i);
    }
  }

  function Drawn(begun: set<HoldRef>, jobs: seq<Job>): set<HoldRef> {
    begun + set i | 0 <= i < |jobs| && jobs[i].request.HoldReq? :: jobs[i].request.ref
  }

  /** The last |jobs| log entries serve the jobs in order. */
  predicate LogServes(log: seq<Entry>, from: nat, jobs: seq<Job>) {
    |log| == from + |jobs|
    && forall i {:trigger jobs[i]} :: 0 <= i < |jobs| ==> Serves(log[from + i].op, jobs[i].request, jobs[i].now)
  }

  lemma ServedIsLogged(s: Sys, s': Sys, from: nat, jobs: seq<Job>, job: Job)
    requires LogServes(s.log, from, jobs) && Served(s, s', job.request, job.now)
    ensures LogServes(s'.log, from, jobs + [job])
  {
    var all := jobs + [job];
    forall i {:trigger all[i]} | 0 <= i < |all| ensures Serves(s'.log[from + i].op, all[i].request, all[i].now) {
      if i < |jobs| {
        var earlier := jobs[i];
      }
    }
  }

  /** Any list of requests, each with any start time, can be served in that order: the serial runs that
      interleavings amount to leave out none that requests can ask for. */
  lemma {:induction false} EveryScheduleRuns(s: Sys, jobs: seq<Job>) returns (s': Sys)
    requires SysInv(s) && s.txns == map[] && CanSchedule(s.begun, jobs)
    ensures Leads(s, s') && SysInv(s') && s'.txns == map[] && s'.begun == Drawn(s.begun, jobs)
    ensures LogServes(s'.log, |s.log|, jobs)
    decreases |jobs|
  {
    if jobs == [] {
      s' := s;
      LeadsNowhere(s);
    } else {
      var n := |jobs| - 1;
      var earlier, job := jobs[..n], jobs[n];
      CanScheduleEarlier(s.begun, jobs);
      var mid := EveryScheduleRuns(s, earlier);
      s' := EveryRequestCompletes(mid, 0, job.request, job.now);
      LeadsVia(s, mid, s');
      ServedIsLogged(mid, s', |s.log|, earlier, job);
      assert jobs == earlier + [job];
      DrawnOneMore(s.begun, earlier, job);
    }
  }

  lemma DrawnOneMore(begun: set<HoldRef>, jobs: seq<Job>, job: Job)
    ensures Drawn(begun, jobs + [job])
            == if job.request.HoldReq? then Drawn(begun, jobs) + {job.request.ref} else Drawn(begun, jobs)
  {
    var all := jobs + [job];
    forall r | r in Drawn(begun, jobs) ensures r in Drawn(begun, all) {
      if r !in begun {
        var i :| 0 <= i < |jobs| && jobs[i].request.HoldReq? && jobs[i].request.ref == r;
        assert all[i] == jobs[i];
      }
    }
    assert all[|jobs|] == job;
  }

  predicate IsBegun(s: Sys, t: Tid, job: Job) {
    t in s.txns && s.txns[t] == Begun(job.request, job.now)
  }

  predicate InFlight(s: Sys, base: Tid, jobs: seq<Job>) {
    forall i :: 0 <= i < |jobs| ==> IsBegun(s, base + i, jobs[i])
  }

  lemma OneMoreInFlight(s: Sys, base: Tid, jobs: seq<Job>, job: Job, s': Sys)
    requires InFlight(s, base, jobs) && Goes(s, Begin(base + |jobs|, job.request, job.now), s')
    ensures InFlight(s', base, jobs + [job])
  {
    var all := jobs + [job];
    forall i | 0 <= i < |all| ensures IsBegun(s', base + i, all[i]) {
      if i < |jobs| {
        assert all[i] == jobs[i];
        assert IsBegun(s, base + i, jobs[i]);
        BegunStays(s, base + |jobs|, job, s', base + i, jobs[i]);
      }
    }
  }

  lemma BegunStays(s: Sys, u: Tid, job': Job, s': Sys, t: Tid, job: Job)
    requires Goes(s, Begin(u, job'.request, job'.now), s') && t != u && IsBegun(s, t, job)
    ensures IsBegun(s', t, job)
  {
  }

  /** Any list of requests can all be in flight at once, from any state, whatever else is in flight. */
  lemma {:induction false} AllInFlight(s: Sys, base: Tid, jobs: seq<Job>) returns (s': Sys)
    requires CanSchedule(s.begun, jobs) && forall t :: t in s.txns ==> t < base
    ensures Leads(s, s') && s'.begun == Drawn(s.begun, jobs) && forall t :: t in s'.txns ==> t < base + |jobs|
    ensures forall t :: t in s.txns ==> t in s'.txns && s'.txns[t] == s.txns[t]
    ensures InFlight(s', base, jobs)
    decreases |jobs|
  {
    if jobs == [] {
      s' := s;
      LeadsNowhere(s);
    } else {
      var n := |jobs| - 1;
      var earlier, job := jobs[..n], jobs[n];
      CanScheduleEarlier(s.begun, jobs);
      var mid := AllInFlight(s, base, earlier);
      s' := Act(mid, Begin(base + n, job.request, job.now));
      LeadsOn(s, mid, Begin(base + n, job.request, job.now), s');
      OneMoreInFlight(mid, base, earlier, job, s');
      assert jobs == earlier + [job];
      DrawnOneMore(s.begun, earlier, job);
    }
  }

  // ---------------------------------------------------------------- what a reaper passes over

  /** The hold is expired and active for transaction t, and nobody else has locked it. */
  predicate UpForReaping(s: Sys, t: Tid, h: HoldRef) {
    t in s.txns && h in s.world.db.holds && IsExpiredActive(s.world.db.holds[h], s.txns[t].now)
    && (h in s.holdLocks ==> s.holdLocks[h] == t)
  }

  predicate UpDuring(ss: seq<Sys>, i: nat, j: nat, t: Tid, h: HoldRef) {
    j < |ss| && forall n {:trigger ss[n]} :: i <= n <= j ==> UpForReaping(ss[n], t, h)
  }

  /** The reaper has h before it or in its batch, or its batch is full. */
  predicate HasInSight(tx: Txn, h: HoldRef) {
    tx.request.ReapReq? && tx.pc in {Choosing, Locking, Ready}
    && (tx.pc == Choosing ==> h in tx.candidates || h in tx.batch)
    && (tx.pc != Choosing ==> h in tx.batch || |tx.batch| == 500)
  }

  lemma MoveKeepsInSight(s: Sys, t: Tid, m: Move, h: HoldRef)
    requires SysInv(s) && UpForReaping(s, t, h) && HasInSight(s.txns[t], h) && CanMove(s, s.txns[t], m)
    ensures HasInSight(Moved(s, s.txns[t], m), h)
  {
    var tx := s.txns[t];
    assert TxnOk(s.world.db, tx);
    assert h in s.holdLocks ==> h in tx.holds;
  }

  lemma OnlyItsOwn(s: Sys, a: Action, s': Sys, t: Tid)
    requires Goes(s, a, s') && t in s.txns && t in s'.txns && !(a.Step? && a.t == t)
    ensures s'.txns[t] == s.txns[t]
  {
  }

  lemma StaysInSight(s: Sys, a: Action, s': Sys, t: Tid, h: HoldRef)
    requires SysInv(s) && Goes(s, a, s') && UpForReaping(s, t, h) && t in s'.txns && HasInSight(s.txns[t], h)
    ensures HasInSight(s'.txns[t], h)
  {
    if a.Step? && a.t == t {
      MoveKeepsInSight(s, t, a.move, h);
    } else {
      OnlyItsOwn(s, a, s', t);
    }
  }

  lemma ScanSees(s: Sys, t: Tid, s': Sys, h: HoldRef)
    requires Goes(s, Step(t, Scan), s') && UpForReaping(s, t, h) && s.txns[t].request.ReapReq?
    ensures t in s'.txns && HasInSight(s'.txns[t], h)
  {
  }

  lemma InvAtState(ss: seq<Sys>, acts: seq<Action>, n: nat)
    requires IsTrace(ss, acts) && Idle(ss[0]) && n <= |acts|
    ensures SysInv(ss[n])
  {
    var prefix := acts[..n];
    assert forall m {:trigger prefix[m]} :: 0 <= m < n ==> prefix[m] == acts[m];
    var ws := Refinement(ss[..n + 1], prefix);
  }

  lemma NextInSight(ss: seq<Sys>, acts: seq<Action>, n: nat, t: Tid, h: HoldRef)
    requires IsTrace(ss, acts) && Idle(ss[0]) && n < |acts|
    requires UpForReaping(ss[n], t, h) && UpForReaping(ss[n + 1], t, h) && HasInSight(ss[n].txns[t], h)
    ensures HasInSight(ss[n + 1].txns[t], h)
  {
    InvAtState(ss, acts, n);
    StaysInSight(ss[n], acts[n], ss[n + 1], t, h);
  }

  /** A reaper passes a hold over only if another transaction has it locked: one that stays expired, active
      and not locked by anyone else from the reaper's SELECT on ends up in its batch, unless that is full. */
  lemma {:induction false} PassesOverOnlyLocked(ss: seq<Sys>, acts: seq<Action>, i: nat, j: nat, t: Tid, h: HoldRef)
    requires IsTrace(ss, acts) && Idle(ss[0]) && i < j <= |acts|
    requires acts[i] == Step(t, Scan) && t in ss[i].txns && ss[i].txns[t].request.ReapReq?
    requires UpDuring(ss, i, j, t, h)
    ensures t in ss[j].txns && HasInSight(ss[j].txns[t], h)
    decreases j
  {
    assert UpForReaping(ss[j - 1], t, h) && UpForReaping(ss[j], t, h);
    if i == j - 1 {
      ScanSees(ss[i], t, ss[j], h);
    } else {
      PassesOverOnlyLocked(ss, acts, i, j - 1, t, h);
      NextInSight(ss, acts, j - 1, t, h);
    }
  }

  // ---------------------------------------------------------------- publishing

  predicate SentOk(s: Sys) {
    |s.sent| == |s.log| && forall i :: 0 <= i < |s.log| ==> s.sent[i] <= |s.log[i].events|
  }

  /** All events of the first n finished transactions have been published. */
  predicate SentAll(s: Sys, n: nat) {
    n <= |s.log| == |s.sent| && forall i :: 0 <= i < n ==> s.sent[i] == |s.log[i].events|
  }

  lemma {:induction false} PublishesOne(start: Sys, s: Sys, n: nat) returns (s': Sys)
    requires Leads(start, s) && SentOk(s) && SentAll(s, n) && n < |s.log|
    ensures Leads(start, s') && SentOk(s') && SentAll(s', n + 1) && s'.(sent := s.sent, published := s.published) == s
    decreases |s.log[n].events| - s.sent[n]
  {
    s' := s;
    if s.sent[n] < |s.log[n].events| {
      var mid := Act(s, Publish(n));
      LeadsOn(start, s, Publish(n), mid);
      s' := PublishesOne(start, mid, n);
    }
  }

  /** From any state, publishing alone gets every event of the finished transactions out. */
  lemma {:induction false} EverythingCanBePublished(s: Sys, n: nat) returns (s': Sys)
    requires SentOk(s) && n <= |s.log|
    ensures Leads(s, s') && SentOk(s') && SentAll(s', n) && s'.(sent := s.sent, published := s.published) == s
  {
    if n == 0 {
      s' := s;
      LeadsNowhere(s);
    } else {
      s' := EverythingCanBePublished(s, n - 1);
      s' := PublishesOne(s, s', n - 1);
    }
  }
}
