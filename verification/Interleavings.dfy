/** Whole interleaved runs: each one is a serial run of atomic operations in the order the
    transactions ended, so everything proved of serial runs holds of interleaved ones. */
module Interleavings {
  import opened Tables
  import opened Atomic
  import opened Runs
  import opened Concurrent

  /** The system steps from s to s' by a. */
  predicate Goes(s: Sys, a: Action, s': Sys) {
    Enabled(s, a) && s' == Act(s, a)
  }

  predicate IsTrace(ss: seq<Sys>, acts: seq<Action>) {
    |ss| == |acts| + 1
    && forall i {:trigger acts[i]} :: 0 <= i < |acts| ==> Goes(ss[i], acts[i], ss[i + 1])
  }

  lemma TracePrefix(ss: seq<Sys>, acts: seq<Action>)
    requires IsTrace(ss, acts) && acts != []
    ensures IsTrace(ss[..|acts|], acts[..|acts| - 1])
    ensures Goes(ss[|acts| - 1], acts[|acts| - 1], ss[|acts|])
  {
    var earlier := acts[..|acts| - 1];
    assert forall i {:trigger earlier[i]} :: 0 <= i < |earlier| ==> earlier[i] == acts[i];
    var last := acts[|acts| - 1];
  }

  lemma TraceOneMore(ss: seq<Sys>, acts: seq<Action>, a: Action, s: Sys)
    requires IsTrace(ss, acts) && Goes(ss[|acts|], a, s)
    ensures IsTrace(ss + [s], acts + [a])
  {
    var ss', acts' := ss + [s], acts + [a];
    forall i {:trigger acts'[i]} | 0 <= i < |acts'| ensures Goes(ss'[i], acts'[i], ss'[i + 1]) {
      if i < |acts| {
        var earlier := acts[i];
      }
    }
  }

  /** Nothing in flight, nothing logged; the tables as some earlier run may have left them. */
  predicate Idle(s: Sys) {
    Inv(s.world) && s.world.used <= s.begun && s.txns == map[] && s.rowLocks == map[] && s.holdLocks == map[]
    && s.log == [] && s.sent == [] && s.published == []
  }

  function Ops(log: seq<Entry>): seq<Op> {
    seq(|log|, i requires 0 <= i < |log| => log[i].op)
  }

  /** The log tells the story of the serial run `ws`: what was answered and published is what the
      atomic operations answer and publish. */
  predicate Tells(log: seq<Entry>, ws: seq<World>) {
    IsRun(ws, Ops(log))
    && forall i {:trigger log[i]} :: 0 <= i < |log| ==>
         log[i].answer == AnswerAt(ws, Ops(log), i) && log[i].events == EventsAt(ws, Ops(log), i)
  }

  lemma RunOneMore(ws: seq<World>, ops: seq<Op>, op: Op)
    requires IsRun(ws, ops) && Legal(ws[|ops|], op)
    ensures IsRun(ws + [Next(ws[|ops|], op)], ops + [op])
  {
    var ws', ops' := ws + [Next(ws[|ops|], op)], ops + [op];
    forall i {:trigger ops'[i]} | 0 <= i < |ops'|
      ensures Legal(ws'[i], ops'[i]) && ws'[i + 1] == Next(ws'[i], ops'[i])
    {
      if i < |ops| {
        var earlier := ops[i];
      }
    }
  }

  lemma TellsOneMore(log: seq<Entry>, ws: seq<World>, op: Op)
    requires Tells(log, ws) && Legal(ws[|log|], op)
    ensures var o := Apply(ws[|log|].db, op);
            Tells(log + [Entry(op, o.answer, o.events)], ws + [Next(ws[|log|], op)])
  {
    RunOneMore(ws, Ops(log), op);
    var o := Apply(ws[|log|].db, op);
    assert Ops(log + [Entry(op, o.answer, o.events)]) == Ops(log) + [op];
  }

  /** Any number of transactions, interleaved at row-lock granularity, each with its own start time:
      those that ended with an answer amount to a serial run of their atomic operations, in the order
      they ended, from the initial tables to the current ones. The rest left no trace. */
  lemma {:induction false} Refinement(ss: seq<Sys>, acts: seq<Action>) returns (ws: seq<World>)
    requires IsTrace(ss, acts) && Idle(ss[0])
    ensures SysInv(ss[|acts|])
    ensures Tells(ss[|acts|].log, ws) && ws[0] == ss[0].world && ws[|ss[|acts|].log|] == ss[|acts|].world
    decreases |acts|
  {
    if acts == [] {
      ws := [ss[0].world];
    } else {
      var n := |acts| - 1;
      TracePrefix(ss, acts);
      ws := Refinement(ss[..n + 1], acts[..n]);
      var s, a := ss[n], acts[n];
      StepRefines(s, a);
      if a.End? {
        TellsOneMore(s.log, ws, OpOf(s.txns[a.t]));
        ws := ws + [ss[n + 1].world];
      }
    }
  }

  /** The operation answers this request of a transaction that began at `now`. */
  predicate Serves(op: Op, request: Request, now: Time) {
    match request
    case HoldReq(req, ref, expiresAt) => op == HoldSeat(req, ref, expiresAt)
    case ConfirmReq(ref, booking) => op == Confirm(ref, booking, now)
    case ReleaseReq(ref) => op == Release(ref)
    case CancelReq(trip, seat, legs) => op == Cancel(trip, seat, legs)
    case ReapReq => op.Reap? && op.now == now
    case PurgeReq(days) => op.Purge? && op.now == now && op.retentionDays == days
    case SnapshotReq(trip) => op == Snapshot(trip)
  }

  lemma MoveKeepsRequest(s: Sys, tx: Txn, m: Move)
    requires CanMove(s, tx, m)
    ensures Moved(s, tx, m).request == tx.request && Moved(s, tx, m).now == tx.now
  {
  }

  /** Where a transaction in flight began, with the request and the start time it still carries. */
  lemma {:induction false} BegunAt(ss: seq<Sys>, acts: seq<Action>, n: nat, t: Tid) returns (m: nat)
    requires IsTrace(ss, acts) && n <= |acts| && ss[0].txns == map[] && t in ss[n].txns
    ensures m < n && acts[m] == Begin(t, ss[n].txns[t].request, ss[n].txns[t].now)
    ensures forall j {:trigger ss[j]} :: m < j <= n ==> t in ss[j].txns
    decreases n
  {
    var a := acts[n - 1];
    if a.Begin? && a.t == t {
      m := n - 1;
    } else {
      if a.Step? && a.t == t {
        MoveKeepsRequest(ss[n - 1], ss[n - 1].txns[t], a.move);
      }
      m := BegunAt(ss, acts, n - 1, t);
    }
  }

  /** The entry a transaction logs when it ends serves the request it began with, at its own start
      time; it was in flight all the while, so its operation takes effect between its begin and its end. */
  lemma EntryServesItsRequest(ss: seq<Sys>, acts: seq<Action>, n: nat) returns (m: nat)
    requires IsTrace(ss, acts) && Idle(ss[0]) && n < |acts| && acts[n].End?
    ensures m < n && acts[m].Begin? && acts[m].t == acts[n].t
    ensures forall j {:trigger ss[j]} :: m < j <= n ==> acts[n].t in ss[j].txns
    ensures |ss[n + 1].log| == |ss[n].log| + 1
    ensures Serves(ss[n + 1].log[|ss[n].log|].op, acts[m].request, acts[m].now)
  {
    var t := acts[n].t;
    m := BegunAt(ss, acts, n, t);
    assert EndEntry(ss[n].world.db, ss[n].txns[t], acts[n].ending).op == OpOf(ss[n].txns[t]);
  }

  /** The initial tables satisfy the invariant, so no interleaving ever orphans a row. */
  lemma NoOrphansConcurrently(ss: seq<Sys>, acts: seq<Action>, i: nat)
    requires IsTrace(ss, acts) && Idle(ss[0]) && i < |ss|
    ensures NoOrphans(ss[i].world.db)
  {
    var prefix := acts[..i];
    assert forall j {:trigger prefix[j]} :: 0 <= j < i ==> prefix[j] == acts[j];
    var ws := Refinement(ss[..i + 1], prefix);
  }

  // ---------------------------------------------------------------- retired at most once

  predicate Retiring(e: Entry, ref: HoldRef) {
    match e.op
    case Confirm(r, _, _) => r == ref && e.answer == ConfirmOk
    case Release(r) => r == ref && e.answer == Released(true)
    case Reap(batch, _) => ref in batch
    case _ => false
  }

  /** Successful confirms, successful releases and reaps of one hold total at most one in any
      interleaving, even when a confirm begins before the expiry and the reaper after it. */
  lemma RetiredOnceConcurrently(ss: seq<Sys>, acts: seq<Action>, i: nat, j: nat, ref: HoldRef)
    requires IsTrace(ss, acts) && Idle(ss[0])
    requires i < |ss[|acts|].log| && j < |ss[|acts|].log|
    requires Retiring(ss[|acts|].log[i], ref) && Retiring(ss[|acts|].log[j], ref)
    ensures i == j
  {
    var log := ss[|acts|].log;
    var ws := Refinement(ss, acts);
    var ops := Ops(log);
    assert Retires(ws[i], ops[i], ref) && Retires(ws[j], ops[j], ref);
    if i < j {
      RetiredAtMostOnce(ws, ops, i, j, ref);
    } else if j < i {
      RetiredAtMostOnce(ws, ops, j, i, ref);
    }
  }

  // ---------------------------------------------------------------- no double booking

  /** In any interleaving, if two confirms both booked row k, a cancel naming k ended between them; if
      two holds both took row k, a release, reap or cancel that freed it did. */
  lemma NoDoubleBookingConcurrently(ss: seq<Sys>, acts: seq<Action>, i: nat, j: nat, k: SeatLeg)
    returns (ws: seq<World>)
    requires IsTrace(ss, acts) && Idle(ss[0]) && i < j < |ss[|acts|].log| && k in ss[0].world.db.inventory
    ensures var ops := Ops(ss[|acts|].log);
            Tells(ss[|acts|].log, ws) && ws[0] == ss[0].world
            && (BooksRow(ws, ops, i, k) && BooksRow(ws, ops, j, k)
                ==> exists m {:trigger ops[m]} :: i < m < j && CancelsRow(ops[m], k))
            && (TakesRow(ws, ops, i, k) && TakesRow(ws, ops, j, k)
                ==> exists m {:trigger ops[m]} :: i < m < j && FreesRow(ws[m], ops[m], k))
  {
    ws := Refinement(ss, acts);
    var ops := Ops(ss[|acts|].log);
    if BooksRow(ws, ops, i, k) && BooksRow(ws, ops, j, k) {
      NoDoubleBooking(ws, ops, i, j, k);
    }
    if TakesRow(ws, ops, i, k) && TakesRow(ws, ops, j, k) {
      NoDoubleHold(ws, ops, i, j, k);
    }
  }

  // ---------------------------------------------------------------- one winner

  predicate SingleHold(e: Entry, k: SeatLeg) {
    e.op.HoldSeat? && e.op.req.trip == k.trip && e.op.req.seat == k.seat && e.op.req.legs == [k.leg]
  }

  lemma SingleLegHold(w: World, op: Op, k: SeatLeg)
    requires Legal(w, op) && op.HoldSeat? && op.req.trip == k.trip && op.req.seat == k.seat && op.req.legs == [k.leg]
    requires k in w.db.inventory && Inv(w)
    ensures if Free(w.db.inventory[k]) then Apply(w.db, op).answer.HoldOk?
            else Apply(w.db, op).answer == HoldFailed(SeatConflict, [k.seat])
    ensures k in Next(w, op).db.inventory && !Free(Next(w, op).db.inventory[k])
  {
    var keys := Matching(w.db.inventory, k.trip, k.seat, [k.leg]);
    assert keys == {k};
    var rows := Selected(w.db.inventory, keys);
    assert rows.Keys == keys;
    assert |rows| == |keys| == 1;
    assert k in rows && rows[k] == w.db.inventory[k];
  }

  /** Any number of racing holds of one free leg: the first to end wins, all others are refused with
      SEAT_CONFLICT. */
  lemma {:induction false} HoldRace(ss: seq<Sys>, acts: seq<Action>, k: SeatLeg, i: nat)
    requires IsTrace(ss, acts) && Idle(ss[0])
    requires k in ss[0].world.db.inventory && Free(ss[0].world.db.inventory[k])
    requires forall j {:trigger ss[|acts|].log[j]} :: 0 <= j < |ss[|acts|].log| ==> SingleHold(ss[|acts|].log[j], k)
    requires i < |ss[|acts|].log|
    ensures if i == 0 then ss[|acts|].log[i].answer.HoldOk?
            else ss[|acts|].log[i].answer == HoldFailed(SeatConflict, [k.seat])
  {
    var log := ss[|acts|].log;
    var ws := Refinement(ss, acts);
    var ops := Ops(log);
    for n := 0 to i
      invariant k in ws[n].db.inventory && (Free(ws[n].db.inventory[k]) <==> n == 0)
    {
      InvAt(ws, ops, n);
      assert SingleHold(log[n], k);
      var op := ops[n];
      SingleLegHold(ws[n], op, k);
    }
    InvAt(ws, ops, i);
    assert SingleHold(log[i], k);
    var op := ops[i];
    SingleLegHold(ws[i], op, k);
  }

  // ---------------------------------------------------------------- publishing after the commit

  /** The events of one finished transaction, in the order subscribers see them. */
  function SeenOf(published: seq<Sent>, entry: nat): seq<Event> {
    if published == [] then []
    else
      var last := published[|published| - 1];
      SeenOf(published[..|published| - 1], entry) + if last.entry == entry then [last.event] else []
  }

  /** Subscribers have seen exactly the first `sent` events of the transaction. */
  predicate SeenOk(s: Sys, entry: nat) {
    if entry < |s.log| && entry < |s.sent| then
      s.sent[entry] <= |s.log[entry].events|
      && SeenOf(s.published, entry) == s.log[entry].events[..s.sent[entry]]
    else SeenOf(s.published, entry) == []
  }

  lemma PublishStep(s: Sys, a: Action, entry: nat)
    requires |s.sent| == |s.log| && SeenOk(s, entry) && Enabled(s, a)
    ensures |Act(s, a).sent| == |Act(s, a).log| && SeenOk(Act(s, a), entry)
  {
    if a.Publish? {
      var s' := Act(s, a);
      assert s'.published[..|s'.published| - 1] == s.published;
      if entry == a.entry {
        var events, n := s.log[entry].events, s.sent[entry];
        assert events[..n + 1] == events[..n] + [events[n]];
      }
    }
  }

  /** However publishing interleaves, subscribers see of each transaction a prefix of its events: none
      lost in the middle, none twice, and inventory.updated before holds.released for a release. */
  lemma PublishedInOrder(ss: seq<Sys>, acts: seq<Action>, entry: nat)
    requires IsTrace(ss, acts) && Idle(ss[0]) && entry < |ss[|acts|].log|
    ensures SeenOf(ss[|acts|].published, entry) <= ss[|acts|].log[entry].events
  {
    SeenAlong(ss, acts, entry);
  }

  lemma ReleasePairInOrder(ss: seq<Sys>, acts: seq<Action>, entry: nat)
    requires IsTrace(ss, acts) && Idle(ss[0]) && entry < |ss[|acts|].log|
    requires ss[|acts|].log[entry].op.Release? && ss[|acts|].log[entry].answer == Released(true)
    ensures var seen := SeenOf(ss[|acts|].published, entry);
            |seen| <= 2 && (|seen| > 0 ==> seen[0].InventoryUpdated?) && (|seen| > 1 ==> seen[1].HoldsReleased?)
  {
    PublishedInOrder(ss, acts, entry);
    var ws := Refinement(ss, acts);
    var log := ss[|acts|].log;
    assert log[entry].events == EventsAt(ws, Ops(log), entry);
  }

  lemma {:induction false} SeenWasPublished(published: seq<Sent>, entry: nat, e: Event) returns (n: nat)
    requires e in SeenOf(published, entry)
    ensures n < |published| && published[n] == Sent(entry, e)
    decreases |published|
  {
    var last := |published| - 1;
    if published[last] == Sent(entry, e) {
      n := last;
    } else {
      n := SeenWasPublished(published[..last], entry, e);
    }
  }

  lemma {:induction false} SeenAlong(ss: seq<Sys>, acts: seq<Action>, entry: nat)
    requires IsTrace(ss, acts) && Idle(ss[0])
    ensures |ss[|acts|].sent| == |ss[|acts|].log| && SeenOk(ss[|acts|], entry)
  {
    for n := 0 to |acts|
      invariant |ss[n].sent| == |ss[n].log| && SeenOk(ss[n], entry)
    {
      var a := acts[n];
      PublishStep(ss[n], a, entry);
    }
  }

  /** Once every event of the finished transactions has been published, subscribers have been told of
      each row that changed since the start, by leg, or by seat for the reaper. */
  lemma ChangesReachSubscribers(ss: seq<Sys>, acts: seq<Action>, k: SeatLeg) returns (n: nat)
    requires IsTrace(ss, acts) && Idle(ss[0])
    requires |ss[|acts|].sent| == |ss[|acts|].log|
    requires forall i {:trigger ss[|acts|].log[i]} :: 0 <= i < |ss[|acts|].log| ==>
               ss[|acts|].sent[i] == |ss[|acts|].log[i].events|
    requires k in ss[0].world.db.inventory && k in ss[|acts|].world.db.inventory
    requires ss[|acts|].world.db.inventory[k] != ss[0].world.db.inventory[k]
    ensures n < |ss[|acts|].published|
    ensures var told := ss[|acts|].published[n];
            told.entry < |ss[|acts|].log| && Announces(ss[|acts|].log[told.entry].op, told.event, k)
  {
    var s := ss[|acts|];
    var ws := Refinement(ss, acts);
    EventCoverage(ws, Ops(s.log), 0, |s.log|, k);
    var m, e :| 0 <= m < |s.log| && e in EventsAt(ws, Ops(s.log), m) && Announces(Ops(s.log)[m], e, k);
    SeenAlong(ss, acts, m);
    assert s.log[m].events[..s.sent[m]] == s.log[m].events;
    n := SeenWasPublished(s.published, m, e);
  }
}
