/** Requests that overlap. The layer looks a key up, runs the handler and writes the cache in three
    separate steps; here any number of requests are in flight, at any of those points, in any order. */
module Overlaps {
  import opened Common
  import opened Tables
  import opened Atomic
  import opened KeyEncoding
  import opened Routes
  import opened Middleware
  import opened Endpoints

  /** A request past its look-up (pending) or past its handler (replied). `key` is None if the layer
      lets it pass unprotected. */
  datatype Flight =
    | Pending(r: ApiRequest, key: Option<Digest>)
    | Replied(r: ApiRequest, key: Option<Digest>, reply: Reply)

  datatype Told = Told(id: nat, r: ApiRequest, response: Response)

  datatype Busy = Busy(server: Server, flights: map<nat, Flight>, told: seq<Told>)

  datatype Action =
    | Arrive(id: nat, r: ApiRequest, now: Time)                // look the key up; answer at once on a hit
    | Run(id: nat, env: Env)                                   // run the handler
    | Finish(id: nat, engineNow: Time, now: Time)              // write the cache and answer
    | Work(op: Op)                                             // the reaper and other engine work
    | Sweep(now: Time)

  predicate Enabled(b: Busy, a: Action) {
    match a
    case Arrive(id, _, _) => id !in b.flights
    case Run(id, _) => id in b.flights && b.flights[id].Pending?
    case Finish(id, _, _) => id in b.flights && b.flights[id].Replied?
    case Work(op) => Possible(b.server.db, op)
    case Sweep(_) => true
  }

  /** The answer to a look-up that hits. */
  function Replay(cached: Cache.CachedResponse<Body>, r: ApiRequest): Response {
    if cached.bodyHash != BodyHash(r) then KEY_REUSED else Response(cached.status, cached.body, Some(true))
  }

  /** The cache write of a finished request, if its response is deterministic and it has a key. */
  function Written(cache: Cache.Cache<Body>, f: Flight, engineNow: Time, now: Time): Cache.Cache<Body>
    requires f.Replied?
  {
    if f.key.Some? && Cacheable(f.reply.status)
    then Cache.Stored(cache, f.key.value, Entry(f.r, f.reply), engineNow, now)
    else cache
  }

  function Answer(f: Flight): Response
    requires f.Replied?
  {
    Response(f.reply.status, f.reply.body, if f.key.Some? then Some(false) else None)
  }

  function Act(b: Busy, a: Action): Busy
    requires Enabled(b, a)
  {
    var s := b.server;
    match a
    case Arrive(id, r, now) =>
      var key := KeyOf(r);
      var hit := if key.Some? then Cache.Lookup(s.cache, key.value, now) else None;
      if hit.Some? then b.(told := b.told + [Told(id, r, Replay(hit.value, r))])
      else b.(flights := b.flights[id := Pending(r, key)])
    case Run(id, env) =>
      var f := b.flights[id];
      var h := Handle(s.db, f.r.call, env);
      b.(server := s.(db := h.db, events := s.events + h.events),
         flights := b.flights[id := Replied(f.r, f.key, h.reply)])
    case Finish(id, engineNow, now) =>
      var f := b.flights[id];
      Busy(s.(cache := Written(s.cache, f, engineNow, now)), b.flights - {id}, b.told + [Told(id, f.r, Answer(f))])
    case Work(op) =>
      var o := Apply(s.db, op);
      b.(server := s.(db := o.db, events := s.events + o.events))
    case Sweep(now) => b.(server := s.(cache := Cache.Swept(s.cache, now)))
  }

  predicate Goes(b: Busy, a: Action, b': Busy) {
    Enabled(b, a) && b' == Act(b, a)
  }

  predicate IsTrace(bs: seq<Busy>, acts: seq<Action>) {
    |bs| == |acts| + 1
    && forall i {:trigger acts[i]} :: 0 <= i < |acts| ==> Goes(bs[i], acts[i], bs[i + 1])
  }

  /** A request that nothing overlaps goes through its steps exactly as the layer serves it. */
  lemma AloneIsServed(b: Busy, id: nat, r: ApiRequest, env: Env, at: Moments)
    requires id !in b.flights
    ensures var (s', response) := Serve(b.server, r, env, at);
            var b1 := Act(b, Arrive(id, r, at.lookup));
            var told := b.told + [Told(id, r, response)];
            if id !in b1.flights then b1 == Busy(s', b.flights, told)
            else Enabled(b1, Run(id, env))
                 && var b2 := Act(b1, Run(id, env));
                 Enabled(b2, Finish(id, at.engineWrite, at.write))
                 && Act(b2, Finish(id, at.engineWrite, at.write)) == Busy(s', b.flights, told)
  {
    var b1 := Act(b, Arrive(id, r, at.lookup));
    if id in b1.flights {
      var b3 := Act(Act(b1, Run(id, env)), Finish(id, at.engineWrite, at.write));
      assert b3.flights == b.flights;
    }
  }

  // ---------------------------------------------------------------- what gets cached

  /** Finishing request that writes the key's row: its response is deterministic and no row is live. */
  predicate Puts(b: Busy, a: Action, key: Digest) {
    a.Finish? && Enabled(b, a) && b.flights[a.id].key == Some(key) && Cacheable(b.flights[a.id].reply.status)
    && !Cache.Live(b.server.cache, key, a.now)
  }

  /** The row the finishing request writes. */
  function RowPut(b: Busy, a: Action, key: Digest): Cache.CacheRow<Body>
    requires Puts(b, a, key)
  {
    Cache.CacheRow(Entry(b.flights[a.id].r, b.flights[a.id].reply), a.engineNow + Cache.IDEMPOTENCY_TTL)
  }

  lemma RowUnlessPut(b: Busy, a: Action, b': Busy, key: Digest)
    requires Goes(b, a, b') && key in b'.server.cache
    ensures if Puts(b, a, key) then b'.server.cache[key] == RowPut(b, a, key)
            else key in b.server.cache && b'.server.cache[key] == b.server.cache[key]
  {
  }

  /** In any interleaving, what is cached under a key is the response of the first request to finish
      since the key was last without a live row, whichever request arrived or ran first: every one that
      finished after it found that row live. */
  lemma {:induction false} CachedIsFirstToFinish(bs: seq<Busy>, acts: seq<Action>, i: nat, key: Digest) returns (m: nat)
    requires IsTrace(bs, acts) && bs[0].server.cache == map[] && i <= |acts| && key in bs[i].server.cache
    ensures m < i && Puts(bs[m], acts[m], key) && bs[i].server.cache[key] == RowPut(bs[m], acts[m], key)
    ensures forall n {:trigger acts[n]} :: m < n < i ==> !Puts(bs[n], acts[n], key)
    decreases i
  {
    RowUnlessPut(bs[i - 1], acts[i - 1], bs[i], key);
    if Puts(bs[i - 1], acts[i - 1], key) {
      m := i - 1;
    } else {
      m := CachedIsFirstToFinish(bs, acts, i - 1, key);
    }
  }

  /** The action's cache look-up, write or sweep happens before time t. */
  predicate CacheUsedBefore(a: Action, t: Time) {
    match a
    case Arrive(_, _, now) => now < t
    case Finish(_, _, now) => now < t
    case Sweep(now) => now < t
    case _ => true
  }

  lemma RowStays(b: Busy, a: Action, b': Busy, key: Digest)
    requires Goes(b, a, b') && key in b.server.cache && CacheUsedBefore(a, b.server.cache[key].expiresAt)
    ensures key in b'.server.cache && b'.server.cache[key] == b.server.cache[key]
  {
  }

  /** Whatever else is in flight, from the moment a key has a cached row until that expires, a request
      that arrives with the key is answered from the row at once: it runs nothing and changes nothing. */
  lemma {:induction false} AnsweredFromCache(bs: seq<Busy>, acts: seq<Action>, i: nat, j: nat, key: Digest)
    requires IsTrace(bs, acts) && i <= j < |acts| && key in bs[i].server.cache
    requires forall m {:trigger acts[m]} :: i <= m <= j ==>
               CacheUsedBefore(acts[m], bs[i].server.cache[key].expiresAt)
    requires acts[j].Arrive? && KeyOf(acts[j].r) == Some(key)
    ensures bs[j + 1] == bs[j].(told := bs[j].told
                                  + [Told(acts[j].id, acts[j].r, Replay(bs[i].server.cache[key].response, acts[j].r))])
  {
    for m := i to j
      invariant key in bs[m].server.cache && bs[m].server.cache[key] == bs[i].server.cache[key]
    {
      var a := acts[m];
      RowStays(bs[m], a, bs[m + 1], key);
    }
    var a := acts[j];
  }

  /** Once a request has finished and its response was the one cached, then whatever else is in flight, a
      request that arrives with its key within 24 hours gets the same status and body if its own body is
      the same, and 409 if not; it runs nothing and changes nothing. */
  lemma RetryAfterFinish(bs: seq<Busy>, acts: seq<Action>, i: nat, j: nat, key: Digest)
    requires IsTrace(bs, acts) && i < j < |acts| && Puts(bs[i], acts[i], key)
    requires forall m {:trigger acts[m]} :: i < m <= j ==> CacheUsedBefore(acts[m], acts[i].engineNow + 86_400_000_000)
    requires acts[j].Arrive? && KeyOf(acts[j].r) == Some(key)
    ensures var f, r := bs[i].flights[acts[i].id], acts[j].r;
            bs[j + 1].server == bs[j].server && bs[j + 1].flights == bs[j].flights
            && bs[j + 1].told == bs[j].told + [Told(acts[j].id, r,
                 if r.body == f.r.body then Response(f.reply.status, f.reply.body, Some(true))
                 else Response(409, Error("CONFLICT", "idempotency key reused with different body"), None))]
  {
    var a := acts[i];
    PutWrites(bs[i], a, bs[i + 1], key);
    AnsweredFromCache(bs, acts, i + 1, j, key);
  }

  lemma PutWrites(b: Busy, a: Action, b': Busy, key: Digest)
    requires Goes(b, a, b') && Puts(b, a, key)
    ensures key in b'.server.cache && b'.server.cache[key] == RowPut(b, a, key)
  {
  }

  /** A sweep can come at any moment, and forgets exactly the rows that have expired. */
  lemma SweepForgetsExactly(b: Busy, now: Time)
    ensures Enabled(b, Sweep(now))
    ensures var b' := Act(b, Sweep(now));
            b'.server.db == b.server.db && b'.server.events == b.server.events
            && b'.flights == b.flights && b'.told == b.told
            && forall key :: (key in b'.server.cache <==> key in b.server.cache && now < b.server.cache[key].expiresAt)
                             && (key in b'.server.cache ==> b'.server.cache[key] == b.server.cache[key])
  {
  }

  // ---------------------------------------------------------------- when an overlapping retry is harmless

  predicate AllLegsFree(db: Db, req: HoldRequest) {
    Complete(db, req) && !Conflicting(db, req)
  }

  /** Why a hold fails on these tables, if it does. */
  function HoldFault(db: Db, req: HoldRequest, env: Env): Option<HoldFailure> {
    if env.dbFails then Some(TransactionError)
    else if !Complete(db, req) then Some(IncompleteInventory)
    else if !AllLegsFree(db, req) then Some(SeatConflict)
    else if env.ref in db.holds then Some(TransactionError)
    else None
  }

  /** Why a confirm fails on these tables at this instant, if it does. */
  function ConfirmFault(db: Db, ref: HoldRef, now: Time): Option<ConfirmConflict> {
    if ref in db.holds && !Expired(db.holds[ref], now)
    then if Active(db.holds[ref]) then None else Some(HoldAlreadyConsumed)
    else Some(HoldExpiredOrMissing)
  }

  predicate ActiveIn(db: Db, ref: HoldRef) {
    ref in db.holds && Active(db.holds[ref])
  }

  /** The call and its repetition, on tables db and db', both come to nothing and in the same way. A cancel
      never does: it always publishes its event again. */
  predicate SameNothing(db: Db, db': Db, call: Call, now: Time, now': Time) {
    match call
    case PostConfirm(ref, _) =>
      ConfirmFault(db, ref, now).Some? && ConfirmFault(db', ref, now') == ConfirmFault(db, ref, now)
    case DeleteHold(ref) => !ActiveIn(db, ref) && !ActiveIn(db', ref)
    case GetSnapshot(trip) => Join(db', trip) == Join(db, trip)
    case _ => false
  }

  /** No engine call; or a hold with the same fault on both tables; or both transactions fail; or neither
      does and both come to nothing in the same way. */
  predicate HarmlessAt(db: Db, db': Db, call: Call, env: Env, env': Env) {
    Guard(call).Some? || call.Healthz?
    || if call.PostHold? then
         HoldFault(db, call.req, env).Some? && HoldFault(db', call.req, env') == HoldFault(db, call.req, env)
       else if env.dbFails || env'.dbFails then env.dbFails && env'.dbFails
       else SameNothing(db, db', call, env.now, env'.now)
  }

  lemma HoldHandled(db: Db, req: HoldRequest, env: Env)
    requires Guard(PostHold(req)).None?
    ensures var h, fault := Handle(db, PostHold(req), env), HoldFault(db, req, env);
            if fault.Some? then
              h.db == db && h.events == [] && h.reply.body == HoldResult(HoldFailed(fault.value, [req.seat]))
              && h.reply.status == HoldStatus(HoldFailed(fault.value, [req.seat]))
            else h.events != []
  {
    HoldRefusedExactlyWhen(db, req);
  }

  /** A call handled on tables db and again on tables db', whatever happened in between: the repetition
      adds nothing and gets the same reply if and only if it is harmless. */
  lemma RepeatHarmlessExactlyWhen(db: Db, db': Db, call: Call, env: Env, env': Env)
    ensures var h, h' := Handle(db, call, env), Handle(db', call, env');
            (h'.reply == h.reply && h'.db == db' && h'.events == []) <==> HarmlessAt(db, db', call, env, env')
  {
    if call.PostHold? && Guard(call).None? {
      HoldHandled(db, call.req, env);
      HoldHandled(db', call.req, env');
    }
  }

  /** In any interleaving, with anything between the two handlers: a request's retry that is past its
      look-up adds nothing, and gets the reply the request got, if and only if it is harmless on the
      tables that the two handlers find. */
  lemma OverlapHarmlessExactlyWhen(bs: seq<Busy>, acts: seq<Action>, i: nat, j: nat)
    requires IsTrace(bs, acts) && i < j < |acts| && acts[i].Run? && acts[j].Run?
    requires Enabled(bs[i], acts[i]) && Enabled(bs[j], acts[j])
    requires bs[j].flights[acts[j].id].r.call == bs[i].flights[acts[i].id].r.call
    ensures acts[i].id in bs[i + 1].flights && bs[i + 1].flights[acts[i].id].Replied?
    ensures acts[j].id in bs[j + 1].flights && bs[j + 1].flights[acts[j].id].Replied?
    ensures (bs[j + 1].server == bs[j].server
             && bs[j + 1].flights[acts[j].id].reply == bs[i + 1].flights[acts[i].id].reply)
            <==> HarmlessAt(bs[i].server.db, bs[j].server.db, bs[i].flights[acts[i].id].r.call,
                            acts[i].env, acts[j].env)
  {
    var a, a' := acts[i], acts[j];
    var call := bs[i].flights[a.id].r.call;
    RepeatHarmlessExactlyWhen(bs[i].server.db, bs[j].server.db, call, a.env, a'.env);
    RunAdds(bs[i], a, bs[i + 1]);
    RunAdds(bs[j], a', bs[j + 1]);
  }

  lemma RunAdds(b: Busy, a: Action, b': Busy)
    requires a.Run? && Goes(b, a, b')
    ensures var h := Handle(b.server.db, b.flights[a.id].r.call, a.env);
            a.id in b'.flights && b'.flights[a.id] == Replied(b.flights[a.id].r, b.flights[a.id].key, h.reply)
            && (b'.server == b.server <==> h.db == b.server.db && h.events == [])
  {
    var events := Handle(b.server.db, b.flights[a.id].r.call, a.env).events;
    assert |b.server.events + events| == |b.server.events| + |events|;
    if events == [] {
      assert b.server.events + events == b.server.events;
    }
  }

  predicate FreshRefs(db: Db, env: Env, env': Env) {
    env.ref !in db.holds && env'.ref !in db.holds && env.ref != env'.ref
  }

  /** For a hold: it is refused. For a confirm: it is refused at both instants for the same reason. For
      a release: there is nothing active to release. */
  predicate Repeatable(db: Db, call: Call, now: Time, now': Time) {
    match call
    case PostHold(req) => !AllLegsFree(db, req)
    case PostConfirm(ref, _) =>
      ConfirmFault(db, ref, now).Some? && ConfirmFault(db, ref, now') == ConfirmFault(db, ref, now)
    case DeleteHold(ref) => !ActiveIn(db, ref)
    case PostCancelSeats(_, _, _) => false
    case GetSnapshot(_) => true
    case Healthz => true
  }

  /** No engine call, or both transactions fail, or neither does and the call is repeatable. */
  predicate Harmless(db: Db, call: Call, env: Env, env': Env) {
    Guard(call).Some? || call.Healthz?
    || if env.dbFails || env'.dbFails then env.dbFails && env'.dbFails else Repeatable(db, call, env.now, env'.now)
  }

  /** When nothing comes between the two handlers, the tables that the first finds decide. */
  lemma BackToBackExactlyWhen(db: Db, call: Call, env: Env, env': Env)
    requires FreshRefs(db, env, env')
    ensures HarmlessAt(db, Handle(db, call, env).db, call, env, env') <==> Harmless(db, call, env, env')
    ensures var h := Handle(db, call, env);
            var h' := Handle(h.db, call, env');
            (h'.reply == h.reply && h'.db == h.db && h'.events == []) <==> Harmless(db, call, env, env')
  {
    RepeatHarmlessExactlyWhen(db, Handle(db, call, env).db, call, env, env');
    if call.PostHold? && Guard(call).None? {
      HoldHandled(db, call.req, env);
    }
  }

  /** The hold would be refused only because of rows that the active hold `ref` has. */
  predicate BlockedBy(db: Db, req: HoldRequest, ref: HoldRef) {
    Complete(db, req) && !AllLegsFree(db, req) && ActiveIn(db, ref)
    && forall leg :: leg in req.legs ==>
         var row := db.inventory[SeatLeg(req.trip, req.seat, leg)];
         !row.booked && (row.holdRef.None? || row.holdRef.value == ref)
  }

  lemma ReleaseUnblocks(db: Db, req: HoldRequest, ref: HoldRef)
    requires BlockedBy(db, req, ref)
    ensures AllLegsFree(ApplyRelease(db, ref).db, req) && ApplyRelease(db, ref).db.holds == db.holds - {ref}
  {
  }

  lemma RefusedThenHeld(db: Db, req: HoldRequest, ref: HoldRef, env: Env, env': Env)
    requires BlockedBy(db, req, ref) && FreshRefs(db, env, env') && !env.dbFails && !env'.dbFails
    requires Guard(PostHold(req)).None?
    ensures Handle(db, PostHold(req), env) == Handled(db, Taken(req), [])
    ensures var h' := Handle(ApplyRelease(db, ref).db, PostHold(req), env');
            h'.reply.status == CREATED && ActiveIn(h'.db, env'.ref)
  {
    HoldHandled(db, req, env);
    ReleaseUnblocks(db, req, ref);
    HoldSucceedsExactlyWhen(ApplyRelease(db, ref).db, req, env'.ref, HoldExpiry(req, env'));
  }

  /** What comes between matters. A hold is refused because of another hold, that one is released, and the
      retry takes the seats, although with nothing in between the retry would have been harmless. */
  lemma ReleaseBetweenBreaksRetry(b: Busy, id: nat, id': nat, ref: HoldRef, env: Env, env': Env)
    returns (b1: Busy, b2: Busy, b3: Busy)
    requires id != id' && Enabled(b, Run(id, env)) && Enabled(b, Run(id', env')) && !env.dbFails && !env'.dbFails
    requires b.flights[id'].r.call == b.flights[id].r.call && FreshRefs(b.server.db, env, env')
    requires b.flights[id].r.call.PostHold? && Guard(b.flights[id].r.call).None?
    requires BlockedBy(b.server.db, b.flights[id].r.call.req, ref)
    ensures Goes(b, Run(id, env), b1) && Goes(b1, Work(Release(ref)), b2) && Goes(b2, Run(id', env'), b3)
    ensures Harmless(b.server.db, b.flights[id].r.call, env, env')
    ensures id in b3.flights && b3.flights[id].Replied? && b3.flights[id].reply == Taken(b.flights[id].r.call.req)
    ensures id' in b3.flights && b3.flights[id'].Replied? && b3.flights[id'].reply.status == CREATED
    ensures ActiveIn(b3.server.db, env'.ref)
  {
    RefusedThenHeld(b.server.db, b.flights[id].r.call.req, ref, env, env');
    b1 := Act(b, Run(id, env));
    b2 := Act(b1, Work(Release(ref)));
    b3 := Act(b2, Run(id', env'));
  }

  // ---------------------------------------------------------------- a refusal cached over a success

  /** A hold and its retry overlap, and the retry, though it ran second, writes the cache first. */
  function RetryWritesFirst(id: nat, id': nat, r: ApiRequest, env: Env, at: Moments, env': Env, at': Moments)
    : seq<Action>
  {
    [Arrive(id, r, at.lookup), Arrive(id', r, at'.lookup)] + [Run(id, env), Run(id', env')]
    + [Finish(id', at'.engineWrite, at'.write), Finish(id, at.engineWrite, at.write)]
  }

  /** The hold could succeed, no row of its key is live when the two look it up and the retry writes, and
      the first request writes before the retry's row expires. */
  predicate Racing(b: Busy, r: ApiRequest, key: Digest, env: Env, at: Moments, env': Env, at': Moments) {
    && r.call.PostHold? && Guard(r.call).None? && KeyOf(r) == Some(key)
    && !env.dbFails && !env'.dbFails && FreshRefs(b.server.db, env, env') && AllLegsFree(b.server.db, r.call.req)
    && !Cache.Live(b.server.cache, key, at.lookup) && !Cache.Live(b.server.cache, key, at'.lookup)
    && !Cache.Live(b.server.cache, key, at'.write) && at.write < at'.engineWrite + Cache.IDEMPOTENCY_TTL
  }

  function HoldExpiry(req: HoldRequest, env: Env): Time {
    env.now + TtlSeconds(req, env) * SECOND
  }

  function Taken(req: HoldRequest): Reply {
    Reply(CONFLICT, HoldResult(HoldFailed(SeatConflict, [req.seat])))
  }

  /** The actions lead from b to b'. */
  ghost predicate Path(b: Busy, acts: seq<Action>, b': Busy) {
    exists bs :: IsTrace(bs, acts) && bs[0] == b && bs[|acts|] == b'
  }

  lemma PathOfTwo(b: Busy, a: Action, b1: Busy, a1: Action, b2: Busy)
    requires Goes(b, a, b1) && Goes(b1, a1, b2)
    ensures Path(b, [a, a1], b2)
  {
    assert IsTrace([b, b1, b2], [a, a1]);
  }

  lemma TraceJoin(bs: seq<Busy>, acts: seq<Action>, bs': seq<Busy>, acts': seq<Action>)
    requires IsTrace(bs, acts) && IsTrace(bs', acts') && bs[|acts|] == bs'[0]
    ensures IsTrace(bs + bs'[1..], acts + acts')
  {
    var all, steps := bs + bs'[1..], acts + acts';
    forall i {:trigger steps[i]} | 0 <= i < |steps| ensures Goes(all[i], steps[i], all[i + 1]) {
      if i < |acts| {
        var a := acts[i];
      } else {
        var a := acts'[i - |acts|];
      }
    }
  }

  lemma PathJoin(b: Busy, acts: seq<Action>, b': Busy, acts': seq<Action>, b'': Busy)
    requires Path(b, acts, b') && Path(b', acts', b'')
    ensures Path(b, acts + acts', b'')
  {
    var bs :| IsTrace(bs, acts) && bs[0] == b && bs[|acts|] == b';
    var bs' :| IsTrace(bs', acts') && bs'[0] == b' && bs'[|acts'|] == b'';
    TraceJoin(bs, acts, bs', acts');
    var all := bs + bs'[1..];
    assert all[0] == b && all[|acts + acts'|] == b'';
  }

  lemma BothArrive(b: Busy, id: nat, id': nat, r: ApiRequest, key: Digest, now: Time, now': Time)
    returns (b2: Busy)
    requires id != id' && id !in b.flights && id' !in b.flights && KeyOf(r) == Some(key)
    requires !Cache.Live(b.server.cache, key, now) && !Cache.Live(b.server.cache, key, now')
    ensures Path(b, [Arrive(id, r, now), Arrive(id', r, now')], b2)
    ensures b2.server == b.server && b2.told == b.told && id in b2.flights && id' in b2.flights
    ensures b2.flights[id] == b2.flights[id'] == Pending(r, Some(key))
  {
    var b1 := Act(b, Arrive(id, r, now));
    b2 := Act(b1, Arrive(id', r, now'));
    PathOfTwo(b, Arrive(id, r, now), b1, Arrive(id', r, now'), b2);
  }

  lemma HeldThenRefused(db: Db, req: HoldRequest, env: Env, env': Env)
    requires FreshRefs(db, env, env') && !env.dbFails && !env'.dbFails && Guard(PostHold(req)).None?
    requires AllLegsFree(db, req)
    ensures var h := Handle(db, PostHold(req), env);
            h.db == ApplyHold(db, req, env.ref, HoldExpiry(req, env)).db
            && h.reply == Reply(CREATED, HoldResult(HoldOk(env.ref, HoldExpiry(req, env))))
            && env.ref in h.db.holds && Active(h.db.holds[env.ref])
            && Handle(h.db, PostHold(req), env') == Handled(h.db, Taken(req), [])
  {
    HoldSucceedsExactlyWhen(db, req, env.ref, HoldExpiry(req, env));
    SecondHoldConflicts(db, req, env.ref, HoldExpiry(req, env), env'.ref, HoldExpiry(req, env'));
  }

  lemma BothRun(b: Busy, id: nat, id': nat, r: ApiRequest, key: Digest, env: Env, env': Env)
    returns (b2: Busy)
    requires id != id' && id in b.flights && id' in b.flights
    requires b.flights[id] == b.flights[id'] == Pending(r, Some(key))
    ensures Path(b, [Run(id, env), Run(id', env')], b2)
    ensures var h := Handle(b.server.db, r.call, env);
            var h' := Handle(h.db, r.call, env');
            b2.server.db == h'.db && b2.server.cache == b.server.cache && b2.told == b.told
            && id in b2.flights && b2.flights[id] == Replied(r, Some(key), h.reply)
            && id' in b2.flights && b2.flights[id'] == Replied(r, Some(key), h'.reply)
  {
    var b1 := Act(b, Run(id, env));
    b2 := Act(b1, Run(id', env'));
    PathOfTwo(b, Run(id, env), b1, Run(id', env'), b2);
  }

  lemma BothWritten(b: Busy, id: nat, id': nat, r: ApiRequest, key: Digest, first: Reply, second: Reply,
                    at: Moments, at': Moments)
    returns (b2: Busy)
    requires id != id' && id in b.flights && id' in b.flights
    requires b.flights[id] == Replied(r, Some(key), first) && b.flights[id'] == Replied(r, Some(key), second)
    requires Cacheable(first.status) && Cacheable(second.status) && !Cache.Live(b.server.cache, key, at'.write)
    requires at.write < at'.engineWrite + Cache.IDEMPOTENCY_TTL
    ensures Path(b, [Finish(id', at'.engineWrite, at'.write), Finish(id, at.engineWrite, at.write)], b2)
    ensures b2.server.db == b.server.db && key in b2.server.cache
    ensures b2.server.cache[key] == Cache.CacheRow(Entry(r, second), at'.engineWrite + Cache.IDEMPOTENCY_TTL)
    ensures b2.told == b.told + [Told(id', r, Response(second.status, second.body, Some(false))),
                                 Told(id, r, Response(first.status, first.body, Some(false)))]
  {
    var b1 := Act(b, Finish(id', at'.engineWrite, at'.write));
    b2 := Act(b1, Finish(id, at.engineWrite, at.write));
    PathOfTwo(b, Finish(id', at'.engineWrite, at'.write), b1, Finish(id, at.engineWrite, at.write), b2);
  }

  lemma RunThenWrite(b: Busy, id: nat, id': nat, r: ApiRequest, key: Digest,
                     env: Env, at: Moments, env': Env, at': Moments)
    returns (mid: Busy, b': Busy)
    requires id != id' && id in b.flights && id' in b.flights
    requires b.flights[id] == b.flights[id'] == Pending(r, Some(key))
    requires !Cache.Live(b.server.cache, key, at'.write) && at.write < at'.engineWrite + Cache.IDEMPOTENCY_TTL
    requires Cacheable(Handle(b.server.db, r.call, env).reply.status)
    requires Cacheable(Handle(Handle(b.server.db, r.call, env).db, r.call, env').reply.status)
    ensures Path(b, [Run(id, env), Run(id', env')], mid)
    ensures Path(mid, [Finish(id', at'.engineWrite, at'.write), Finish(id, at.engineWrite, at.write)], b')
    ensures Pinned(b, b', id, id', r, key, env, env', at')
  {
    mid := BothRun(b, id, id', r, key, env, env');
    b' := BothWritten(mid, id, id', r, key, mid.flights[id].reply, mid.flights[id'].reply, at, at');
  }

  /** Both requests have been answered, the tables are as the two handlers left them, and what is cached
      is the response of the retry. */
  predicate Pinned(b: Busy, b': Busy, id: nat, id': nat, r: ApiRequest, key: Digest,
                   env: Env, env': Env, at': Moments)
  {
    var h := Handle(b.server.db, r.call, env);
    var h' := Handle(h.db, r.call, env');
    b'.server.db == h'.db
    && b'.told == b.told + [Told(id', r, Response(h'.reply.status, h'.reply.body, Some(false))),
                            Told(id, r, Response(h.reply.status, h.reply.body, Some(false)))]
    && key in b'.server.cache
    && b'.server.cache[key] == Cache.CacheRow(Entry(r, h'.reply), at'.engineWrite + Cache.IDEMPOTENCY_TTL)
  }

  /** Whatever the call, if the retry finishes first then its response is the one that is cached. */
  lemma RetryWritesOver(b: Busy, id: nat, id': nat, r: ApiRequest, key: Digest,
                        env: Env, at: Moments, env': Env, at': Moments)
    returns (b': Busy)
    requires id != id' && id !in b.flights && id' !in b.flights && KeyOf(r) == Some(key)
    requires !Cache.Live(b.server.cache, key, at.lookup) && !Cache.Live(b.server.cache, key, at'.lookup)
    requires !Cache.Live(b.server.cache, key, at'.write) && at.write < at'.engineWrite + Cache.IDEMPOTENCY_TTL
    requires Cacheable(Handle(b.server.db, r.call, env).reply.status)
    requires Cacheable(Handle(Handle(b.server.db, r.call, env).db, r.call, env').reply.status)
    ensures Path(b, RetryWritesFirst(id, id', r, env, at, env', at'), b')
    ensures Pinned(b, b', id, id', r, key, env, env', at')
  {
    var b2 := BothArrive(b, id, id', r, key, at.lookup, at'.lookup);
    var b4;
    b4, b' := RunThenWrite(b2, id, id', r, key, env, at, env', at');
    var arrive, run := [Arrive(id, r, at.lookup), Arrive(id', r, at'.lookup)], [Run(id, env), Run(id', env')];
    PathJoin(b, arrive, b2, run, b4);
    PathJoin(b, arrive + run, b4, [Finish(id', at'.engineWrite, at'.write), Finish(id, at.engineWrite, at.write)], b');
  }

  /** The worst schedule: the first request is told 201 and its hold stands, but the retry's 409 is what
      is cached. It exists in every state where the hold could succeed and its key has no live row. */
  lemma ConflictCachedOverSuccess(b: Busy, id: nat, id': nat, r: ApiRequest, key: Digest,
                                  env: Env, at: Moments, env': Env, at': Moments)
    returns (b': Busy)
    requires Racing(b, r, key, env, at, env', at') && id != id' && id !in b.flights && id' !in b.flights
    ensures Path(b, RetryWritesFirst(id, id', r, env, at, env', at'), b')
    ensures b'.server.db == ApplyHold(b.server.db, r.call.req, env.ref, HoldExpiry(r.call.req, env)).db
            && env.ref in b'.server.db.holds && Active(b'.server.db.holds[env.ref])
    ensures b'.told == b.told
      + [Told(id', r, Response(CONFLICT, Taken(r.call.req).body, Some(false))),
         Told(id, r, Response(CREATED, HoldResult(HoldOk(env.ref, HoldExpiry(r.call.req, env))), Some(false)))]
    ensures key in b'.server.cache
            && b'.server.cache[key]
               == Cache.CacheRow(Entry(r, Taken(r.call.req)), at'.engineWrite + Cache.IDEMPOTENCY_TTL)
  {
    HeldThenRefused(b.server.db, r.call.req, env, env');
    b' := RetryWritesOver(b, id, id', r, key, env, at, env', at');
  }

  /** And every retry that arrives before that row expires is told 409 again, although the seats are held
      for the caller: in any continuation, with anything else in flight. */
  lemma ConflictReplayedOverSuccess(bs: seq<Busy>, acts: seq<Action>, j: nat, key: Digest, r: ApiRequest)
    requires IsTrace(bs, acts) && j < |acts| && r.call.PostHold?
    requires key in bs[0].server.cache && bs[0].server.cache[key].response == Entry(r, Taken(r.call.req))
    requires forall m {:trigger acts[m]} :: 0 <= m <= j ==>
               CacheUsedBefore(acts[m], bs[0].server.cache[key].expiresAt)
    requires acts[j].Arrive? && KeyOf(acts[j].r) == Some(key) && acts[j].r.body == r.body
    ensures bs[j + 1].server == bs[j].server
    ensures bs[j + 1].told
            == bs[j].told + [Told(acts[j].id, acts[j].r, Response(CONFLICT, Taken(r.call.req).body, Some(true)))]
  {
    AnsweredFromCache(bs, acts, 0, j, key);
  }

  // ---------------------------------------------------------------- what is never replayed

  /** A reply that would be cached does not report a failed transaction. */
  predicate Deterministic(reply: Reply) {
    Cacheable(reply.status) ==> !ReportsTransactionError(reply)
  }

  predicate AllDeterministic(b: Busy) {
    OnlyDeterministic(b.server.cache)
    && (forall id :: id in b.flights && b.flights[id].Replied? ==> Deterministic(b.flights[id].reply))
    && forall n {:trigger b.told[n]} :: 0 <= n < |b.told| && b.told[n].response.replayed == Some(true) ==>
         !ReportsTransactionError(Reply(b.told[n].response.status, b.told[n].response.body))
  }

  lemma StepStaysDeterministic(b: Busy, a: Action, b': Busy)
    requires Goes(b, a, b') && AllDeterministic(b)
    ensures AllDeterministic(b')
  {
    if a.Run? {
      InternalErrorExactlyWhen(b.server.db, b.flights[a.id].r.call, a.env);
    }
  }

  /** In any interleaving no replayed response reports a failed transaction. */
  lemma {:induction false} FailuresNeverReplayedInOverlap(bs: seq<Busy>, acts: seq<Action>, n: nat)
    requires IsTrace(bs, acts) && bs[0].server.cache == map[] && bs[0].flights == map[] && bs[0].told == []
    requires n < |bs[|acts|].told| && bs[|acts|].told[n].response.replayed == Some(true)
    ensures !ReportsTransactionError(Reply(bs[|acts|].told[n].response.status, bs[|acts|].told[n].response.body))
  {
    for m := 0 to |acts|
      invariant AllDeterministic(bs[m])
    {
      var a := acts[m];
      StepStaysDeterministic(bs[m], a, bs[m + 1]);
    }
  }
}
