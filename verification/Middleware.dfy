/** The idempotency layer around the routes, and what a caller that retries may rely on. */
module Middleware {
  import opened Common
  import opened Tables
  import opened Atomic
  import opened KeyEncoding
  import opened Routes
  import Cache = IdempotencyCache
  import Engine

  function Ascii(s: string): Bytes {
    seq(|s|, i requires 0 <= i < |s| => (s[i] as int % 256) as Byte)
  }

  /** `header` is the raw Idempotency-Key header, `svcId` what the HMAC layer verified. */
  datatype ApiRequest = ApiRequest(
    svcId: Option<Bytes>,
    verb: Bytes,
    path: Bytes,
    header: Option<Bytes>,
    body: Bytes,
    call: Call)

  /** The instants at which one request reads a clock for the cache: the database's at the lookup,
      the engine's and the database's at the write. */
  datatype Moments = Moments(lookup: Time, engineWrite: Time, write: Time)

  /** `replayed` is the x-idempotent-replayed header. */
  datatype Response = Response(status: nat, body: Body, replayed: Option<bool>)

  datatype Server = Server(db: Db, events: seq<Event>, cache: Cache.Cache<Body>)

  predicate IsWrite(verb: Bytes) {
    verb in {Ascii("POST"), Ascii("PUT"), Ascii("PATCH"), Ascii("DELETE")}
  }

  predicate Visible(b: Byte) { b == 9 || 32 <= b < 127 }

  predicate Padding(b: Byte) { b == 9 || b == 32 }

  function TrimLeft(b: Bytes): Bytes {
    if b != [] && Padding(b[0]) then TrimLeft(b[1..]) else b
  }

  function TrimRight(b: Bytes): Bytes {
    if b != [] && Padding(b[|b| - 1]) then TrimRight(b[..|b| - 1]) else b
  }

  /** The trimmed header, if there is one and it is readable text and not blank. */
  function RawKey(header: Option<Bytes>): Option<Bytes> {
    match header
    case None => None
    case Some(b) =>
      if exists i :: 0 <= i < |b| && !Visible(b[i]) then None
      else
        var trimmed := TrimRight(TrimLeft(b));
        if trimmed == [] then None else Some(trimmed)
  }

  /** The cache key of a protected request; None if the layer lets it pass unprotected. */
  function KeyOf(r: ApiRequest): Option<Digest> {
    if !IsWrite(r.verb) then None
    else
      match RawKey(r.header)
      case None => None
      case Some(raw) =>
        Some(ScopedKey(if r.svcId.Some? then r.svcId.value else Ascii("anonymous"), r.verb, r.path, raw))
  }

  function BodyHash(r: ApiRequest): Digest { Sha256Hex(r.body) }

  predicate Cacheable(status: nat) {
    200 <= status < 300 || status == CONFLICT || status == UNPROCESSABLE_ENTITY
  }

  const KEY_REUSED: Response :=
    Response(CONFLICT, Error("CONFLICT", "idempotency key reused with different body"), None)

  function Entry(r: ApiRequest, reply: Reply): Cache.CachedResponse<Body> {
    Cache.CachedResponse(reply.status, reply.body, BodyHash(r))
  }

  /** Run the handler, cache a deterministic response, answer. */
  function Run(s: Server, r: ApiRequest, key: Digest, env: Env, at: Moments): (Server, Response) {
    var h := Handle(s.db, r.call, env);
    var cache := if Cacheable(h.reply.status)
                 then Cache.Stored(s.cache, key, Entry(r, h.reply), at.engineWrite, at.write)
                 else s.cache;
    (Server(h.db, s.events + h.events, cache), Response(h.reply.status, h.reply.body, Some(false)))
  }

  /** One request through the layer, start to end. */
  function Serve(s: Server, r: ApiRequest, env: Env, at: Moments): (Server, Response) {
    match KeyOf(r)
    case None =>
      var h := Handle(s.db, r.call, env);
      (Server(h.db, s.events + h.events, s.cache), Response(h.reply.status, h.reply.body, None))
    case Some(key) =>
      match Cache.Lookup(s.cache, key, at.lookup)
      case Some(cached) =>
        if cached.bodyHash != BodyHash(r) then (s, KEY_REUSED)
        else (s, Response(cached.status, cached.body, Some(true)))
      case None => Run(s, r, key, env, at)
  }

  // ---------------------------------------------------------------- which requests are protected, by which key

  /** The bytes of the four write methods. */
  const WRITE_VERBS: set<Bytes> :=
    {[80, 79, 83, 84], [80, 85, 84], [80, 65, 84, 67, 72], [68, 69, 76, 69, 84, 69]}

  lemma WritesExactly(verb: Bytes)
    ensures IsWrite(verb) <==> verb in WRITE_VERBS
  {
    assert Ascii("POST") == [80, 79, 83, 84] && Ascii("PUT") == [80, 85, 84];
    assert Ascii("PATCH") == [80, 65, 84, 67, 72] && Ascii("DELETE") == [68, 69, 76, 69, 84, 69];
  }

  /** A tab or a space. */
  predicate Blanks(b: Bytes) {
    forall i :: 0 <= i < |b| ==> b[i] == 9 || b[i] == 32
  }

  /** The header is `key` with blanks around it, and key neither starts nor ends with a blank. */
  predicate Trims(header: Bytes, left: Bytes, key: Bytes, right: Bytes) {
    header == left + key + right && Blanks(left) && Blanks(right)
    && (key != [] ==> key[0] !in {9, 32} && key[|key| - 1] !in {9, 32})
  }

  lemma {:induction false} TrimLeftOf(left: Bytes, rest: Bytes)
    requires Blanks(left) && (rest != [] ==> rest[0] !in {9, 32})
    ensures TrimLeft(left + rest) == rest
    decreases |left|
  {
    if left == [] {
      assert left + rest == rest;
    } else {
      assert (left + rest)[1..] == left[1..] + rest;
      TrimLeftOf(left[1..], rest);
    }
  }

  lemma {:induction false} TrimRightOf(rest: Bytes, right: Bytes)
    requires Blanks(right) && (rest != [] ==> rest[|rest| - 1] !in {9, 32})
    ensures TrimRight(rest + right) == rest
    decreases |right|
  {
    if right == [] {
      assert rest + right == rest;
    } else {
      assert (rest + right)[..|rest + right| - 1] == rest + right[..|right| - 1];
      TrimRightOf(rest, right[..|right| - 1]);
    }
  }

  lemma {:induction false} TrimmedAway(b: Bytes)
    requires Blanks(b)
    ensures TrimLeft(b) == []
  {
    assert b + [] == b;
    TrimLeftOf(b, []);
  }

  lemma TrimsTo(header: Bytes, left: Bytes, key: Bytes, right: Bytes)
    requires Trims(header, left, key, right)
    ensures TrimRight(TrimLeft(header)) == key
  {
    if key == [] {
      TrimmedAway(header);
    } else {
      assert header == left + (key + right);
      TrimLeftOf(left, key + right);
      TrimRightOf(key, right);
    }
  }

  /** Every header can be taken apart that way. */
  lemma {:induction false} TrimExists(header: Bytes) returns (left: Bytes, key: Bytes, right: Bytes)
    ensures Trims(header, left, key, right)
  {
    if header == [] {
      left, key, right := [], [], [];
    } else if header[0] in {9, 32} {
      left, key, right := TrimExists(header[1..]);
      left := [header[0]] + left;
      assert header == [header[0]] + header[1..];
    } else if header[|header| - 1] in {9, 32} {
      var last := |header| - 1;
      left, key, right := TrimExists(header[..last]);
      right := right + [header[last]];
      assert header == header[..last] + [header[last]];
    } else {
      left, key, right := [], header, [];
    }
  }

  /** Every byte of the header is visible ASCII, a space or a tab. */
  predicate Readable(header: Bytes) {
    forall i :: 0 <= i < |header| ==> header[i] == 9 || 32 <= header[i] <= 126
  }

  /** The service the HMAC layer verified, or "anonymous". */
  function Service(r: ApiRequest): Bytes {
    if r.svcId.Some? then r.svcId.value else [97, 110, 111, 110, 121, 109, 111, 117, 115]
  }

  /** A request is protected exactly when it is a POST, PUT, PATCH or DELETE and its key header is there,
      readable, and not only blanks; its cache key is made of the service, the method, the path and the
      trimmed header. */
  lemma KeyExactly(r: ApiRequest, left: Bytes, key: Bytes, right: Bytes)
    requires r.header.Some? ==> Trims(r.header.value, left, key, right)
    ensures KeyOf(r) == if r.verb in WRITE_VERBS && r.header.Some? && Readable(r.header.value) && key != []
                        then Some(ScopedKey(Service(r), r.verb, r.path, key)) else None
  {
    WritesExactly(r.verb);
    assert Ascii("anonymous") == [97, 110, 111, 110, 121, 109, 111, 117, 115];
    if r.header.Some? {
      TrimsTo(r.header.value, left, key, right);
    }
  }

  /** Two protected requests share a cache key exactly when service, method, path and trimmed key agree. */
  lemma SameKeyExactlyWhen(r: ApiRequest, left: Bytes, key: Bytes, right: Bytes,
                           r': ApiRequest, left': Bytes, key': Bytes, right': Bytes)
    requires r.header.Some? && Trims(r.header.value, left, key, right) && KeyOf(r).Some?
    requires r'.header.Some? && Trims(r'.header.value, left', key', right') && KeyOf(r').Some?
    requires Encodable([Service(r), r.verb, r.path, key]) && Encodable([Service(r'), r'.verb, r'.path, key'])
    ensures KeyOf(r) == KeyOf(r')
            <==> Service(r) == Service(r') && r.verb == r'.verb && r.path == r'.path && key == key'
  {
    KeyExactly(r, left, key, right);
    KeyExactly(r', left', key', right');
    var a, b := [Service(r), r.verb, r.path, key], [Service(r'), r'.verb, r'.path, key'];
    ScopedKeyInjective(a, b);
    assert a == b <==> a[0] == b[0] && a[1] == b[1] && a[2] == b[2] && a[3] == b[3];
  }

  // ---------------------------------------------------------------- as written

  class ApiServer {
    const engine: Engine.ReservationEngine
    const store: Cache.IdempotencyStore<Body>

    constructor (engine: Engine.ReservationEngine, store: Cache.IdempotencyStore<Body>)
      ensures this.engine == engine && this.store == store
    {
      this.engine := engine;
      this.store := store;
    }

    function State(): Server
      reads engine, store
    {
      Server(engine.State(), engine.events, store.rows)
    }

    method Respond(call: Call, env: Env) returns (reply: Reply)
      modifies engine`inventory, engine`holds, engine`events
      ensures var h := Handle(old(engine.State()), call, env);
              engine.State() == h.db && reply == h.reply && engine.events == old(engine.events) + h.events
    {
      if call.PostHold? {
        if call.req.legs == [] {
          return Reply(BAD_REQUEST, Error("BAD_REQUEST", "leg_indexes must not be empty"));
        }
        if Blank(call.req.seat) {
          return Reply(BAD_REQUEST, Error("BAD_REQUEST", "seat_no required"));
        }
      }
      if env.dbFails && !call.Healthz? {
        return FailedReply(call);
      }
      match call {
        case PostHold(req) =>
          var answer := engine.AtomicHold(req, TtlSeconds(req, env), env.ref, env.now);
          reply := Reply(HoldStatus(answer), HoldResult(answer));
        case PostConfirm(ref, booking) =>
          var answer := engine.ConfirmBooking(ref, booking, env.now);
          reply := if answer == ConfirmOk then Reply(OK, Confirmed(ref, booking))
                   else Reply(CONFLICT, NotConfirmed(answer.conflict));
        case DeleteHold(ref) =>
          var answer := engine.ReleaseHoldByRef(ref);
          reply := Reply(OK, Success(answer == Released(true)));
        case PostCancelSeats(trip, seat, legs) =>
          var answer := engine.CancelBookingSeats(trip, seat, legs);
          reply := Reply(OK, Success(answer == Cancelled));
        case GetSnapshot(trip) =>
          reply := Reply(OK, Inventory(Join(engine.State(), trip)));
        case Healthz =>
          reply := Reply(OK, Health);
      }
    }

    /** The body fits the 1 MiB cap and no cache query fails. */
    method Layer(r: ApiRequest, env: Env, at: Moments) returns (response: Response)
      modifies engine`inventory, engine`holds, engine`events, store
      ensures (State(), response) == Serve(old(State()), r, env, at)
    {
      if !IsWrite(r.verb) || RawKey(r.header) == None {
        var reply := Respond(r.call, env);
        return Response(reply.status, reply.body, None);
      }
      var svcId := if r.svcId.Some? then r.svcId.value else Ascii("anonymous");
      var key := ScopedIdempotencyKey(svcId, r.verb, r.path, RawKey(r.header).value);
      var bodyHash := Sha256Hex(r.body);
      var cached := store.Get(key, at.lookup);
      if cached.Some? {
        if cached.value.bodyHash != bodyHash {
          return KEY_REUSED;
        }
        return Response(cached.value.status, cached.value.body, Some(true));
      }
      var reply := Respond(r.call, env);
      if Cacheable(reply.status) {
        var value := Cache.CachedResponse(reply.status, reply.body, bodyHash);
        var written := store.Put(key, value, at.engineWrite, at.write);
      }
      response := Response(reply.status, reply.body, Some(false));
    }
  }

  // ---------------------------------------------------------------- runs of requests that do not overlap

  datatype Step =
    | Request(r: ApiRequest, env: Env, at: Moments)
    | Background(op: Op)        // the reaper and other engine work
    | SweepCache(now: Time)

  predicate CanStep(s: Server, step: Step) {
    step.Background? ==> Possible(s.db, step.op)
  }

  function After(s: Server, step: Step): Server
    requires CanStep(s, step)
  {
    match step
    case Request(r, env, at) => Serve(s, r, env, at).0
    case Background(op) => Server(Apply(s.db, op).db, s.events + Apply(s.db, op).events, s.cache)
    case SweepCache(now) => s.(cache := Cache.Swept(s.cache, now))
  }

  predicate IsServerRun(ss: seq<Server>, steps: seq<Step>) {
    |ss| == |steps| + 1
    && forall i {:trigger steps[i]} :: 0 <= i < |steps| ==>
         CanStep(ss[i], steps[i]) && ss[i + 1] == After(ss[i], steps[i])
  }

  /** The step's cache lookup, write or sweep happens before time t. */
  predicate CacheUsedBefore(step: Step, t: Time) {
    match step
    case Request(_, _, at) => at.lookup < t && at.write < t
    case Background(_) => true
    case SweepCache(now) => now < t
  }

  lemma RowSurvives(s: Server, step: Step, key: Digest)
    requires CanStep(s, step) && key in s.cache && CacheUsedBefore(step, s.cache[key].expiresAt)
    ensures key in After(s, step).cache && After(s, step).cache[key] == s.cache[key]
  {
  }

  /** From the moment a key has a cached response until that expires, every request with the key gets
      it, byte for byte, if the body is the same and 409 if not; and in either case the tables, the
      event log and the cache stay as they are. */
  lemma {:induction false} ReplayedUntilExpiry(ss: seq<Server>, steps: seq<Step>, i: nat, j: nat, key: Digest)
    requires IsServerRun(ss, steps) && i <= j < |steps|
    requires key in ss[i].cache
    requires forall m {:trigger steps[m]} :: i <= m <= j ==> CacheUsedBefore(steps[m], ss[i].cache[key].expiresAt)
    requires steps[j].Request? && KeyOf(steps[j].r) == Some(key)
    ensures var cached := ss[i].cache[key].response;
            var (s', response) := Serve(ss[j], steps[j].r, steps[j].env, steps[j].at);
            s' == ss[j] && ss[j + 1] == ss[j]
            && response == if cached.bodyHash == BodyHash(steps[j].r)
                           then Response(cached.status, cached.body, Some(true)) else KEY_REUSED
  {
    for m := i to j
      invariant key in ss[m].cache && ss[m].cache[key] == ss[i].cache[key]
    {
      var step := steps[m];
      RowSurvives(ss[m], step, key);
    }
    var step := steps[j];
  }

  /** A request that misses and gets a deterministic response leaves that response cached. */
  lemma FirstResponseIsCached(s: Server, r: ApiRequest, env: Env, at: Moments, key: Digest)
    requires KeyOf(r) == Some(key) && at.lookup <= at.write && !Cache.Live(s.cache, key, at.lookup)
    ensures var (s', response) := Serve(s, r, env, at);
            response.replayed == Some(false)
            && (Cacheable(response.status) ==>
                  key in s'.cache
                  && s'.cache[key] == Cache.CacheRow(Cache.CachedResponse(response.status, response.body, BodyHash(r)),
                                                     at.engineWrite + Cache.IDEMPOTENCY_TTL))
            && (!Cacheable(response.status) ==> s'.cache == s.cache)
  {
  }

  /** Retrying is safe: the retry of a request that got a 2xx, 409 or 422 gets the same status and body
      and changes nothing, as long as it comes before the cached response expires. */
  lemma RetrySafe(ss: seq<Server>, steps: seq<Step>, i: nat, j: nat, key: Digest)
    requires IsServerRun(ss, steps) && i < j < |steps|
    requires steps[i].Request? && steps[j].Request?
    requires KeyOf(steps[i].r) == Some(key) && KeyOf(steps[j].r) == Some(key) && steps[j].r.body == steps[i].r.body
    requires steps[i].at.lookup <= steps[i].at.write && !Cache.Live(ss[i].cache, key, steps[i].at.lookup)
    requires Cacheable(Serve(ss[i], steps[i].r, steps[i].env, steps[i].at).1.status)
    requires forall m {:trigger steps[m]} :: i < m <= j ==>
               CacheUsedBefore(steps[m], steps[i].at.engineWrite + Cache.IDEMPOTENCY_TTL)
    ensures var first := Serve(ss[i], steps[i].r, steps[i].env, steps[i].at).1;
            var retry := Serve(ss[j], steps[j].r, steps[j].env, steps[j].at).1;
            retry.status == first.status && retry.body == first.body && retry.replayed == Some(true)
            && ss[j + 1] == ss[j]
  {
    var step := steps[i];
    FirstResponseIsCached(ss[i], step.r, step.env, step.at, key);
    ReplayedUntilExpiry(ss, steps, i + 1, j, key);
  }

  /** And it is not mistaken for another request: the same key with any other body is told 409, and changes
      nothing, for as long as the first response is cached. */
  lemma OtherBodyRefused(ss: seq<Server>, steps: seq<Step>, i: nat, j: nat, key: Digest)
    requires IsServerRun(ss, steps) && i < j < |steps|
    requires steps[i].Request? && steps[j].Request?
    requires KeyOf(steps[i].r) == Some(key) && KeyOf(steps[j].r) == Some(key) && steps[j].r.body != steps[i].r.body
    requires steps[i].at.lookup <= steps[i].at.write && !Cache.Live(ss[i].cache, key, steps[i].at.lookup)
    requires Cacheable(Serve(ss[i], steps[i].r, steps[i].env, steps[i].at).1.status)
    requires forall m {:trigger steps[m]} :: i < m <= j ==>
               CacheUsedBefore(steps[m], steps[i].at.engineWrite + Cache.IDEMPOTENCY_TTL)
    ensures var other := Serve(ss[j], steps[j].r, steps[j].env, steps[j].at).1;
            other == Response(409, Error("CONFLICT", "idempotency key reused with different body"), None)
            && ss[j + 1] == ss[j]
  {
    var step := steps[i];
    FirstResponseIsCached(ss[i], step.r, step.env, step.at, key);
    ReplayedUntilExpiry(ss, steps, i + 1, j, key);
  }

  /** On a miss the response is cached exactly if its status is 2xx, 409 or 422, for 24 hours by the engine's
      clock, with the status, the body and the hash of the request's body. */
  lemma MissCachesExactly(s: Server, r: ApiRequest, env: Env, at: Moments, key: Digest)
    requires KeyOf(r) == Some(key) && !Cache.Live(s.cache, key, at.lookup) && !Cache.Live(s.cache, key, at.write)
    ensures var h := Handle(s.db, r.call, env);
            var (s', response) := Serve(s, r, env, at);
            response == Response(h.reply.status, h.reply.body, Some(false))
            && s'.db == h.db && s'.events == s.events + h.events
            && s'.cache == if 200 <= h.reply.status <= 299 || h.reply.status in {409, 422}
                           then s.cache[key := Cache.CacheRow(
                                                 Cache.CachedResponse(h.reply.status, h.reply.body, Sha256Hex(r.body)),
                                                 at.engineWrite + 86_400_000_000)]
                           else s.cache
  {
  }

  /** An unprotected request goes straight to its handler and leaves the cache alone. */
  lemma UnprotectedPasses(s: Server, r: ApiRequest, env: Env, at: Moments)
    requires KeyOf(r) == None
    ensures var h := Handle(s.db, r.call, env);
            Serve(s, r, env, at)
            == (Server(h.db, s.events + h.events, s.cache), Response(h.reply.status, h.reply.body, None))
  {
  }

  // ---------------------------------------------------------------- what is never replayed

  predicate OnlyDeterministic(cache: Cache.Cache<Body>) {
    forall key :: key in cache ==>
      Cacheable(cache[key].response.status)
      && !ReportsTransactionError(Reply(cache[key].response.status, cache[key].response.body))
  }

  lemma StepKeepsDeterministic(s: Server, step: Step)
    requires CanStep(s, step) && OnlyDeterministic(s.cache)
    ensures OnlyDeterministic(After(s, step).cache)
  {
    if step.Request? {
      InternalErrorExactlyWhen(s.db, step.r.call, step.env);
    }
  }

  /** A 500, in particular a hold's TransactionError, is never what is replayed. */
  lemma {:induction false} FailuresNeverReplayed(ss: seq<Server>, steps: seq<Step>, j: nat)
    requires IsServerRun(ss, steps) && ss[0].cache == map[] && j < |steps| && steps[j].Request?
    ensures var response := Serve(ss[j], steps[j].r, steps[j].env, steps[j].at).1;
            response.replayed == Some(true) ==>
              Cacheable(response.status) && !ReportsTransactionError(Reply(response.status, response.body))
  {
    for m := 0 to j
      invariant OnlyDeterministic(ss[m].cache)
    {
      var step := steps[m];
      StepKeepsDeterministic(ss[m], step);
    }
    var step := steps[j];
  }

  // ---------------------------------------------------------------- the same hold twice

  /** Once a hold has succeeded, the same hold under another reference is told SEAT_CONFLICT. */
  lemma SecondHoldConflicts(db: Db, req: HoldRequest, ref: HoldRef, expiresAt: Time, ref': HoldRef, expiresAt': Time)
    requires req.legs != [] && ApplyHold(db, req, ref, expiresAt).answer.HoldOk?
    ensures var db' := ApplyHold(db, req, ref, expiresAt).db;
            ApplyHold(db', req, ref', expiresAt') == Outcome(db', HoldFailed(SeatConflict, [req.seat]), [])
  {
    var keys := Matching(db.inventory, req.trip, req.seat, req.legs);
    var db' := ApplyHold(db, req, ref, expiresAt).db;
    HoldSucceedsExactlyWhen(db, req, ref, expiresAt);
    var k := SeatLeg(req.trip, req.seat, req.legs[0]);
    assert Matching(db'.inventory, req.trip, req.seat, req.legs) == keys;
    var rows, rows' := Selected(db.inventory, keys), Selected(db'.inventory, keys);
    assert rows.Keys == keys && rows'.Keys == keys;
    assert |rows| == |keys| == |rows'|;
    assert k in rows' && !Free(rows'[k]);
  }
}
