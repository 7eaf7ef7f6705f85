/** The write and read endpoints: guards, the engine call, and the mapping of its answer to a status. */
module Routes {
  import opened Common
  import opened Tables
  import opened Atomic

  const OK: nat := 200
  const CREATED: nat := 201
  const BAD_REQUEST: nat := 400
  const CONFLICT: nat := 409
  const UNPROCESSABLE_ENTITY: nat := 422
  const INTERNAL_SERVER_ERROR: nat := 500

  /** A parsed request for one of the routes. */
  datatype Call =
    | PostHold(req: HoldRequest)
    | PostConfirm(ref: HoldRef, booking: string)
    | DeleteHold(ref: HoldRef)
    | PostCancelSeats(trip: Uuid, seat: string, legs: seq<int>)
    | GetSnapshot(trip: Uuid)
    | Healthz

  /** A JSON response body, before serialisation. */
  datatype Body =
    | HoldResult(answer: Answer)
    | Confirmed(ref: HoldRef, booking: string)
    | NotConfirmed(reason: ConfirmConflict)
    | Success(success: bool)
    | Inventory(rows: map<SeatLeg, Listed>)
    | Health
    | Error(code: string, message: string)

  datatype Reply = Reply(status: nat, body: Body)

  /** What a handler reads from outside: a fresh reference, the clock, the configured TTLs, and whether
      the database fails the transaction. */
  datatype Env = Env(ref: HoldRef, now: Time, ttlShort: int, ttlLong: int, dbFails: bool)

  predicate IsSpace(c: char) {
    var n := c as int;
    9 <= n <= 13 || n in {0x20, 0x85, 0xA0, 0x1680, 0x2028, 0x2029, 0x202F, 0x205F, 0x3000} || 0x2000 <= n <= 0x200A
  }

  /** seat_no.trim().is_empty() */
  predicate Blank(s: string) {
    forall i :: 0 <= i < |s| ==> IsSpace(s[i])
  }

  function HoldStatus(answer: Answer): nat {
    match answer
    case HoldFailed(IncompleteInventory, _) => UNPROCESSABLE_ENTITY
    case HoldFailed(SeatConflict, _) => CONFLICT
    case HoldFailed(TransactionError, _) => INTERNAL_SERVER_ERROR
    case _ => CREATED
  }

  datatype Handled = Handled(db: Db, reply: Reply, events: seq<Event>)

  /** The guard that answers without touching the engine. */
  function Guard(call: Call): Option<Reply> {
    if call.PostHold? && call.req.legs == [] then
      Some(Reply(BAD_REQUEST, Error("BAD_REQUEST", "leg_indexes must not be empty")))
    else if call.PostHold? && Blank(call.req.seat) then
      Some(Reply(BAD_REQUEST, Error("BAD_REQUEST", "seat_no required")))
    else None
  }

  function TtlSeconds(req: HoldRequest, env: Env): int {
    match req.ttlClass
    case Short => env.ttlShort
    case Long => env.ttlLong
  }

  /** The engine operation the route calls, if any. */
  function EngineCall(call: Call, env: Env): Option<Op> {
    match call
    case PostHold(req) => Some(HoldSeat(req, env.ref, env.now + TtlSeconds(req, env) * SECOND))
    case PostConfirm(ref, booking) => Some(Confirm(ref, booking, env.now))
    case DeleteHold(ref) => Some(Release(ref))
    case PostCancelSeats(trip, seat, legs) => Some(Cancel(trip, seat, legs))
    case GetSnapshot(trip) => Some(Snapshot(trip))
    case Healthz => None
  }

  function ReplyTo(call: Call, answer: Answer): Reply {
    match call
    case PostHold(_) => Reply(HoldStatus(answer), HoldResult(answer))
    case PostConfirm(ref, booking) =>
      if answer.ConfirmFailed? then Reply(CONFLICT, NotConfirmed(answer.conflict))
      else Reply(OK, Confirmed(ref, booking))
    case DeleteHold(_) => Reply(OK, Success(answer == Released(true)))
    case PostCancelSeats(_, _, _) => Reply(OK, Success(true))
    case GetSnapshot(_) => Reply(OK, Inventory(if answer.Rows? then answer.rows else map[]))
    case Healthz => Reply(OK, Health)
  }

  /** A failed transaction: the hold turns it into its own answer, the other routes into an error. */
  function FailedReply(call: Call): Reply {
    if call.PostHold? then ReplyTo(call, HoldFailed(TransactionError, [call.req.seat]))
    else Reply(INTERNAL_SERVER_ERROR, Error("INTERNAL", "database error"))
  }

  function Handle(db: Db, call: Call, env: Env): Handled {
    if Guard(call).Some? then Handled(db, Guard(call).value, [])
    else
      match EngineCall(call, env)
      case None => Handled(db, ReplyTo(call, Cancelled), [])
      case Some(op) =>
        if env.dbFails then Handled(db, FailedReply(call), [])
        else
          var o := Apply(db, op);
          Handled(o.db, ReplyTo(call, o.answer), o.events)
  }

  /** A reply that reports a failed transaction. */
  predicate ReportsTransactionError(r: Reply) {
    (r.body.HoldResult? && r.body.answer.HoldFailed? && r.body.answer.reason == TransactionError)
    || (r.body.Error? && r.body.code == "INTERNAL")
  }

  /** The transaction fails: the database says so, or a hold that passes the count and conflict checks
      draws a reference that is already in the table. */
  predicate TransactionFails(db: Db, call: Call, env: Env) {
    env.dbFails
    || (call.PostHold? && env.ref in db.holds
        && var keys := Matching(db.inventory, call.req.trip, call.req.seat, call.req.legs);
           HoldRefusal(Selected(db.inventory, keys), call.req.legs).None?)
  }

  /** The status is 500 exactly when no guard answers first, the route reaches the engine, and its
      transaction fails; the body says so in exactly these cases, and nothing has changed. */
  lemma InternalErrorExactlyWhen(db: Db, call: Call, env: Env)
    ensures Handle(db, call, env).reply.status == INTERNAL_SERVER_ERROR
            <==> Guard(call).None? && !call.Healthz? && TransactionFails(db, call, env)
    ensures Handle(db, call, env).reply.status == INTERNAL_SERVER_ERROR
            <==> ReportsTransactionError(Handle(db, call, env).reply)
    ensures ReportsTransactionError(Handle(db, call, env).reply)
            ==> Handle(db, call, env).db == db && Handle(db, call, env).events == []
  {
  }
}
