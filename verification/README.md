# Reservation engine: a verified model

A Dafny model of the TransityTerminal reservation engine: seat holds with a time-to-live, their
confirmation, release, cancellation and reaping over two tables, the idempotency cache in front of the
write endpoints, and the seat-map snapshot. `dafny verify dfyconfig.toml` checks all of it.

The model has four layers.

1. **Atomic operations** (`Tables`, `Atomic`, `Runs`, `Undo`, `Ownership`, `Retention`, `Reaper`). Each
   engine operation is one function from the two tables to new tables, an answer and the events
   published. A run is any sequence of operations. An operation carries the values it takes from
   outside: the fresh hold reference, the expiry, the start time of its transaction, and the rows the
   database chose where SQL leaves the choice open (`LIMIT 500 ... SKIP LOCKED`). Nothing assumes that
   start times grow along a run, except where a lemma says so.
2. **Interleaved transactions** (`Concurrent`, `Interleavings`, `Deadlock`, `Retirers`, `Crossing`,
   `Completion`). Every transaction is a
   program that takes statement snapshots, waits for row locks one at a time, re-checks each row against
   its WHERE clause under the lock, buffers its writes and commits, rolls back or is aborted. Any number
   are in flight. Publishing is a separate step after the commit.
3. **The code as written** (`Ordering`, `Snapshots`, `Engine`). Classes and methods with the source's
   statements, early returns and loops, each proved equal to its atomic operation.
4. **The HTTP side** (`KeyEncoding`, `IdempotencyCache`, `Routes`, `Endpoints`, `Middleware`, `Overlaps`).
   The cache-key encoding, the cached-response table, the routes and what each of them answers, stores and
   publishes in terms of the fields of the tables, the layer that wraps them, and any number of requests
   inside that layer at once, each between its look-up, its handler and its cache write.

Four properties one might expect do not hold of the code as it stands. Each has a lemma with a concrete
or general witness, and one that says exactly when the property does hold:

- A hold does not always own all its legs. `cancel_booking_seats` clears any row it names, held ones
  included, after which a confirm succeeds without booking that leg, while its event lists the leg
  (`PartialCancelLosesALeg`). Exact ownership survives a step if and only if the step is not a cancel
  naming a held row (`ExactOwnershipStep`).
- The retention purge can show. A confirm of a purged hold whose transaction began before the hold's
  expiry, hence more than the retention period before the purge, is told HOLD_EXPIRED_OR_MISSING and not
  HOLD_ALREADY_CONSUMED (`LateConfirmNoticesPurge`). This is the only case (`PurgeInvisible`).
- Locks on inventory rows can deadlock. Only holds take them in a stated order. Two transactions of any kinds can get to wait
  for each other, before anything commits, if and only if at least two rows are wanted by both, one of them
  is a hold or a cancel, and they are not both holds (`DeadlockExactlyWhen`): for example a hold and a
  confirm, when the hold being confirmed is on two of the rows. Commits or not, no cycle of waits, of any
  length, is made of holds alone (`NoWaitCycle`) or of confirms, releases and reapers alone
  (`RetirersNoWaitCycle`), and when only holds are in flight they all finish.
- The idempotency layer does not protect requests that overlap. What is cached is the response of the first
  to finish (`CachedIsFirstToFinish`). A retry that gets past the look-up is harmless if and only if the
  call comes to nothing, in the same way, on the tables that its handler finds and on those that the first
  one's found (`OverlapHarmlessExactlyWhen`); what ran in between matters (`ReleaseBetweenBreaksRetry`). At
  worst the hold succeeds, its retry's 409 is cached, and every later retry is told 409 until that
  response expires (`ConflictCachedOverSuccess`, `ConflictReplayedOverSuccess`).

Where the documentation and the code differ, the code is followed: the reaper publishes only
`holds.released` (engine/crates/engine-core/src/reaper.rs:51-55), although
engine/docs/TRANSITY_TERMINAL_INTEGRATION.md:440 promises `inventory.updated` too; releasing an unknown
hold answers 200 with `success: false`, not 404 (line 222 there); there are no
`engine.holds.confirmed` and `engine.bookings.cancelled` channels (lines 442-443 there); the cache key is
the scoped digest, not the raw header as engine/migrations/0002_idempotency_cache.sql:9 says.

Assumptions: hold references are never drawn twice (UUID v4); the engine and the database read one clock;
SHA-256 does not collide; the set of inventory rows is fixed during a run, with any initial bookings.

## Model

| member | source | states |
|---|---|---|
| Tables.RowCountCheck | engine/crates/engine-core/src/hold.rs:106-110 | the number of matched rows equals the length of the leg list exactly when no leg repeats and none is missing, thanks to the unique index |
| Atomic.HoldSucceedsExactlyWhen | engine/crates/engine-core/src/hold.rs:84-157 | with a fresh reference a hold succeeds if and only if its legs are distinct, exist and are free; an expired but unreaped hold still blocks |
| Runs.InvStep | engine/docs/TRANSITY_TERMINAL_INTEGRATION.md:20 | every operation keeps: no orphaned row, holds carry drawn references, a hold's legs are distinct existing rows; no row appears or disappears |
| Runs.ReachableNoOrphans | engine/docs/TRANSITY_TERMINAL_INTEGRATION.md:20 | in every reachable state a held row is unbooked and points at an existing active hold of the same trip and seat whose legs include it |
| Runs.NoDoubleBooking | engine/crates/engine-core/src/confirm.rs:57-74 | two successful confirms that book the same row have a cancel naming that row between them |
| Runs.NoDoubleHold | engine/crates/engine-core/src/hold.rs:112-136 | two successful holds that take the same row have a release, reap or cancel that freed it between them |
| Runs.RetiredAtMostOnce | engine/crates/engine-core/src/release.rs:6-16 | over any run a hold is confirmed, released or reaped at most once in all |
| Runs.AuditRowPermanent | engine/crates/engine-core/src/reaper.rs:66-81 | a consumed hold's row never changes and only disappears by a purge with positive retention, later than its expiry plus the retention |
| Runs.ConsumedStaysConsumed | engine/crates/engine-core/src/confirm.rs:39-45 | after a confirm every later confirm or release of the reference fails and no reap includes it, purged or not |
| Runs.ChangeIsAnnounced | engine/crates/engine-core/src/events.rs:31-48 | a step that changes a row publishes an event naming it, by leg, or by seat for the reaper |
| Runs.EventCoverage | engine/crates/engine-core/src/events.rs:97-110 | if a row differs between two points of a run, a step between them published an event naming it |
| Undo.ReleaseUndoesHold | engine/crates/engine-core/src/release.rs:55-63 | releasing a hold restores both tables exactly |
| Undo.ReapUndoesHold | engine/crates/engine-core/src/reaper.rs:123-137 | reaping an expired hold restores both tables exactly |
| Undo.CancelUndoesBooking | engine/crates/engine-core/src/cancel.rs:18-31 | hold, confirm, cancel restores the inventory and leaves the consumed row as audit trail |
| Undo.CancelFreesRows | engine/crates/engine-core/src/cancel.rs:18-31 | cancel frees exactly the named rows; a new hold of them succeeds if and only if they are distinct and exist |
| Undo.ConfirmableOrReapable | engine/crates/engine-core/src/reaper.rs:97-98 | at every instant an active hold can be either confirmed or reaped, never both |
| Undo.SilentExactlyWhen | engine/crates/engine-core/src/release.rs:45-49 | refused operations change nothing, and an operation is silent exactly when refused, a purge, a read or an empty reap, which changes nothing |
| Ownership.OwnedWithinLegs | engine/crates/engine-core/src/hold.rs:121-154 | in every run an active hold owns a subset of its legs |
| Ownership.ExactOwnershipStep | engine/crates/engine-core/src/cancel.rs:20-24 | exact ownership survives a step if and only if the step is not a cancel naming a held row |
| Ownership.ExactOwnershipAlong | engine/crates/engine-core/src/cancel.rs:20-24 | exact ownership holds all along a run if and only if no cancel in it names a held row |
| Ownership.HeldRowsCount | engine/crates/engine-core/src/hold.rs:121-154 | held rows never outnumber the legs of the active holds, and equal them if and only if ownership is exact |
| Ownership.SeatsConserved | engine/crates/engine-core/src/types.rs:250-256 | free, held and booked rows add up to the same total at every point of a run |
| Ownership.ConfirmMovesOwnedRows | engine/crates/engine-core/src/confirm.rs:57-67 | a confirm turns exactly the rows its hold owns into booked rows |
| Ownership.ConfirmBooksEveryLeg | engine/crates/engine-core/src/confirm.rs:51-74 | every leg ends up booked if and only if each was owned or already booked; always under exact ownership |
| Ownership.PartialCancelLosesALeg | engine/crates/engine-core/src/cancel.rs:20-24 | a concrete hold, partial cancel and confirm that succeeds with one leg left free |
| Retention.StepUnaffected | engine/crates/engine-core/src/confirm.rs:19-37 | whether or not old consumed rows were purged an operation writes and publishes the same, and answers the same unless it confirms a purged hold and began before its expiry |
| Retention.PurgeInvisible | engine/crates/engine-core/src/reaper.rs:66-89 | deleting the purges from a run never changes the final inventory, and leaves all other answers, snapshots and events as they were if and only if no confirm names a purged hold and began before it expired |
| Retention.TimelyIsUnnoticed | engine/crates/engine-core/src/reaper.rs:70-81 | that is so whenever no confirm after a purge began more than the retention period before it |
| Retention.LateConfirmNoticesPurge | engine/crates/engine-core/src/confirm.rs:19-45 | a concrete run from seeded tables in which a second confirm is told HOLD_EXPIRED_OR_MISSING after a purge and would have been told HOLD_ALREADY_CONSUMED without it |
| Reaper.BatchEqualsSingles | engine/crates/engine-core/src/reaper.rs:112-137 | one batch leaves the same two tables as single releases of its references in any order |
| Reaper.DrainProgress | engine/crates/engine-core/src/reaper.rs:93-141 | with no new expiries each run removes 500 from the backlog until it is empty, and what left it holds no row |
| Reaper.DrainBound | engine/crates/engine-core/src/reaper.rs:17 | ceil(n/500) runs empty a backlog of n and free all its rows, and no fewer do |
| Reaper.DrainsAmidOthers | engine/crates/engine-core/src/reaper.rs:93-141 | whatever else runs, while no hold newly becomes reapable each full batch takes 500 off the backlog at least, or all that is left, and what has left it by any operation holds no row |
| Reaper.DrainedAmidOthers | engine/crates/engine-core/src/reaper.rs:17 | ceil(n/500) full batches, with any operations in between, empty a backlog of n and free all its rows |
| Reaper.BacklogBounded | engine/crates/engine-server/src/reaper_task.rs:15-32 | with at most 500 new expiries between runs the backlog never exceeds the larger of its start and 500 |
| Concurrent.CommitRefines | engine/crates/engine-core/src/hold.rs:84-157 | a commit, computed from what the transaction read under lock on its way, is its atomic operation on the tables at the commit |
| Concurrent.RollbackRefines | engine/crates/engine-core/src/confirm.rs:32-45 | a refused transaction is told what its atomic operation answers at that moment |
| Concurrent.CommitLeavesOthers | engine/crates/engine-core/src/reaper.rs:93-141 | a commit invalidates nothing another transaction has read under lock and gives it no new matching row |
| Concurrent.StepRefines | engine/crates/engine-core/src/release.rs:30-65 | every step keeps the system invariant; an ending acts atomically, every other step leaves tables and log alone |
| Interleavings.Refinement | engine/crates/engine-core/src/hold.rs:84-157 | any interleaving is a serial run of atomic operations in the order the transactions ended; aborted and unfinished ones leave no trace |
| Interleavings.EntryServesItsRequest | engine/crates/engine-core/src/confirm.rs:16-26 | the logged operation serves the request its transaction began with, at its own start time, and takes effect between its begin and its end |
| Interleavings.NoOrphansConcurrently | engine/docs/TRANSITY_TERMINAL_INTEGRATION.md:20 | no interleaving orphans a row |
| Interleavings.RetiredOnceConcurrently | engine/crates/engine-core/src/reaper.rs:93-137 | in any interleaving successful confirms, releases and reaps of one hold total at most one |
| Interleavings.NoDoubleBookingConcurrently | engine/crates/engine-core/src/confirm.rs:51-67 | in any interleaving two bookings, or two holds, of one row have a step between them that freed it |
| Interleavings.HoldRace | engine/crates/engine-core/tests/parity.rs:212-239 | of any number of racing holds of one free leg the first to end wins and all others get SEAT_CONFLICT |
| Interleavings.PublishedInOrder | engine/crates/engine-core/src/events.rs:97-110 | subscribers see a prefix of each transaction's events, in order, none twice |
| Interleavings.ReleasePairInOrder | engine/crates/engine-core/src/release.rs:67-68 | inventory.updated precedes holds.released for every release |
| Interleavings.ChangesReachSubscribers | engine/crates/engine-core/src/events.rs:97-110 | in any interleaving, once all events are published, each row that changed since the start has an event naming it |
| Deadlock.ReachableOrderly | engine/crates/engine-core/src/hold.rs:86-104 | in any mix of transactions a hold has only locked legs below those it has yet to lock |
| Deadlock.NoWaitCycle | engine/crates/engine-core/src/hold.rs:87-88 | in any mix of transactions no cycle of waits, of any length, is made of holds alone |
| Deadlock.HoldsNeverDeadlock | engine/crates/engine-core/src/hold.rs:87-88 | with only holds in flight some unfinished hold can always step |
| Deadlock.StepUsesWork | engine/crates/engine-core/src/hold.rs:84-157 | every step of a hold lowers a global measure |
| Deadlock.HoldsTerminate | engine/crates/engine-core/src/hold.rs:84-157 | whatever the scheduler does, aborts and publishing included, holds take at most as many turns as that measure says, and each one gone was aborted or answered once |
| Deadlock.MaximalSchedulesEndAll | engine/crates/engine-core/src/hold.rs:84-157 | a schedule of holds that stops only when none can step has ended them all, each with an answer unless aborted |
| Deadlock.HoldsComplete | engine/crates/engine-core/src/hold.rs:84-157 | from any state with only holds in flight a schedule without aborts ends every one of them with an answer |
| Crossing.CrossedUntilAborted | engine/crates/engine-core/src/cancel.rs:16-33 | two transactions that each lack a row the other has locked stay so, whatever else happens, until one of them is aborted |
| Crossing.BlockedBlockerNamesTwo | engine/crates/engine-core/src/cancel.rs:18-31 | in any reachable mix, a hold or cancel that waits while another transaction waits for it names at least two existing rows |
| Crossing.CrossedHaveTwoInCommon | engine/crates/engine-core/src/hold.rs:86-104 | in any reachable mix, a crossed pair of holds or cancels shares at least two existing rows and is not two holds |
| Crossing.DeadlockExactlyWhen | engine/crates/engine-core/src/confirm.rs:51-67 | from any tables two transactions of any kinds can reach a deadlock on rows before anything commits if and only if both want at least two rows (named by a hold or cancel, carrying an active reference for confirm and release, held by any expired active hold for the reaper), one names its rows, and they are not both holds |
| Crossing.NamersDeadlockExactlyWhen | engine/crates/engine-core/src/cancel.rs:18-31 | two holds or cancels can deadlock, amid any other transactions and commits, if and only if they name at least two existing rows in common and are not both holds |
| Crossing.CancelsDeadlockExactlyWhen | engine/crates/engine-core/src/cancel.rs:18-31 | two cancels can deadlock, amid anything, if and only if at least two rows match both of their WHERE clauses |
| Retirers.RetirersNoWaitCycle | engine/crates/engine-core/src/reaper.rs:93-137 | in any reachable state of any mix, commits included, no cycle of waits for rows, of any length, is made of confirms, releases and reapers alone |
| Completion.EveryRequestCompletes | engine/crates/engine-core/src/hold.rs:74-158 | whenever nothing is in flight any request is served without an abort: its operation takes effect and is logged; a reaper takes every expired active hold up to 500 and a purge every consumed hold past its retention |
| Completion.EveryScheduleRuns | engine/crates/engine-core/src/hold.rs:74-158 | any list of requests with any start times is served in that order by some interleaving, so the serial runs behind interleavings leave none out |
| Completion.AllInFlight | engine/crates/engine-core/src/hold.rs:74-158 | any list of requests can all be in flight at once, whatever else is |
| Completion.PassesOverOnlyLocked | engine/crates/engine-core/src/reaper.rs:93-105 | a hold that stays expired, active and not locked by others from the reaper's SELECT on ends up in its batch, unless that is full |
| Completion.EverythingCanBePublished | engine/crates/engine-core/src/events.rs:97-110 | from any state, publishing alone gets out every event of the finished transactions |
| Engine.ReservationEngine.SelectRows | engine/crates/engine-core/src/hold.rs:89-104 | returns each matching row once, with ascending legs |
| Engine.ReservationEngine.RunHoldTxn | engine/crates/engine-core/src/hold.rs:74-158 | count check, conflict loop and two-table write are the atomic hold; a failure leaves no trace |
| Engine.ReservationEngine.AtomicHold | engine/crates/engine-core/src/hold.rs:24-71 | tables, answer and events are those of the atomic hold expiring a TTL after the clock reading |
| Engine.ReservationEngine.ConfirmBooking | engine/crates/engine-core/src/confirm.rs:10-85 | tables, answer and events are those of the atomic confirm |
| Engine.ReservationEngine.ReleaseHoldByRef | engine/crates/engine-core/src/release.rs:25-71 | tables, answer and the ordered event pair are those of the atomic release |
| Engine.ReservationEngine.EmitReleasePair | engine/crates/engine-core/src/events.rs:99-110 | publishes inventory.updated and then holds.released |
| Engine.ReservationEngine.CancelBookingSeats | engine/crates/engine-core/src/cancel.rs:9-40 | tables, answer and event are those of the atomic cancel |
| Engine.ReservationEngine.SelectExpired | engine/crates/engine-core/src/reaper.rs:93-105 | returns distinct expired active holds that no other session has locked, 500 of them or all if there are fewer |
| Engine.ReservationEngine.RunReaper | engine/crates/engine-core/src/reaper.rs:62-141 | purges all rows past retention, then reaps as many unlocked holds as the limit allows; the collected list describes them in order |
| Engine.ReservationEngine.ExpireHolds | engine/crates/engine-core/src/reaper.rs:23-60 | does nothing while the advisory lock is taken; otherwise runs the reaper, publishes holds.released per hold, gives the lock back |
| Engine.ReservationEngine.GetInventorySnapshot | engine/crates/engine-core/src/snapshot.rs:11-66 | returns the snapshot of the joined rows |
| Engine.PurgeDeletesExactly | engine/crates/engine-core/src/reaper.rs:66-81 | the purge deletes a hold if and only if the retention is positive, the hold is consumed and it expired more than the retention before; it touches nothing else |
| Engine.BatchTakesExactly | engine/crates/engine-core/src/reaper.rs:93-105 | the batch holds only expired unbooked holds nobody has locked, at most 500, and leaves one behind only when it is full |
| Engine.ReaperRunLeaves | engine/crates/engine-core/src/reaper.rs:62-141 | field by field, the two tables after a whole reaper run: what is gone, which rows are freed, and that the rest is as it was |
| Engine.ReapPublishes | engine/crates/engine-core/src/reaper.rs:51-58 | one holds.released for each reaped hold, in order, with its trip and seat, and the count |
| Ordering.OrderRows | engine/crates/engine-core/src/snapshot.rs:25 | puts the rows of a trip in order by seat and leg, each once |
| Ordering.BeforeExactlyWhen | engine/crates/engine-core/src/snapshot.rs:32 | one seat name comes before another if and only if at their first difference it has the smaller code point or has ended |
| Snapshots.GroupBySeat | engine/crates/engine-core/src/snapshot.rs:32-58 | the grouping loop puts every row's leg state under its seat, legs ascending, for any seat collation |
| Snapshots.IntoSeats | engine/crates/engine-core/src/snapshot.rs:60-63 | lists every seat once in strict order |
| Snapshots.BuildSnapshot | engine/crates/engine-core/src/snapshot.rs:15-65 | yields ordered non-empty seats whose legs are exactly the rows, classified and ascending |
| Snapshots.EveryRowExactlyOnce | engine/crates/engine-core/src/snapshot.rs:15-65 | the places listed are exactly the inventory rows of the trip and none is listed twice |
| Snapshots.SnapshotUnique | engine/crates/engine-core/src/snapshot.rs:32-63 | the joined rows determine the snapshot, whatever order they arrive in |
| Snapshots.HoldAgreesWithSnapshot | engine/crates/engine-core/src/hold.rs:89-119 | a hold succeeds if and only if its legs are distinct and the snapshot lists each of them Free |
| Snapshots.ExpiryExactlyWhenHeld | engine/crates/engine-core/src/snapshot.rs:41-57 | in reachable states a leg carries an expiry if and only if it is Held, and it is that of the live hold on it |
| Snapshots.ListedAsTheRowIs | engine/crates/engine-core/src/snapshot.rs:41-57 | each leg is listed Booked iff its row is booked, Held iff it is unbooked and carries a hold, Free otherwise; a Held leg alone shows an expiry, that of its hold |
| Snapshots.HeldShowsItsHold | engine/crates/engine-core/src/snapshot.rs:18-24 | in reachable states every Held leg shows the expiry of the hold on its row |
| KeyEncoding.BigEndianRoundTrip | engine/crates/engine-server/src/middleware/idempotency.rs:266 | an 8-byte big-endian length reads back as itself |
| KeyEncoding.DecodeEncode | engine/crates/engine-server/src/middleware/idempotency.rs:263-271 | the hashed bytes decode back to the parts, whatever bytes they contain |
| KeyEncoding.ScopedKeyInjective | engine/crates/engine-server/src/middleware/idempotency.rs:251-271 | two requests share a cache key if and only if service, method, path and raw key agree |
| KeyEncoding.PartExactly | engine/crates/engine-server/src/middleware/idempotency.rs:263-271 | each part is its length in eight bytes, most significant first, then its bytes, then a bar |
| KeyEncoding.ScopedIdempotencyKey | engine/crates/engine-server/src/middleware/idempotency.rs:263-271 | the hasher loop feeds exactly the encoding of the four parts |
| IdempotencyCache.IdempotencyStore.Get | engine/crates/engine-server/src/middleware/idempotency.rs:62-88 | returns the row's response if it is there and unexpired |
| IdempotencyCache.IdempotencyStore.Put | engine/crates/engine-server/src/middleware/idempotency.rs:102-127 | writes, and says so, exactly when no live row has the key |
| IdempotencyCache.IdempotencyStore.SweepExpired | engine/crates/engine-server/src/middleware/idempotency.rs:132-137 | removes exactly the expired rows and counts them |
| IdempotencyCache.SweepsShowExactlyWhen | engine/crates/engine-server/src/middleware/idempotency.rs:129-137 | erasing all sweeps from a run leaves every get and put result the same if and only if no operation uses a swept key, before its next write, with a clock behind the swept row's expiry |
| IdempotencyCache.SweepsInvisible | engine/crates/engine-server/src/reaper_task.rs:35-50 | that is so whenever no operation reads a clock behind an earlier sweep's |
| IdempotencyCache.FirstWriterWins | engine/crates/engine-server/src/middleware/idempotency.rs:90-101 | a live row stays as it is until it expires: racing puts lose and gets return it |
| Routes.InternalErrorExactlyWhen | engine/crates/engine-server/src/routes.rs:53-60 | the status is 500 if and only if no guard answers, the route reaches the engine, and the database fails or a hold that would succeed draws a taken reference; then the body says so, nothing changed and nothing was published |
| Endpoints.BadRequestExactlyWhen | engine/crates/engine-server/src/routes.rs:41-46 | 400 answers exactly a hold without legs or whose seat is only Unicode white space, with the message for which |
| Endpoints.PostHoldAnswers | engine/crates/engine-server/src/routes.rs:52-61 | past the guard a hold answers 422 iff legs repeat or are missing, 409 iff they all exist, distinct, and one is booked or held, 201 iff all are free and the transaction succeeds; a refusal changes nothing |
| Endpoints.PostHoldStores | engine/crates/engine-server/src/routes.rs:47-53 | a 201 carries an expiry the TTL of its own class after the clock reading; exactly the asked rows carry the fresh reference, and the request is stored with that expiry |
| Endpoints.PostConfirmAnswers | engine/crates/engine-server/src/routes.rs:77-108 | a confirm answers 200 with reference and booking iff the hold is there, unexpired and unbooked, and otherwise 409 with its reason; tables and event field by field |
| Endpoints.DeleteHoldAnswers | engine/crates/engine-server/src/routes.rs:64-70 | a release answers 200 with success iff the hold was active; tables and the event pair field by field |
| Endpoints.PostCancelAnswers | engine/crates/engine-server/src/routes.rs:117-130 | a cancel answers 200 with success, frees exactly the named rows and publishes one event |
| Endpoints.GetSnapshotAnswers | engine/crates/engine-server/src/routes.rs:132-138 | the snapshot route lists exactly the trip's rows with the expiry of the hold each carries |
| Endpoints.FailureAnswers | engine/crates/engine-server/src/routes.rs:37-138 | a database failure is a 500 with nothing changed on every route past its guard except the liveness probe |
| Middleware.ApiServer.Respond | engine/crates/engine-server/src/routes.rs:37-138 | guards, engine call and status mapping of every route equal the specified reply |
| Middleware.ApiServer.Layer | engine/crates/engine-server/src/middleware/idempotency.rs:140-241 | look-up, replay or run, and write equal one specified request step over engine and cache |
| Middleware.KeyExactly | engine/crates/engine-server/src/middleware/idempotency.rs:145-169 | a request is protected iff it is POST, PUT, PATCH or DELETE with a readable, not blank key header, and then its cache key is made of service, method, path and trimmed header |
| Middleware.SameKeyExactlyWhen | engine/crates/engine-server/src/middleware/idempotency.rs:157-169 | two protected requests share a cache key iff service, method, path and trimmed header agree |
| Middleware.UnprotectedPasses | engine/crates/engine-server/src/middleware/idempotency.rs:145-155 | any other request goes straight to its handler and leaves the cache alone |
| Middleware.MissCachesExactly | engine/crates/engine-server/src/middleware/idempotency.rs:203-237 | a miss caches the response iff it is 2xx, 409 or 422, for 24 hours, with status, body and body hash, and returns it marked as not replayed |
| Middleware.ReplayedUntilExpiry | engine/crates/engine-server/src/middleware/idempotency.rs:190-201 | while a key's response is live every request with it gets that response, or 409 for another body, and changes nothing |
| Middleware.FirstResponseIsCached | engine/crates/engine-server/src/middleware/idempotency.rs:203-237 | a missing key's 2xx, 409 or 422 response is cached for the TTL as sent; no other response is |
| Middleware.RetrySafe | engine/crates/engine-server/src/middleware/idempotency.rs:1-5 | a retry before expiry gets the first response's status and body and leaves tables, events and cache unchanged |
| Middleware.OtherBodyRefused | engine/crates/engine-server/src/middleware/idempotency.rs:177-192 | under the same conditions as a safe retry, the same key with any other body is told 409 and changes nothing |
| Middleware.FailuresNeverReplayed | engine/crates/engine-server/src/middleware/idempotency.rs:212-219 | no replayed response is a 500 or reports a failed transaction |
| Overlaps.AloneIsServed | engine/crates/engine-server/src/middleware/idempotency.rs:140-241 | the separate look-up, handler and write steps of a request that nothing overlaps amount to one served request |
| Overlaps.CachedIsFirstToFinish | engine/crates/engine-server/src/middleware/idempotency.rs:90-127 | in any interleaving a cached row is the response of the first request to finish since the key last had no live row |
| Overlaps.AnsweredFromCache | engine/crates/engine-server/src/middleware/idempotency.rs:184-201 | in any interleaving a request that arrives while its key has a live row is answered from it and changes nothing |
| Overlaps.RetryAfterFinish | engine/crates/engine-server/src/middleware/idempotency.rs:184-201 | in any interleaving, after a request whose response was cached has finished, its key gets that status and body for the same request body and 409 for any other, for 24 hours, and nothing runs |
| Overlaps.SweepForgetsExactly | engine/crates/engine-server/src/reaper_task.rs:35-50 | a sweep can come at any moment and forgets exactly the expired rows |
| Overlaps.OverlapHarmlessExactlyWhen | engine/crates/engine-server/src/middleware/idempotency.rs:203-204 | in any interleaving, whatever runs between the two handlers, a retry adds nothing and gets the first one's reply if and only if the call is guarded, or comes to nothing for the same reason on the tables each handler finds: a hold with the same fault, both transactions failed, a confirm refused alike, nothing active to release, equal snapshots |
| Overlaps.BackToBackExactlyWhen | engine/crates/engine-server/src/middleware/idempotency.rs:203-204 | with nothing in between this comes down to the tables before the first: the hold is refused, the confirm is refused at both instants alike, or the release finds nothing active |
| Overlaps.ReleaseBetweenBreaksRetry | engine/crates/engine-server/src/middleware/idempotency.rs:203-204 | a refused hold's retry takes the seats whenever the hold in its way is released between the two handlers |
| Overlaps.RetryWritesOver | engine/crates/engine-server/src/middleware/idempotency.rs:203-229 | for any call, a schedule exists in which the retry finishes first and its response is the one cached |
| Overlaps.ConflictCachedOverSuccess | engine/crates/engine-server/src/middleware/idempotency.rs:203-229 | whenever a hold could succeed, it can be told 201 and keep its seats while its retry's 409 is cached |
| Overlaps.ConflictReplayedOverSuccess | engine/crates/engine-server/src/middleware/idempotency.rs:190-201 | after that every retry is told 409 until the cached response expires, in any continuation |
| Overlaps.FailuresNeverReplayedInOverlap | engine/crates/engine-server/src/middleware/idempotency.rs:212-219 | in any interleaving no replayed response reports a failed transaction |

## Left out

- HoldsNeverDeadlock: promises nothing once other transactions are in flight; `DeadlockExactlyWhen` says when two fail it.
- DeadlockExactlyWhen: is about inventory rows (a transaction that waits for a seat_holds row has locked none of them yet), about two transactions, not longer cycles, and about the tables as they are until something commits; `NamersDeadlockExactlyWhen` and `RetirersNoWaitCycle` go on through commits.
- PurgeInvisible: does not say that purges never show, since they can; it gives the exact condition.
- SweepsInvisible: asks that no cache operation reads a clock behind an earlier sweep's; `SweepsShowExactlyWhen` is the exact form.
- RetrySafe: is about requests that do not overlap; `Overlaps` is about those that do.
- DrainBound: assumes, like `DrainedAmidOthers`, that no candidate row is locked by another transaction, since SKIP LOCKED passes those over.
- Postgres, sqlx, Redis and axum: tables are maps, row locks an owner map, a commit applies a write buffer, the publisher is a log; dropped publishes, connection loss and pool limits are absent.
- The UPDATE, INSERT and DELETE statements that follow a transaction's locking statements are one buffering step in `Concurrent`; their rows are locked by then, so nothing can come between them.
- The snapshot's body is represented in `Routes` by the joined rows that determine it.
- The reaper's advisory lock: a flag in `Engine`; `Concurrent` goes without it, so there any number of reapers may run at once. A failed unlock is not modelled.
- Event timestamps, row ids, created_at and log lines.
- JSON parsing and serialisation, and the framework's own rejection of malformed bodies.
- The 1 MiB body caps, taken as respected, and failing cache reads and writes.
- HMAC verification, the SHA-256 computation, configuration, boot-time schema probes, health of the process.
- Inventory seeding, which belongs to TransityTerminal.
- Clock skew between the engine and the database, and UUID collisions.
