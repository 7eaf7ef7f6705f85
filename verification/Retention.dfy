/** The retention purge: it never changes the inventory, and exactly when it shows in an answer. */
module Retention {
  import opened Common
  import opened Tables
  import opened Atomic
  import opened Runs

  predicate LegalFrom(w: World, ops: seq<Op>)
    decreases |ops|
  {
    ops != [] ==> Legal(w, ops[0]) && LegalFrom(Next(w, ops[0]), ops[1..])
  }

  function Final(w: World, ops: seq<Op>): World
    requires LegalFrom(w, ops)
    decreases |ops|
  {
    if ops == [] then w else Final(Next(w, ops[0]), ops[1..])
  }

  /** The answers and events of a run, in order, leaving the purges out. */
  function Observed(w: World, ops: seq<Op>): seq<(Answer, seq<Event>)>
    requires LegalFrom(w, ops)
    decreases |ops|
  {
    if ops == [] then []
    else
      var o := Apply(w.db, ops[0]);
      (if ops[0].Purge? then [] else [(o.answer, o.events)]) + Observed(Next(w, ops[0]), ops[1..])
  }

  function WithoutPurges(ops: seq<Op>): seq<Op> {
    if ops == [] then []
    else (if ops[0].Purge? then [] else [ops[0]]) + WithoutPurges(ops[1..])
  }

  function Cutoff(op: Op): Time
    requires op.Purge?
  {
    op.now - op.retentionDays * DAY
  }

  /** No later confirm names a hold that a purge removes and began before that hold expired. */
  predicate Unnoticed(w: World, ops: seq<Op>)
    requires LegalFrom(w, ops)
    decreases |ops|
  {
    ops != [] ==>
      (ops[0].Purge? ==> forall r :: r in ops[0].refs ==> ConfirmsExpired(ops[1..], r, w.db.holds[r]))
      && Unnoticed(Next(w, ops[0]), ops[1..])
  }

  /** Every confirm of r among `ops` begins at or after the expiry of h. */
  predicate ConfirmsExpired(ops: seq<Op>, r: HoldRef, h: Hold) {
    forall j :: 0 <= j < |ops| && ops[j].Confirm? && ops[j].ref == r ==> Expired(h, ops[j].now)
  }

  /** v is w with some consumed holds that w has lost. */
  predicate Behind(w: World, v: World) {
    && w.db.inventory == v.db.inventory && w.used == v.used
    && (forall r :: r in w.db.holds ==> r in v.db.holds && v.db.holds[r] == w.db.holds[r])
    && (forall r :: r in v.db.holds && r !in w.db.holds ==> !Active(v.db.holds[r]))
  }

  /** A confirm of a hold that only v still has, begun before its expiry. */
  predicate ToldApart(w: World, v: World, op: Op) {
    op.Confirm? && op.ref in v.db.holds && op.ref !in w.db.holds && !Expired(v.db.holds[op.ref], op.now)
  }

  lemma StepKeepsBehind(w: World, v: World, op: Op)
    requires Inv(w) && Inv(v) && Behind(w, v) && !op.Purge? && Legal(w, op)
    ensures Legal(v, op) && Behind(Next(w, op), Next(v, op))
  {
  }

  /** An operation leaves alone the holds that only v has. */
  lemma StepKeepsMissing(w: World, v: World, op: Op)
    requires Inv(w) && Inv(v) && Behind(w, v) && !op.Purge? && Legal(w, op) && Legal(v, op)
    ensures forall r :: r in Next(v, op).db.holds && r !in Next(w, op).db.holds
              <==> r in v.db.holds && r !in w.db.holds
    ensures forall r :: r in v.db.holds && r !in w.db.holds ==> Next(v, op).db.holds[r] == v.db.holds[r]
  {
  }

  lemma SnapshotUnaffected(w: World, v: World, trip: Uuid)
    requires Inv(w) && Behind(w, v)
    ensures Join(w.db, trip) == Join(v.db, trip)
  {
    forall k | k in w.db.inventory ensures Linked(w.db, k) {
    }
  }

  /** Whether or not old rows were purged, an operation writes and publishes the same, and it answers the
      same unless it is a confirm of a purged hold begun before its expiry. */
  lemma StepUnaffected(w: World, v: World, op: Op)
    requires Inv(w) && Inv(v) && Behind(w, v) && !op.Purge? && Legal(w, op)
    ensures Legal(v, op) && Behind(Next(w, op), Next(v, op))
    ensures Apply(w.db, op).events == Apply(v.db, op).events
    ensures Apply(w.db, op).answer == Apply(v.db, op).answer <==> !ToldApart(w, v, op)
  {
    StepKeepsBehind(w, v, op);
    if op.Snapshot? {
      SnapshotUnaffected(w, v, op.trip);
    }
  }

  /** No confirm to come tells w and v apart. */
  predicate Indistinct(w: World, v: World, ops: seq<Op>) {
    forall r :: r in v.db.holds && r !in w.db.holds ==> ConfirmsExpired(ops, r, v.db.holds[r])
  }

  lemma ConfirmsExpiredSplit(ops: seq<Op>, r: HoldRef, h: Hold)
    requires ops != []
    ensures ConfirmsExpired(ops, r, h)
            <==> (ops[0].Confirm? && ops[0].ref == r ==> Expired(h, ops[0].now)) && ConfirmsExpired(ops[1..], r, h)
  {
    assert forall j :: 0 <= j < |ops[1..]| ==> ops[1..][j] == ops[j + 1];
    if ConfirmsExpired(ops[1..], r, h) {
      forall j | 0 < j < |ops| && ops[j].Confirm? && ops[j].ref == r ensures Expired(h, ops[j].now) {
        assert ops[1..][j - 1] == ops[j];
      }
    }
  }

  lemma IndistinctAfterStep(w: World, v: World, ops: seq<Op>)
    requires ops != [] && Inv(w) && Inv(v) && Behind(w, v) && !ops[0].Purge? && Legal(w, ops[0])
    ensures Legal(v, ops[0])
    ensures Indistinct(w, v, ops)
            <==> !ToldApart(w, v, ops[0]) && Indistinct(Next(w, ops[0]), Next(v, ops[0]), ops[1..])
  {
    StepKeepsBehind(w, v, ops[0]);
    StepKeepsMissing(w, v, ops[0]);
    var w', v' := Next(w, ops[0]), Next(v, ops[0]);
    forall r | r in v.db.holds && r !in w.db.holds
      ensures ConfirmsExpired(ops, r, v.db.holds[r])
              <==> (ops[0].Confirm? && ops[0].ref == r ==> Expired(v.db.holds[r], ops[0].now))
                   && ConfirmsExpired(ops[1..], r, v'.db.holds[r])
    {
      ConfirmsExpiredSplit(ops, r, v.db.holds[r]);
    }
  }

  lemma IndistinctAfterPurge(w: World, v: World, ops: seq<Op>)
    requires ops != [] && Behind(w, v) && ops[0].Purge? && Legal(w, ops[0])
    ensures Behind(Next(w, ops[0]), v)
    ensures Indistinct(w, v, ops) && (forall r :: r in ops[0].refs ==> ConfirmsExpired(ops[1..], r, w.db.holds[r]))
            <==> Indistinct(Next(w, ops[0]), v, ops[1..])
  {
    forall r | r in v.db.holds
      ensures ConfirmsExpired(ops, r, v.db.holds[r]) <==> ConfirmsExpired(ops[1..], r, v.db.holds[r])
    {
      ConfirmsExpiredSplit(ops, r, v.db.holds[r]);
    }
  }

  lemma {:induction false} PurgeShowsFrom(w: World, v: World, ops: seq<Op>)
    requires Inv(w) && Inv(v) && LegalFrom(w, ops) && Behind(w, v)
    ensures LegalFrom(v, WithoutPurges(ops))
    ensures Final(w, ops).db.inventory == Final(v, WithoutPurges(ops)).db.inventory
    ensures Observed(w, ops) == Observed(v, WithoutPurges(ops)) <==> Unnoticed(w, ops) && Indistinct(w, v, ops)
    decreases |ops|
  {
    if ops != [] {
      var op, rest := ops[0], ops[1..];
      InvStep(w, op);
      if op.Purge? {
        IndistinctAfterPurge(w, v, ops);
        PurgeShowsFrom(Next(w, op), v, rest);
        assert WithoutPurges(ops) == WithoutPurges(rest);
        assert Observed(w, ops) == Observed(Next(w, op), rest);
      } else {
        StepUnaffected(w, v, op);
        IndistinctAfterStep(w, v, ops);
        InvStep(v, op);
        PurgeShowsFrom(Next(w, op), Next(v, op), rest);
        SameHead(w, v, ops);
      }
    }
  }

  lemma SameHead(w: World, v: World, ops: seq<Op>)
    requires ops != [] && !ops[0].Purge? && LegalFrom(w, ops)
    requires Legal(v, ops[0]) && LegalFrom(Next(v, ops[0]), WithoutPurges(ops[1..]))
    requires Apply(w.db, ops[0]).events == Apply(v.db, ops[0]).events
    ensures LegalFrom(v, WithoutPurges(ops))
    ensures Final(v, WithoutPurges(ops)) == Final(Next(v, ops[0]), WithoutPurges(ops[1..]))
    ensures Observed(w, ops) == Observed(v, WithoutPurges(ops))
            <==> Apply(w.db, ops[0]).answer == Apply(v.db, ops[0]).answer
                 && Observed(Next(w, ops[0]), ops[1..]) == Observed(Next(v, ops[0]), WithoutPurges(ops[1..]))
  {
    var without := WithoutPurges(ops);
    assert without == [ops[0]] + WithoutPurges(ops[1..]);
    assert without[0] == ops[0] && without[1..] == WithoutPurges(ops[1..]);
    var a, b := Observed(w, ops), Observed(v, without);
    var o, o' := Apply(w.db, ops[0]), Apply(v.db, ops[0]);
    assert a[0] == (o.answer, o.events) && a[1..] == Observed(Next(w, ops[0]), ops[1..]);
    assert b[0] == (o'.answer, o'.events) && b[1..] == Observed(Next(v, ops[0]), without[1..]);
    assert a == [a[0]] + a[1..] && b == [b[0]] + b[1..];
  }

  /** Deleting the purges from a run never changes the final inventory, and it leaves every other answer
      and event, snapshots included, as they were exactly when no confirm names a purged hold and began
      before that hold expired. */
  lemma PurgeInvisible(w: World, ops: seq<Op>)
    requires Inv(w) && LegalFrom(w, ops)
    ensures LegalFrom(w, WithoutPurges(ops))
    ensures Final(w, ops).db.inventory == Final(w, WithoutPurges(ops)).db.inventory
    ensures Observed(w, ops) == Observed(w, WithoutPurges(ops)) <==> Unnoticed(w, ops)
  {
    PurgeShowsFrom(w, w, ops);
  }

  /** No confirm that follows a purge began before that purge's cutoff, that is, more than the
      retention period (whole days) before the purge. */
  predicate Timely(ops: seq<Op>) {
    forall i, j :: 0 <= i < j < |ops| && ops[i].Purge? && ops[j].Confirm? ==> Cutoff(ops[i]) <= ops[j].now
  }

  /** So the purge is invisible as long as no transaction is older than the retention period. */
  lemma {:induction false} TimelyIsUnnoticed(w: World, ops: seq<Op>)
    requires LegalFrom(w, ops) && Timely(ops)
    ensures Unnoticed(w, ops)
    decreases |ops|
  {
    if ops != [] {
      var op, rest := ops[0], ops[1..];
      assert forall j :: 0 <= j < |rest| ==> rest[j] == ops[j + 1];
      TimelyIsUnnoticed(Next(w, op), rest);
      if op.Purge? {
        forall r | r in op.refs ensures ConfirmsExpired(rest, r, w.db.holds[r]) {
          forall j | 0 <= j < |rest| && rest[j].Confirm? ensures Cutoff(op) <= rest[j].now {
            assert ops[0] == op && ops[j + 1] == rest[j];
          }
        }
      }
    }
  }

  /** Purges can be noticed: the hold expires at 10 and is confirmed at 5; a day and an instant after its
      expiry it is purged, and only then does a transaction that began at 5 confirm it again. It is told
      that the hold is missing; without the purge it would have been told that the hold is consumed. */
  lemma LateConfirmNoticesPurge() returns (w: World, hold: Op, confirm: Op, purge: Op, again: Op)
    ensures Init(w) && hold.HoldSeat? && confirm.Confirm? && purge.Purge? && again.Confirm?
    ensures again.ref == hold.ref && again.now < hold.expiresAt
    ensures LegalFrom(w, [hold, confirm, purge, again]) && !Unnoticed(w, [hold, confirm, purge, again])
    ensures var w2 := Next(Next(w, hold), confirm);
            Apply(w2.db, again).answer == ConfirmFailed(HoldAlreadyConsumed)
            && Legal(w2, purge)
            && Apply(Next(w2, purge).db, again).answer == ConfirmFailed(HoldExpiredOrMissing)
  {
    var k := SeatLeg("trip", "1A", 0);
    w := World(Db(map[k := Row(false, None)], map[]), {});
    hold := HoldSeat(HoldRequest("trip", "1A", [0], "op", Short), "ref", 10);
    confirm := Confirm("ref", "BK-1", 5);
    purge := Purge({"ref"}, 10 + DAY + 1, 1);
    again := Confirm("ref", "BK-2", 5);
    HoldSucceedsExactlyWhen(w.db, hold.req, "ref", 10);
    RunOfFour(w, hold, confirm, purge, again);
  }

  lemma NoticedLater(w: World, op: Op, rest: seq<Op>)
    requires Legal(w, op) && LegalFrom(Next(w, op), rest) && !Unnoticed(Next(w, op), rest)
    ensures LegalFrom(w, [op] + rest) && !Unnoticed(w, [op] + rest)
  {
    assert ([op] + rest)[1..] == rest;
  }

  lemma NoticedAtOnce(w: World, purge: Op, again: Op)
    requires purge.Purge? && Legal(w, purge) && again.Confirm?
    requires again.ref in purge.refs && !Expired(w.db.holds[again.ref], again.now)
    ensures LegalFrom(w, [purge, again]) && !Unnoticed(w, [purge, again])
  {
    assert [purge, again][1..] == [again];
    assert !ConfirmsExpired([again], again.ref, w.db.holds[again.ref]) by {
      assert [again][0] == again;
    }
  }

  lemma RunOfFour(w: World, a: Op, b: Op, purge: Op, again: Op)
    requires Legal(w, a) && Legal(Next(w, a), b) && purge.Purge? && again.Confirm?
    requires var w2 := Next(Next(w, a), b);
             Legal(w2, purge) && again.ref in purge.refs && !Expired(w2.db.holds[again.ref], again.now)
    ensures LegalFrom(w, [a, b, purge, again]) && !Unnoticed(w, [a, b, purge, again])
  {
    NoticedAtOnce(Next(Next(w, a), b), purge, again);
    NoticedLater(Next(w, a), b, [purge, again]);
    assert [b] + [purge, again] == [b, purge, again];
    NoticedLater(w, a, [b, purge, again]);
    assert [a] + [b, purge, again] == [a, b, purge, again];
  }
}
