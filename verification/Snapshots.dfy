/** The read-only inventory snapshot: grouping the joined rows by seat and classifying each leg. */
module Snapshots {
  import opened Common
  import opened Tables
  import opened Atomic
  import opened Runs
  import opened Ordering

  datatype SeatStatus = FreeSeat | HeldSeat | BookedSeat

  datatype LegState = LegState(leg: int, status: SeatStatus, holdExpiresAt: Option<Time>)

  datatype SeatState = SeatState(seat: string, legs: seq<LegState>)

  function StatusOf(row: Row): SeatStatus {
    if row.booked then BookedSeat else if row.holdRef.Some? then HeldSeat else FreeSeat
  }

  function LegStateOf(leg: int, l: Listed): LegState {
    LegState(leg, StatusOf(l.row), if StatusOf(l.row) == HeldSeat then l.holdExpiresAt else None)
  }

  predicate LegsAscend(legs: seq<LegState>) {
    forall i, j :: 0 <= i < j < |legs| ==> legs[i].leg < legs[j].leg
  }

  predicate SeatsAscend(seats: seq<SeatState>) {
    forall i, j :: 0 <= i < j < |seats| ==> Before(seats[i].seat, seats[j].seat)
  }

  /** The leg states listed for one seat are exactly those of its rows, in leg order, and not none. */
  predicate ListsSeat(rows: map<SeatLeg, Listed>, trip: Uuid, s: SeatState) {
    && s.legs != [] && LegsAscend(s.legs)
    && (forall j :: 0 <= j < |s.legs| ==>
          SeatLeg(trip, s.seat, s.legs[j].leg) in rows
          && s.legs[j] == LegStateOf(s.legs[j].leg, rows[SeatLeg(trip, s.seat, s.legs[j].leg)]))
    && (forall k :: k in rows && k.seat == s.seat ==> LegStateOf(k.leg, rows[k]) in s.legs)
  }

  /** The seats are strictly ordered, and every joined row is listed under its seat. */
  predicate IsSnapshot(rows: map<SeatLeg, Listed>, trip: Uuid, seats: seq<SeatState>) {
    && SeatsAscend(seats)
    && (forall i :: 0 <= i < |seats| ==> ListsSeat(rows, trip, seats[i]))
    && (forall k :: k in rows ==> exists i :: 0 <= i < |seats| && seats[i].seat == k.seat)
  }

  // ---------------------------------------------------------------- the grouping loop

  /** What by_seat holds after the first n rows: their leg states, in order of arrival. */
  predicate Grouped(bySeat: map<string, seq<LegState>>, rows: map<SeatLeg, Listed>, order: seq<SeatLeg>, n: nat)
    requires n <= |order| && forall k :: k in order ==> k in rows
  {
    && (forall seat :: seat in bySeat ==> bySeat[seat] != [] && LegsAscend(bySeat[seat]))
    && (forall seat, j :: seat in bySeat && 0 <= j < |bySeat[seat]| ==> CameFrom(seat, bySeat[seat][j], rows, order, n))
    && (forall i :: 0 <= i < n ==>
          order[i].seat in bySeat && LegStateOf(order[i].leg, rows[order[i]]) in bySeat[order[i].seat])
  }

  predicate CameFrom(seat: string, state: LegState, rows: map<SeatLeg, Listed>, order: seq<SeatLeg>, n: nat)
    requires n <= |order| && forall k :: k in order ==> k in rows
  {
    exists i :: 0 <= i < n && order[i].seat == seat && state == LegStateOf(order[i].leg, rows[order[i]])
  }

  /** Within a seat, rows arrive in leg order, whatever collation orders the seats. */
  predicate LegsArriveInOrder(order: seq<SeatLeg>) {
    forall i, j :: 0 <= i < j < |order| && order[i].seat == order[j].seat ==> order[i].leg < order[j].leg
  }

  function Push(bySeat: map<string, seq<LegState>>, seat: string, state: LegState): map<string, seq<LegState>> {
    bySeat[seat := (if seat in bySeat then bySeat[seat] else []) + [state]]
  }

  lemma PushKeepsOrder(bySeat: map<string, seq<LegState>>, rows: map<SeatLeg, Listed>, order: seq<SeatLeg>, n: nat)
    requires LegsArriveInOrder(order) && n < |order| && forall k :: k in order ==> k in rows
    requires Grouped(bySeat, rows, order, n) && order[n].seat in bySeat
    ensures LegsAscend(bySeat[order[n].seat] + [LegStateOf(order[n].leg, rows[order[n]])])
  {
    var legs := bySeat[order[n].seat];
    forall j | 0 <= j < |legs| ensures legs[j].leg < order[n].leg {
      assert CameFrom(order[n].seat, legs[j], rows, order, n);
    }
  }

  lemma GroupStep(bySeat: map<string, seq<LegState>>, rows: map<SeatLeg, Listed>, order: seq<SeatLeg>, n: nat)
    requires LegsArriveInOrder(order) && n < |order| && forall k :: k in order ==> k in rows
    requires Grouped(bySeat, rows, order, n)
    ensures Grouped(Push(bySeat, order[n].seat, LegStateOf(order[n].leg, rows[order[n]])), rows, order, n + 1)
  {
    var k := order[n];
    var state := LegStateOf(k.leg, rows[k]);
    if k.seat in bySeat {
      PushKeepsOrder(bySeat, rows, order, n);
    }
    var after := Push(bySeat, k.seat, state);
    var last := |after[k.seat]| - 1;
    assert after[k.seat][last] == state;
    assert CameFrom(k.seat, state, rows, order, n + 1);
    forall seat, j | seat in after && 0 <= j < |after[seat]|
      ensures CameFrom(seat, after[seat][j], rows, order, n + 1)
    {
      if seat != k.seat || j < last {
        assert CameFrom(seat, bySeat[seat][j], rows, order, n);
      }
    }
  }

  method GroupBySeat(rows: map<SeatLeg, Listed>, order: seq<SeatLeg>) returns (bySeat: map<string, seq<LegState>>)
    requires LegsArriveInOrder(order) && forall k :: k in order ==> k in rows
    ensures Grouped(bySeat, rows, order, |order|)
  {
    bySeat := map[];
    for n := 0 to |order|
      invariant Grouped(bySeat, rows, order, n)
    {
      var k := order[n];
      GroupStep(bySeat, rows, order, n);
      bySeat := Push(bySeat, k.seat, LegStateOf(k.leg, rows[k]));
    }
  }

  /** Every key that is not left in `rest` is listed. */
  predicate AllListed(bySeat: map<string, seq<LegState>>, rest: set<string>, seats: seq<SeatState>) {
    forall seat :: seat in bySeat && seat !in rest ==> exists i :: 0 <= i < |seats| && seats[i].seat == seat
  }

  /** The seats listed are in order, come before all that is left, and have their legs. */
  predicate ListedInOrder(bySeat: map<string, seq<LegState>>, rest: set<string>, seats: seq<SeatState>) {
    SeatsAscend(seats)
    && (forall i :: 0 <= i < |seats| ==> seats[i].seat in bySeat && seats[i].legs == bySeat[seats[i].seat])
    && forall i, seat :: 0 <= i < |seats| && seat in rest ==> Before(seats[i].seat, seat)
  }

  lemma ListedOneMore(bySeat: map<string, seq<LegState>>, rest: set<string>, seats: seq<SeatState>, first: string)
    requires AllListed(bySeat, rest, seats) && first in bySeat
    ensures AllListed(bySeat, rest - {first}, seats + [SeatState(first, bySeat[first])])
  {
    var seats' := seats + [SeatState(first, bySeat[first])];
    forall seat | seat in bySeat && seat !in rest - {first}
      ensures exists i :: 0 <= i < |seats'| && seats'[i].seat == seat
    {
      if seat == first {
        assert seats'[|seats|].seat == seat;
      } else {
        var i :| 0 <= i < |seats| && seats[i].seat == seat;
        assert seats'[i].seat == seat;
      }
    }
  }

  lemma InOrderOneMore(bySeat: map<string, seq<LegState>>, rest: set<string>, seats: seq<SeatState>, first: string)
    requires ListedInOrder(bySeat, rest, seats) && first in bySeat && first in rest
    requires forall seat :: seat in rest ==> seat == first || Before(first, seat)
    ensures ListedInOrder(bySeat, rest - {first}, seats + [SeatState(first, bySeat[first])])
  {
  }

  /** The BTreeMap's iteration: every entry once, in key order. */
  method IntoSeats(bySeat: map<string, seq<LegState>>) returns (seats: seq<SeatState>)
    ensures SeatsAscend(seats)
    ensures forall i :: 0 <= i < |seats| ==> seats[i].seat in bySeat && seats[i].legs == bySeat[seats[i].seat]
    ensures forall seat :: seat in bySeat ==> exists i :: 0 <= i < |seats| && seats[i].seat == seat
  {
    seats := [];
    var rest := bySeat.Keys;
    while rest != {}
      invariant rest <= bySeat.Keys && ListedInOrder(bySeat, rest, seats) && AllListed(bySeat, rest, seats)
      decreases |rest|
    {
      ghost var least := FirstStringExists(rest);
      var first :| first in rest && forall x :: x in rest ==> x == first || Before(first, x);
      ListedOneMore(bySeat, rest, seats, first);
      InOrderOneMore(bySeat, rest, seats, first);
      seats := seats + [SeatState(first, bySeat[first])];
      rest := rest - {first};
    }
  }

  lemma GroupListsSeat(
      bySeat: map<string, seq<LegState>>, rows: map<SeatLeg, Listed>, trip: Uuid, order: seq<SeatLeg>, seat: string)
    requires ToSet(order) == rows.Keys && (forall k :: k in rows ==> k.trip == trip)
    requires forall k :: k in order ==> k in rows
    requires Grouped(bySeat, rows, order, |order|) && seat in bySeat
    ensures ListsSeat(rows, trip, SeatState(seat, bySeat[seat]))
  {
    var s := SeatState(seat, bySeat[seat]);
    forall j | 0 <= j < |s.legs|
      ensures SeatLeg(trip, s.seat, s.legs[j].leg) in rows
      ensures s.legs[j] == LegStateOf(s.legs[j].leg, rows[SeatLeg(trip, s.seat, s.legs[j].leg)])
    {
      assert CameFrom(seat, bySeat[seat][j], rows, order, |order|);
      var n :| 0 <= n < |order| && order[n].seat == s.seat && s.legs[j] == LegStateOf(order[n].leg, rows[order[n]]);
      assert order[n] in ToSet(order);
      assert order[n] == SeatLeg(trip, s.seat, s.legs[j].leg);
    }
    forall k | k in rows && k.seat == s.seat ensures LegStateOf(k.leg, rows[k]) in s.legs {
      assert k in ToSet(order);
      var n :| 0 <= n < |order| && order[n] == k;
    }
  }

  lemma GroupedIsSnapshot(
      bySeat: map<string, seq<LegState>>, rows: map<SeatLeg, Listed>, trip: Uuid,
      order: seq<SeatLeg>, seats: seq<SeatState>)
    requires ToSet(order) == rows.Keys && (forall k :: k in rows ==> k.trip == trip)
    requires forall k :: k in order ==> k in rows
    requires Grouped(bySeat, rows, order, |order|) && SeatsAscend(seats)
    requires forall i :: 0 <= i < |seats| ==> seats[i].seat in bySeat && seats[i].legs == bySeat[seats[i].seat]
    requires forall seat :: seat in bySeat ==> exists i :: 0 <= i < |seats| && seats[i].seat == seat
    ensures IsSnapshot(rows, trip, seats)
  {
    forall i | 0 <= i < |seats| ensures ListsSeat(rows, trip, seats[i]) {
      GroupListsSeat(bySeat, rows, trip, order, seats[i].seat);
      assert seats[i] == SeatState(seats[i].seat, bySeat[seats[i].seat]);
    }
    forall k | k in rows ensures exists i :: 0 <= i < |seats| && seats[i].seat == k.seat {
      assert k in ToSet(order);
      var n :| 0 <= n < |order| && order[n] == k;
      assert k.seat in bySeat;
    }
  }

  /** Group the rows of the join, as they arrive ordered by seat and leg, into the snapshot. */
  method BuildSnapshot(rows: map<SeatLeg, Listed>, trip: Uuid) returns (seats: seq<SeatState>)
    requires forall k :: k in rows ==> k.trip == trip
    ensures IsSnapshot(rows, trip, seats)
  {
    var order := OrderRows(rows.Keys, trip);
    assert forall k :: k in order ==> k in ToSet(order);
    forall i, j | 0 <= i < j < |order| && order[i].seat == order[j].seat ensures order[i].leg < order[j].leg {
      BeforeIrreflexive(order[i].seat);
    }
    var bySeat := GroupBySeat(rows, order);
    seats := IntoSeats(bySeat);
    GroupedIsSnapshot(bySeat, rows, trip, order, seats);
  }

  // ---------------------------------------------------------------- what a snapshot tells

  /** The seats and legs listed, one pair an entry. */
  function Places(seats: seq<SeatState>, trip: Uuid): set<SeatLeg> {
    set i, j | 0 <= i < |seats| && 0 <= j < |seats[i].legs| :: SeatLeg(trip, seats[i].seat, seats[i].legs[j].leg)
  }

  /** Every inventory row of the trip is listed, nothing else is, and no row is listed twice. */
  lemma EveryRowExactlyOnce(rows: map<SeatLeg, Listed>, trip: Uuid, seats: seq<SeatState>)
    requires IsSnapshot(rows, trip, seats) && forall k :: k in rows ==> k.trip == trip
    ensures Places(seats, trip) == rows.Keys
    ensures forall i, j, i', j' ::
              0 <= i < |seats| && 0 <= j < |seats[i].legs| && 0 <= i' < |seats| && 0 <= j' < |seats[i'].legs|
              && seats[i].seat == seats[i'].seat && seats[i].legs[j].leg == seats[i'].legs[j'].leg
              ==> i == i' && j == j'
  {
    forall k | k in rows ensures k in Places(seats, trip) {
      var i :| 0 <= i < |seats| && seats[i].seat == k.seat;
      assert ListsSeat(rows, trip, seats[i]);
      var j :| 0 <= j < |seats[i].legs| && seats[i].legs[j] == LegStateOf(k.leg, rows[k]);
    }
    forall i, i' | 0 <= i < i' < |seats| ensures seats[i].seat != seats[i'].seat {
      BeforeIrreflexive(seats[i].seat);
    }
    forall i | 0 <= i < |seats| ensures ListsSeat(rows, trip, seats[i]) {
    }
  }

  lemma SeatListUnique(rows: map<SeatLeg, Listed>, trip: Uuid, s: SeatState, s': SeatState)
    requires ListsSeat(rows, trip, s) && ListsSeat(rows, trip, s') && s.seat == s'.seat
    ensures s == s'
  {
    forall state ensures state in s.legs <==> state in s'.legs {
    }
    assert ToSet(s.legs) == ToSet(s'.legs);
    AscendingUnique(s.legs, s'.legs, (a: LegState, b: LegState) => a.leg < b.leg);
  }

  function SeatNames(seats: seq<SeatState>): seq<string> {
    seq(|seats|, i requires 0 <= i < |seats| => seats[i].seat)
  }

  lemma SeatNameHasRow(rows: map<SeatLeg, Listed>, trip: Uuid, seats: seq<SeatState>, i: nat)
    requires IsSnapshot(rows, trip, seats) && i < |seats|
    ensures exists k :: k in rows && k.seat == seats[i].seat
  {
    assert ListsSeat(rows, trip, seats[i]);
    assert SeatLeg(trip, seats[i].seat, seats[i].legs[0].leg) in rows;
  }

  lemma SeatNamesOf(rows: map<SeatLeg, Listed>, trip: Uuid, seats: seq<SeatState>, seat: string)
    requires IsSnapshot(rows, trip, seats)
    ensures seat in SeatNames(seats) <==> exists k :: k in rows && k.seat == seat
  {
    if seat in SeatNames(seats) {
      var i :| 0 <= i < |seats| && SeatNames(seats)[i] == seat;
      SeatNameHasRow(rows, trip, seats, i);
    }
    if k :| k in rows && k.seat == seat {
      var i :| 0 <= i < |seats| && seats[i].seat == k.seat;
      assert SeatNames(seats)[i] == seat;
    }
  }

  /** The rows determine the snapshot: there is only one, whatever order the rows arrived in. */
  lemma SnapshotUnique(rows: map<SeatLeg, Listed>, trip: Uuid, a: seq<SeatState>, b: seq<SeatState>)
    requires IsSnapshot(rows, trip, a) && IsSnapshot(rows, trip, b)
    ensures a == b
  {
    forall seat ensures seat in SeatNames(a) <==> seat in SeatNames(b) {
      SeatNamesOf(rows, trip, a, seat);
      SeatNamesOf(rows, trip, b, seat);
    }
    assert ToSet(SeatNames(a)) == ToSet(SeatNames(b));
    forall x, y | Before(x, y) ensures !Before(y, x) {
      if Before(y, x) {
        BeforeTransitive(x, y, x);
        BeforeIrreflexive(x);
      }
    }
    AscendingUnique(SeatNames(a), SeatNames(b), Before);
    assert |a| == |SeatNames(a)| == |SeatNames(b)| == |b|;
    forall i | 0 <= i < |a| ensures a[i] == b[i] {
      assert SeatNames(a)[i] == SeatNames(b)[i];
      SeatListUnique(rows, trip, a[i], b[i]);
    }
  }

  /** The leg is listed Free under the seat. */
  predicate ListedFree(seats: seq<SeatState>, seat: string, leg: int) {
    exists i, j :: 0 <= i < |seats| && 0 <= j < |seats[i].legs|
      && seats[i].seat == seat && seats[i].legs[j].leg == leg && seats[i].legs[j].status == FreeSeat
  }

  lemma ListedFreeHasRow(db: Db, trip: Uuid, seats: seq<SeatState>, i: nat, j: nat)
    requires IsSnapshot(Join(db, trip), trip, seats) && i < |seats| && j < |seats[i].legs|
    ensures var k := SeatLeg(trip, seats[i].seat, seats[i].legs[j].leg);
            k in db.inventory && (seats[i].legs[j].status == FreeSeat <==> Free(db.inventory[k]))
  {
    assert ListsSeat(Join(db, trip), trip, seats[i]);
  }

  lemma RowIsListed(db: Db, trip: Uuid, seats: seq<SeatState>, k: SeatLeg) returns (i: nat, j: nat)
    requires IsSnapshot(Join(db, trip), trip, seats) && k in db.inventory && k.trip == trip
    ensures i < |seats| && j < |seats[i].legs| && seats[i].seat == k.seat && seats[i].legs[j].leg == k.leg
  {
    var rows := Join(db, trip);
    assert k in rows;
    i :| 0 <= i < |seats| && seats[i].seat == k.seat;
    assert ListsSeat(rows, trip, seats[i]);
    j :| 0 <= j < |seats[i].legs| && seats[i].legs[j] == LegStateOf(k.leg, rows[k]);
  }

  lemma ListedFreeIsFree(db: Db, trip: Uuid, seats: seq<SeatState>, seat: string, leg: int)
    requires IsSnapshot(Join(db, trip), trip, seats)
    ensures ListedFree(seats, seat, leg)
            <==> SeatLeg(trip, seat, leg) in db.inventory && Free(db.inventory[SeatLeg(trip, seat, leg)])
  {
    if ListedFree(seats, seat, leg) {
      var i, j :| 0 <= i < |seats| && 0 <= j < |seats[i].legs|
        && seats[i].seat == seat && seats[i].legs[j].leg == leg && seats[i].legs[j].status == FreeSeat;
      ListedFreeHasRow(db, trip, seats, i, j);
    }
    if SeatLeg(trip, seat, leg) in db.inventory && Free(db.inventory[SeatLeg(trip, seat, leg)]) {
      var i, j := RowIsListed(db, trip, seats, SeatLeg(trip, seat, leg));
      ListedFreeHasRow(db, trip, seats, i, j);
    }
  }

  /** A hold succeeds exactly when its legs are pairwise distinct and the snapshot lists each of them
      Free for the seat. */
  lemma HoldAgreesWithSnapshot(db: Db, req: HoldRequest, ref: HoldRef, expiresAt: Time, seats: seq<SeatState>)
    requires ref !in db.holds && IsSnapshot(Join(db, req.trip), req.trip, seats)
    ensures ApplyHold(db, req, ref, expiresAt).answer.HoldOk?
            <==> Distinct(req.legs) && forall leg :: leg in req.legs ==> ListedFree(seats, req.seat, leg)
  {
    HoldSucceedsExactlyWhen(db, req, ref, expiresAt);
    forall leg ensures ListedFree(seats, req.seat, leg)
                       <==> SeatLeg(req.trip, req.seat, leg) in db.inventory
                            && Free(db.inventory[SeatLeg(req.trip, req.seat, leg)])
    {
      ListedFreeIsFree(db, req.trip, seats, req.seat, leg);
    }
  }

  /** In reachable states a listed leg carries an expiry exactly when it is Held, and then it is that of
      the live hold on the row. */
  lemma ExpiryExactlyWhenHeld(w: World, trip: Uuid, seats: seq<SeatState>, i: nat, j: nat)
    requires Inv(w) && IsSnapshot(Join(w.db, trip), trip, seats) && i < |seats| && j < |seats[i].legs|
    ensures seats[i].legs[j].holdExpiresAt.Some? <==> seats[i].legs[j].status == HeldSeat
    ensures seats[i].legs[j].status == HeldSeat ==>
              exists r :: r in w.db.holds && Active(w.db.holds[r])
                && w.db.holds[r].expiresAt == seats[i].legs[j].holdExpiresAt.value
                && Names(w.db.holds[r].trip, w.db.holds[r].seat, w.db.holds[r].legs,
                         SeatLeg(trip, seats[i].seat, seats[i].legs[j].leg))
  {
    assert ListsSeat(Join(w.db, trip), trip, seats[i]);
    var k := SeatLeg(trip, seats[i].seat, seats[i].legs[j].leg);
    assert Linked(w.db, k);
  }

  /** Each leg listed is a row of the trip: Booked exactly when the row is booked, Held exactly when it is
      not booked and carries a hold, Free otherwise. Only a Held leg has an expiry, that of its hold. */
  lemma ListedAsTheRowIs(db: Db, trip: Uuid, seats: seq<SeatState>, i: nat, j: nat)
    requires IsSnapshot(Join(db, trip), trip, seats) && i < |seats| && j < |seats[i].legs|
    ensures SeatLeg(trip, seats[i].seat, seats[i].legs[j].leg) in db.inventory
    ensures var state, row := seats[i].legs[j], db.inventory[SeatLeg(trip, seats[i].seat, seats[i].legs[j].leg)];
            (state.status == BookedSeat <==> row.booked)
            && (state.status == HeldSeat <==> !row.booked && row.holdRef.Some?)
            && (state.status == FreeSeat <==> !row.booked && row.holdRef.None?)
            && state.holdExpiresAt == if !row.booked && row.holdRef.Some? && row.holdRef.value in db.holds
                                      then Some(db.holds[row.holdRef.value].expiresAt) else None
  {
    assert ListsSeat(Join(db, trip), trip, seats[i]);
  }

  /** With no row orphaned, as in every reachable state, each Held leg shows the expiry of the hold on its row. */
  lemma HeldShowsItsHold(db: Db, trip: Uuid, seats: seq<SeatState>, i: nat, j: nat)
    requires NoOrphans(db) && IsSnapshot(Join(db, trip), trip, seats) && i < |seats| && j < |seats[i].legs|
    requires seats[i].legs[j].status == HeldSeat
    ensures var k := SeatLeg(trip, seats[i].seat, seats[i].legs[j].leg);
            k in db.inventory && db.inventory[k].holdRef.Some? && db.inventory[k].holdRef.value in db.holds
            && seats[i].legs[j].holdExpiresAt == Some(db.holds[db.inventory[k].holdRef.value].expiresAt)
  {
    ListedAsTheRowIs(db, trip, seats, i, j);
    assert Linked(db, SeatLeg(trip, seats[i].seat, seats[i].legs[j].leg));
  }
}
