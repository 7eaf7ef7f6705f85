/** The two tables of the reservation engine and the statements that rewrite inventory rows. */
module Tables {
  import opened Common

  type Uuid = string
  type HoldRef = string

  /** Instants and durations, in microseconds (the resolution of timestamptz). */
  type Time = int

  const SECOND: Time := 1_000_000
  const DAY: Time := 86_400 * SECOND

  /** The unique index of seat_inventory: there is at most one row for each of these. */
  datatype SeatLeg = SeatLeg(trip: Uuid, seat: string, leg: int)

  datatype Row = Row(booked: bool, holdRef: Option<HoldRef>)

  datatype TtlClass = Short | Long

  /** A seat_holds row. The UNIQUE hold_ref is the key of the table below. */
  datatype Hold = Hold(
    trip: Uuid,
    seat: string,
    legs: seq<int>,
    ttlClass: TtlClass,
    operatorId: string,
    expiresAt: Time,
    booking: Option<string>)

  type Inventory = map<SeatLeg, Row>
  type Holds = map<HoldRef, Hold>

  datatype Db = Db(inventory: Inventory, holds: Holds)

  /** WHERE trip_id = $1 AND seat_no = $2 AND leg_index = ANY($3) */
  predicate Names(trip: Uuid, seat: string, legs: seq<int>, k: SeatLeg) {
    k.trip == trip && k.seat == seat && k.leg in legs
  }

  function Matching(inv: Inventory, trip: Uuid, seat: string, legs: seq<int>): set<SeatLeg> {
    set k | k in inv && Names(trip, seat, legs, k)
  }

  /** WHERE hold_ref = ANY(refs) */
  predicate IsHeldBy(row: Row, refs: set<HoldRef>) {
    row.holdRef.Some? && row.holdRef.value in refs
  }

  function HeldBy(inv: Inventory, refs: set<HoldRef>): set<SeatLeg> {
    set k | k in inv && IsHeldBy(inv[k], refs)
  }

  predicate Free(row: Row) {
    !row.booked && row.holdRef.None?
  }

  /** The SET clauses the engine uses on seat_inventory. */
  datatype RowWrite =
    | MarkHeld(ref: HoldRef)   // hold
    | ClearHold                // release and reaper
    | Book                     // confirm
    | Wipe                     // cancel

  function Rewritten(w: RowWrite, row: Row): Row {
    match w
    case MarkHeld(ref) => row.(holdRef := Some(ref))
    case ClearHold => row.(holdRef := None)
    case Book => Row(true, None)
    case Wipe => Row(false, None)
  }

  function UpdateRows(inv: Inventory, keys: set<SeatLeg>, w: RowWrite): Inventory {
    map k | k in inv :: if k in keys then Rewritten(w, inv[k]) else inv[k]
  }

  /** The rows a list of legs asks for, whether or not they exist. */
  function Requested(trip: Uuid, seat: string, legs: seq<int>): set<SeatLeg> {
    set leg | leg in legs :: SeatLeg(trip, seat, leg)
  }

  lemma {:induction false} RequestedCount(trip: Uuid, seat: string, legs: seq<int>)
    ensures |Requested(trip, seat, legs)| == |ToSet(legs)|
  {
    if legs == [] {
      assert Requested(trip, seat, legs) == {};
      assert ToSet(legs) == {};
    } else {
      var n := |legs| - 1;
      RequestedCount(trip, seat, legs[..n]);
      RequestedLast(trip, seat, legs);
      var asked, found := Requested(trip, seat, legs[..n]), ToSet(legs[..n]);
      assert legs[n] in found <==> SeatLeg(trip, seat, legs[n]) in asked;
      if legs[n] in found {
        assert found + {legs[n]} == found && asked + {SeatLeg(trip, seat, legs[n])} == asked;
      }
    }
  }

  lemma RequestedLast(trip: Uuid, seat: string, legs: seq<int>)
    requires legs != []
    ensures var n := |legs| - 1;
            ToSet(legs) == ToSet(legs[..n]) + {legs[n]}
            && Requested(trip, seat, legs) == Requested(trip, seat, legs[..n]) + {SeatLeg(trip, seat, legs[n])}
  {
    assert legs == legs[..|legs| - 1] + [legs[|legs| - 1]];
  }

  /** Counting matched rows against the length of the list finds repeated and missing legs alike. */
  lemma RowCountCheck(inv: Inventory, trip: Uuid, seat: string, legs: seq<int>)
    ensures |Matching(inv, trip, seat, legs)| <= |legs|
    ensures |Matching(inv, trip, seat, legs)| == |legs|
            <==> Distinct(legs) && forall leg :: leg in legs ==> SeatLeg(trip, seat, leg) in inv
  {
    var matched, asked := Matching(inv, trip, seat, legs), Requested(trip, seat, legs);
    RequestedCount(trip, seat, legs);
    DistinctByCount(legs);
    assert matched <= asked;
    SubsetCount(matched, asked);
    if |matched| == |legs| {
      assert matched == asked;
      forall leg | leg in legs ensures SeatLeg(trip, seat, leg) in inv {
        assert SeatLeg(trip, seat, leg) in asked;
      }
    }
    if Distinct(legs) && forall leg :: leg in legs ==> SeatLeg(trip, seat, leg) in inv {
      assert matched == asked;
    }
  }
}
