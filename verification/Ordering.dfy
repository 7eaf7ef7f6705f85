/** The order of strings and of inventory rows, and putting a set of rows in that order. */
module Ordering {
  import opened Common
  import opened Tables

  /** Lexicographic order on code points, which for UTF-8 text is the order on bytes. */
  predicate Before(a: string, b: string) {
    b != "" && (a == "" || a[0] < b[0] || (a[0] == b[0] && Before(a[1..], b[1..])))
  }

  /** At the first place where the strings differ, the first has the smaller code point or has ended. */
  predicate DiffersAt(a: string, b: string, n: nat) {
    n <= |a| && n < |b| && a[..n] == b[..n] && (n == |a| || (a[n] as int) < b[n] as int)
  }

  lemma {:induction false} BeforeDiffers(a: string, b: string) returns (n: nat)
    requires Before(a, b)
    ensures DiffersAt(a, b, n)
    decreases |a|
  {
    n := 0;
    if a != "" && a[0] == b[0] {
      var m := BeforeDiffers(a[1..], b[1..]);
      n := m + 1;
      assert a[..n] == [a[0]] + a[1..][..m] && b[..n] == [b[0]] + b[1..][..m];
    }
  }

  lemma {:induction false} DiffersBefore(a: string, b: string, n: nat)
    requires DiffersAt(a, b, n)
    ensures Before(a, b)
    decreases n
  {
    if n > 0 {
      assert a[0] == a[..n][0] == b[..n][0] == b[0];
      assert a[1..][..n - 1] == a[..n][1..] && b[1..][..n - 1] == b[..n][1..];
      DiffersBefore(a[1..], b[1..], n - 1);
    }
  }

  lemma BeforeExactlyWhen(a: string, b: string)
    ensures Before(a, b) <==> exists n :: DiffersAt(a, b, n)
  {
    if Before(a, b) {
      var n := BeforeDiffers(a, b);
    }
    if n :| DiffersAt(a, b, n) {
      DiffersBefore(a, b, n);
    }
  }

  lemma {:induction false} BeforeTotal(a: string, b: string)
    ensures Before(a, b) || a == b || Before(b, a)
  {
    if a != "" && b != "" && a[0] == b[0] {
      BeforeTotal(a[1..], b[1..]);
      assert a == [a[0]] + a[1..] && b == [b[0]] + b[1..];
    }
  }

  lemma {:induction false} BeforeIrreflexive(a: string)
    ensures !Before(a, a)
  {
    if a != "" {
      BeforeIrreflexive(a[1..]);
    }
  }

  lemma {:induction false} BeforeTransitive(a: string, b: string, c: string)
    requires Before(a, b) && Before(b, c)
    ensures Before(a, c)
  {
    if a != "" && a[0] == b[0] && b[0] == c[0] {
      BeforeTransitive(a[1..], b[1..], c[1..]);
    }
  }

  /** ORDER BY seat_no, leg_index */
  predicate RowBefore(k: SeatLeg, l: SeatLeg) {
    Before(k.seat, l.seat) || (k.seat == l.seat && k.leg < l.leg)
  }

  lemma RowBeforeTransitive(k: SeatLeg, l: SeatLeg, m: SeatLeg)
    requires RowBefore(k, l) && RowBefore(l, m)
    ensures RowBefore(k, m)
  {
    if Before(k.seat, l.seat) && Before(l.seat, m.seat) {
      BeforeTransitive(k.seat, l.seat, m.seat);
    }
  }

  lemma {:induction false} FirstRowExists(keys: set<SeatLeg>, trip: Uuid) returns (first: SeatLeg)
    requires keys != {} && forall k :: k in keys ==> k.trip == trip
    ensures first in keys && forall k :: k in keys ==> k == first || RowBefore(first, k)
    decreases keys
  {
    var k := Member(keys);
    if keys == {k} {
      first := k;
    } else {
      var rest := keys - {k};
      assert keys == rest + {k};
      first := FirstRowExists(rest, trip);
      BeforeTotal(k.seat, first.seat);
      if RowBefore(k, first) {
        forall l | l in rest && l != first ensures RowBefore(k, l) {
          RowBeforeTransitive(k, first, l);
        }
        first := k;
      }
    }
  }

  lemma {:induction false} FirstStringExists(s: set<string>) returns (first: string)
    requires s != {}
    ensures first in s && forall x :: x in s ==> x == first || Before(first, x)
    decreases s
  {
    var x := Member(s);
    if s == {x} {
      first := x;
    } else {
      var rest := s - {x};
      assert s == rest + {x};
      first := FirstStringExists(rest);
      BeforeTotal(x, first);
      if Before(x, first) {
        forall y | y in rest && y != first ensures Before(x, y) {
          BeforeTransitive(x, first, y);
        }
        first := x;
      }
    }
  }

  predicate Ascends<T(!new)>(s: seq<T>, lt: (T, T) -> bool) {
    forall i, j :: 0 <= i < j < |s| ==> lt(s[i], s[j])
  }

  /** A set of values has only one strictly ascending listing. */
  lemma {:induction false} AscendingUnique<T(!new)>(a: seq<T>, b: seq<T>, lt: (T, T) -> bool)
    requires forall x, y :: lt(x, y) ==> !lt(y, x)
    requires Ascends(a, lt) && Ascends(b, lt) && ToSet(a) == ToSet(b)
    ensures a == b
  {
    assert a != [] ==> a[0] in ToSet(a);
    assert b != [] ==> b[0] in ToSet(b);
    if a != [] && b != [] {
      var m, n := |a| - 1, |b| - 1;
      assert a[m] in ToSet(b) && b[n] in ToSet(a);
      assert a[m] == b[n];
      assert ToSet(a[..m]) == ToSet(a) - {a[m]};
      assert ToSet(b[..n]) == ToSet(b) - {b[n]};
      AscendingUnique(a[..m], b[..n], lt);
      assert a == a[..m] + [a[m]] && b == b[..n] + [b[n]];
    }
  }

  predicate InOrder(rows: seq<SeatLeg>) {
    forall i, j :: 0 <= i < j < |rows| ==> RowBefore(rows[i], rows[j])
  }

  lemma AppendFirst(rows: seq<SeatLeg>, first: SeatLeg)
    requires InOrder(rows) && forall k :: k in rows ==> RowBefore(k, first)
    ensures InOrder(rows + [first]) && ToSet(rows + [first]) == ToSet(rows) + {first}
  {
  }

  /** The rows of one trip in order, each exactly once. */
  method OrderRows(keys: set<SeatLeg>, trip: Uuid) returns (rows: seq<SeatLeg>)
    requires forall k :: k in keys ==> k.trip == trip
    ensures InOrder(rows) && ToSet(rows) == keys && |rows| == |keys|
  {
    rows := [];
    var rest := keys;
    while rest != {}
      invariant rest <= keys && ToSet(rows) == keys - rest && InOrder(rows)
      invariant forall k, l :: k in rows && l in rest ==> RowBefore(k, l)
      invariant |rows| + |rest| == |keys|
      decreases |rest|
    {
      ghost var least := FirstRowExists(rest, trip);
      var first :| first in rest && forall k :: k in rest ==> k == first || RowBefore(first, k);
      AppendFirst(rows, first);
      rows := rows + [first];
      rest := rest - {first};
    }
  }
}
