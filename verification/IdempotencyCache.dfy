/** The table of cached responses: read past expiry, first writer wins, periodic sweeps. */
module IdempotencyCache {
  import opened Common
  import opened Tables
  import opened KeyEncoding

  const IDEMPOTENCY_TTL: Time := 24 * 3600 * SECOND

  datatype CachedResponse<B> = CachedResponse(status: nat, body: B, bodyHash: Digest)

  datatype CacheRow<B> = CacheRow(response: CachedResponse<B>, expiresAt: Time)

  type Cache<B> = map<Digest, CacheRow<B>>

  predicate Live<B>(c: Cache<B>, key: Digest, now: Time) {
    key in c && c[key].expiresAt > now
  }

  function Lookup<B>(c: Cache<B>, key: Digest, now: Time): Option<CachedResponse<B>> {
    if Live(c, key, now) then Some(c[key].response) else None
  }

  /** INSERT ... ON CONFLICT (key) DO UPDATE ... WHERE expires_at <= now(). The new expiry is computed
      from the engine's clock, the conflict test from the database's. */
  function Stored<B>(c: Cache<B>, key: Digest, value: CachedResponse<B>, engineNow: Time, now: Time): Cache<B> {
    if Live(c, key, now) then c else c[key := CacheRow(value, engineNow + IDEMPOTENCY_TTL)]
  }

  function Swept<B>(c: Cache<B>, now: Time): Cache<B> {
    map key | key in c && c[key].expiresAt > now :: c[key]
  }

  class IdempotencyStore<B(==)> {
    var rows: Cache<B>

    constructor ()
      ensures rows == map[]
    {
      rows := map[];
    }

    method Get(key: Digest, now: Time) returns (r: Option<CachedResponse<B>>)
      ensures r == Lookup(rows, key, now)
    {
      if key !in rows || rows[key].expiresAt <= now {
        return None;
      }
      r := Some(rows[key].response);
    }

    method Put(key: Digest, value: CachedResponse<B>, engineNow: Time, now: Time) returns (written: bool)
      modifies this
      ensures rows == Stored(old(rows), key, value, engineNow, now)
      ensures written <==> !Live(old(rows), key, now)
    {
      var expiresAt := engineNow + IDEMPOTENCY_TTL;
      if key in rows && rows[key].expiresAt > now {
        return false;
      }
      rows := rows[key := CacheRow(value, expiresAt)];
      written := true;
    }

    method SweepExpired(now: Time) returns (removed: nat)
      modifies this
      ensures rows == Swept(old(rows), now)
      ensures removed == |set key | key in old(rows) && old(rows)[key].expiresAt <= now|
    {
      var gone := set key | key in rows && rows[key].expiresAt <= now;
      removed := |gone|;
      rows := rows - gone;
    }
  }

  // ---------------------------------------------------------------- runs

  datatype CacheOp<B> =
    | Get(key: Digest, now: Time)
    | Put(key: Digest, value: CachedResponse<B>, engineNow: Time, now: Time)
    | Sweep(now: Time)

  datatype CacheAnswer<B> = Got(response: Option<CachedResponse<B>>) | Wrote(written: bool) | Done

  function After<B>(c: Cache<B>, op: CacheOp<B>): Cache<B> {
    match op
    case Get(_, _) => c
    case Put(key, value, engineNow, now) => Stored(c, key, value, engineNow, now)
    case Sweep(now) => Swept(c, now)
  }

  function AnswerOf<B>(c: Cache<B>, op: CacheOp<B>): CacheAnswer<B> {
    match op
    case Get(key, now) => Got(Lookup(c, key, now))
    case Put(key, _, _, now) => Wrote(!Live(c, key, now))
    case Sweep(_) => Done
  }

  /** The answers of all gets and puts of a run, in order. */
  function Answers<B>(c: Cache<B>, ops: seq<CacheOp<B>>): seq<CacheAnswer<B>>
    decreases |ops|
  {
    if ops == [] then []
    else (if ops[0].Sweep? then [] else [AnswerOf(c, ops[0])]) + Answers(After(c, ops[0]), ops[1..])
  }

  function WithoutSweeps<B>(ops: seq<CacheOp<B>>): seq<CacheOp<B>> {
    if ops == [] then []
    else (if ops[0].Sweep? then [] else [ops[0]]) + WithoutSweeps(ops[1..])
  }

  /** Every get and put of the key, up to and including the next put, reads a clock at or after t. */
  predicate UsesExpired<B>(ops: seq<CacheOp<B>>, key: Digest, t: Time) {
    ops != [] ==>
      if ops[0].Sweep? || ops[0].key != key then UsesExpired(ops[1..], key, t)
      else t <= ops[0].now && (ops[0].Get? ==> UsesExpired(ops[1..], key, t))
  }

  /** No row that a sweep removes is asked for, before the next write of its key, by an operation whose
      clock is behind the row's expiry. */
  predicate SweepsUnnoticed<B>(c: Cache<B>, ops: seq<CacheOp<B>>)
    decreases |ops|
  {
    ops != [] ==>
      (ops[0].Sweep? ==>
         forall key :: key in c && c[key].expiresAt <= ops[0].now ==> UsesExpired(ops[1..], key, c[key].expiresAt))
      && SweepsUnnoticed(After(c, ops[0]), ops[1..])
  }

  /** c is d without some of its rows. */
  ghost predicate Behind<B>(c: Cache<B>, d: Cache<B>) {
    forall key :: key in c ==> key in d && d[key] == c[key]
  }

  /** The rows that only d has do not show in the operations to come. */
  predicate Indistinct<B>(c: Cache<B>, d: Cache<B>, ops: seq<CacheOp<B>>) {
    forall key :: key in d && key !in c ==> UsesExpired(ops, key, d[key].expiresAt)
  }

  predicate ToldApart<B>(c: Cache<B>, d: Cache<B>, op: CacheOp<B>) {
    !op.Sweep? && op.key in d && op.key !in c && op.now < d[op.key].expiresAt
  }

  lemma SameUnlessToldApart<B>(c: Cache<B>, d: Cache<B>, op: CacheOp<B>)
    requires Behind(c, d) && !op.Sweep?
    ensures AnswerOf(c, op) == AnswerOf(d, op) <==> !ToldApart(c, d, op)
    ensures !ToldApart(c, d, op) ==> Behind(After(c, op), After(d, op))
  {
  }

  lemma IndistinctAfterUse<B>(c: Cache<B>, d: Cache<B>, ops: seq<CacheOp<B>>)
    requires ops != [] && Behind(c, d) && !ops[0].Sweep?
    ensures Indistinct(c, d, ops)
            <==> !ToldApart(c, d, ops[0]) && Indistinct(After(c, ops[0]), After(d, ops[0]), ops[1..])
  {
    var op := ops[0];
    var c', d' := After(c, op), After(d, op);
    if !ToldApart(c, d, op) {
      forall key ensures key in d' && key !in c' <==> key in d && key !in c && !(op.Put? && op.key == key) {
      }
    }
  }

  lemma IndistinctAfterSweep<B>(c: Cache<B>, d: Cache<B>, ops: seq<CacheOp<B>>)
    requires ops != [] && Behind(c, d) && ops[0].Sweep?
    ensures Behind(After(c, ops[0]), d)
    ensures Indistinct(After(c, ops[0]), d, ops[1..])
            <==> Indistinct(c, d, ops)
                 && forall key :: key in c && c[key].expiresAt <= ops[0].now ==>
                      UsesExpired(ops[1..], key, c[key].expiresAt)
  {
  }

  lemma {:induction false} SweepsShowFrom<B>(c: Cache<B>, d: Cache<B>, ops: seq<CacheOp<B>>)
    requires Behind(c, d)
    ensures Answers(c, ops) == Answers(d, WithoutSweeps(ops)) <==> SweepsUnnoticed(c, ops) && Indistinct(c, d, ops)
    decreases |ops|
  {
    if ops != [] {
      var op, rest := ops[0], ops[1..];
      if op.Sweep? {
        IndistinctAfterSweep(c, d, ops);
        SweepsShowFrom(After(c, op), d, rest);
        assert WithoutSweeps(ops) == WithoutSweeps(rest);
      } else {
        SameUnlessToldApart(c, d, op);
        IndistinctAfterUse(c, d, ops);
        AnswersSplit(c, d, ops);
        if !ToldApart(c, d, op) {
          SweepsShowFrom(After(c, op), After(d, op), rest);
        }
      }
    }
  }

  lemma AnswersSplit<B>(c: Cache<B>, d: Cache<B>, ops: seq<CacheOp<B>>)
    requires ops != [] && !ops[0].Sweep?
    ensures Answers(c, ops) == Answers(d, WithoutSweeps(ops))
            <==> AnswerOf(c, ops[0]) == AnswerOf(d, ops[0])
                 && Answers(After(c, ops[0]), ops[1..]) == Answers(After(d, ops[0]), WithoutSweeps(ops[1..]))
  {
    var without := WithoutSweeps(ops);
    assert without[0] == ops[0] && without[1..] == WithoutSweeps(ops[1..]);
    var a, b := Answers(c, ops), Answers(d, without);
    assert a[0] == AnswerOf(c, ops[0]) && a[1..] == Answers(After(c, ops[0]), ops[1..]);
    assert b[0] == AnswerOf(d, ops[0]) && b[1..] == Answers(After(d, ops[0]), without[1..]);
    assert a == [a[0]] + a[1..] && b == [b[0]] + b[1..];
  }

  /** Erasing all sweeps from a run leaves every get and put result the same exactly when no operation asks
      for a swept row, before its key is next written, with a clock behind the row's expiry. */
  lemma SweepsShowExactlyWhen<B>(c: Cache<B>, ops: seq<CacheOp<B>>)
    ensures Answers(c, ops) == Answers(c, WithoutSweeps(ops)) <==> SweepsUnnoticed(c, ops)
  {
    SweepsShowFrom(c, c, ops);
  }

  /** No operation reads a clock behind that of an earlier sweep. */
  predicate SweepsInThePast<B>(ops: seq<CacheOp<B>>) {
    forall i, j :: 0 <= i < j < |ops| && ops[i].Sweep? ==> ops[i].now <= ops[j].now
  }

  lemma {:induction false} LaterUsesExpired<B>(ops: seq<CacheOp<B>>, key: Digest, t: Time)
    requires forall j {:trigger ops[j]} :: 0 <= j < |ops| ==> t <= ops[j].now
    ensures UsesExpired(ops, key, t)
    decreases |ops|
  {
    if ops != [] {
      assert t <= ops[0].now;
      assert forall j {:trigger ops[1..][j]} :: 0 <= j < |ops[1..]| ==> ops[1..][j] == ops[j + 1];
      LaterUsesExpired(ops[1..], key, t);
    }
  }

  lemma {:induction false} PastSweepsUnnoticed<B>(c: Cache<B>, ops: seq<CacheOp<B>>)
    requires SweepsInThePast(ops)
    ensures SweepsUnnoticed(c, ops)
    decreases |ops|
  {
    if ops != [] {
      var op, rest := ops[0], ops[1..];
      assert forall j {:trigger rest[j]} :: 0 <= j < |rest| ==> rest[j] == ops[j + 1];
      PastSweepsUnnoticed(After(c, op), rest);
      if op.Sweep? {
        assert ops[0] == op;
        forall key | key in c && c[key].expiresAt <= op.now ensures UsesExpired(rest, key, c[key].expiresAt) {
          LaterUsesExpired(rest, key, c[key].expiresAt);
        }
      }
    }
  }

  /** With one clock that never goes back, sweeps never show. */
  lemma SweepsInvisible<B>(c: Cache<B>, ops: seq<CacheOp<B>>)
    requires SweepsInThePast(ops)
    ensures Answers(c, ops) == Answers(c, WithoutSweeps(ops))
  {
    PastSweepsUnnoticed(c, ops);
    SweepsShowExactlyWhen(c, ops);
  }

  function Final<B>(c: Cache<B>, ops: seq<CacheOp<B>>): Cache<B>
    decreases |ops|
  {
    if ops == [] then c else Final(After(c, ops[0]), ops[1..])
  }

  /** A live row does not change until it expires, whatever gets, puts and sweeps race for it: every
      put of its key loses and every get of its key returns it. */
  lemma {:induction false} FirstWriterWins<B>(c: Cache<B>, ops: seq<CacheOp<B>>, key: Digest)
    requires key in c && forall i {:trigger ops[i]} :: 0 <= i < |ops| ==> ops[i].now < c[key].expiresAt
    ensures key in Final(c, ops) && Final(c, ops)[key] == c[key]
    ensures forall i {:trigger ops[i]} :: 0 <= i < |ops| && !ops[i].Sweep? && ops[i].key == key ==>
              AnswerOf(Final(c, ops[..i]), ops[i]) == if ops[i].Get? then Got(Some(c[key].response)) else Wrote(false)
    decreases |ops|
  {
    if ops != [] {
      var op, rest := ops[0], ops[1..];
      assert op == ops[0];
      var c' := After(c, op);
      assert key in c' && c'[key] == c[key];
      assert forall j :: 0 <= j < |rest| ==> rest[j] == ops[j + 1];
      FirstWriterWins(c', rest, key);
      forall i {:trigger ops[i]} | 0 <= i < |ops| && !ops[i].Sweep? && ops[i].key == key
        ensures AnswerOf(Final(c, ops[..i]), ops[i]) == if ops[i].Get? then Got(Some(c[key].response)) else Wrote(false)
      {
        if i > 0 {
          assert rest[i - 1] == ops[i];
          assert ops[..i][1..] == rest[..i - 1];
        }
      }
    }
  }
}
