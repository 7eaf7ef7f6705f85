/** The byte string hashed into an idempotency key: four length-prefixed, '|'-terminated parts. */
module KeyEncoding {
  import opened Common

  newtype Byte = x: int | 0 <= x < 256

  type Bytes = seq<Byte>

  const BAR: Byte := 124  // b'|'

  function Pow256(n: nat): (p: nat)
    ensures p > 0
  {
    if n == 0 then 1 else 256 * Pow256(n - 1)
  }

  /** The low `width` bytes of n, most significant first: (n as u64).to_be_bytes() for width 8. */
  function BigEndian(n: nat, width: nat): (b: Bytes)
    ensures |b| == width
  {
    if width == 0 then [] else BigEndian(n / 256, width - 1) + [(n % 256) as Byte]
  }

  function FromBigEndian(b: Bytes): nat {
    if b == [] then 0 else 256 * FromBigEndian(b[..|b| - 1]) + b[|b| - 1] as int
  }

  lemma {:induction false} BigEndianRoundTrip(n: nat, width: nat)
    requires n < Pow256(width)
    ensures FromBigEndian(BigEndian(n, width)) == n
  {
    if width > 0 {
      BigEndianRoundTrip(n / 256, width - 1);
      var b := BigEndian(n, width);
      assert b[..|b| - 1] == BigEndian(n / 256, width - 1);
    }
  }

  lemma DivDiv(n: nat, p: nat)
    requires p > 0
    ensures (n / 256) / p == n / (256 * p)
  {
    var q := n / (256 * p);
    var r := n - 256 * p * q;
    assert 0 <= r < 256 * p && n == 256 * (p * q) + r;
    assert n / 256 == p * q + r / 256 && r / 256 < p;
    assert (p * q + r / 256) / p == q by {
      FloorUnique(p * q + r / 256, p, q, r / 256);
    }
  }

  lemma TimesGrows(p: nat, a: nat, b: nat)
    ensures a <= b ==> p * a <= p * b
  {
  }

  lemma FloorUnique(n: nat, p: nat, q: nat, r: nat)
    requires p > 0 && n == p * q + r && r < p
    ensures n / p == q
  {
    assert n == p * (n / p) + n % p;
    TimesGrows(p, n / p + 1, q);
    TimesGrows(p, q + 1, n / p);
  }

  /** Byte j is the digit of weight 256^(width - 1 - j): most significant first. */
  lemma {:induction false} BigEndianDigit(n: nat, width: nat, j: nat)
    requires j < width
    ensures BigEndian(n, width)[j] as int == n / Pow256(width - 1 - j) % 256
  {
    if j < width - 1 {
      BigEndianDigit(n / 256, width - 1, j);
      DivDiv(n, Pow256(width - 2 - j));
    }
  }

  function EncodePart(part: Bytes): Bytes {
    BigEndian(|part|, 8) + part + [BAR]
  }

  function Encode(parts: seq<Bytes>): Bytes {
    if parts == [] then [] else EncodePart(parts[0]) + Encode(parts[1..])
  }

  /** Read the parts back. None if the bytes are not an encoding. */
  function Decode(b: Bytes): Option<seq<Bytes>>
    decreases |b|
  {
    if b == [] then Some([])
    else if |b| < 9 then None
    else
      var n := FromBigEndian(b[..8]);
      if |b| < n + 9 || b[8 + n] != BAR then None
      else
        match Decode(b[n + 9..])
        case None => None
        case Some(rest) => Some([b[8..8 + n]] + rest)
  }

  predicate Encodable(parts: seq<Bytes>) {
    forall p :: p in parts ==> |p| < 0x1_0000_0000_0000_0000
  }

  lemma EightBytes()
    ensures Pow256(8) == 0x1_0000_0000_0000_0000
  {
    assert Pow256(4) == 0x1_0000_0000;
  }

  lemma DecodeFirst(first: Bytes, tail: Bytes)
    requires |first| < 0x1_0000_0000_0000_0000
    ensures var b := EncodePart(first) + tail;
            |b| >= |first| + 9 && FromBigEndian(b[..8]) == |first| && b[8 + |first|] == BAR
            && b[8..8 + |first|] == first && b[|first| + 9..] == tail
  {
    var b := EncodePart(first) + tail;
    EightBytes();
    BigEndianRoundTrip(|first|, 8);
    assert b[..8] == BigEndian(|first|, 8);
  }

  lemma DecodeStep(first: Bytes, tail: Bytes, rest: seq<Bytes>)
    requires |first| < 0x1_0000_0000_0000_0000 && Decode(tail) == Some(rest)
    ensures Decode(EncodePart(first) + tail) == Some([first] + rest)
  {
    DecodeFirst(first, tail);
  }

  /** Whatever the parts contain, '|' included, decoding gives them back. */
  lemma {:induction false} DecodeEncode(parts: seq<Bytes>)
    requires Encodable(parts)
    ensures Decode(Encode(parts)) == Some(parts)
    decreases |parts|
  {
    if parts != [] {
      DecodeEncode(parts[1..]);
      DecodeStep(parts[0], Encode(parts[1..]), parts[1..]);
      assert parts == [parts[0]] + parts[1..];
    }
  }

  /** Distinct tuples have distinct preimages. */
  lemma EncodeInjective(parts: seq<Bytes>, parts': seq<Bytes>)
    requires Encodable(parts) && Encodable(parts')
    ensures Encode(parts) == Encode(parts') <==> parts == parts'
  {
    DecodeEncode(parts);
    DecodeEncode(parts');
  }

  /** Each part is fed as its length in eight bytes, most significant first, its bytes, and a '|'. */
  lemma PartExactly(part: Bytes)
    ensures var b := EncodePart(part);
            |b| == |part| + 9 && b[8..|part| + 8] == part && b[|part| + 8] as int == 124
            && forall j :: 0 <= j < 8 ==> b[j] as int == |part| / Pow256(7 - j) % 256
  {
    var b := EncodePart(part);
    forall j | 0 <= j < 8 ensures b[j] as int == |part| / Pow256(7 - j) % 256 {
      BigEndianDigit(|part|, 8, j);
      assert b[j] == BigEndian(|part|, 8)[j];
    }
  }

  /** A SHA-256 digest in hexadecimal, taken to be collision-free: it determines what was hashed. */
  datatype Digest = Sha256Hex(preimage: Bytes)

  function ScopedKey(svcId: Bytes, verb: Bytes, path: Bytes, rawKey: Bytes): Digest {
    Sha256Hex(Encode([svcId, verb, path, rawKey]))
  }

  lemma EncodeCons(first: Bytes, rest: seq<Bytes>)
    ensures Encode([first] + rest) == EncodePart(first) + Encode(rest)
  {
    assert ([first] + rest)[1..] == rest;
  }

  lemma Associative(a: Bytes, b: Bytes, c: Bytes)
    ensures (a + b) + c == a + (b + c)
  {
  }

  lemma {:induction false} EncodeAppend(parts: seq<Bytes>, part: Bytes)
    ensures Encode(parts + [part]) == Encode(parts) + EncodePart(part)
    decreases |parts|
  {
    if parts == [] {
      EncodeCons(part, []);
      assert parts + [part] == [part] + [];
    } else {
      var first, rest := parts[0], parts[1..];
      EncodeAppend(rest, part);
      EncodeCons(first, rest);
      EncodeCons(first, rest + [part]);
      assert parts == [first] + rest && parts + [part] == [first] + (rest + [part]);
      Associative(EncodePart(first), Encode(rest), EncodePart(part));
    }
  }

  /** The hasher is fed length, bytes and separator of each part in turn. */
  method ScopedIdempotencyKey(svcId: Bytes, verb: Bytes, path: Bytes, rawKey: Bytes) returns (key: Digest)
    ensures key == ScopedKey(svcId, verb, path, rawKey)
  {
    var fed: Bytes := [];
    var parts := [svcId, verb, path, rawKey];
    for i := 0 to |parts|
      invariant fed == Encode(parts[..i])
    {
      var part := parts[i];
      EncodeAppend(parts[..i], part);
      assert parts[..i + 1] == parts[..i] + [part];
      assert fed + BigEndian(|part|, 8) + part + [BAR] == fed + EncodePart(part);
      fed := fed + BigEndian(|part|, 8);
      fed := fed + part;
      fed := fed + [BAR];
    }
    assert parts[..|parts|] == parts;
    key := Sha256Hex(fed);
  }

  /** Two requests share a cache key only if service, method, path and raw key all agree. */
  lemma ScopedKeyInjective(a: seq<Bytes>, b: seq<Bytes>)
    requires |a| == 4 && |b| == 4 && Encodable(a) && Encodable(b)
    ensures ScopedKey(a[0], a[1], a[2], a[3]) == ScopedKey(b[0], b[1], b[2], b[3]) <==> a == b
  {
    assert a == [a[0], a[1], a[2], a[3]] && b == [b[0], b[1], b[2], b[3]];
    EncodeInjective(a, b);
  }
}
