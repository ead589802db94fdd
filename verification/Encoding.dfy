/** Fixed-width little-endian integers, as memcpy leaves them in a buffer, and a compressor seen from
    outside. */
module Encoding {
  import opened Common
  import opened SortedEntries

  /** The number of values that `width` bytes can hold. */
  function Capacity(width: nat): (c: nat)
    ensures c >= 1
  {
    if width == 0 then 1 else 256 * Capacity(width - 1)
  }

  const MAX_U64: nat := Capacity(8)

  /** The low `width` bytes of `n`, lowest first. */
  function Encode(n: nat, width: nat): (b: Bytes)
    ensures |b| == width
  {
    if width == 0 then [] else [(n % 256) as Byte] + Encode(n / 256, width - 1)
  }

  lemma QuotientIs(n: nat, d: nat, q: nat, r: nat)
    requires n == d * q + r && r < d
    ensures n / d == q
  {
    var m := n / d;
    assert m > q ==> d * m >= d * (q + 1);
    assert m < q ==> d * (m + 1) <= d * q;
  }

  lemma DivideTwice(n: nat, c: nat)
    requires c > 0
    ensures n / 256 / c == n / (256 * c)
  {
    var (q, r) := (n / 256 / c, n / 256 % c);
    assert n / 256 == c * q + r;
    assert n == (256 * c) * q + (256 * r + n % 256);
    QuotientIs(n, 256 * c, q, 256 * r + n % 256);
  }

  /** Byte `i` counts the multiples of 256 to the power of `i`: the lowest byte comes first. */
  lemma {:induction false} EncodeAt(n: nat, width: nat, i: nat)
    requires i < width
    ensures Encode(n, width)[i] == n / Capacity(i) % 256
  {
    if i > 0 {
      EncodeAt(n / 256, width - 1, i - 1);
      DivideTwice(n, Capacity(i - 1));
    }
  }

  function Decode(b: Bytes): (n: nat)
    ensures n < Capacity(|b|)
  {
    if |b| == 0 then 0 else b[0] + 256 * Decode(b[1..])
  }

  /** A number that fits is read back as it was written. */
  lemma {:induction false} DecodeEncode(n: nat, width: nat)
    requires n < Capacity(width)
    ensures Decode(Encode(n, width)) == n
  {
    if width > 0 {
      DecodeEncode(n / 256, width - 1);
      assert Encode(n, width)[1..] == Encode(n / 256, width - 1);
    }
  }

  /** Any bytes are written back as they were read. */
  lemma {:induction false} EncodeDecode(b: Bytes)
    ensures Encode(Decode(b), |b|) == b
  {
    if |b| > 0 {
      EncodeDecode(b[1..]);
      assert Decode(b) % 256 == b[0] && Decode(b) / 256 == Decode(b[1..]);
      assert b == [b[0]] + b[1..];
    }
  }

  lemma {:induction false} DecodeZeros(b: Bytes)
    requires forall i :: 0 <= i < |b| ==> b[i] == 0
    ensures Decode(b) == 0
  {
    if |b| > 0 { DecodeZeros(b[1..]); }
  }

  lemma {:induction false} EncodeZero(width: nat)
    ensures forall i :: 0 <= i < width ==> Encode(0, width)[i] == 0
  {
    if width > 0 { EncodeZero(width - 1); }
  }

  function U64(n: nat): (b: Bytes)
    ensures |b| == 8
  {
    Encode(n, 8)
  }

  /** What a memcpy of eight bytes from the given place reads. */
  function U64At(b: Bytes, at: nat): (n: nat)
    requires at + 8 <= |b|
    ensures n < MAX_U64
  {
    Decode(b[at..at + 8])
  }

  lemma U64RoundTrip(b: Bytes, at: nat, n: nat)
    requires at + 8 <= |b| && b[at..at + 8] == U64(n) && n < MAX_U64
    ensures U64At(b, at) == n
  {
    DecodeEncode(n, 8);
  }

  /** Snappy, or any other compressor that gives the input back and does not more than double it, up to a
      small constant. */
  datatype Codec = Codec(compress: Bytes -> Bytes, uncompress: Bytes -> Bytes) {
    ghost predicate Lossless() {
      && (forall b :: uncompress(compress(b)) == b)
      && (forall b :: |compress(b)| <= 32 + 2 * |b|)
    }
  }
}
