/** Bytes and big-endian integers, as `src/protocol/codec.cpp` and `src/world/storage.cpp` write and
    read them: `BigEndian(v, n)` is the loop that pushes `v >> 8 * (n - 1)` down to `v >> 0`, and
    `FromBigEndian` the loop that folds `value << 8 | byte`. */
module Bytes {
  import opened Arithmetic

  newtype byte = x: int | 0 <= x < 256

  /** 256 to the power of `n`. */
  function Range(n: nat): (r: nat)
    ensures r > 0
  {
    if n == 0 then 1 else 256 * Range(n - 1)
  }

  lemma RangeValues()
    ensures Range(1) == 0x100 && Range(2) == 0x1_0000 && Range(4) == 0x1_0000_0000 &&
        Range(8) == 0x1_0000_0000_0000_0000
  {
    assert Range(3) == 256 * Range(2) && Range(4) == 256 * Range(3);
    assert Range(5) == 256 * Range(4) && Range(6) == 256 * Range(5);
    assert Range(7) == 256 * Range(6) && Range(8) == 256 * Range(7);
  }

  function BigEndian(v: nat, n: nat): (b: seq<byte>)
    ensures |b| == n
  {
    if n == 0 then [] else BigEndian(v / 256, n - 1) + [(v % 256) as byte]
  }

  function FromBigEndian(b: seq<byte>): nat {
    if b == [] then 0 else FromBigEndian(b[..|b| - 1]) * 256 + b[|b| - 1] as int
  }

  lemma {:induction false} BigEndianRoundTrip(v: nat, n: nat)
    requires v < Range(n)
    ensures FromBigEndian(BigEndian(v, n)) == v
  {
    if n > 0 {
      BigEndianRoundTrip(v / 256, n - 1);
      assert BigEndian(v, n)[..n - 1] == BigEndian(v / 256, n - 1);
    }
  }

  lemma RangeDivides(v: nat, n: nat)
    ensures v / 256 / Range(n) == v / Range(n + 1)
  {
    var q, r := v / 256, v % 256;
    var k, l := q / Range(n), q % Range(n);
    assert q == k * Range(n) + l && v == 256 * q + r;
    DivModUnique(v, Range(n + 1), k, 256 * l + r);
  }

  /** Byte `i` holds the bits from `8 * (n - 1 - i)` on: the most significant byte comes first. */
  lemma {:induction false} BigEndianAt(v: nat, n: nat, i: nat)
    requires i < n
    ensures BigEndian(v, n)[i] as int == v / Range(n - 1 - i) % 256
  {
    if i < n - 1 {
      BigEndianAt(v / 256, n - 1, i);
      RangeDivides(v, n - 2 - i);
    } else {
      assert Range(0) == 1 && v / 1 == v;
    }
  }

  lemma {:induction false} FromBigEndianRange(b: seq<byte>)
    ensures FromBigEndian(b) < Range(|b|)
  {
    if b != [] {
      FromBigEndianRange(b[..|b| - 1]);
    }
  }

  lemma {:induction false} FromBigEndianRoundTrip(b: seq<byte>)
    ensures BigEndian(FromBigEndian(b), |b|) == b
  {
    if b != [] {
      FromBigEndianRoundTrip(b[..|b| - 1]);
    }
  }

  // ---------------------------------------------------------------------------------------
  // Two's complement, for the casts between signed and unsigned integers of n bytes
  // ---------------------------------------------------------------------------------------

  predicate IsSigned(v: int, n: nat) {
    0 <= 2 * v + Range(n) && 2 * v < Range(n)
  }

  lemma SignedRanges(v: int)
    ensures IsSigned(v, 1) <==> -128 <= v <= 127
    ensures IsSigned(v, 2) <==> -32768 <= v <= 32767
    ensures IsSigned(v, 4) <==> -0x8000_0000 <= v <= 0x7FFF_FFFF
    ensures IsSigned(v, 8) <==> -0x8000_0000_0000_0000 <= v <= 0x7FFF_FFFF_FFFF_FFFF
  {
    RangeValues();
  }

  function ToUnsigned(v: int, n: nat): (u: nat)
    requires IsSigned(v, n)
    ensures u < Range(n)
  {
    if v < 0 then v + Range(n) else v
  }

  function ToSigned(u: nat, n: nat): int
    requires u < Range(n)
  {
    if 2 * u < Range(n) then u else u - Range(n)
  }

  lemma SignedRoundTrip(v: int, n: nat)
    requires IsSigned(v, n)
    ensures ToSigned(ToUnsigned(v, n), n) == v
  {
    if 0 <= v {
    } else {
    }
  }

  /** The bytes of a signed integer, and back. */
  function EncodeSigned(v: int, n: nat): (b: seq<byte>)
    requires IsSigned(v, n)
    ensures |b| == n
  {
    BigEndian(ToUnsigned(v, n), n)
  }

  function DecodeSigned(b: seq<byte>): int {
    FromBigEndianRange(b);
    ToSigned(FromBigEndian(b), |b|)
  }

  lemma EncodeSignedRoundTrip(v: int, n: nat)
    requires IsSigned(v, n)
    ensures DecodeSigned(EncodeSigned(v, n)) == v
  {
    BigEndianRoundTrip(ToUnsigned(v, n), n);
    SignedRoundTrip(v, n);
  }

  lemma DecodeSignedRoundTrip(b: seq<byte>)
    requires b != []
    ensures IsSigned(DecodeSigned(b), |b|) && EncodeSigned(DecodeSigned(b), |b|) == b
  {
    FromBigEndianRange(b);
    FromBigEndianRoundTrip(b);
  }
}
