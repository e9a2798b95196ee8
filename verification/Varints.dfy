/** The variable-length integers of the protocol (src/protocol/codec.cpp): seven bits a byte, low bits
    first, the top bit set on every byte but the last. */
module Varints {
  import opened Arithmetic
  import opened Bytes
  import opened Wrappers

  /** The bytes of an unsigned value. */
  function Groups(v: nat): (b: seq<byte>)
    ensures b != []
  {
    if v < 128 then [v as byte] else [(128 + v % 128) as byte] + Groups(v / 128)
  }

  lemma Seven(i: nat)
    requires i > 0
    ensures Pow2(7) == 128 && Pow2(7 * i) == 128 * Pow2(7 * (i - 1))
  {
    assert Pow2(7) == 2 * Pow2(6) && Pow2(6) == 2 * Pow2(5) && Pow2(5) == 2 * Pow2(4);
    assert Pow2(4) == 2 * Pow2(3) && Pow2(3) == 2 * Pow2(2) && Pow2(2) == 2 * Pow2(1) && Pow2(1) == 2 * Pow2(0);
    Pow2Sum(7, 7 * (i - 1));
  }

  lemma ShiftOn(v: nat, i: nat)
    requires i > 0
    ensures v / Pow2(7 * i) == v / 128 / Pow2(7 * (i - 1))
  {
    Seven(i);
    HighTwice(v % 128, 128, v / 128, Pow2(7 * (i - 1)));
  }

  lemma ShiftNone(v: nat)
    ensures v / Pow2(7 * 0) == v
  {
    assert Pow2(7 * 0) == 1;
  }

  /** Byte `i` holds seven bits from `7 * i` on, and the top bit when it is not the last; there are no more
      bytes than the value needs. */
  lemma {:induction false} GroupAt(v: nat, i: nat)
    requires i < |Groups(v)|
    ensures Groups(v)[i] as int == v / Pow2(7 * i) % 128 + if i < |Groups(v)| - 1 then 128 else 0
    ensures i == |Groups(v)| - 1 && i > 0 ==> v / Pow2(7 * i) > 0
    decreases v
  {
    if i == 0 {
      ShiftNone(v);
    } else {
      GroupAt(v / 128, i - 1);
      ShiftOn(v, i);
      ShiftNone(v / 128);
    }
  }

  datatype Read = Read(value: nat, rest: seq<byte>)

  /** `read_varint` with `taken` bytes read: at most five, the fifth carrying only four bits. */
  function ReadGroups(b: seq<byte>, taken: nat): (r: Option<Read>)
    ensures r.Some? ==> |r.value.rest| < |b|
    decreases 5 - taken
  {
    if taken >= 5 || b == [] || (taken == 4 && b[0] >= 16) then None
    else if b[0] < 128 then Some(Read(b[0] as nat, b[1..]))
    else
      var more := ReadGroups(b[1..], taken + 1);
      if more.None? then None else Some(Read(b[0] as nat - 128 + 128 * more.value.value, more.value.rest))
  }

  /** The largest value that fits the bytes still to come. */
  function Limit(taken: nat): nat
    requires taken <= 4
  {
    if taken == 4 then 0x10 else if taken == 3 then 0x800 else if taken == 2 then 0x4_0000
    else if taken == 1 then 0x200_0000 else 0x1_0000_0000
  }

  lemma LimitNext(v: nat, taken: nat)
    requires taken <= 4 && 128 <= v < Limit(taken)
    ensures taken < 4 && v / 128 < Limit(taken + 1)
  {
  }

  lemma Behind(first: byte, more: seq<byte>, rest: seq<byte>)
    ensures ([first] + more + rest)[0] == first && ([first] + more + rest)[1..] == more + rest
  {
  }

  lemma {:induction false} GroupsRoundTrip(v: nat, taken: nat, rest: seq<byte>)
    requires taken <= 4 && v < Limit(taken)
    ensures ReadGroups(Groups(v) + rest, taken) == Some(Read(v, rest))
    decreases v
  {
    if v < 128 {
      Behind(v as byte, [], rest);
      assert Groups(v) + rest == [v as byte] + [] + rest;
    } else {
      LimitNext(v, taken);
      GroupsRoundTrip(v / 128, taken + 1, rest);
      Behind((128 + v % 128) as byte, Groups(v / 128), rest);
    }
  }

  /** `write_varint` of a 32-bit value. */
  method WriteVarint(output: seq<byte>, value: int) returns (r: seq<byte>)
    requires IsSigned(value, 4)
    ensures r == output + Groups(ToUnsigned(value, 4))
  {
    var remaining := ToUnsigned(value, 4);
    ghost var whole := output + Groups(remaining);
    r := output;
    var more := true;
    while more
      invariant if more then r + Groups(remaining) == whole else r == whole
      decreases more, remaining
    {
      var low := remaining % 128;
      ghost var was := r;
      if remaining / 128 != 0 {
        r := r + [(128 + low) as byte];
        assert was + Groups(remaining) == r + Groups(remaining / 128);
      } else {
        r := r + [low as byte];
      }
      remaining := remaining / 128;
      more := remaining != 0;
    }
  }

  /** `read_varint`, for the sign too. */
  function ReadVarint(b: seq<byte>): Option<(int, seq<byte>)> {
    var r := ReadGroups(b, 0);
    if r.None? then None
    else
      ReadRange(b, 0);
      RangeValues();
      Some((ToSigned(r.value.value, 4), r.value.rest))
  }

  lemma {:induction false} ReadRange(b: seq<byte>, taken: nat)
    ensures taken <= 4 && ReadGroups(b, taken).Some? ==> ReadGroups(b, taken).value.value < Limit(taken)
    decreases 5 - taken
  {
    if taken <= 3 && b != [] {
      ReadRange(b[1..], taken + 1);
    }
  }

  /** Every 32-bit value reads back, whatever follows it. */
  lemma VarintRoundTrip(value: int, rest: seq<byte>)
    requires IsSigned(value, 4)
    ensures ReadVarint(Groups(ToUnsigned(value, 4)) + rest) == Some((value, rest))
  {
    RangeValues();
    GroupsRoundTrip(ToUnsigned(value, 4), 0, rest);
    SignedRoundTrip(value, 4);
  }
}
