/** Which byte strings the reader of modified UTF-8 takes, and which of them writing gives back. */
module UtfReading {
  import opened Bytes
  import opened ModifiedUtf
  import opened Sequences
  import opened Wrappers

  // ---------------------------------------------------------------------------------------
  // One code unit and one code point
  // ---------------------------------------------------------------------------------------

  lemma Digits(p: nat, q: nat, r: nat)
    requires q < 64 && r < 64
    ensures (p * 4096 + q * 64 + r) / 4096 == p
    ensures (p * 4096 + q * 64 + r) / 64 % 64 == q
    ensures (p * 4096 + q * 64 + r) % 64 == r
    ensures (q * 64 + r) / 64 == q && (q * 64 + r) % 64 == r
  {
  }

  lemma Marks(b: byte)
    ensures 0xC0 <= b < 0xE0 ==> 0xC0 + b as int % 32 == b as int
    ensures 0xE0 <= b < 0xF0 ==> 0xE0 + b as int % 16 == b as int
    ensures IsContinuation(b) <==> 0x80 + b as int % 64 == b as int
  {
  }

  /** Writing a unit that was read gives its bytes. */
  lemma UnitOfFirst(b: seq<byte>)
    requires b != [] && FirstUnit(b).First?
    ensures Unit(FirstUnit(b).cp) == b[..FirstUnit(b).width]
  {
    var f := FirstUnit(b);
    Marks(b[0]);
    if f.width == 2 {
      Marks(b[1]);
      Digits(0, b[0] as int % 32, b[1] as int % 64);
    } else if f.width == 3 {
      Marks(b[1]);
      Marks(b[2]);
      Digits(b[0] as int % 16, b[1] as int % 64, b[2] as int % 64);
    }
  }

  /** The second half of a surrogate pair ends in two continuation bytes; the reader does not look. */
  predicate PairEnds(b: seq<byte>, width: nat)
    requires width <= |b|
  {
    width == 6 ==> IsContinuation(b[4]) && IsContinuation(b[5])
  }

  /** Writing a code point that was read gives as many bytes, and the same just when a pair ends properly. */
  lemma UnitsOfFirst(b: seq<byte>)
    requires b != [] && FirstModified(b).First?
    ensures
      var f := FirstModified(b);
      |Units(f.cp)| == f.width && (Units(f.cp) == b[..f.width] <==> PairEnds(b, f.width))
  {
    UnitOfFirst(b);
    var unit := FirstUnit(b);
    if 0xD800 <= unit.cp <= 0xDBFF {
      PairOfFirst(b, unit.cp);
    }
  }

  lemma LowUnit(x: byte, y: byte, z: byte)
    requires 0xE0 <= x < 0xF0
    ensures
      var low := x as int % 16 * 4096 + y as int % 64 * 64 + z as int % 64;
      0xDC00 <= low <= 0xDFFF ==> Unit(low) == [x, B(0x80 + y as int % 64), B(0x80 + z as int % 64)]
  {
    Digits(x as int % 16, y as int % 64, z as int % 64);
    Marks(x);
  }

  /** What is written for a pair that was read. */
  lemma PairForm(b: seq<byte>, high: nat)
    requires b != [] && FirstUnit(b) == First(high, 3) && 0xD800 <= high <= 0xDBFF && FirstModified(b).First?
    ensures FirstModified(b).width == 6
    ensures Units(FirstModified(b).cp) == b[..3] + [b[3], B(0x80 + b[4] as int % 64), B(0x80 + b[5] as int % 64)]
  {
    UnitOfFirst(b);
    var low := b[3] as int % 16 * 4096 + b[4] as int % 64 * 64 + b[5] as int % 64;
    PairSplits(high, low);
    LowUnit(b[3], b[4], b[5]);
    assert Units(FirstModified(b).cp) == Unit(high) + Unit(low);
  }

  lemma PairOfFirst(b: seq<byte>, high: nat)
    requires b != [] && FirstUnit(b) == First(high, 3) && 0xD800 <= high <= 0xDBFF && FirstModified(b).First?
    ensures
      var f := FirstModified(b);
      f.width == 6 && |Units(f.cp)| == 6 && (Units(f.cp) == b[..6] <==> PairEnds(b, 6))
  {
    PairForm(b, high);
    Marks(b[4]);
    Marks(b[5]);
    assert b[..6] == b[..3] + [b[3], b[4], b[5]];
    LastThree(b[..3], [b[3], B(0x80 + b[4] as int % 64), B(0x80 + b[5] as int % 64)], [b[3], b[4], b[5]]);
  }

  lemma PairSplits(high: nat, low: nat)
    requires 0xD800 <= high <= 0xDBFF && 0xDC00 <= low <= 0xDFFF
    ensures
      var n := (high - 0xD800) * 1024 + (low - 0xDC00);
      n / 1024 == high - 0xD800 && n % 1024 == low - 0xDC00
  {
  }

  lemma LastThree(a: seq<byte>, b: seq<byte>, c: seq<byte>)
    requires |b| == |c|
    ensures a + b == a + c <==> b == c
  {
    Pieces(a, b);
    Pieces(a, c);
  }

  // ---------------------------------------------------------------------------------------
  // Whole strings
  // ---------------------------------------------------------------------------------------

  /** Every surrogate pair ends in two continuation bytes. */
  ghost predicate PairsProper(b: seq<byte>) {
    b == [] ||
    (var f := FirstModified(b);
     f.First? ==> PairEnds(b, f.width) && PairsProper(b[f.width..]))
  }

  /** A string that was read is written with as many bytes, and the same just when its pairs are proper. */
  lemma {:induction false} WriteBack(b: seq<byte>)
    requires Decoded(b).Some?
    ensures
      var e := Encoded(Decoded(b).value);
      e.Some? && |e.value| == |b| && (e.value == b <==> PairsProper(b))
  {
    if b != [] {
      var f := FirstModified(b);
      var s := Decoded(b[f.width..]).value;
      WriteBack(b[f.width..]);
      UnitsOfFirst(b);
      FirstOfUtf8(f.cp, s);
      Pieces(Utf8(f.cp), s);
      SameHalves(Units(f.cp), Encoded(s).value, b);
    }
  }

  // ---------------------------------------------------------------------------------------
  // Which strings are read
  // ---------------------------------------------------------------------------------------

  /** The units `u` of a code point, but for the upper bits of the bytes the reader does not look at. */
  predicate Close(x: seq<byte>, u: seq<byte>) {
    && |x| == |u|
    && forall j :: 0 <= j < |u| ==> x[j] == u[j] || (|u| == 6 && j >= 4 && x[j] as int % 64 == u[j] as int % 64)
  }

  ghost predicate AllScalars(cps: seq<nat>) {
    forall k :: 0 <= k < |cps| ==> IsScalar(cps[k])
  }

  /** The units of the code points one after the other, each but for those bits. */
  ghost predicate Resembles(b: seq<byte>, cps: seq<nat>)
    requires AllScalars(cps)
    decreases |cps|
  {
    if cps == [] then b == []
    else
      assert IsScalar(cps[0]);
      var u := Units(cps[0]);
      |u| <= |b| && Close(b[..|u|], u) && Resembles(b[|u|..], cps[1..])
  }

  lemma CloseReads(b: seq<byte>, cp: nat)
    requires IsScalar(cp) && |Units(cp)| <= |b| && Close(b[..|Units(cp)|], Units(cp))
    ensures FirstModified(b) == First(cp, |Units(cp)|)
  {
    var u := Units(cp);
    var exact := u + b[|u|..];
    FirstOfUnits(cp, b[|u|..]);
    if |u| == 6 {
      assert exact[..4] == u[..4] && b[..4] == b[..6][..4];
      assert forall j :: 0 <= j < 4 ==> b[j] == b[..6][j] && exact[j] == u[j];
      assert forall j :: 4 <= j < 6 ==> b[j] == b[..6][j] && exact[j] == u[j];
      SameUnit(b, exact);
    } else {
      assert b[..|u|] == u;
      Halves(b, |u|);
    }
  }

  lemma SameUnit(a: seq<byte>, b: seq<byte>)
    requires |a| == |b| >= 6 && a[..4] == b[..4] && a[4] as int % 64 == b[4] as int % 64 &&
        a[5] as int % 64 == b[5] as int % 64
    requires FirstModified(b).First? && FirstModified(b).width == 6
    ensures FirstModified(a) == FirstModified(b)
  {
    assert forall j :: 0 <= j < 4 ==> a[j] == a[..4][j] && b[j] == b[..4][j];
    assert FirstUnit(a) == FirstUnit(b);
  }

  lemma ReadsClose(b: seq<byte>)
    requires b != [] && FirstModified(b).First?
    ensures var f := FirstModified(b); |Units(f.cp)| == f.width && Close(b[..f.width], Units(f.cp))
  {
    UnitOfFirst(b);
    UnitsOfFirst(b);
    var unit := FirstUnit(b);
    if 0xD800 <= unit.cp <= 0xDBFF {
      PairForm(b, unit.cp);
      CloseForm(b);
    }
  }

  lemma CloseForm(b: seq<byte>)
    requires |b| >= 6
    ensures Close(b[..6], b[..3] + [b[3], B(0x80 + b[4] as int % 64), B(0x80 + b[5] as int % 64)])
  {
    LowBits(b[4] as int % 64);
    LowBits(b[5] as int % 64);
  }

  lemma {:induction false} ResemblingIsRead(b: seq<byte>, cps: seq<nat>)
    requires AllScalars(cps) && Resembles(b, cps)
    ensures Decoded(b) == Some(Utf8All(cps))
    decreases |cps|
  {
    if cps != [] {
      assert IsScalar(cps[0]);
      CloseReads(b, cps[0]);
      ResemblingIsRead(b[|Units(cps[0])|..], cps[1..]);
    }
  }

  lemma {:induction false} ReadResembles(b: seq<byte>) returns (cps: seq<nat>)
    requires Decoded(b).Some?
    ensures AllScalars(cps) && Resembles(b, cps) && Decoded(b).value == Utf8All(cps)
  {
    if b == [] {
      cps := [];
    } else {
      var f := FirstModified(b);
      ReadsClose(b);
      var rest := ReadResembles(b[f.width..]);
      cps := [f.cp] + rest;
      assert cps[1..] == rest;
    }
  }

  /** The reader takes exactly the strings that are the units of some code points but for those bits, and
      returns those code points. */
  lemma ReadJustWhen(b: seq<byte>, s: seq<byte>)
    ensures Decoded(b) == Some(s) <==> exists cps :: AllScalars(cps) && Resembles(b, cps) && s == Utf8All(cps)
  {
    if Decoded(b) == Some(s) {
      var cps := ReadResembles(b);
    }
    if cps :| AllScalars(cps) && Resembles(b, cps) && s == Utf8All(cps) {
      ResemblingIsRead(b, cps);
    }
  }

  /** Code points of one to four bytes of UTF-8 and what is written for them. */
  lemma KnownUnits()
    ensures Utf8(0x41) == [0x41] == Units(0x41) && Utf8(0) == [0] && Units(0) == [0xC0, 0x80]
    ensures Utf8(0xE9) == [0xC3, 0xA9] == Units(0xE9) && Utf8(0x20AC) == [0xE2, 0x82, 0xAC] == Units(0x20AC)
    ensures Utf8(0x1_F600) == [0xF0, 0x9F, 0x98, 0x80] && Units(0x1_F600) == [0xED, 0xA0, 0xBD, 0xED, 0xB8, 0x80]
  {
  }

  /** A pair whose last two bytes are no continuation bytes is read, and written differently. */
  lemma ImproperPair()
    ensures Decoded([0xED, 0xA0, 0x80, 0xED, 0x30, 0x00]) == Some(Utf8(0x1_0000))
    ensures !PairsProper([0xED, 0xA0, 0x80, 0xED, 0x30, 0x00])
  {
    var b: seq<byte> := [0xED, 0xA0, 0x80, 0xED, 0x30, 0x00];
    assert FirstUnit(b) == First(0xD800, 3);
    assert FirstModified(b) == First(0x1_0000, 6);
    assert b[6..] == [] && Utf8(0x1_0000) + [] == Utf8(0x1_0000);
  }
}
