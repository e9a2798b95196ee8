/** Strings in NBT: UTF-8 (section 3 of RFC 3629) in memory, modified UTF-8 (section 4.4.7 of the Java
    Virtual Machine Specification) on the wire.

    Masks and shifts are written as ranges, remainders and quotients: `(b & 0xE0) == 0xC0` is
    `0xC0 <= b < 0xE0`, `b & 0x3F` is `b % 64`, `u >> 6` is `u / 64`, and an or of disjoint bits is a sum. */
module ModifiedUtf {
  import opened Bytes
  import opened Wrappers

  function B(n: int): byte
    requires 0 <= n < 256
  {
    n as byte
  }

  predicate IsScalar(cp: int) {
    0 <= cp <= 0x10_FFFF && !(0xD800 <= cp <= 0xDFFF)
  }

  predicate IsContinuation(b: byte) {
    0x80 <= b < 0xC0
  }

  // ---------------------------------------------------------------------------------------
  // UTF-8
  // ---------------------------------------------------------------------------------------

  /** The UTF-8 form of a code point, as the reader appends it. */
  function Utf8(cp: nat): (b: seq<byte>)
    requires cp <= 0x10_FFFF
    ensures 1 <= |b| <= 4
  {
    if cp <= 0x7F then [B(cp)]
    else if cp <= 0x7FF then [B(0xC0 + cp / 64), B(0x80 + cp % 64)]
    else if cp <= 0xFFFF then [B(0xE0 + cp / 4096), B(0x80 + cp / 64 % 64), B(0x80 + cp % 64)]
    else [B(0xF0 + cp / 262144), B(0x80 + cp / 4096 % 64), B(0x80 + cp / 64 % 64), B(0x80 + cp % 64)]
  }

  function Utf8All(cps: seq<nat>): seq<byte>
    requires forall k :: 0 <= k < |cps| ==> IsScalar(cps[k])
  {
    if cps == [] then []
    else
      assert IsScalar(cps[0]);
      Utf8(cps[0]) + Utf8All(cps[1..])
  }

  /** Well-formed UTF-8: the encoding of some scalar values. */
  ghost predicate ValidUtf8(s: seq<byte>) {
    exists cps: seq<nat> :: (forall k :: 0 <= k < |cps| ==> IsScalar(cps[k])) && s == Utf8All(cps)
  }

  datatype First = First(cp: nat, width: nat) | Malformed

  /** The code point accumulated over continuation bytes. */
  function Folded(lead: nat, bytes: seq<byte>): nat {
    if bytes == [] then lead else Folded(lead, bytes[..|bytes| - 1]) * 64 + bytes[|bytes| - 1] as int % 64
  }

  lemma FoldedForms(lead: nat, s: seq<byte>, n: nat)
    requires n <= 3 && n < |s|
    ensures n == 0 ==> Folded(lead, s[1..1 + n]) == lead
    ensures n == 1 ==> Folded(lead, s[1..1 + n]) == lead * 64 + s[1] as int % 64
    ensures n == 2 ==> Folded(lead, s[1..1 + n]) == (lead * 64 + s[1] as int % 64) * 64 + s[2] as int % 64
    ensures n == 3 ==> Folded(lead, s[1..1 + n]) ==
                       ((lead * 64 + s[1] as int % 64) * 64 + s[2] as int % 64) * 64 + s[3] as int % 64
  {
    if n > 0 {
      assert s[1..1 + n][..n - 1] == s[1..n];
      FoldedForms(lead, s, n - 1);
    }
  }

  /** How many continuation bytes a lead byte announces, and the bits it brings along. */
  function Lead(first: byte): Option<(nat, nat)> {
    if first < 0x80 then Some((0, first as int))
    else if 0xC0 <= first < 0xE0 then Some((1, first as int % 32))
    else if 0xE0 <= first < 0xF0 then Some((2, first as int % 16))
    else if 0xF0 <= first < 0xF8 then Some((3, first as int % 8))
    else None
  }

  predicate AllContinuations(b: seq<byte>) {
    forall k :: 0 <= k < |b| ==> IsContinuation(b[k])
  }

  /** The first code point of a string as the writer reads it.  Forms longer than needed pass. */
  function FirstUtf8(s: seq<byte>): (f: First)
    requires s != []
    ensures f.First? ==> IsScalar(f.cp) && 1 <= f.width <= 4 && f.width <= |s|
  {
    var lead := Lead(s[0]);
    if lead.None? then Malformed
    else
      var (n, bits) := lead.value;
      if 1 + n > |s| || !AllContinuations(s[1..1 + n]) then Malformed
      else if !IsScalar(Folded(bits, s[1..1 + n])) then Malformed
      else First(Folded(bits, s[1..1 + n]), 1 + n)
  }

  lemma LowBits(r: nat)
    requires r < 64
    ensures (0x80 + r) % 64 == r && IsContinuation(B(0x80 + r))
  {
  }

  lemma LeadBits(q: nat)
    ensures q < 32 ==> (0xC0 + q) % 32 == q
    ensures q < 16 ==> (0xE0 + q) % 16 == q
    ensures q < 8 ==> (0xF0 + q) % 8 == q
  {
  }

  lemma Regroup(cp: nat)
    ensures ((cp / 262144 * 64 + cp / 4096 % 64) * 64 + cp / 64 % 64) * 64 + cp % 64 == cp
  {
    assert cp / 262144 * 64 + cp / 4096 % 64 == cp / 4096;
    assert cp / 4096 * 64 + cp / 64 % 64 == cp / 64;
  }

  lemma FirstOfTwo(cp: nat, b: seq<byte>)
    requires 0x80 <= cp <= 0x7FF && |b| >= 2 && b[0] == Utf8(cp)[0] && b[1] == Utf8(cp)[1]
    ensures FirstUtf8(b) == First(cp, 2)
  {
    LowBits(cp % 64);
    LeadBits(cp / 64);
    FoldedForms(cp / 64, b, 1);
  }

  lemma FirstOfThree(cp: nat, b: seq<byte>)
    requires 0x800 <= cp <= 0xFFFF && IsScalar(cp) && |b| >= 3
    requires b[0] == Utf8(cp)[0] && b[1] == Utf8(cp)[1] && b[2] == Utf8(cp)[2]
    ensures FirstUtf8(b) == First(cp, 3)
  {
    LowBits(cp % 64);
    LowBits(cp / 64 % 64);
    LeadBits(cp / 4096);
    FoldedForms(cp / 4096, b, 2);
    Regroup(cp);
    assert Lead(b[0]) == Some((2, cp / 4096));
    assert AllContinuations(b[1..3]);
    assert Folded(cp / 4096, b[1..3]) == cp;
  }

  lemma FirstOfFour(cp: nat, b: seq<byte>)
    requires 0x1_0000 <= cp <= 0x10_FFFF && |b| >= 4
    requires b[0] == Utf8(cp)[0] && b[1] == Utf8(cp)[1] && b[2] == Utf8(cp)[2] && b[3] == Utf8(cp)[3]
    ensures FirstUtf8(b) == First(cp, 4)
  {
    LowBits(cp % 64);
    LowBits(cp / 64 % 64);
    LowBits(cp / 4096 % 64);
    LeadBits(cp / 262144);
    FoldedForms(cp / 262144, b, 3);
    Regroup(cp);
    assert Lead(b[0]) == Some((3, cp / 262144));
    assert AllContinuations(b[1..4]);
    assert Folded(cp / 262144, b[1..4]) == cp;
  }

  lemma FirstOfUtf8(cp: nat, rest: seq<byte>)
    requires IsScalar(cp)
    ensures FirstUtf8(Utf8(cp) + rest) == First(cp, |Utf8(cp)|)
  {
    var b := Utf8(cp) + rest;
    assert forall k :: 0 <= k < |Utf8(cp)| ==> b[k] == Utf8(cp)[k];
    if cp <= 0x7F {
      FoldedForms(cp, b, 0);
    } else if cp <= 0x7FF {
      FirstOfTwo(cp, b);
    } else if cp <= 0xFFFF {
      FirstOfThree(cp, b);
    } else {
      FirstOfFour(cp, b);
    }
  }

  // ---------------------------------------------------------------------------------------
  // Modified UTF-8
  // ---------------------------------------------------------------------------------------

  /** `append_modified_unit`: one UTF-16 code unit. */
  function Unit(u: nat): (b: seq<byte>)
    requires u < 0x1_0000
    ensures 1 <= |b| <= 3
  {
    if 1 <= u <= 0x7F then [B(u)]
    else if u <= 0x7FF then [B(0xC0 + u / 64), B(0x80 + u % 64)]
    else [B(0xE0 + u / 4096), B(0x80 + u / 64 % 64), B(0x80 + u % 64)]
  }

  /** A code point as one unit or as a surrogate pair. */
  function Units(cp: nat): (b: seq<byte>)
    requires cp <= 0x10_FFFF
    ensures 1 <= |b| <= 6
  {
    if cp <= 0xFFFF then Unit(cp)
    else Unit(0xD800 + (cp - 0x1_0000) / 1024) + Unit(0xDC00 + (cp - 0x1_0000) % 1024)
  }

  /** One code unit as the reader takes it. */
  function FirstUnit(b: seq<byte>): (f: First)
    requires b != []
    ensures f.First? ==> f.cp < 0x1_0000 && 1 <= f.width <= 3 && f.width <= |b|
  {
    var first := b[0] as int;
    if first < 0x80 then
      if first == 0 then Malformed else First(first, 1)
    else if 0xC0 <= first < 0xE0 then
      if |b| < 2 || !IsContinuation(b[1]) then Malformed
      else
        var unit := first % 32 * 64 + b[1] as int % 64;
        if unit != 0 && unit < 0x80 then Malformed else First(unit, 2)
    else if 0xE0 <= first < 0xF0 then
      if |b| < 3 || !IsContinuation(b[1]) || !IsContinuation(b[2]) then Malformed
      else
        var unit := first % 16 * 4096 + b[1] as int % 64 * 64 + b[2] as int % 64;
        if unit < 0x800 then Malformed else First(unit, 3)
    else Malformed
  }

  /** One code point as the reader takes it: a unit, or a high surrogate and what must be its low one. */
  function FirstModified(b: seq<byte>): (f: First)
    requires b != []
    ensures f.First? ==> IsScalar(f.cp) && 1 <= f.width <= 6 && f.width <= |b|
  {
    var unit := FirstUnit(b);
    if unit.Malformed? then Malformed
    else if 0xD800 <= unit.cp <= 0xDBFF then
      var i := unit.width;
      if i + 2 >= |b| || !(0xE0 <= b[i] < 0xF0) then Malformed
      else
        var low := b[i] as int % 16 * 4096 + b[i + 1] as int % 64 * 64 + b[i + 2] as int % 64;
        if low < 0xDC00 || low > 0xDFFF then Malformed
        else First(0x1_0000 + (unit.cp - 0xD800) * 1024 + (low - 0xDC00), i + 3)
    else if 0xDC00 <= unit.cp <= 0xDFFF then Malformed
    else unit
  }

  lemma FirstOfLongUnit(u: nat, b: seq<byte>)
    requires 0x800 <= u < 0x1_0000 && |b| >= 3
    requires b[0] == Unit(u)[0] && b[1] == Unit(u)[1] && b[2] == Unit(u)[2]
    ensures FirstUnit(b) == First(u, 3)
  {
    LowBits(u % 64);
    LowBits(u / 64 % 64);
    LeadBits(u / 4096);
    assert u / 4096 * 64 + u / 64 % 64 == u / 64;
    assert b[0] as int % 16 == u / 4096 && b[1] as int % 64 == u / 64 % 64 && b[2] as int % 64 == u % 64;
  }

  lemma FirstOfUnit(u: nat, rest: seq<byte>)
    requires u < 0x1_0000
    ensures FirstUnit(Unit(u) + rest) == First(u, |Unit(u)|)
  {
    var b := Unit(u) + rest;
    assert forall k :: 0 <= k < |Unit(u)| ==> b[k] == Unit(u)[k];
    if 1 <= u <= 0x7F {
    } else if u <= 0x7FF {
      LowBits(u % 64);
      LeadBits(u / 64);
      assert b[0] as int % 32 * 64 + b[1] as int % 64 == u;
    } else {
      FirstOfLongUnit(u, b);
    }
  }

  lemma LowSurrogate(low: nat)
    requires 0xDC00 <= low <= 0xDFFF
    ensures
      var b := Unit(low);
      && |b| == 3 && 0xE0 <= b[0] < 0xF0
      && b[0] as int % 16 * 4096 + b[1] as int % 64 * 64 + b[2] as int % 64 == low
  {
    LowBits(low % 64);
    LowBits(low / 64 % 64);
    LeadBits(low / 4096);
  }

  lemma FirstOfUnits(cp: nat, rest: seq<byte>)
    requires IsScalar(cp)
    ensures FirstModified(Units(cp) + rest) == First(cp, |Units(cp)|)
  {
    if cp <= 0xFFFF {
      FirstOfUnit(cp, rest);
    } else {
      var high, low := 0xD800 + (cp - 0x1_0000) / 1024, 0xDC00 + (cp - 0x1_0000) % 1024;
      var b := Units(cp) + rest;
      assert b == Unit(high) + (Unit(low) + rest);
      FirstOfUnit(high, Unit(low) + rest);
      LowSurrogate(low);
      assert b[3] == Unit(low)[0] && b[4] == Unit(low)[1] && b[5] == Unit(low)[2];
    }
  }

  // ---------------------------------------------------------------------------------------
  // Whole strings
  // ---------------------------------------------------------------------------------------

  /** Part of a string, and what became of the rest. */
  function Append(done: seq<byte>, rest: Option<seq<byte>>): Option<seq<byte>> {
    if rest.None? then None else Some(done + rest.value)
  }

  /** `encode_modified_utf`. */
  function Encoded(s: seq<byte>): Option<seq<byte>> {
    if s == [] then Some([])
    else
      var f := FirstUtf8(s);
      if f.Malformed? then None
      else
        var rest := Encoded(s[f.width..]);
        Append(Units(f.cp), rest)
  }

  /** `read_modified_utf` on the bytes of the string. */
  function Decoded(b: seq<byte>): Option<seq<byte>> {
    if b == [] then Some([])
    else
      var f := FirstModified(b);
      if f.Malformed? then None
      else
        var rest := Decoded(b[f.width..]);
        Append(Utf8(f.cp), rest)
  }

  /** The string with every code point in its shortest form. */
  function Canonical(s: seq<byte>): seq<byte> {
    if s == [] || FirstUtf8(s).Malformed? then s
    else Utf8(FirstUtf8(s).cp) + Canonical(s[FirstUtf8(s).width..])
  }

  /** Reading back what was written gives the string with its code points in shortest form. */
  lemma {:induction false} RoundTrip(s: seq<byte>)
    requires Encoded(s).Some?
    ensures Decoded(Encoded(s).value) == Some(Canonical(s))
  {
    if s != [] {
      var f := FirstUtf8(s);
      var rest := Encoded(s[f.width..]).value;
      RoundTrip(s[f.width..]);
      FirstOfUnits(f.cp, rest);
      assert (Units(f.cp) + rest)[|Units(f.cp)|..] == rest;
    }
  }

  lemma {:induction false} ValidIsCanonical(cps: seq<nat>)
    requires forall k :: 0 <= k < |cps| ==> IsScalar(cps[k])
    ensures Encoded(Utf8All(cps)).Some? && Canonical(Utf8All(cps)) == Utf8All(cps)
  {
    if cps != [] {
      FirstOfUtf8(cps[0], Utf8All(cps[1..]));
      assert Utf8All(cps)[|Utf8(cps[0])|..] == Utf8All(cps[1..]);
      ValidIsCanonical(cps[1..]);
    }
  }

  lemma {:induction false} CanonicalIsValid(s: seq<byte>) returns (cps: seq<nat>)
    requires Encoded(s).Some?
    ensures forall k :: 0 <= k < |cps| ==> IsScalar(cps[k])
    ensures Canonical(s) == Utf8All(cps)
  {
    if s == [] {
      cps := [];
    } else {
      var f := FirstUtf8(s);
      var rest := CanonicalIsValid(s[f.width..]);
      cps := [f.cp] + rest;
      assert cps[1..] == rest;
    }
  }

  /** Every well-formed string is written; and a written string reads back unchanged just when it was
      well-formed. */
  lemma ExactJustWhenValid(s: seq<byte>)
    ensures ValidUtf8(s) ==> Encoded(s).Some?
    ensures Encoded(s).Some? ==> (Decoded(Encoded(s).value) == Some(s) <==> ValidUtf8(s))
  {
    if ValidUtf8(s) {
      var cps: seq<nat> :| (forall k :: 0 <= k < |cps| ==> IsScalar(cps[k])) && s == Utf8All(cps);
      ValidIsCanonical(cps);
    }
    if Encoded(s).Some? {
      RoundTrip(s);
      var cps := CanonicalIsValid(s);
    }
  }

  /** A two-byte form of NUL is accepted by the writer but comes back as one byte. */
  lemma OverlongExample()
    ensures Encoded([0xC0, 0x80]) == Some([0xC0, 0x80]) && Decoded([0xC0, 0x80]) == Some([0])
    ensures !ValidUtf8([0xC0, 0x80])
  {
    var s: seq<byte> := [0xC0, 0x80];
    FoldedForms(0, s, 1);
    assert Lead(s[0]) == Some((1, 0)) && AllContinuations(s[1..2]);
    assert FirstUtf8(s) == First(0, 2);
    assert FirstUnit(s) == First(0, 2);
    assert FirstModified(s) == First(0, 2);
    assert s[2..] == [];
    assert Units(0) == s && Utf8(0) == [0];
    assert Units(0) + [] == s && Utf8(0) + [] == [0];
    ExactJustWhenValid(s);
  }

  // ---------------------------------------------------------------------------------------
  // The program
  // ---------------------------------------------------------------------------------------

  lemma AppendNothing(rest: Option<seq<byte>>)
    ensures Append([], rest) == rest
  {
    if rest.Some? {
      assert [] + rest.value == rest.value;
    }
  }

  lemma AppendTwice(done: seq<byte>, more: seq<byte>, rest: Option<seq<byte>>)
    ensures Append(done, Append(more, rest)) == Append(done + more, rest)
  {
    if rest.Some? {
      assert done + (more + rest.value) == (done + more) + rest.value;
    }
  }

  /** What has been converted, then what is left to convert, is the whole. */
  ghost predicate Appends(whole: Option<seq<byte>>, done: seq<byte>, left: Option<seq<byte>>) {
    whole == Append(done, left)
  }

  lemma AppendsStep(whole: Option<seq<byte>>, done: seq<byte>, left: Option<seq<byte>>, piece: seq<byte>,
                    more: Option<seq<byte>>)
    requires Appends(whole, done, left) && left == Append(piece, more)
    ensures Appends(whole, done + piece, more)
  {
    AppendTwice(done, piece, more);
  }

  lemma AppendsEnds(whole: Option<seq<byte>>, done: seq<byte>)
    ensures Appends(whole, [], whole)
    ensures Appends(whole, done, Some([])) ==> whole == Some(done)
  {
    AppendNothing(whole);
    assert done + [] == done;
  }

  /** One code point of what is left, as code units. */
  method EncodeNext(left: seq<byte>) returns (ok: bool, width: nat, piece: seq<byte>)
    requires left != []
    ensures if ok then 0 < width <= |left| && Encoded(left) == Append(piece, Encoded(left[width..]))
        else Encoded(left) == None
  {
    assert left[0..] == left;
    var f := ReadCodePoint(left, 0);
    if f.Malformed? {
      return false, 0, [];
    }
    return true, f.width, Units(f.cp);
  }

  method EncodeModifiedUtf(value: seq<byte>) returns (r: Option<seq<byte>>)
    ensures r == Encoded(value)
  {
    var output: seq<byte> := [];
    var left := value;
    ghost var whole := Encoded(value);
    AppendsEnds(whole, []);
    while left != []
      invariant Appends(whole, output, Encoded(left))
      decreases |left|
    {
      var ok, width, piece := EncodeNext(left);
      if !ok {
        return None;
      }
      AppendsStep(whole, output, Encoded(left), piece, Encoded(left[width..]));
      output := output + piece;
      left := left[width..];
    }
    AppendsEnds(whole, output);
    r := Some(output);
  }

  /** One round of the loop: a lead byte, then its continuation bytes. */
  method ReadCodePoint(value: seq<byte>, start: nat) returns (f: First)
    requires start < |value|
    ensures f == FirstUtf8(value[start..])
  {
    ghost var left := value[start..];
    var lead := Lead(value[start]);
    if lead.None? {
      return Malformed;
    }
    var (continuations, codePoint) := lead.value;
    ghost var bits := codePoint;
    if start + 1 + continuations > |value| {
      return Malformed;
    }
    for count := 0 to continuations
      invariant codePoint >= 0
      invariant AllContinuations(left[1..1 + count])
      invariant codePoint == Folded(bits, left[1..1 + count])
    {
      var continuation := value[start + 1 + count];
      assert continuation == left[1 + count] == left[1..1 + continuations][count];
      if !IsContinuation(continuation) {
        return Malformed;
      }
      assert left[1..2 + count][..count] == left[1..1 + count];
      codePoint := codePoint * 64 + continuation as int % 64;
    }
    f := if IsScalar(codePoint) then First(codePoint, 1 + continuations) else Malformed;
  }

  /** One code point of what is left, as UTF-8. */
  method DecodeNext(left: seq<byte>) returns (ok: bool, width: nat, piece: seq<byte>)
    requires left != []
    ensures if ok then 0 < width <= |left| && Decoded(left) == Append(piece, Decoded(left[width..]))
        else Decoded(left) == None
  {
    var f := FirstModified(left);
    if f.Malformed? {
      return false, 0, [];
    }
    return true, f.width, Utf8(f.cp);
  }

  method DecodeModifiedUtf(bytes: seq<byte>) returns (r: Option<seq<byte>>)
    ensures r == Decoded(bytes)
  {
    var output: seq<byte> := [];
    var left := bytes;
    ghost var whole := Decoded(bytes);
    AppendsEnds(whole, []);
    while left != []
      invariant Appends(whole, output, Decoded(left))
      decreases |left|
    {
      var ok, width, piece := DecodeNext(left);
      if !ok {
        return None;
      }
      AppendsStep(whole, output, Decoded(left), piece, Decoded(left[width..]));
      output := output + piece;
      left := left[width..];
    }
    AppendsEnds(whole, output);
    r := Some(output);
  }
}
