/** Writing back what was read: every tag the reader returns can be written under the same limits, in as
    many bytes, and in the same bytes just when the surrogate pairs of its strings were proper. */
module NbtReading {
  import opened Bytes
  import opened ModifiedUtf
  import opened Nbt
  import opened Sequences
  import opened UtfReading
  import opened Wrappers

  // ---------------------------------------------------------------------------------------
  // Pieces
  // ---------------------------------------------------------------------------------------

  /** When `b` was read down to `rest` and `p` is written for what was read, in as many bytes: are they the
      bytes it was read from? */
  ghost function Same(b: seq<byte>, p: Option<seq<byte>>, rest: seq<byte>): Option<bool> {
    if p.None? || |p.value| + |rest| != |b| || b[|p.value|..] != rest then None
    else Some(p.value == b[..|p.value|])
  }

  /** They are as many bytes, and the same ones just when they were read from a `proper` form. */
  ghost predicate Back(b: seq<byte>, p: Option<seq<byte>>, rest: seq<byte>, proper: bool) {
    Same(b, p, rest) == Some(proper)
  }

  lemma Chain(b: seq<byte>, p: seq<byte>, middle: seq<byte>, proper: bool, q: Option<seq<byte>>, rest: seq<byte>,
              also: bool)
    requires Back(b, Some(p), middle, proper) && Back(middle, q, rest, also)
    ensures Back(b, Join(p, q), rest, proper && also)
  {
    CutTwice(b, |p|, |q.value|);
    SameHalves(p, q.value, b[..|p| + |q.value|]);
  }

  lemma KindBack(b: seq<byte>)
    requires ReadKind(b).Got?
    ensures Back(b, Some([ReadKind(b).value as int as byte]), ReadKind(b).rest, true)
  {
  }

  lemma CountBack(b: seq<byte>, lim: Limits)
    requires ReadCount(b, lim).Got?
    ensures Back(b, Some(CountBytes(ReadCount(b, lim).value)), ReadCount(b, lim).rest, true)
  {
    var n := ReadCount(b, lim).value;
    RangeValues();
    FromBigEndianRange(b[..4]);
    FromBigEndianRoundTrip(b[..4]);
    assert FromBigEndian(b[..4]) == n && n % 0x1_0000_0000 == n;
  }

  /** Every surrogate pair of the string at the front is proper. */
  ghost predicate StringProper(b: seq<byte>, lim: Limits) {
    ReadString(b, lim).Got? ==> PairsProper(b[2..2 + FromBigEndian(b[..2])])
  }

  lemma SizeBack(b: seq<byte>)
    requires |b| >= 2
    ensures FromBigEndian(b[..2]) < 0x1_0000
    ensures Back(b, Some(BigEndian(FromBigEndian(b[..2]), 2)), b[2..], true)
  {
    RangeValues();
    FromBigEndianRange(b[..2]);
    FromBigEndianRoundTrip(b[..2]);
  }

  lemma BytesBack(b: seq<byte>, size: nat)
    requires size <= |b| && Decoded(b[..size]).Some?
    ensures Back(b, Encoded(Decoded(b[..size]).value), b[size..], PairsProper(b[..size]))
  {
    WriteBack(b[..size]);
  }

  lemma StringBack(b: seq<byte>, lim: Limits)
    requires ReadString(b, lim).Got?
    ensures Back(b, StringBytes(ReadString(b, lim).value, lim), ReadString(b, lim).rest, StringProper(b, lim))
  {
    var size := FromBigEndian(b[..2]);
    var s := b[2..2 + size];
    assert b[2..][..size] == s;
    DropTwice(b, 2, size);
    SizeBack(b);
    BytesBack(b[2..], size);
    Chain(b, BigEndian(size, 2), b[2..], true, Encoded(Decoded(s).value), b[2 + size..], PairsProper(s));
  }

  lemma {:induction false} NumbersBack(b: seq<byte>, count: nat, width: nat)
    requires width > 0 && ReadNumbers(b, count, width).Got?
    ensures
      var r := ReadNumbers(b, count, width);
      && |r.value| == count && AllSigned(r.value, width)
      && Back(b, Some(NumberBytes(r.value, width)), r.rest, true)
    decreases count
  {
    if count > 0 {
      var r := ReadNumbers(b, count, width);
      var more := ReadNumbers(b[width..], count - 1, width);
      NumbersBack(b[width..], count - 1, width);
      DecodeSignedRoundTrip(b[..width]);
      assert r.value[1..] == more.value;
      Chain(b, b[..width], b[width..], true, Some(NumberBytes(more.value, width)), more.rest, true);
    }
  }

  // ---------------------------------------------------------------------------------------
  // Payloads
  // ---------------------------------------------------------------------------------------

  /** Every surrogate pair in the strings of the payload at the front is proper. */
  ghost predicate Proper(b: seq<byte>, k: Kind, lim: Limits, depth: nat)
    decreases Left(lim, depth), 2, 0
  {
    if depth > lim.maxDepth then true
    else if k == STRING then StringProper(b, lim)
    else if k == LIST then
      var element := ReadKind(b);
      element.Got? ==>
        var count := ReadCount(element.rest, lim);
        count.Got? ==> ElementsProper(count.rest, count.value, element.value, lim, depth)
    else if k == COMPOUND then EntriesProper(b, lim, depth)
    else true
  }

  ghost predicate ElementsProper(b: seq<byte>, count: nat, k: Kind, lim: Limits, depth: nat)
    requires depth <= lim.maxDepth
    decreases Left(lim, depth), 1, count
  {
    count > 0 ==>
      var first := ReadPayload(b, k, lim, depth + 1);
      Proper(b, k, lim, depth + 1) && (first.Got? ==> ElementsProper(first.rest, count - 1, k, lim, depth))
  }

  ghost predicate EntriesProper(b: seq<byte>, lim: Limits, depth: nat)
    requires depth <= lim.maxDepth
    decreases Left(lim, depth), 1, |b|
  {
    var k := ReadKind(b);
    k.Got? && k.value != END ==>
      var name := ReadString(k.rest, lim);
      StringProper(k.rest, lim) &&
      (name.Got? ==>
         var tag := ReadPayload(name.rest, k.value, lim, depth + 1);
         Proper(name.rest, k.value, lim, depth + 1) && (tag.Got? ==> EntriesProper(tag.rest, lim, depth)))
  }

  lemma KindOfRead(b: seq<byte>, k: Kind, lim: Limits, depth: nat)
    requires ReadPayload(b, k, lim, depth).Got?
    ensures ReadPayload(b, k, lim, depth).value.kind == k
  {
  }

  lemma {:induction false} PayloadBack(b: seq<byte>, k: Kind, lim: Limits, depth: nat)
    requires ReadPayload(b, k, lim, depth).Got?
    ensures
      var r := ReadPayload(b, k, lim, depth);
      Back(b, Payload(r.value, lim, depth), r.rest, Proper(b, k, lim, depth))
    decreases Left(lim, depth), 3, 0
  {
    if k == LIST {
      ListBack(b, lim, depth);
    } else if k == COMPOUND {
      EntriesBack(b, 0, lim, depth);
    } else if k == STRING {
      TextBack(b, lim, depth);
    } else if IsArray(k) {
      ArrayBack(b, k, lim, depth);
    } else if k != END {
      NumberBack(b, k, lim, depth);
    }
  }

  lemma TextBack(b: seq<byte>, lim: Limits, depth: nat)
    requires ReadPayload(b, STRING, lim, depth).Got?
    ensures
      var r := ReadPayload(b, STRING, lim, depth);
      Back(b, Payload(r.value, lim, depth), r.rest, Proper(b, STRING, lim, depth))
  {
    StringBack(b, lim);
  }

  lemma NumberBack(b: seq<byte>, k: Kind, lim: Limits, depth: nat)
    requires ReadPayload(b, k, lim, depth).Got? && (IsNumber(k) || k == FLOAT || k == DOUBLE)
    ensures
      var r := ReadPayload(b, k, lim, depth);
      Back(b, Payload(r.value, lim, depth), r.rest, true)
  {
    var width := WidthOf(k);
    DecodeSignedRoundTrip(b[..width]);
    var n := DecodeSigned(b[..width]);
    var v := if IsNumber(k) then Number(width, n) else Bits(width, n);
    assert ReadPayload(b, k, lim, depth) == Got(Tag(k, v), b[width..]);
    FixedPayload(k, v, n, lim, depth);
  }

  lemma FixedPayload(k: Kind, v: Value, n: int, lim: Limits, depth: nat)
    requires depth <= lim.maxDepth && IsSigned(n, WidthOf(k))
    requires IsNumber(k) || k == FLOAT || k == DOUBLE
    requires v == if IsNumber(k) then Number(WidthOf(k), n) else Bits(WidthOf(k), n)
    ensures Payload(Tag(k, v), lim, depth) == Some(EncodeSigned(n, WidthOf(k)))
  {
  }

  lemma ArrayBack(b: seq<byte>, k: Kind, lim: Limits, depth: nat)
    requires ReadPayload(b, k, lim, depth).Got? && IsArray(k)
    ensures
      var r := ReadPayload(b, k, lim, depth);
      Back(b, Payload(r.value, lim, depth), r.rest, true)
  {
    var count := ReadCount(b, lim);
    var ns := ReadNumbers(count.rest, count.value, WidthOf(k));
    CountBack(b, lim);
    NumbersBack(count.rest, count.value, WidthOf(k));
    Chain(b, CountBytes(count.value), count.rest, true, Some(NumberBytes(ns.value, WidthOf(k))), ns.rest, true);
  }

  lemma {:induction false} ListBack(b: seq<byte>, lim: Limits, depth: nat)
    requires ReadPayload(b, LIST, lim, depth).Got?
    ensures
      var r := ReadPayload(b, LIST, lim, depth);
      Back(b, Payload(r.value, lim, depth), r.rest, Proper(b, LIST, lim, depth))
    decreases Left(lim, depth), 2, 0
  {
    var element := ReadKind(b);
    var count := ReadCount(element.rest, lim);
    var values := ReadElements(count.rest, count.value, element.value, lim, depth);
    KindBack(b);
    CountBack(element.rest, lim);
    ElementsBack(count.rest, count.value, element.value, lim, depth);
    ElementsAreCountable(count.rest, count.value, element.value, lim, depth);
    var kind := [element.value as int as byte];
    Chain(b, kind, element.rest, true, Some(CountBytes(count.value)), count.rest, true);
    Chain(b, kind + CountBytes(count.value), count.rest, true, Elements(element.value, values.value, lim, depth),
          values.rest,
          ElementsProper(count.rest, count.value, element.value, lim, depth));
  }

  lemma {:induction false} ElementsBack(b: seq<byte>, count: nat, k: Kind, lim: Limits, depth: nat)
    requires depth <= lim.maxDepth && ReadElements(b, count, k, lim, depth).Got?
    ensures
      var r := ReadElements(b, count, k, lim, depth);
      Back(b, Elements(k, r.value, lim, depth), r.rest, ElementsProper(b, count, k, lim, depth))
    decreases Left(lim, depth), 1, count
  {
    if count > 0 {
      var first := ReadPayload(b, k, lim, depth + 1);
      var more := ReadElements(first.rest, count - 1, k, lim, depth);
      PayloadBack(b, k, lim, depth + 1);
      ElementsBack(first.rest, count - 1, k, lim, depth);
      ElementsConsBack(b, first, more, count, k, lim, depth);
    }
  }

  lemma ElementsConsBack(b: seq<byte>, first: Got<Tag>, more: Got<seq<Tag>>, count: nat, k: Kind, lim: Limits,
                         depth: nat)
    requires depth <= lim.maxDepth && count > 0 && first == ReadPayload(b, k, lim, depth + 1) && first.Got?
    requires more == ReadElements(first.rest, count - 1, k, lim, depth) && more.Got?
    requires Back(b, Payload(first.value, lim, depth + 1), first.rest, Proper(b, k, lim, depth + 1))
    requires Back(first.rest, Elements(k, more.value, lim, depth), more.rest,
                  ElementsProper(first.rest, count - 1, k, lim, depth))
    ensures
      var r := ReadElements(b, count, k, lim, depth);
      r == Got([first.value] + more.value, more.rest) &&
      Back(b, Elements(k, r.value, lim, depth), r.rest, ElementsProper(b, count, k, lim, depth))
  {
    KindOfRead(b, k, lim, depth + 1);
    assert ([first.value] + more.value)[1..] == more.value;
    Chain(b, Payload(first.value, lim, depth + 1).value, first.rest, Proper(b, k, lim, depth + 1),
          Elements(k, more.value, lim, depth), more.rest, ElementsProper(first.rest, count - 1, k, lim, depth));
  }

  lemma {:induction false} EntriesBack(b: seq<byte>, taken: nat, lim: Limits, depth: nat)
    requires depth <= lim.maxDepth && ReadEntries(b, taken, lim, depth).Got?
    ensures
      var r := ReadEntries(b, taken, lim, depth);
      (r.value != [] ==> taken + |r.value| <= lim.maxEntries) &&
      Back(b, Entries(r.value, lim, depth), r.rest, EntriesProper(b, lim, depth))
    decreases Left(lim, depth), 1, |b|
  {
    var k := ReadKind(b);
    if k.value == END {
      KindBack(b);
    } else {
      var name := ReadString(k.rest, lim);
      TailBack(name.rest, k.value, taken, lim, depth);
      EntriesConsBack(b, k, name, taken, lim, depth);
    }
  }

  /** What is written for the entry whose name was read down to `b`, and for the ones after it. */
  ghost function Tail(b: seq<byte>, k: Kind, taken: nat, lim: Limits, depth: nat): Option<seq<byte>>
    requires depth <= lim.maxDepth
  {
    var tag := ReadPayload(b, k, lim, depth + 1);
    if tag.Bad? then None
    else
      var more := ReadEntries(tag.rest, taken + 1, lim, depth);
      if more.Bad? then None else Both(Payload(tag.value, lim, depth + 1), Entries(more.value, lim, depth))
  }

  ghost predicate TailProper(b: seq<byte>, k: Kind, lim: Limits, depth: nat)
    requires depth <= lim.maxDepth
  {
    var tag := ReadPayload(b, k, lim, depth + 1);
    Proper(b, k, lim, depth + 1) && (tag.Got? ==> EntriesProper(tag.rest, lim, depth))
  }

  lemma {:induction false} TailBack(b: seq<byte>, k: Kind, taken: nat, lim: Limits, depth: nat)
    requires depth <= lim.maxDepth && ReadPayload(b, k, lim, depth + 1).Got?
    requires ReadEntries(ReadPayload(b, k, lim, depth + 1).rest, taken + 1, lim, depth).Got?
    ensures
      var more := ReadEntries(ReadPayload(b, k, lim, depth + 1).rest, taken + 1, lim, depth);
      (more.value != [] ==> taken + 1 + |more.value| <= lim.maxEntries) &&
      Back(b, Tail(b, k, taken, lim, depth), more.rest, TailProper(b, k, lim, depth))
    decreases Left(lim, depth), 1, |b| + 1
  {
    var tag := ReadPayload(b, k, lim, depth + 1);
    var more := ReadEntries(tag.rest, taken + 1, lim, depth);
    PayloadBack(b, k, lim, depth + 1);
    EntriesBack(tag.rest, taken + 1, lim, depth);
    Chain(b, Payload(tag.value, lim, depth + 1).value, tag.rest, Proper(b, k, lim, depth + 1),
          Entries(more.value, lim, depth), more.rest, EntriesProper(tag.rest, lim, depth));
  }

  lemma EntriesConsBack(b: seq<byte>, k: Got<Kind>, name: Got<seq<byte>>, taken: nat, lim: Limits, depth: nat)
    requires depth <= lim.maxDepth && ReadEntries(b, taken, lim, depth).Got? && k == ReadKind(b) && k.value != END
    requires name == ReadString(k.rest, lim) && name.Got?
    requires Back(name.rest, Tail(name.rest, k.value, taken, lim, depth), ReadEntries(b, taken, lim, depth).rest,
                  TailProper(name.rest, k.value, lim, depth))
    ensures
      var r := ReadEntries(b, taken, lim, depth);
      Back(b, Entries(r.value, lim, depth), r.rest, EntriesProper(b, lim, depth))
  {
    var r, tail := ReadEntries(b, taken, lim, depth), Tail(name.rest, k.value, taken, lim, depth);
    var text, s, t := StringBytes(name.value, lim), StringProper(k.rest, lim),
        TailProper(name.rest, k.value, lim, depth);
    KindBack(b);
    StringBack(k.rest, lim);
    Chain(k.rest, text.value, name.rest, s, tail, r.rest, t);
    Chain(b, [k.value as int as byte], k.rest, true, Both(text, tail), r.rest, s && t);
    EntriesOfRead(b, k, name, taken, lim, depth);
  }

  lemma EntriesOfRead(b: seq<byte>, k: Got<Kind>, name: Got<seq<byte>>, taken: nat, lim: Limits, depth: nat)
    requires depth <= lim.maxDepth && ReadEntries(b, taken, lim, depth).Got? && k == ReadKind(b) && k.value != END
    requires name == ReadString(k.rest, lim) && name.Got?
    ensures Entries(ReadEntries(b, taken, lim, depth).value, lim, depth) ==
            Join([k.value as int as byte],
                 Both(StringBytes(name.value, lim), Tail(name.rest, k.value, taken, lim, depth)))
    ensures EntriesProper(b, lim, depth) <==> StringProper(k.rest, lim) && TailProper(name.rest, k.value, lim, depth)
  {
    var tag := ReadPayload(name.rest, k.value, lim, depth + 1);
    var more := ReadEntries(tag.rest, taken + 1, lim, depth);
    KindOfRead(name.rest, k.value, lim, depth + 1);
    EntriesOfCons(Entry(name.value, tag.value), more.value, lim, depth);
  }

  /** A tag that was read can be written under the same limits, in as many bytes, and in the very bytes it
      was read from just when every surrogate pair in its strings was proper. */
  lemma AnyBack(b: seq<byte>, lim: Limits)
    requires ReadAny(b, lim).Got?
    ensures
      var r, w := ReadAny(b, lim), Written(ReadAny(b, lim).value, lim, 0);
      && w.Some? && |w.value| + |r.rest| == |b|
      && (w.value + r.rest == b <==> Proper(b[1..], ReadKind(b).value, lim, 0))
  {
    var k := ReadKind(b);
    var t := ReadPayload(k.rest, k.value, lim, 0);
    KindBack(b);
    PayloadBack(k.rest, k.value, lim, 0);
    KindOfRead(k.rest, k.value, lim, 0);
    Chain(b, [k.value as int as byte], k.rest, true, Payload(t.value, lim, 0), t.rest, Proper(k.rest, k.value, lim, 0));
    var w := Written(t.value, lim, 0).value;
    SameHalves(w, t.rest, b);
  }
}
