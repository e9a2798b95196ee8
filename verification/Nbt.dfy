/** NBT: a recursive writer and reader with limits on depth, size and counts.

    `Payload` and `Read...` say what bytes a tag has and what a reader makes of bytes; the methods at
    the end append to a buffer and advance a reader as the program does. */
module Nbt {
  import opened Bytes
  import opened ModifiedUtf
  import opened Sequences
  import opened Wrappers

  /** The thirteen tag types, by number. */
  newtype Kind = k: int | 0 <= k <= 12

  const END: Kind := 0
  const BYTE: Kind := 1
  const SHORT: Kind := 2
  const INT: Kind := 3
  const LONG: Kind := 4
  const FLOAT: Kind := 5
  const DOUBLE: Kind := 6
  const BYTE_ARRAY: Kind := 7
  const STRING: Kind := 8
  const LIST: Kind := 9
  const COMPOUND: Kind := 10
  const INT_ARRAY: Kind := 11
  const LONG_ARRAY: Kind := 12

  /** A value; numbers carry the bytes they take, floating-point ones their bit pattern. */
  datatype Value =
    | Nothing
    | Number(width: nat, n: int)
    | Bits(size: nat, bits: int)
    | Numbers(elementWidth: nat, ns: seq<int>)
    | Text(s: seq<byte>)
    | List(elementKind: Kind, values: seq<Tag>)
    | Compound(entries: seq<Entry>)

  datatype Entry = Entry(name: seq<byte>, tag: Tag)

  /** A tag's type and its value are stored apart and need not agree. */
  datatype Tag = Tag(kind: Kind, value: Value)

  datatype Limits = Limits(maxBytes: nat, maxDepth: nat, maxEntries: nat, maxString: nat)

  /** The width of an integer or floating-point type. */
  function WidthOf(k: Kind): nat {
    if k == BYTE || k == BYTE_ARRAY then 1
    else if k == SHORT then 2
    else if k == INT || k == FLOAT || k == INT_ARRAY then 4
    else 8
  }

  predicate IsNumber(k: Kind) {
    k == BYTE || k == SHORT || k == INT || k == LONG
  }

  predicate IsArray(k: Kind) {
    k == BYTE_ARRAY || k == INT_ARRAY || k == LONG_ARRAY
  }

  predicate AllSigned(ns: seq<int>, width: nat) {
    forall k :: 0 <= k < |ns| ==> IsSigned(ns[k], width)
  }

  /** The value is one the type's variant can hold. */
  predicate Matches(k: Kind, v: Value) {
    if k == END then true
    else if IsNumber(k) then v.Number? && v.width == WidthOf(k) && IsSigned(v.n, v.width)
    else if k == FLOAT || k == DOUBLE then v.Bits? && v.size == WidthOf(k) && IsSigned(v.bits, v.size)
    else if IsArray(k) then v.Numbers? && v.elementWidth == WidthOf(k) && AllSigned(v.ns, v.elementWidth)
    else if k == STRING then v.Text?
    else if k == LIST then v.List?
    else v.Compound?
  }

  // ---------------------------------------------------------------------------------------
  // Writing
  // ---------------------------------------------------------------------------------------

  /** A size as `static_cast<int32_t>` writes it. */
  function CountBytes(n: nat): (b: seq<byte>)
    ensures |b| == 4
  {
    BigEndian(n % 0x1_0000_0000, 4)
  }

  function Join(a: seq<byte>, b: Option<seq<byte>>): Option<seq<byte>> {
    if b.None? then None else Some(a + b.value)
  }

  function Both(a: Option<seq<byte>>, b: Option<seq<byte>>): Option<seq<byte>> {
    if a.None? || b.None? then None else Some(a.value + b.value)
  }

  /** `write_modified_utf`. */
  function StringBytes(s: seq<byte>, lim: Limits): Option<seq<byte>> {
    var e := Encoded(s);
    if e.None? || |e.value| > lim.maxString || |e.value| > 0xFFFF then None
    else Some(BigEndian(|e.value|, 2) + e.value)
  }

  function NumberBytes(ns: seq<int>, width: nat): (b: seq<byte>)
    requires AllSigned(ns, width)
    ensures |b| == width * |ns|
  {
    if ns == [] then [] else EncodeSigned(ns[0], width) + NumberBytes(ns[1..], width)
  }

  /** The bytes `write_payload` appends, or none if it refuses the tag; the byte limit is separate. */
  function Payload(t: Tag, lim: Limits, depth: nat): Option<seq<byte>>
    decreases t, 1
  {
    if depth > lim.maxDepth || !Matches(t.kind, t.value) then None
    else if t.kind == END then Some([])
    else
      match t.value
      case Nothing => None
      case Number(width, n) => Some(EncodeSigned(n, width))
      case Bits(size, bits) => Some(EncodeSigned(bits, size))
      case Numbers(width, ns) =>
        if |ns| > lim.maxEntries then None else Some(CountBytes(|ns|) + NumberBytes(ns, width))
      case Text(s) => StringBytes(s, lim)
      case List(k, values) =>
        if |values| > lim.maxEntries || (k == END && values != []) then None
        else Join([k as int as byte] + CountBytes(|values|), Elements(k, values, lim, depth))
      case Compound(entries) =>
        if |entries| > lim.maxEntries then None else Entries(entries, lim, depth)
  }

  function Elements(k: Kind, values: seq<Tag>, lim: Limits, depth: nat): Option<seq<byte>>
    decreases values, 0
  {
    if values == [] then Some([])
    else if values[0].kind != k then None
    else Both(Payload(values[0], lim, depth + 1), Elements(k, values[1..], lim, depth))
  }

  function Entries(entries: seq<Entry>, lim: Limits, depth: nat): Option<seq<byte>>
    decreases entries, 0
  {
    if entries == [] then Some([0])
    else if entries[0].tag.kind == END then None
    else
      Join([entries[0].tag.kind as int as byte],
           Both(StringBytes(entries[0].name, lim),
                Both(Payload(entries[0].tag, lim, depth + 1), Entries(entries[1..], lim, depth))))
  }

  lemma EntriesOfCons(e: Entry, more: seq<Entry>, lim: Limits, depth: nat)
    requires e.tag.kind != END
    ensures Entries([e] + more, lim, depth) ==
            Join([e.tag.kind as int as byte],
                 Both(StringBytes(e.name, lim), Both(Payload(e.tag, lim, depth + 1), Entries(more, lim, depth))))
  {
    assert ([e] + more)[1..] == more;
  }

  // ---------------------------------------------------------------------------------------
  // Reading
  // ---------------------------------------------------------------------------------------

  /** What a reader took, and what it left. */
  datatype Got<+T> = Got(value: T, rest: seq<byte>) | Bad

  function ReadKind(b: seq<byte>): (r: Got<Kind>)
    ensures r.Got? ==> |r.rest| + 1 == |b|
  {
    if b == [] || b[0] > 12 then Bad else Got(b[0] as int as Kind, b[1..])
  }

  /** `checked_count`. */
  function ReadCount(b: seq<byte>, lim: Limits): (r: Got<nat>)
    ensures r.Got? ==> |r.rest| + 4 == |b| && r.value <= lim.maxEntries
  {
    if |b| < 4 then Bad
    else
      var n := DecodeSigned(b[..4]);
      if n < 0 || n > lim.maxEntries then Bad else Got(n, b[4..])
  }

  /** `read_modified_utf`. */
  function ReadString(b: seq<byte>, lim: Limits): (r: Got<seq<byte>>)
    ensures r.Got? ==> |r.rest| + 2 <= |b|
  {
    if |b| < 2 then Bad
    else
      var size := FromBigEndian(b[..2]);
      if size > lim.maxString || 2 + size > |b| then Bad
      else
        var s := Decoded(b[2..2 + size]);
        if s.None? then Bad else Got(s.value, b[2 + size..])
  }

  function ReadNumbers(b: seq<byte>, count: nat, width: nat): (r: Got<seq<int>>)
    ensures r.Got? ==> |r.rest| <= |b|
    decreases count
  {
    if count == 0 then Got([], b)
    else if |b| < width then Bad
    else
      var more := ReadNumbers(b[width..], count - 1, width);
      if more.Bad? then Bad else Got([DecodeSigned(b[..width])] + more.value, more.rest)
  }

  function Left(lim: Limits, depth: nat): nat {
    if depth > lim.maxDepth then 0 else lim.maxDepth + 1 - depth
  }

  /** `read_payload`. */
  function ReadPayload(b: seq<byte>, k: Kind, lim: Limits, depth: nat): (r: Got<Tag>)
    ensures r.Got? ==> |r.rest| <= |b|
    decreases Left(lim, depth), 1, 0
  {
    if depth > lim.maxDepth then Bad
    else if k == END then Got(Tag(END, Nothing), b)
    else if IsNumber(k) then
      if |b| < WidthOf(k) then Bad
      else Got(Tag(k, Number(WidthOf(k), DecodeSigned(b[..WidthOf(k)]))), b[WidthOf(k)..])
    else if k == FLOAT || k == DOUBLE then
      if |b| < WidthOf(k) then Bad
      else Got(Tag(k, Bits(WidthOf(k), DecodeSigned(b[..WidthOf(k)]))), b[WidthOf(k)..])
    else if IsArray(k) then
      var count := ReadCount(b, lim);
      if count.Bad? then Bad
      else
        var ns := ReadNumbers(count.rest, count.value, WidthOf(k));
        if ns.Bad? then Bad else Got(Tag(k, Numbers(WidthOf(k), ns.value)), ns.rest)
    else if k == STRING then
      var s := ReadString(b, lim);
      if s.Bad? then Bad else Got(Tag(k, Text(s.value)), s.rest)
    else if k == LIST then
      var element := ReadKind(b);
      if element.Bad? then Bad
      else
        var count := ReadCount(element.rest, lim);
        if count.Bad? || (element.value == END && count.value != 0) then Bad
        else
          var values := ReadElements(count.rest, count.value, element.value, lim, depth);
          if values.Bad? then Bad else Got(Tag(k, List(element.value, values.value)), values.rest)
    else
      var entries := ReadEntries(b, 0, lim, depth);
      if entries.Bad? then Bad else Got(Tag(k, Compound(entries.value)), entries.rest)
  }

  function ReadElements(b: seq<byte>, count: nat, k: Kind, lim: Limits, depth: nat): (r: Got<seq<Tag>>)
    requires depth <= lim.maxDepth
    ensures r.Got? ==> |r.rest| <= |b|
    decreases Left(lim, depth), 0, count
  {
    if count == 0 then Got([], b)
    else
      var first := ReadPayload(b, k, lim, depth + 1);
      if first.Bad? then Bad
      else
        var more := ReadElements(first.rest, count - 1, k, lim, depth);
        if more.Bad? then Bad else Got([first.value] + more.value, more.rest)
  }

  /** The entries of a compound, of which `taken` have been read. */
  function ReadEntries(b: seq<byte>, taken: nat, lim: Limits, depth: nat): (r: Got<seq<Entry>>)
    requires depth <= lim.maxDepth
    ensures r.Got? ==> |r.rest| <= |b|
    decreases Left(lim, depth), 0, |b|
  {
    var k := ReadKind(b);
    if k.Bad? then Bad
    else if k.value == END then Got([], k.rest)
    else if taken >= lim.maxEntries then Bad
    else
      var name := ReadString(k.rest, lim);
      if name.Bad? then Bad
      else
        var tag := ReadPayload(name.rest, k.value, lim, depth + 1);
        if tag.Bad? then Bad
        else
          var more := ReadEntries(tag.rest, taken + 1, lim, depth);
          if more.Bad? then Bad else Got([Entry(name.value, tag.value)] + more.value, more.rest)
  }

  // ---------------------------------------------------------------------------------------
  // What a written tag reads back as
  // ---------------------------------------------------------------------------------------

  /** The tag with every string in shortest form, and no value on an END tag. */
  function Normal(t: Tag): (n: Tag)
    ensures n.kind == t.kind
    decreases t, 1
  {
    if t.kind == END then Tag(END, Nothing)
    else
      match t.value
      case Text(s) => Tag(t.kind, Text(Canonical(s)))
      case List(k, values) => Tag(t.kind, List(k, NormalAll(values)))
      case Compound(entries) => Tag(t.kind, Compound(NormalEntries(entries)))
      case _ => t
  }

  function NormalAll(values: seq<Tag>): (n: seq<Tag>)
    ensures |n| == |values|
    decreases values, 0
  {
    if values == [] then [] else [Normal(values[0])] + NormalAll(values[1..])
  }

  function NormalEntries(entries: seq<Entry>): (n: seq<Entry>)
    ensures |n| == |entries|
    decreases entries, 0
  {
    if entries == [] then []
    else [Entry(Canonical(entries[0].name), Normal(entries[0].tag))] + NormalEntries(entries[1..])
  }

  /** The least count that four bytes do not hold as a signed number. */
  const MAX_COUNT: nat := 0x8000_0000

  /** Every counted collection, an array or a list, has a count that reads back. */
  ghost predicate Countable(t: Tag)
    decreases t, 1
  {
    if t.kind == END then true
    else
      match t.value
      case Numbers(_, ns) => |ns| < MAX_COUNT
      case List(_, values) => |values| < MAX_COUNT && AllCountable(values)
      case Compound(entries) => EntriesCountable(entries)
      case _ => true
  }

  ghost predicate AllCountable(values: seq<Tag>)
    decreases values, 0
  {
    values == [] || (Countable(values[0]) && AllCountable(values[1..]))
  }

  ghost predicate EntriesCountable(entries: seq<Entry>)
    decreases entries, 0
  {
    entries == [] || (Countable(entries[0].tag) && EntriesCountable(entries[1..]))
  }

  lemma CountValue(n: nat)
    requires n < MAX_COUNT
    ensures DecodeSigned(CountBytes(n)) == n
  {
    RangeValues();
    assert n % 0x1_0000_0000 == n;
    BigEndianRoundTrip(n, 4);
  }

  /** A count is written modulo 2^32 and read as a signed number: what any count reads back as. */
  lemma CountReadsBack(n: nat, lim: Limits, rest: seq<byte>)
    ensures
      var m := n % 0x1_0000_0000;
      ReadCount(CountBytes(n) + rest, lim) == if m >= MAX_COUNT || m > lim.maxEntries then Bad else Got(m, rest)
  {
    var b := CountBytes(n) + rest;
    assert b[..4] == CountBytes(n) && b[4..] == rest;
    RangeValues();
    BigEndianRoundTrip(n % 0x1_0000_0000, 4);
  }

  /** So no list or array whose count is too large reads back: its count is refused, or is smaller. */
  lemma LargeCountsChange(n: nat, lim: Limits, rest: seq<byte>)
    ensures ReadCount(CountBytes(n) + rest, lim) == Got(n, rest) <==> n < MAX_COUNT && n <= lim.maxEntries
  {
    CountReadsBack(n, lim, rest);
  }

  lemma CountRoundTrip(n: nat, lim: Limits, rest: seq<byte>)
    requires n <= lim.maxEntries && n < MAX_COUNT
    ensures ReadCount(CountBytes(n) + rest, lim) == Got(n, rest)
  {
    var b := CountBytes(n) + rest;
    assert b[..4] == CountBytes(n) && b[4..] == rest;
    CountValue(n);
  }

  lemma StringRoundTrip(s: seq<byte>, lim: Limits, rest: seq<byte>)
    requires StringBytes(s, lim).Some?
    ensures ReadString(StringBytes(s, lim).value + rest, lim) == Got(Canonical(s), rest)
  {
    var e := Encoded(s).value;
    var b := StringBytes(s, lim).value + rest;
    assert b == BigEndian(|e|, 2) + (e + rest);
    assert b[..2] == BigEndian(|e|, 2) && b[2..2 + |e|] == e && b[2 + |e|..] == rest;
    RangeValues();
    BigEndianRoundTrip(|e|, 2);
    ModifiedUtf.RoundTrip(s);
  }

  lemma ReadOneNumber(first: seq<byte>, others: seq<byte>, count: nat, width: nat)
    requires |first| == width && count > 0 && ReadNumbers(others, count - 1, width).Got?
    ensures
      var more := ReadNumbers(others, count - 1, width);
      ReadNumbers(first + others, count, width) == Got([DecodeSigned(first)] + more.value, more.rest)
  {
    Sequences.Pieces(first, others);
  }

  lemma {:induction false} NumbersRoundTrip(ns: seq<int>, width: nat, rest: seq<byte>)
    requires AllSigned(ns, width)
    ensures ReadNumbers(NumberBytes(ns, width) + rest, |ns|, width) == Got(ns, rest)
  {
    if ns == [] {
      assert NumberBytes(ns, width) + rest == rest;
    } else {
      var first, more := EncodeSigned(ns[0], width), NumberBytes(ns[1..], width);
      Associative(first, more, rest);
      EncodeSignedRoundTrip(ns[0], width);
      NumbersRoundTrip(ns[1..], width, rest);
      ReadOneNumber(first, more + rest, |ns|, width);
      assert [ns[0]] + ns[1..] == ns;
    }
  }

  ghost function TagSize(t: Tag): nat
    decreases t, 1
  {
    match t.value
    case List(_, values) => 1 + TagsSize(values)
    case Compound(entries) => 1 + EntriesSize(entries)
    case _ => 0
  }

  ghost function TagsSize(values: seq<Tag>): nat
    decreases values, 0
  {
    if values == [] then 0 else 2 + TagSize(values[0]) + TagsSize(values[1..])
  }

  ghost function EntriesSize(entries: seq<Entry>): nat
    decreases entries, 0
  {
    if entries == [] then 0 else 2 + TagSize(entries[0].tag) + EntriesSize(entries[1..])
  }

  /** Whatever follows, reading what was written takes exactly those bytes and gives the tag. */
  lemma {:induction false} PayloadRoundTrip(t: Tag, lim: Limits, depth: nat, rest: seq<byte>)
    requires Payload(t, lim, depth).Some? && Countable(t)
    ensures ReadPayload(Payload(t, lim, depth).value + rest, t.kind, lim, depth) == Got(Normal(t), rest)
    decreases TagSize(t), 1
  {
    var p := Payload(t, lim, depth).value;
    var b := p + rest;
    if t.kind == END {
      assert b == rest;
    } else {
      match t.value
      case Number(width, n) =>
        assert b[..width] == p && b[width..] == rest;
        EncodeSignedRoundTrip(n, width);
      case Bits(size, bits) =>
        assert b[..size] == p && b[size..] == rest;
        EncodeSignedRoundTrip(bits, size);
      case Numbers(width, ns) =>
        assert b == CountBytes(|ns|) + (NumberBytes(ns, width) + rest);
        CountRoundTrip(|ns|, lim, NumberBytes(ns, width) + rest);
        NumbersRoundTrip(ns, width, rest);
      case Text(s) =>
        StringRoundTrip(s, lim, rest);
      case List(k, values) =>
        ListRoundTrip(t, lim, depth, rest);
      case Compound(entries) =>
        EntriesRoundTrip(entries, lim, depth, 0, p, rest);
    }
  }

  lemma {:induction false} ListRoundTrip(t: Tag, lim: Limits, depth: nat, rest: seq<byte>)
    requires t.kind == LIST && Payload(t, lim, depth).Some? && Countable(t)
    ensures ReadPayload(Payload(t, lim, depth).value + rest, t.kind, lim, depth) == Got(Normal(t), rest)
    decreases TagSize(t), 0
  {
    var List(k, values) := t.value;
    var elements := Elements(k, values, lim, depth).value;
    var b := Payload(t, lim, depth).value + rest;
    assert b == [k as int as byte] + (CountBytes(|values|) + (elements + rest));
    assert ReadKind(b) == Got(k, CountBytes(|values|) + (elements + rest));
    CountRoundTrip(|values|, lim, elements + rest);
    ElementsRoundTrip(k, values, lim, depth, rest);
  }

  lemma {:induction false} ElementsRoundTrip(k: Kind, values: seq<Tag>, lim: Limits, depth: nat, rest: seq<byte>)
    requires depth <= lim.maxDepth && Elements(k, values, lim, depth).Some? && AllCountable(values)
    ensures ReadElements(Elements(k, values, lim, depth).value + rest, |values|, k, lim, depth) ==
        Got(NormalAll(values), rest)
    decreases TagsSize(values), 0
  {
    if values == [] {
      assert Elements(k, values, lim, depth).value + rest == rest;
    } else {
      var first, more := Payload(values[0], lim, depth + 1).value, Elements(k, values[1..], lim, depth).value;
      assert Elements(k, values, lim, depth).value + rest == first + (more + rest);
      PayloadRoundTrip(values[0], lim, depth + 1, more + rest);
      ElementsRoundTrip(k, values[1..], lim, depth, rest);
    }
  }

  lemma ReadOneEntry(b: seq<byte>, taken: nat, lim: Limits, depth: nat, k: Kind, e: Entry,
                     afterKind: seq<byte>, afterName: seq<byte>, afterTag: seq<byte>)
    requires depth <= lim.maxDepth && taken < lim.maxEntries && k != END
    requires ReadKind(b) == Got(k, afterKind) && ReadString(afterKind, lim) == Got(e.name, afterName)
    requires ReadPayload(afterName, k, lim, depth + 1) == Got(e.tag, afterTag)
    ensures
      var more := ReadEntries(afterTag, taken + 1, lim, depth);
      ReadEntries(b, taken, lim, depth) == if more.Bad? then Bad else Got([e] + more.value, more.rest)
  {
  }

  /** A compound of several entries, written as `written`, in the pieces of its first entry and the others. */
  ghost predicate Pieces(entries: seq<Entry>, lim: Limits, depth: nat, written: seq<byte>,
                         name: seq<byte>, payload: seq<byte>, more: seq<byte>) {
    && entries != [] && depth <= lim.maxDepth && entries[0].tag.kind != END
    && written == [entries[0].tag.kind as int as byte] + name + payload + more
    && StringBytes(entries[0].name, lim) == Some(name)
    && Payload(entries[0].tag, lim, depth + 1) == Some(payload)
  }

  /** The entries fit a compound of which `taken` entries have been read, and are written as `written`. */
  ghost predicate Fits(entries: seq<Entry>, lim: Limits, depth: nat, taken: nat, written: seq<byte>) {
    && depth <= lim.maxDepth && EntriesCountable(entries) && taken + |entries| <= lim.maxEntries
    && Entries(entries, lim, depth) == Some(written)
  }

  lemma {:induction false} FirstEntryRoundTrip(entries: seq<Entry>, lim: Limits, depth: nat, taken: nat,
                                               written: seq<byte>, more: seq<byte>, rest: seq<byte>)
    returns (name: seq<byte>, payload: seq<byte>)
    requires Fits(entries, lim, depth, taken, written) && entries != []
    requires Entries(entries[1..], lim, depth) == Some(more)
    ensures Pieces(entries, lim, depth, written, name, payload, more)
    ensures ReadPayload(payload + (more + rest), entries[0].tag.kind, lim, depth + 1) ==
        Got(Normal(entries[0].tag), more + rest)
    decreases EntriesSize(entries), 0
  {
    name, payload := StringBytes(entries[0].name, lim).value, Payload(entries[0].tag, lim, depth + 1).value;
    assert written == [entries[0].tag.kind as int as byte] + name + payload + more;
    PayloadRoundTrip(entries[0].tag, lim, depth + 1, more + rest);
  }

  lemma Regroup(first: byte, name: seq<byte>, payload: seq<byte>, more: seq<byte>, rest: seq<byte>)
    ensures
      var b := [first] + name + payload + more + rest;
      b != [] && b[0] == first && b[1..] == name + (payload + (more + rest))
  {
  }

  lemma EntriesCons(entries: seq<Entry>, lim: Limits, depth: nat, taken: nat, written: seq<byte>, rest: seq<byte>,
                    name: seq<byte>, payload: seq<byte>, more: seq<byte>)
    requires Pieces(entries, lim, depth, written, name, payload, more) && taken < lim.maxEntries
    requires ReadPayload(payload + (more + rest), entries[0].tag.kind, lim, depth + 1) ==
        Got(Normal(entries[0].tag), more + rest)
    requires ReadEntries(more + rest, taken + 1, lim, depth) == Got(NormalEntries(entries[1..]), rest)
    ensures ReadEntries(written + rest, taken, lim, depth) == Got(NormalEntries(entries), rest)
  {
    var e := Entry(Canonical(entries[0].name), Normal(entries[0].tag));
    StringRoundTrip(entries[0].name, lim, payload + (more + rest));
    NormalEntriesStep(entries);
    Regroup(entries[0].tag.kind as int as byte, name, payload, more, rest);
    ReadOneEntry(written + rest, taken, lim, depth, entries[0].tag.kind, e,
                 name + (payload + (more + rest)), payload + (more + rest), more + rest);
  }

  lemma EntriesNil(lim: Limits, depth: nat, taken: nat, rest: seq<byte>)
    requires depth <= lim.maxDepth
    ensures ReadEntries([0] + rest, taken, lim, depth) == Got([], rest)
  {
    assert ReadKind([0] + rest) == Got(END, rest);
  }

  lemma {:induction false} EntriesRoundTrip(entries: seq<Entry>, lim: Limits, depth: nat, taken: nat,
                                            written: seq<byte>, rest: seq<byte>)
    requires Fits(entries, lim, depth, taken, written)
    ensures ReadEntries(written + rest, taken, lim, depth) == Got(NormalEntries(entries), rest)
    decreases EntriesSize(entries), 2
  {
    if entries == [] {
      EntriesNil(lim, depth, taken, rest);
    } else {
      var more := OthersFit(entries, lim, depth, taken, written);
      EntriesRoundTrip(entries[1..], lim, depth, taken + 1, more, rest);
      FirstThenOthers(entries, lim, depth, taken, written, more, rest);
    }
  }

  lemma OthersFit(entries: seq<Entry>, lim: Limits, depth: nat, taken: nat, written: seq<byte>)
    returns (more: seq<byte>)
    requires Fits(entries, lim, depth, taken, written) && entries != []
    ensures Fits(entries[1..], lim, depth, taken + 1, more)
  {
    more := Entries(entries[1..], lim, depth).value;
  }

  lemma {:induction false} FirstThenOthers(entries: seq<Entry>, lim: Limits, depth: nat, taken: nat,
                                           written: seq<byte>, more: seq<byte>, rest: seq<byte>)
    requires Fits(entries, lim, depth, taken, written) && entries != []
    requires Entries(entries[1..], lim, depth) == Some(more)
    requires ReadEntries(more + rest, taken + 1, lim, depth) == Got(NormalEntries(entries[1..]), rest)
    ensures ReadEntries(written + rest, taken, lim, depth) == Got(NormalEntries(entries), rest)
    decreases EntriesSize(entries), 1
  {
    var name, payload := FirstEntryRoundTrip(entries, lim, depth, taken, written, more, rest);
    EntriesCons(entries, lim, depth, taken, written, rest, name, payload, more);
  }

  lemma NormalEntriesStep(entries: seq<Entry>)
    requires entries != []
    ensures NormalEntries(entries) ==
            [Entry(Canonical(entries[0].name), Normal(entries[0].tag))] + NormalEntries(entries[1..])
  {
  }

  // ---------------------------------------------------------------------------------------
  // Which tags read back unchanged
  // ---------------------------------------------------------------------------------------

  /** Every string is UTF-8, and END carries nothing. */
  ghost predicate WellFormed(t: Tag)
    decreases t, 1
  {
    if t.kind == END then t.value == Nothing
    else
      match t.value
      case Text(s) => ValidUtf8(s)
      case List(_, values) => AllWellFormed(values)
      case Compound(entries) => EntriesWellFormed(entries)
      case _ => true
  }

  ghost predicate AllWellFormed(values: seq<Tag>)
    decreases values, 0
  {
    values == [] || (WellFormed(values[0]) && AllWellFormed(values[1..]))
  }

  ghost predicate EntriesWellFormed(entries: seq<Entry>)
    decreases entries, 0
  {
    || entries == []
    || (ValidUtf8(entries[0].name) && WellFormed(entries[0].tag) && EntriesWellFormed(entries[1..]))
  }

  lemma CanonicalJustWhenValid(s: seq<byte>)
    requires Encoded(s).Some?
    ensures Canonical(s) == s <==> ValidUtf8(s)
  {
    ModifiedUtf.RoundTrip(s);
    ExactJustWhenValid(s);
  }

  lemma SameCons<T>(x: T, xs: seq<T>, ys: seq<T>)
    requires ys != []
    ensures [x] + xs == ys <==> x == ys[0] && xs == ys[1..]
  {
    assert ([x] + xs)[0] == x && ([x] + xs)[1..] == xs;
    assert [ys[0]] + ys[1..] == ys;
  }

  /** Among the tags the writer takes, the well-formed ones are those already in normal form. */
  lemma {:induction false} NormalJustWhenWellFormed(t: Tag, lim: Limits, depth: nat)
    requires Payload(t, lim, depth).Some?
    ensures Normal(t) == t <==> WellFormed(t)
    decreases TagSize(t), 1
  {
    if t.kind != END {
      match t.value
      case Text(s) => CanonicalJustWhenValid(s);
      case List(k, values) => ElementsNormal(k, values, lim, depth);
      case Compound(entries) => EntriesNormal(entries, lim, depth);
      case _ =>
    }
  }

  lemma {:induction false} ElementsNormal(k: Kind, values: seq<Tag>, lim: Limits, depth: nat)
    requires Elements(k, values, lim, depth).Some?
    ensures NormalAll(values) == values <==> AllWellFormed(values)
    decreases TagsSize(values), 0
  {
    if values != [] {
      NormalJustWhenWellFormed(values[0], lim, depth + 1);
      ElementsNormal(k, values[1..], lim, depth);
      SameCons(Normal(values[0]), NormalAll(values[1..]), values);
    }
  }

  lemma {:induction false} EntriesNormal(entries: seq<Entry>, lim: Limits, depth: nat)
    requires Entries(entries, lim, depth).Some?
    ensures NormalEntries(entries) == entries <==> EntriesWellFormed(entries)
    decreases EntriesSize(entries), 0
  {
    if entries != [] {
      CanonicalJustWhenValid(entries[0].name);
      NormalJustWhenWellFormed(entries[0].tag, lim, depth + 1);
      EntriesNormal(entries[1..], lim, depth);
      SameCons(Entry(Canonical(entries[0].name), Normal(entries[0].tag)), NormalEntries(entries[1..]), entries);
    }
  }

  // ---------------------------------------------------------------------------------------
  // Whole tags
  // ---------------------------------------------------------------------------------------

  /** The bytes `write_any_tag` appends to a buffer that holds `before` bytes. */
  function Written(t: Tag, lim: Limits, before: nat): Option<seq<byte>> {
    var p := Payload(t, lim, 0);
    if p.None? || before + 1 + |p.value| > lim.maxBytes then None else Some([t.kind as int as byte] + p.value)
  }

  /** `read_any_tag`. */
  function ReadAny(b: seq<byte>, lim: Limits): (r: Got<Tag>)
    ensures r.Got? ==> |r.rest| < |b| && |b| - |r.rest| <= lim.maxBytes
  {
    var k := ReadKind(b);
    if k.Bad? then Bad
    else
      var t := ReadPayload(k.rest, k.value, lim, 0);
      if t.Bad? || |b| - |t.rest| > lim.maxBytes then Bad else t
  }

  /** What a reader returns has read counts in it. */
  lemma {:induction false} ReadIsCountable(b: seq<byte>, k: Kind, lim: Limits, depth: nat)
    requires ReadPayload(b, k, lim, depth).Got?
    ensures Countable(ReadPayload(b, k, lim, depth).value)
    decreases Left(lim, depth), 2, 0
  {
    if k == LIST {
      var element := ReadKind(b);
      var count := ReadCount(element.rest, lim);
      CountIsSmall(element.rest, lim);
      ElementsAreCountable(count.rest, count.value, element.value, lim, depth);
    } else if IsArray(k) {
      var count := ReadCount(b, lim);
      CountIsSmall(b, lim);
      AsManyNumbers(count.rest, count.value, WidthOf(k));
    } else if k == COMPOUND {
      EntriesAreCountable(b, 0, lim, depth);
    }
  }

  lemma CountIsSmall(b: seq<byte>, lim: Limits)
    ensures ReadCount(b, lim).Got? ==> ReadCount(b, lim).value < MAX_COUNT
  {
    if |b| >= 4 {
      RangeValues();
      FromBigEndianRange(b[..4]);
    }
  }

  lemma {:induction false} AsManyNumbers(b: seq<byte>, count: nat, width: nat)
    ensures ReadNumbers(b, count, width).Got? ==> |ReadNumbers(b, count, width).value| == count
    decreases count
  {
    if count > 0 && |b| >= width {
      AsManyNumbers(b[width..], count - 1, width);
    }
  }

  lemma {:induction false} ElementsAreCountable(b: seq<byte>, count: nat, k: Kind, lim: Limits, depth: nat)
    requires depth <= lim.maxDepth && ReadElements(b, count, k, lim, depth).Got?
    ensures |ReadElements(b, count, k, lim, depth).value| == count
    ensures AllCountable(ReadElements(b, count, k, lim, depth).value)
    decreases Left(lim, depth), 1, count
  {
    if count > 0 {
      var first := ReadPayload(b, k, lim, depth + 1);
      ReadIsCountable(b, k, lim, depth + 1);
      ElementsAreCountable(first.rest, count - 1, k, lim, depth);
      var more := ReadElements(first.rest, count - 1, k, lim, depth).value;
      assert ([first.value] + more)[1..] == more;
    }
  }

  lemma {:induction false} EntriesAreCountable(b: seq<byte>, taken: nat, lim: Limits, depth: nat)
    requires depth <= lim.maxDepth && ReadEntries(b, taken, lim, depth).Got?
    ensures EntriesCountable(ReadEntries(b, taken, lim, depth).value)
    decreases Left(lim, depth), 1, |b|
  {
    var k := ReadKind(b);
    if k.value != END {
      var name := ReadString(k.rest, lim);
      var tag := ReadPayload(name.rest, k.value, lim, depth + 1);
      ReadIsCountable(name.rest, k.value, lim, depth + 1);
      EntriesAreCountable(tag.rest, taken + 1, lim, depth);
      CountableCons(Entry(name.value, tag.value), ReadEntries(tag.rest, taken + 1, lim, depth).value);
    }
  }

  lemma CountableCons(e: Entry, more: seq<Entry>)
    ensures EntriesCountable([e] + more) <==> Countable(e.tag) && EntriesCountable(more)
  {
    assert ([e] + more)[1..] == more;
  }

  lemma {:induction false} NormalCountable(t: Tag)
    ensures Countable(Normal(t)) <==> Countable(t)
    decreases TagSize(t), 1
  {
    if t.kind != END {
      match t.value
      case List(_, values) => AllNormalCountable(values);
      case Compound(entries) => EntriesNormalCountable(entries);
      case _ =>
    }
  }

  lemma {:induction false} AllNormalCountable(values: seq<Tag>)
    ensures AllCountable(NormalAll(values)) <==> AllCountable(values)
    decreases TagsSize(values), 0
  {
    if values != [] {
      NormalCountable(values[0]);
      AllNormalCountable(values[1..]);
      assert NormalAll(values)[1..] == NormalAll(values[1..]);
    }
  }

  lemma {:induction false} EntriesNormalCountable(entries: seq<Entry>)
    ensures EntriesCountable(NormalEntries(entries)) <==> EntriesCountable(entries)
    decreases EntriesSize(entries), 0
  {
    if entries != [] {
      NormalCountable(entries[0].tag);
      EntriesNormalCountable(entries[1..]);
      assert NormalEntries(entries)[1..] == NormalEntries(entries[1..]);
    }
  }

  lemma PayloadNotEmpty(t: Tag, lim: Limits, depth: nat)
    requires Payload(t, lim, depth).Some? && t.kind != END
    ensures Payload(t, lim, depth).value != []
  {
  }

  /** A limit below 2^31, on entries or on bytes, leaves room for no larger count. */
  ghost predicate SmallLimit(lim: Limits, size: nat) {
    lim.maxEntries < MAX_COUNT || size < MAX_COUNT
  }

  lemma {:induction false} SmallIsCountable(t: Tag, lim: Limits, depth: nat)
    requires Payload(t, lim, depth).Some? && SmallLimit(lim, |Payload(t, lim, depth).value|)
    ensures Countable(t)
    decreases TagSize(t), 1
  {
    if t.kind != END {
      match t.value
      case Numbers(width, ns) =>
        assert |Payload(t, lim, depth).value| == 4 + width * |ns|;
        AtLeastOneEach(width, |ns|);
      case List(k, values) =>
        AllSmallCountable(k, values, lim, depth);
      case Compound(entries) =>
        EntriesSmallCountable(entries, lim, depth);
      case _ =>
    }
  }

  lemma AtLeastOneEach(width: nat, n: nat)
    ensures width >= 1 ==> width * n >= n
  {
  }

  lemma {:induction false} AllSmallCountable(k: Kind, values: seq<Tag>, lim: Limits, depth: nat)
    requires Elements(k, values, lim, depth).Some? && (k == END ==> values == [])
    requires SmallLimit(lim, |Elements(k, values, lim, depth).value|)
    ensures AllCountable(values) && |values| <= |Elements(k, values, lim, depth).value|
    decreases TagsSize(values), 0
  {
    if values != [] {
      PayloadNotEmpty(values[0], lim, depth + 1);
      SmallIsCountable(values[0], lim, depth + 1);
      AllSmallCountable(k, values[1..], lim, depth);
    }
  }

  lemma {:induction false} EntriesSmallCountable(entries: seq<Entry>, lim: Limits, depth: nat)
    requires Entries(entries, lim, depth).Some? && SmallLimit(lim, |Entries(entries, lim, depth).value|)
    ensures EntriesCountable(entries)
    decreases EntriesSize(entries), 0
  {
    if entries != [] {
      SmallIsCountable(entries[0].tag, lim, depth + 1);
      EntriesSmallCountable(entries[1..], lim, depth);
    }
  }

  /** Under limits below 2^31, on entries or on bytes, every tag the writer takes reads back. */
  lemma LimitsMakeCountable(t: Tag, lim: Limits, before: nat)
    requires Written(t, lim, before).Some? && (lim.maxEntries < MAX_COUNT || lim.maxBytes < MAX_COUNT)
    ensures Countable(t)
  {
    SmallIsCountable(t, lim, 0);
  }

  /** A written tag reads back under the same limits, whatever follows it, taking exactly its bytes, just
      when every counted collection in it has fewer than 2^31 elements; what comes back is the tag in normal
      form, which is the tag itself just when the tag is well formed. */
  lemma AnyRoundTrip(t: Tag, lim: Limits, before: nat, rest: seq<byte>)
    requires Written(t, lim, before).Some?
    ensures ReadAny(Written(t, lim, before).value + rest, lim) == Got(Normal(t), rest) <==> Countable(t)
    ensures Normal(t) == t <==> WellFormed(t)
  {
    var payload := Payload(t, lim, 0).value;
    var b := Written(t, lim, before).value + rest;
    assert b[1..] == payload + rest;
    NormalJustWhenWellFormed(t, lim, 0);
    NormalCountable(t);
    if Countable(t) {
      PayloadRoundTrip(t, lim, 0, rest);
    } else if ReadAny(b, lim).Got? {
      ReadIsCountable(b[1..], t.kind, lim, 0);
    }
  }
}
