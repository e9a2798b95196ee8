/** Which tags can be written, and in how many bytes: said of the tag alone, without its bytes. */
module NbtAcceptance {
  import opened Bytes
  import opened ModifiedUtf
  import opened Nbt
  import opened Sequences
  import opened Wrappers

  /** The type, by its number, and the value agree.  A tag of type 0 may carry anything. */
  ghost predicate Agrees(t: Tag) {
    match t.kind as int
    case 0 => true
    case 1 => t.value.Number? && t.value.width == 1 && IsSigned(t.value.n, 1)
    case 2 => t.value.Number? && t.value.width == 2 && IsSigned(t.value.n, 2)
    case 3 => t.value.Number? && t.value.width == 4 && IsSigned(t.value.n, 4)
    case 4 => t.value.Number? && t.value.width == 8 && IsSigned(t.value.n, 8)
    case 5 => t.value.Bits? && t.value.size == 4 && IsSigned(t.value.bits, 4)
    case 6 => t.value.Bits? && t.value.size == 8 && IsSigned(t.value.bits, 8)
    case 7 => t.value.Numbers? && t.value.elementWidth == 1 && AllSigned(t.value.ns, 1)
    case 8 => t.value.Text?
    case 9 => t.value.List?
    case 10 => t.value.Compound?
    case 11 => t.value.Numbers? && t.value.elementWidth == 4 && AllSigned(t.value.ns, 4)
    case _ => t.value.Numbers? && t.value.elementWidth == 8 && AllSigned(t.value.ns, 8)
  }

  /** A string is written when it is encoded in at most 65,535 bytes and no more than the limit. */
  ghost predicate StringFits(s: seq<byte>, lim: Limits) {
    Encoded(s).Some? && |Encoded(s).value| <= lim.maxString && |Encoded(s).value| <= 65535
  }

  ghost predicate Writable(t: Tag, lim: Limits, depth: nat)
    decreases t, 1
  {
    && depth <= lim.maxDepth && Agrees(t)
    && (t.kind as int == 0 ||
        match t.value
        case Numbers(_, ns) => |ns| <= lim.maxEntries
        case Text(s) => StringFits(s, lim)
        case List(k, values) => |values| <= lim.maxEntries && (k as int == 0 ==> values == []) &&
          AllWritable(k, values, lim, depth + 1)
        case Compound(entries) => |entries| <= lim.maxEntries && EntriesWritable(entries, lim, depth + 1)
        case _ => true)
  }

  /** The elements of a list are of its type. */
  ghost predicate AllWritable(k: Kind, values: seq<Tag>, lim: Limits, depth: nat)
    decreases values, 0
  {
    forall i :: 0 <= i < |values| ==> values[i].kind == k && Writable(values[i], lim, depth)
  }

  /** No entry of a compound is of type 0. */
  ghost predicate EntriesWritable(entries: seq<Entry>, lim: Limits, depth: nat)
    decreases entries, 0
  {
    forall i :: 0 <= i < |entries| ==>
      && entries[i].tag.kind as int != 0 && StringFits(entries[i].name, lim)
      && Writable(entries[i].tag, lim, depth)
  }

  /** How many bytes the payload takes. */
  ghost function Size(t: Tag): nat
    decreases t, 1
  {
    if t.kind as int == 0 then 0
    else
      match t.value
      case Nothing => 0
      case Number(width, _) => width
      case Bits(size, _) => size
      case Numbers(width, ns) => 4 + width * |ns|
      case Text(s) => StringSize(s)
      case List(_, values) => 5 + Sizes(values)
      case Compound(entries) => EntrySizes(entries) + 1
  }

  ghost function StringSize(s: seq<byte>): nat {
    2 + if Encoded(s).Some? then |Encoded(s).value| else 0
  }

  ghost function Sizes(values: seq<Tag>): nat
    decreases values, 0
  {
    if values == [] then 0 else Size(values[0]) + Sizes(values[1..])
  }

  ghost function EntrySizes(entries: seq<Entry>): nat
    decreases entries, 0
  {
    if entries == [] then 0
    else 1 + StringSize(entries[0].name) + Size(entries[0].tag) + EntrySizes(entries[1..])
  }

  lemma StringJustWhen(s: seq<byte>, lim: Limits)
    ensures StringBytes(s, lim).Some? <==> StringFits(s, lim)
    ensures StringFits(s, lim) ==> |StringBytes(s, lim).value| == StringSize(s)
  {
  }

  lemma MatchesJustWhen(t: Tag)
    ensures Matches(t.kind, t.value) <==> Agrees(t)
  {
  }

  /** A payload is written just when the tag is writable, in as many bytes as its size. */
  lemma {:induction false} PayloadJustWhen(t: Tag, lim: Limits, depth: nat)
    ensures Payload(t, lim, depth).Some? <==> Writable(t, lim, depth)
    ensures Writable(t, lim, depth) ==> |Payload(t, lim, depth).value| == Size(t)
    decreases t, 1
  {
    MatchesJustWhen(t);
    if depth <= lim.maxDepth && Agrees(t) && t.kind != END {
      match t.value
      case Text(s) => StringJustWhen(s, lim);
      case List(k, values) => ElementsJustWhen(k, values, lim, depth);
      case Compound(entries) => EntriesJustWhen(entries, lim, depth);
      case _ =>
    }
  }

  lemma {:induction false} ElementsJustWhen(k: Kind, values: seq<Tag>, lim: Limits, depth: nat)
    ensures Elements(k, values, lim, depth).Some? <==> AllWritable(k, values, lim, depth + 1)
    ensures AllWritable(k, values, lim, depth + 1) ==> |Elements(k, values, lim, depth).value| == Sizes(values)
    decreases values, 0
  {
    if values != [] {
      PayloadJustWhen(values[0], lim, depth + 1);
      ElementsJustWhen(k, values[1..], lim, depth);
      assert AllWritable(k, values, lim, depth + 1) <==>
             && values[0].kind == k && Writable(values[0], lim, depth + 1)
             && AllWritable(k, values[1..], lim, depth + 1) by {
        assert values == [values[0]] + values[1..];
      }
    }
  }

  lemma {:induction false} EntriesJustWhen(entries: seq<Entry>, lim: Limits, depth: nat)
    ensures Entries(entries, lim, depth).Some? <==> EntriesWritable(entries, lim, depth + 1)
    ensures EntriesWritable(entries, lim, depth + 1) ==>
      |Entries(entries, lim, depth).value| == EntrySizes(entries) + 1
    decreases entries, 0
  {
    if entries != [] {
      StringJustWhen(entries[0].name, lim);
      PayloadJustWhen(entries[0].tag, lim, depth + 1);
      EntriesJustWhen(entries[1..], lim, depth);
      EntriesFirst(entries, lim, depth + 1);
    }
  }

  lemma EntriesFirst(entries: seq<Entry>, lim: Limits, depth: nat)
    requires entries != []
    ensures EntriesWritable(entries, lim, depth) <==>
            && entries[0].tag.kind as int != 0 && StringFits(entries[0].name, lim)
            && Writable(entries[0].tag, lim, depth) && EntriesWritable(entries[1..], lim, depth)
  {
    assert entries == [entries[0]] + entries[1..];
  }

  /** The writer takes exactly these tags, into a buffer that has room for their type byte and payload. */
  ghost predicate Taken(t: Tag, lim: Limits, before: nat) {
    Writable(t, lim, 0) && before + 1 + Size(t) <= lim.maxBytes
  }

  lemma WrittenJustWhen(t: Tag, lim: Limits, before: nat)
    ensures Written(t, lim, before).Some? <==> Taken(t, lim, before)
    ensures Taken(t, lim, before) ==> |Written(t, lim, before).value| == 1 + Size(t)
  {
    PayloadJustWhen(t, lim, 0);
  }

  /** These tags are read back under the same limits, but for collections whose count is too large. */
  lemma TakenIsRead(t: Tag, lim: Limits, before: nat, rest: seq<byte>)
    requires Taken(t, lim, before)
    ensures Written(t, lim, before).Some?
    ensures ReadAny(Written(t, lim, before).value + rest, lim) == Got(Normal(t), rest) <==> Countable(t)
  {
    WrittenJustWhen(t, lim, before);
    AnyRoundTrip(t, lim, before, rest);
  }

  /** The limits of a default-constructed `Limits`. */
  const DEFAULT_LIMITS := Limits(2 * 1024 * 1024, 64, 65536, 65535)

  lemma Ascii(c: byte)
    requires 0 < c < 0x80
    ensures StringBytes([c], DEFAULT_LIMITS) == Some([0, 1, c])
  {
    FirstOfUtf8(c as nat, []);
    assert Utf8(c as nat) + [] == [c];
    assert [c][1..] == [];
    assert Encoded([c]) == Append(Units(c as nat), Encoded([]));
    assert Units(c as nat) + [] == [c];
    assert BigEndian(1, 2) == BigEndian(0, 1) + [1];
    assert BigEndian(1, 2) + [c] == [0, 1, c];
  }

  lemma ShortBytes()
    ensures EncodeSigned(1, 1) == [1] && EncodeSigned(258, 2) == [1, 2] && EncodeSigned(-1, 2) == [255, 255]
    ensures CountBytes(2) == [0, 0, 0, 2]
  {
    RangeValues();
    assert BigEndian(258, 2) == BigEndian(1, 1) + [2];
    assert BigEndian(65535, 2) == BigEndian(255, 1) + [255];
    assert BigEndian(2, 4) == BigEndian(0, 3) + [2] && BigEndian(0, 3) == BigEndian(0, 2) + [0];
    assert BigEndian(0, 2) == BigEndian(0, 1) + [0];
  }

  lemma FirstElement(v: Tag, more: seq<Tag>, lim: Limits, depth: nat)
    ensures Elements(v.kind, [v] + more, lim, depth) ==
            Both(Payload(v, lim, depth + 1), Elements(v.kind, more, lim, depth))
  {
    assert ([v] + more)[1..] == more;
  }

  lemma ShortsExample(lim: Limits)
    requires lim == DEFAULT_LIMITS
    ensures Payload(Tag(9, List(2, [Tag(2, Number(2, 258)), Tag(2, Number(2, -1))])), lim, 1) ==
            Some([2, 0, 0, 0, 2, 1, 2, 255, 255])
  {
    ShortBytes();
    var a, b := Tag(2, Number(2, 258)), Tag(2, Number(2, -1));
    assert Payload(a, lim, 2) == Some([1, 2]) && Payload(b, lim, 2) == Some([255, 255]);
    FirstElement(a, [b], lim, 1);
    FirstElement(b, [], lim, 1);
    assert [a] + [b] == [a, b] && [b] + [] == [b];
    assert Elements(2, [b], lim, 1) == Some([255, 255] + []);
    assert [255, 255] + [] == [255 as byte, 255];
    assert Elements(2, [a, b], lim, 1) == Some([1, 2] + [255, 255]);
    assert [1, 2] + [255, 255] == [1 as byte, 2, 255, 255];
    ListPayload(2, [a, b], lim, 1, [1, 2, 255, 255]);
    assert [2] + [0, 0, 0, 2] + [1, 2, 255, 255] == [2 as byte, 0, 0, 0, 2, 1, 2, 255, 255];
  }

  lemma ListPayload(k: Kind, values: seq<Tag>, lim: Limits, depth: nat, elements: seq<byte>)
    requires |values| <= lim.maxEntries && k != END && depth <= lim.maxDepth
    requires Elements(k, values, lim, depth) == Some(elements)
    ensures Payload(Tag(9, List(k, values)), lim, depth) ==
            Some([k as int as byte] + CountBytes(|values|) + elements)
  {
  }

  lemma CompoundPayload(entries: seq<Entry>, lim: Limits, bytes: seq<byte>)
    requires |entries| <= lim.maxEntries && Entries(entries, lim, 0) == Some(bytes)
    requires 1 + |bytes| <= lim.maxBytes
    ensures Written(Tag(10, Compound(entries)), lim, 0) == Some([10] + bytes)
  {
  }

  lemma OneEntry(e: Entry, more: seq<Entry>, lim: Limits, name: seq<byte>, payload: seq<byte>, others: seq<byte>)
    requires e.tag.kind != END && StringBytes(e.name, lim) == Some(name)
    requires Payload(e.tag, lim, 1) == Some(payload) && Entries(more, lim, 0) == Some(others)
    ensures Entries([e] + more, lim, 0) == Some([e.tag.kind as int as byte] + name + payload + others)
  {
    EntriesOfCons(e, more, lim, 0);
    FourParts([e.tag.kind as int as byte], name, payload, others);
  }

  const LAST: seq<byte> := [9, 0, 1, 108, 2, 0, 0, 0, 2, 1, 2, 255, 255, 0]

  lemma ExampleBytes()
    ensures [9] + [0, 1, 108] + [2, 0, 0, 0, 2, 1, 2, 255, 255] + [0] == LAST
    ensures [10] + ([1] + [0, 1, 97] + [1] + LAST) ==
            [10, 1, 0, 1, 97, 1, 9, 0, 1, 108, 2, 0, 0, 0, 2, 1, 2, 255, 255, 0]
  {
  }

  /** What is written for `{ "a": 1b, "l": [258s, -1s] }`. */
  lemma WrittenExample(a: Entry, l: Entry)
    requires a == Entry([97], Tag(1, Number(1, 1)))
    requires l == Entry([108], Tag(9, List(2, [Tag(2, Number(2, 258)), Tag(2, Number(2, -1))])))
    ensures Written(Tag(10, Compound([a, l])), DEFAULT_LIMITS, 0) ==
            Some([10, 1, 0, 1, 97, 1, 9, 0, 1, 108, 2, 0, 0, 0, 2, 1, 2, 255, 255, 0])
  {
    var lim := DEFAULT_LIMITS;
    ShortBytes();
    ShortsExample(lim);
    Ascii(97);
    Ascii(108);
    ExampleBytes();
    OneEntry(l, [], lim, [0, 1, 108], [2, 0, 0, 0, 2, 1, 2, 255, 255], [0]);
    assert [l] + [] == [l];
    OneEntry(a, [l], lim, [0, 1, 97], [1], LAST);
    assert [a] + [l] == [a, l];
    CompoundPayload([a, l], lim, [1] + [0, 1, 97] + [1] + LAST);
  }
}
