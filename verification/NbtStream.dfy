/** The NBT writer and reader as they run: the writer appends to a buffer that may already hold bytes,
    the reader advances an offset, and both loop over lists, arrays and compounds. */
module NbtStream {
  import opened Bytes
  import opened ModifiedUtf
  import opened Nbt
  import NbtAcceptance
  import opened Sequences
  import opened Wrappers

  // ---------------------------------------------------------------------------------------
  // Writing
  // ---------------------------------------------------------------------------------------

  /** The write of `whole` has appended `done` so far and still has `left` to write. */
  ghost predicate Midway(whole: Option<seq<byte>>, done: seq<byte>, left: Option<seq<byte>>) {
    whole == Join(done, left)
  }

  lemma MidwayStarts(whole: Option<seq<byte>>)
    ensures Midway(whole, [], whole)
  {
    if whole.Some? {
      assert [] + whole.value == whole.value;
    }
  }

  /** What is left starts with a piece that has been written. */
  lemma MidwayStep(whole: Option<seq<byte>>, done: seq<byte>, left: Option<seq<byte>>,
                   piece: seq<byte>, more: Option<seq<byte>>)
    requires Midway(whole, done, left) && left == Join(piece, more)
    ensures Midway(whole, done + piece, more)
  {
    if more.Some? {
      assert done + (piece + more.value) == (done + piece) + more.value;
    }
  }

  /** Refused: there is nothing to write, or it takes the buffer past the byte limit. */
  ghost predicate Refused(before: nat, whole: Option<seq<byte>>, lim: Limits) {
    whole.None? || before + |whole.value| > lim.maxBytes
  }

  /** What a write of `whole` leaves in a buffer that held `before`. */
  ghost predicate Outcome(before: seq<byte>, whole: Option<seq<byte>>, lim: Limits, ok: bool, after: seq<byte>) {
    if ok then whole.Some? && after == before + whole.value else Refused(|before|, whole, lim)
  }

  /** One piece after `done` has been written or refused. */
  lemma PieceWritten(before: seq<byte>, whole: Option<seq<byte>>, done: seq<byte>, piece: Option<seq<byte>>,
                     more: Option<seq<byte>>, lim: Limits, ok: bool, after: seq<byte>)
    requires Midway(whole, done, Both(piece, more)) && Outcome(before + done, piece, lim, ok, after)
    ensures !ok ==> Refused(|before|, whole, lim)
    ensures ok ==> after == before + (done + piece.value) && Midway(whole, done + piece.value, more)
  {
    if ok {
      MidwayStep(whole, done, Both(piece, more), piece.value, more);
      assert (before + done) + piece.value == before + (done + piece.value);
    }
  }

  /** The first `i` elements have been appended as `done`. */
  ghost predicate ElementsUpTo(k: Kind, values: seq<Tag>, lim: Limits, depth: nat, i: nat, done: seq<byte>) {
    i <= |values| && Midway(Elements(k, values, lim, depth), done, Elements(k, values[i..], lim, depth))
  }

  lemma ElementsStart(k: Kind, values: seq<Tag>, lim: Limits, depth: nat)
    ensures ElementsUpTo(k, values, lim, depth, 0, [])
  {
    assert values[0..] == values;
    MidwayStarts(Elements(k, values, lim, depth));
  }

  lemma ElementsEnd(k: Kind, values: seq<Tag>, lim: Limits, depth: nat, done: seq<byte>)
    requires ElementsUpTo(k, values, lim, depth, |values|, done)
    ensures Elements(k, values, lim, depth) == Some(done)
  {
    assert done + [] == done;
  }

  lemma ElementsMismatch(k: Kind, values: seq<Tag>, lim: Limits, depth: nat, i: nat, done: seq<byte>)
    requires ElementsUpTo(k, values, lim, depth, i, done) && i < |values| && values[i].kind != k
    ensures Elements(k, values, lim, depth) == None
  {
  }

  lemma ElementsStep(k: Kind, values: seq<Tag>, lim: Limits, depth: nat, i: nat, done: seq<byte>,
                     before: seq<byte>, ok: bool, after: seq<byte>)
    requires ElementsUpTo(k, values, lim, depth, i, done) && i < |values| && values[i].kind == k
    requires Outcome(before + done, Payload(values[i], lim, depth + 1), lim, ok, after)
    ensures !ok ==> Refused(|before|, Elements(k, values, lim, depth), lim)
    ensures ok ==> exists more :: after == before + more && ElementsUpTo(k, values, lim, depth, i + 1, more)
  {
    assert values[i..][1..] == values[i + 1..];
    var piece, more := Payload(values[i], lim, depth + 1), Elements(k, values[i + 1..], lim, depth);
    PieceWritten(before, Elements(k, values, lim, depth), done, piece, more, lim, ok, after);
  }

  lemma PieceAfter(before: seq<byte>, done: seq<byte>, left: Option<seq<byte>>, lim: Limits, ok: bool, after: seq<byte>)
    requires Outcome(before + done, left, lim, ok, after)
    ensures Outcome(before, Join(done, left), lim, ok, after)
  {
    if ok {
      assert (before + done) + left.value == before + (done + left.value);
    }
  }

  /** The bytes of a list's payload. */
  function ListBytes(k: Kind, values: seq<Tag>, lim: Limits, depth: nat): Option<seq<byte>> {
    if |values| > lim.maxEntries || (k == END && values != []) then None
    else Join([k as int as byte] + CountBytes(|values|), Elements(k, values, lim, depth))
  }

  /** The bytes of one entry: its type, its name and its payload. */
  function EntryBytes(e: Entry, lim: Limits, depth: nat): Option<seq<byte>> {
    Join([e.tag.kind as int as byte], Both(StringBytes(e.name, lim), Payload(e.tag, lim, depth + 1)))
  }

  lemma Reassociate(kind: seq<byte>, name: Option<seq<byte>>, payload: Option<seq<byte>>, more: Option<seq<byte>>)
    ensures Join(kind, Both(name, Both(payload, more))) == Both(Join(kind, Both(name, payload)), more)
  {
    if name.Some? && payload.Some? && more.Some? {
      assert kind + (name.value + (payload.value + more.value)) == (kind + (name.value + payload.value)) + more.value;
    }
  }

  /** The first `i` entries have been appended as `done`. */
  ghost predicate EntriesUpTo(entries: seq<Entry>, lim: Limits, depth: nat, i: nat, done: seq<byte>) {
    i <= |entries| && Midway(Entries(entries, lim, depth), done, Entries(entries[i..], lim, depth))
  }

  lemma EntriesStart(entries: seq<Entry>, lim: Limits, depth: nat)
    ensures EntriesUpTo(entries, lim, depth, 0, [])
  {
    assert entries[0..] == entries;
    MidwayStarts(Entries(entries, lim, depth));
  }

  lemma EntriesEnd(entries: seq<Entry>, lim: Limits, depth: nat, done: seq<byte>)
    requires EntriesUpTo(entries, lim, depth, |entries|, done)
    ensures Entries(entries, lim, depth) == Some(done + [0])
  {
  }

  lemma EntriesNamedEnd(entries: seq<Entry>, lim: Limits, depth: nat, i: nat, done: seq<byte>)
    requires EntriesUpTo(entries, lim, depth, i, done) && i < |entries| && entries[i].tag.kind == END
    ensures Entries(entries, lim, depth) == None
  {
  }

  lemma EntriesStep(entries: seq<Entry>, lim: Limits, depth: nat, i: nat, done: seq<byte>,
                    before: seq<byte>, ok: bool, after: seq<byte>)
    requires EntriesUpTo(entries, lim, depth, i, done) && i < |entries| && entries[i].tag.kind != END
    requires Outcome(before + done, EntryBytes(entries[i], lim, depth), lim, ok, after)
    ensures !ok ==> Refused(|before|, Entries(entries, lim, depth), lim)
    ensures ok ==> exists more :: after == before + more && EntriesUpTo(entries, lim, depth, i + 1, more)
  {
    assert entries[i..][1..] == entries[i + 1..];
    Reassociate([entries[i].tag.kind as int as byte], StringBytes(entries[i].name, lim),
                Payload(entries[i].tag, lim, depth + 1), Entries(entries[i + 1..], lim, depth));
    var piece, more := EntryBytes(entries[i], lim, depth), Entries(entries[i + 1..], lim, depth);
    PieceWritten(before, Entries(entries, lim, depth), done, piece, more, lim, ok, after);
  }

  lemma EntryWritten(e: Entry, lim: Limits, depth: nat, before: seq<byte>, name: seq<byte>, ok: bool, after: seq<byte>)
    requires StringBytes(e.name, lim) == Some(name)
    requires Outcome(before + [e.tag.kind as int as byte] + name, Payload(e.tag, lim, depth + 1), lim, ok, after)
    ensures Outcome(before, EntryBytes(e, lim, depth), lim, ok, after)
  {
    if ok {
      FourParts(before, [e.tag.kind as int as byte], name, Payload(e.tag, lim, depth + 1).value);
    }
  }

  class ByteBuffer {
    var bytes: seq<byte>

    constructor ()
      ensures bytes == []
    {
      bytes := [];
    }

    method WriteString(s: seq<byte>, lim: Limits) returns (ok: bool)
      modifies this
      ensures old(bytes) <= bytes
      ensures ok <==> StringBytes(s, lim).Some?
      ensures ok ==> bytes == old(bytes) + StringBytes(s, lim).value
    {
      var encoded := EncodeModifiedUtf(s);
      if encoded.None? || |encoded.value| > lim.maxString || |encoded.value| > 0xFFFF {
        return false;
      }
      var written := BigEndian(|encoded.value|, 2) + encoded.value;
      bytes := bytes + written;
      return true;
    }

    method WriteNumbers(ns: seq<int>, width: nat)
      requires AllSigned(ns, width)
      modifies this
      ensures bytes == old(bytes) + NumberBytes(ns, width)
    {
      var i := 0;
      assert ns[0..] == ns;
      while i < |ns|
        invariant i <= |ns| && AllSigned(ns[i..], width)
        invariant bytes + NumberBytes(ns[i..], width) == old(bytes) + NumberBytes(ns, width)
      {
        ghost var was := bytes;
        bytes := bytes + EncodeSigned(ns[i], width);
        assert ns[i..][1..] == ns[i + 1..];
        assert was + NumberBytes(ns[i..], width) == bytes + NumberBytes(ns[i + 1..], width);
        i := i + 1;
      }
    }

    /** `write_payload`. */
    method WritePayload(t: Tag, lim: Limits, depth: nat) returns (ok: bool)
      modifies this
      ensures old(bytes) <= bytes
      ensures Outcome(old(bytes), Payload(t, lim, depth), lim, ok, bytes)
      ensures ok ==> |bytes| <= lim.maxBytes
      decreases t, 1
    {
      if depth > lim.maxDepth || !Matches(t.kind, t.value) {
        return false;
      }
      if t.kind != END {
        match t.value
        case Number(width, n) =>
          bytes := bytes + EncodeSigned(n, width);
        case Bits(size, bits) =>
          bytes := bytes + EncodeSigned(bits, size);
        case Numbers(width, ns) =>
          ok := WriteArray(width, ns, lim);
          if !ok {
            return;
          }
        case Text(s) =>
          ok := WriteString(s, lim);
          if !ok {
            return;
          }
        case List(k, values) =>
          ok := WriteList(k, values, lim, depth);
          if !ok {
            return;
          }
        case Compound(entries) =>
          if |entries| > lim.maxEntries {
            return false;
          }
          ok := WriteEntries(entries, lim, depth);
          if !ok {
            return;
          }
      }
      ok := |bytes| <= lim.maxBytes;
    }

    method WriteArray(width: nat, ns: seq<int>, lim: Limits) returns (ok: bool)
      requires AllSigned(ns, width)
      modifies this
      ensures old(bytes) <= bytes
      ensures ok <==> |ns| <= lim.maxEntries
      ensures ok ==> bytes == old(bytes) + (CountBytes(|ns|) + NumberBytes(ns, width))
    {
      if |ns| > lim.maxEntries {
        return false;
      }
      bytes := bytes + CountBytes(|ns|);
      WriteNumbers(ns, width);
      assert (old(bytes) + CountBytes(|ns|)) + NumberBytes(ns, width) ==
          old(bytes) + (CountBytes(|ns|) + NumberBytes(ns, width));
      return true;
    }

    method WriteList(k: Kind, values: seq<Tag>, lim: Limits, depth: nat) returns (ok: bool)
      modifies this
      ensures old(bytes) <= bytes
      ensures Outcome(old(bytes), ListBytes(k, values, lim, depth), lim, ok, bytes)
      decreases values, 1
    {
      if |values| > lim.maxEntries || (k == END && values != []) {
        return false;
      }
      bytes := bytes + ([k as int as byte] + CountBytes(|values|));
      ok := WriteElements(k, values, lim, depth);
      PieceAfter(old(bytes), [k as int as byte] + CountBytes(|values|), Elements(k, values, lim, depth), lim, ok,
                 bytes);
    }

    /** The elements of a list. */
    method WriteElements(k: Kind, values: seq<Tag>, lim: Limits, depth: nat) returns (ok: bool)
      modifies this
      ensures old(bytes) <= bytes
      ensures Outcome(old(bytes), Elements(k, values, lim, depth), lim, ok, bytes)
      decreases values, 0
    {
      ghost var done: seq<byte> := [];
      var i := 0;
      ElementsStart(k, values, lim, depth);
      while i < |values|
        invariant ElementsUpTo(k, values, lim, depth, i, done) && bytes == old(bytes) + done
      {
        if values[i].kind != k {
          ElementsMismatch(k, values, lim, depth, i, done);
          return false;
        }
        var fits := WritePayload(values[i], lim, depth + 1);
        ElementsStep(k, values, lim, depth, i, done, old(bytes), fits, bytes);
        if !fits {
          return false;
        }
        done :| bytes == old(bytes) + done && ElementsUpTo(k, values, lim, depth, i + 1, done);
        i := i + 1;
      }
      ElementsEnd(k, values, lim, depth, done);
      return true;
    }

    /** The entries of a compound, and the END byte after them. */
    method WriteEntries(entries: seq<Entry>, lim: Limits, depth: nat) returns (ok: bool)
      modifies this
      ensures old(bytes) <= bytes
      ensures Outcome(old(bytes), Entries(entries, lim, depth), lim, ok, bytes)
      decreases entries, 0
    {
      ghost var done: seq<byte> := [];
      var i := 0;
      EntriesStart(entries, lim, depth);
      while i < |entries|
        invariant EntriesUpTo(entries, lim, depth, i, done) && bytes == old(bytes) + done
      {
        if entries[i].tag.kind == END {
          EntriesNamedEnd(entries, lim, depth, i, done);
          return false;
        }
        var fits := WriteEntry(entries[i], lim, depth);
        EntriesStep(entries, lim, depth, i, done, old(bytes), fits, bytes);
        if !fits {
          return false;
        }
        done :| bytes == old(bytes) + done && EntriesUpTo(entries, lim, depth, i + 1, done);
        i := i + 1;
      }
      EntriesEnd(entries, lim, depth, done);
      bytes := bytes + [0];
      return true;
    }

    method WriteEntry(e: Entry, lim: Limits, depth: nat) returns (ok: bool)
      modifies this
      ensures old(bytes) <= bytes
      ensures Outcome(old(bytes), EntryBytes(e, lim, depth), lim, ok, bytes)
      decreases e, 2
    {
      bytes := bytes + [e.tag.kind as int as byte];
      ok := WriteString(e.name, lim);
      if ok {
        ok := WritePayload(e.tag, lim, depth + 1);
        EntryWritten(e, lim, depth, old(bytes), StringBytes(e.name, lim).value, ok, bytes);
      }
    }

    /** `write_any_tag`. */
    method WriteAnyTag(t: Tag, lim: Limits) returns (ok: bool)
      modifies this
      ensures ok <==> NbtAcceptance.Taken(t, lim, |old(bytes)|)
      ensures ok <==> Written(t, lim, |old(bytes)|).Some?
      ensures ok ==> bytes == old(bytes) + Written(t, lim, |old(bytes)|).value
      ensures old(bytes) + [t.kind as int as byte] <= bytes
    {
      NbtAcceptance.WrittenJustWhen(t, lim, |bytes|);
      var start := |bytes|;
      bytes := bytes + [t.kind as int as byte];
      ok := WritePayload(t, lim, 0);
      if ok {
        ok := |bytes| - start <= lim.maxBytes;
      }
    }
  }

  // ---------------------------------------------------------------------------------------
  // Reading
  // ---------------------------------------------------------------------------------------

  /** A read returns what `spec` says and leaves `rest`, or refuses as `spec` does. */
  ghost predicate Took<T>(spec: Got<T>, r: Option<T>, rest: seq<byte>) {
    if spec.Bad? then r.None? else r == Some(spec.value) && rest == spec.rest
  }

  /** A sequence of which `done` has been read and `left` is still to come. */
  function Prepend<T>(done: seq<T>, left: Got<seq<T>>): Got<seq<T>> {
    if left.Bad? then Bad else Got(done + left.value, left.rest)
  }

  lemma PrependNothing<T>(left: Got<seq<T>>)
    ensures Prepend([], left) == left
  {
    if left.Got? {
      assert [] + left.value == left.value;
    }
  }

  lemma PrependOne<T>(done: seq<T>, x: T, left: Got<seq<T>>)
    ensures Prepend(done, Prepend([x], left)) == Prepend(done + [x], left)
  {
    if left.Got? {
      assert done + ([x] + left.value) == (done + [x]) + left.value;
    }
  }

  ghost predicate NumbersUpTo(b: seq<byte>, count: nat, width: nat, done: seq<int>, rest: seq<byte>) {
    |done| <= count && ReadNumbers(b, count, width) == Prepend(done, ReadNumbers(rest, count - |done|, width))
  }

  lemma NumbersStep(b: seq<byte>, count: nat, width: nat, done: seq<int>, rest: seq<byte>)
    requires NumbersUpTo(b, count, width, done, rest) && |done| < count
    ensures |rest| < width ==> ReadNumbers(b, count, width).Bad?
    ensures |rest| >= width ==> NumbersUpTo(b, count, width, done + [DecodeSigned(rest[..width])], rest[width..])
  {
    if |rest| >= width {
      PrependOne(done, DecodeSigned(rest[..width]), ReadNumbers(rest[width..], count - |done| - 1, width));
    }
  }

  lemma NumbersEnds(b: seq<byte>, count: nat, width: nat, done: seq<int>, rest: seq<byte>)
    ensures NumbersUpTo(b, count, width, [], b)
    ensures NumbersUpTo(b, count, width, done, rest) && |done| == count ==>
              ReadNumbers(b, count, width) == Got(done, rest)
  {
    PrependNothing(ReadNumbers(b, count, width));
    assert done + [] == done;
  }

  ghost predicate ElementsReadUpTo(b: seq<byte>, count: nat, k: Kind, lim: Limits, depth: nat, done: seq<Tag>,
                                   rest: seq<byte>)
    requires depth <= lim.maxDepth
  {
    && |done| <= count
    && ReadElements(b, count, k, lim, depth) == Prepend(done, ReadElements(rest, count - |done|, k, lim, depth))
  }

  lemma ElementsReadStep(b: seq<byte>, count: nat, k: Kind, lim: Limits, depth: nat, done: seq<Tag>, rest: seq<byte>,
                         r: Option<Tag>, after: seq<byte>)
    requires depth <= lim.maxDepth && ElementsReadUpTo(b, count, k, lim, depth, done, rest) && |done| < count
    requires Took(ReadPayload(rest, k, lim, depth + 1), r, after)
    ensures r.None? ==> ReadElements(b, count, k, lim, depth).Bad?
    ensures r.Some? ==> ElementsReadUpTo(b, count, k, lim, depth, done + [r.value], after)
  {
    if r.Some? {
      PrependOne(done, r.value, ReadElements(after, count - |done| - 1, k, lim, depth));
    }
  }

  lemma ElementsReadEnds(b: seq<byte>, count: nat, k: Kind, lim: Limits, depth: nat, done: seq<Tag>, rest: seq<byte>)
    requires depth <= lim.maxDepth
    ensures ElementsReadUpTo(b, count, k, lim, depth, [], b)
    ensures ElementsReadUpTo(b, count, k, lim, depth, done, rest) && |done| == count ==>
              ReadElements(b, count, k, lim, depth) == Got(done, rest)
  {
    PrependNothing(ReadElements(b, count, k, lim, depth));
    assert done + [] == done;
  }

  ghost predicate EntriesReadUpTo(b: seq<byte>, lim: Limits, depth: nat, done: seq<Entry>, rest: seq<byte>)
    requires depth <= lim.maxDepth
  {
    ReadEntries(b, 0, lim, depth) == Prepend(done, ReadEntries(rest, |done|, lim, depth))
  }

  lemma EntriesReadStarts(b: seq<byte>, lim: Limits, depth: nat)
    requires depth <= lim.maxDepth
    ensures EntriesReadUpTo(b, lim, depth, [], b)
  {
    PrependNothing(ReadEntries(b, 0, lim, depth));
  }

  /** The END byte, or a reason to refuse, where the next entry starts. */
  lemma EntriesReadEnds(b: seq<byte>, lim: Limits, depth: nat, done: seq<Entry>, rest: seq<byte>,
                        k: Option<Kind>, after: seq<byte>)
    requires depth <= lim.maxDepth && EntriesReadUpTo(b, lim, depth, done, rest)
    requires Took(ReadKind(rest), k, after)
    ensures k == Some(END) ==> ReadEntries(b, 0, lim, depth) == Got(done, after)
    ensures k.None? || (k != Some(END) && |done| >= lim.maxEntries) ==> ReadEntries(b, 0, lim, depth).Bad?
  {
    assert done + [] == done;
  }

  /** One more entry: its type has been read, and then its name and its payload. */
  lemma EntriesReadStep(b: seq<byte>, lim: Limits, depth: nat, done: seq<Entry>, rest: seq<byte>,
                        k: Kind, afterKind: seq<byte>, e: Option<Entry>, after: seq<byte>)
    requires depth <= lim.maxDepth && EntriesReadUpTo(b, lim, depth, done, rest) && |done| < lim.maxEntries
    requires k != END && ReadKind(rest) == Got(k, afterKind)
    requires Took(ReadEntry(afterKind, k, lim, depth), e, after)
    ensures e.None? ==> ReadEntries(b, 0, lim, depth).Bad?
    ensures e.Some? ==> EntriesReadUpTo(b, lim, depth, done + [e.value], after)
  {
    if e.Some? {
      PrependOne(done, e.value, ReadEntries(after, |done| + 1, lim, depth));
    }
  }

  /** The name and the payload of an entry of type `k`. */
  function ReadEntry(b: seq<byte>, k: Kind, lim: Limits, depth: nat): (r: Got<Entry>)
    ensures r.Got? ==> |r.rest| < |b|
  {
    var name := ReadString(b, lim);
    if name.Bad? then Bad
    else
      var tag := ReadPayload(name.rest, k, lim, depth + 1);
      if tag.Bad? then Bad else Got(Entry(name.value, tag.value), tag.rest)
  }

  class Reader {
    const data: seq<byte>
    var offset: nat

    ghost predicate Valid()
      reads this
    {
      offset <= |data|
    }

    ghost function Rest(): seq<byte>
      requires Valid()
      reads this
    {
      data[offset..]
    }

    constructor (data: seq<byte>)
      ensures Valid() && Rest() == data
    {
      this.data := data;
      offset := 0;
    }

    /** `read_bytes`, and with it the fixed-width reads. */
    method Take(n: nat) returns (r: Option<seq<byte>>)
      requires Valid()
      modifies this
      ensures Valid()
      ensures |old(Rest())| < n ==> r.None? && Rest() == old(Rest())
      ensures n <= |old(Rest())| ==> r == Some(old(Rest())[..n]) && Rest() == old(Rest())[n..]
    {
      if n > |data| - offset {
        return None;
      }
      ghost var rest := Rest();
      r := Some(data[offset..offset + n]);
      assert rest[..n] == data[offset..offset + n];
      assert rest[n..] == data[offset + n..];
      offset := offset + n;
    }

    method TakeKind() returns (r: Option<Kind>)
      requires Valid()
      modifies this
      ensures Valid() && Took(ReadKind(old(Rest())), r, Rest())
    {
      var b := Take(1);
      if b.None? || b.value[0] > 12 {
        return None;
      }
      return Some(b.value[0] as int as Kind);
    }

    method TakeCount(lim: Limits) returns (r: Option<nat>)
      requires Valid()
      modifies this
      ensures Valid() && Took(ReadCount(old(Rest()), lim), r, Rest())
    {
      var b := Take(4);
      if b.None? {
        return None;
      }
      var n := DecodeSigned(b.value);
      if n < 0 || n > lim.maxEntries {
        return None;
      }
      return Some(n);
    }

    method TakeString(lim: Limits) returns (r: Option<seq<byte>>)
      requires Valid()
      modifies this
      ensures Valid() && Took(ReadString(old(Rest()), lim), r, Rest())
    {
      ghost var b := Rest();
      var head := Take(2);
      if head.None? {
        return None;
      }
      var size := FromBigEndian(head.value);
      if size > lim.maxString {
        return None;
      }
      var bytes := Take(size);
      if bytes.None? {
        return None;
      }
      assert bytes.value == b[2..2 + size] && Rest() == b[2 + size..];
      r := DecodeModifiedUtf(bytes.value);
    }

    method TakeNumbers(count: nat, width: nat) returns (r: Option<seq<int>>)
      requires Valid()
      modifies this
      ensures Valid() && Took(ReadNumbers(old(Rest()), count, width), r, Rest())
    {
      var ns: seq<int> := [];
      NumbersEnds(Rest(), count, width, ns, Rest());
      while |ns| < count
        invariant Valid() && |ns| <= count
        invariant NumbersUpTo(old(Rest()), count, width, ns, Rest())
      {
        NumbersStep(old(Rest()), count, width, ns, Rest());
        var b := Take(width);
        if b.None? {
          return None;
        }
        ns := ns + [DecodeSigned(b.value)];
      }
      NumbersEnds(old(Rest()), count, width, ns, Rest());
      return Some(ns);
    }

    /** `read_payload`. */
    method TakePayload(k: Kind, lim: Limits, depth: nat) returns (r: Option<Tag>)
      requires Valid()
      modifies this
      ensures Valid() && Took(ReadPayload(old(Rest()), k, lim, depth), r, Rest())
      decreases Left(lim, depth), 2
    {
      if depth > lim.maxDepth {
        return None;
      }
      if k == END {
        return Some(Tag(END, Nothing));
      } else if IsNumber(k) || k == FLOAT || k == DOUBLE {
        r := TakeNumber(k);
      } else if IsArray(k) {
        r := TakeArray(k, lim);
      } else if k == STRING {
        var s := TakeString(lim);
        return if s.None? then None else Some(Tag(k, Text(s.value)));
      } else if k == LIST {
        r := TakeList(lim, depth);
      } else {
        var entries := TakeEntries(lim, depth);
        return if entries.None? then None else Some(Tag(k, Compound(entries.value)));
      }
    }

    method TakeNumber(k: Kind) returns (r: Option<Tag>)
      requires Valid() && (IsNumber(k) || k == FLOAT || k == DOUBLE)
      modifies this
      ensures Valid()
      ensures forall lim: Limits, depth: nat :: depth <= lim.maxDepth ==>
        Took(ReadPayload(old(Rest()), k, lim, depth), r, Rest())
    {
      var b := Take(WidthOf(k));
      if b.None? {
        return None;
      }
      var n := DecodeSigned(b.value);
      return Some(Tag(k, if IsNumber(k) then Number(WidthOf(k), n) else Bits(WidthOf(k), n)));
    }

    method TakeArray(k: Kind, lim: Limits) returns (r: Option<Tag>)
      requires Valid() && IsArray(k)
      modifies this
      ensures Valid()
      ensures forall depth: nat :: depth <= lim.maxDepth ==>
        Took(ReadPayload(old(Rest()), k, lim, depth), r, Rest())
    {
      var count := TakeCount(lim);
      if count.None? {
        return None;
      }
      var ns := TakeNumbers(count.value, WidthOf(k));
      return if ns.None? then None else Some(Tag(k, Numbers(WidthOf(k), ns.value)));
    }

    method TakeList(lim: Limits, depth: nat) returns (r: Option<Tag>)
      requires Valid() && depth <= lim.maxDepth
      modifies this
      ensures Valid() && Took(ReadPayload(old(Rest()), LIST, lim, depth), r, Rest())
      decreases Left(lim, depth), 1
    {
      var k := TakeKind();
      if k.None? {
        return None;
      }
      var count := TakeCount(lim);
      if count.None? || (k.value == END && count.value != 0) {
        return None;
      }
      var values := TakeElements(count.value, k.value, lim, depth);
      return if values.None? then None else Some(Tag(LIST, List(k.value, values.value)));
    }

    method TakeElements(count: nat, k: Kind, lim: Limits, depth: nat) returns (r: Option<seq<Tag>>)
      requires Valid() && depth <= lim.maxDepth
      modifies this
      ensures Valid() && Took(ReadElements(old(Rest()), count, k, lim, depth), r, Rest())
      decreases Left(lim, depth), 0
    {
      var values: seq<Tag> := [];
      ElementsReadEnds(Rest(), count, k, lim, depth, values, Rest());
      while |values| < count
        invariant Valid() && |values| <= count
        invariant ElementsReadUpTo(old(Rest()), count, k, lim, depth, values, Rest())
      {
        ghost var rest := Rest();
        var t := TakePayload(k, lim, depth + 1);
        ElementsReadStep(old(Rest()), count, k, lim, depth, values, rest, t, Rest());
        if t.None? {
          return None;
        }
        values := values + [t.value];
      }
      ElementsReadEnds(old(Rest()), count, k, lim, depth, values, Rest());
      return Some(values);
    }

    method TakeEntries(lim: Limits, depth: nat) returns (r: Option<seq<Entry>>)
      requires Valid() && depth <= lim.maxDepth
      modifies this
      ensures Valid() && Took(ReadEntries(old(Rest()), 0, lim, depth), r, Rest())
      decreases Left(lim, depth), 1
    {
      var entries: seq<Entry> := [];
      EntriesReadStarts(Rest(), lim, depth);
      while true
        invariant Valid()
        invariant EntriesReadUpTo(old(Rest()), lim, depth, entries, Rest())
        decreases |Rest()|
      {
        ghost var rest := Rest();
        var k := TakeKind();
        ghost var afterKind := Rest();
        EntriesReadEnds(old(Rest()), lim, depth, entries, rest, k, afterKind);
        if k == Some(END) {
          return Some(entries);
        }
        if k.None? || |entries| >= lim.maxEntries {
          return None;
        }
        var e := TakeEntry(k.value, lim, depth);
        EntriesReadStep(old(Rest()), lim, depth, entries, rest, k.value, afterKind, e, Rest());
        if e.None? {
          return None;
        }
        entries := entries + [e.value];
      }
    }

    method TakeEntry(k: Kind, lim: Limits, depth: nat) returns (r: Option<Entry>)
      requires Valid() && depth <= lim.maxDepth
      modifies this
      ensures Valid() && Took(ReadEntry(old(Rest()), k, lim, depth), r, Rest())
      decreases Left(lim, depth), 0
    {
      var name := TakeString(lim);
      if name.None? {
        return None;
      }
      var t := TakePayload(k, lim, depth + 1);
      return if t.None? then None else Some(Entry(name.value, t.value));
    }

    /** `read_any_tag`. */
    method TakeAnyTag(lim: Limits) returns (r: Option<Tag>)
      requires Valid()
      modifies this
      ensures Valid() && Took(ReadAny(old(Rest()), lim), r, Rest())
    {
      var before := |data| - offset;
      var k := TakeKind();
      if k.None? {
        return None;
      }
      r := TakePayload(k.value, lim, 0);
      if r.Some? && before - (|data| - offset) > lim.maxBytes {
        return None;
      }
    }
  }

  /** A tag written into an empty buffer and read back under the same limits. */
  method WriteThenRead(t: Tag, lim: Limits) returns (written: bool, r: Option<Tag>)
    ensures written <==> NbtAcceptance.Taken(t, lim, 0)
    ensures written ==> (r == Some(Normal(t)) <==> Countable(t))
    ensures written ==> (r == Some(t) <==> Countable(t) && WellFormed(t))
    ensures written && (lim.maxEntries < MAX_COUNT || lim.maxBytes < MAX_COUNT) ==> r == Some(Normal(t))
  {
    var buffer := new ByteBuffer();
    written := buffer.WriteAnyTag(t, lim);
    var reader := new Reader(buffer.bytes);
    r := reader.TakeAnyTag(lim);
    if written {
      assert buffer.bytes == [] + Written(t, lim, 0).value == Written(t, lim, 0).value;
      ReadsBack(t, lim, buffer.bytes);
    }
  }

  /** What reading a written tag returns. */
  lemma ReadsBack(t: Tag, lim: Limits, bytes: seq<byte>)
    requires Written(t, lim, 0) == Some(bytes)
    ensures
      var r := ReadAny(bytes, lim);
      && (r.Got? && r.value == Normal(t) <==> Countable(t))
      && (r.Got? && r.value == t <==> Countable(t) && WellFormed(t))
      && (lim.maxEntries < MAX_COUNT || lim.maxBytes < MAX_COUNT ==> r.Got? && r.value == Normal(t))
  {
    assert bytes + [] == bytes;
    AnyRoundTrip(t, lim, 0, []);
    NormalCountable(t);
    if ReadAny(bytes, lim).Got? {
      ReadIsCountable(bytes[1..], ReadKind(bytes).value, lim, 0);
    }
    if lim.maxEntries < MAX_COUNT || lim.maxBytes < MAX_COUNT {
      LimitsMakeCountable(t, lim, 0);
    }
  }
}
