/** Region files: a location table of 1024 entries, a timestamp table, and 4096-byte sectors holding
    one compressed record per entry.

    The file is a byte sequence; a write past its end fills the gap with zeros.  Compression is a
    parameter, of which `IsInverse` is all that is used. */
module RegionFiles {
  import opened Arithmetic
  import opened Bytes
  import opened Wrappers

  const SECTOR := 4096
  const HEADER := 8192
  const ENTRIES := 1024
  const MAX_CHUNK := 0x100_0000
  const FIRST_CAPACITY := 0x4_0000

  // ---------------------------------------------------------------------------------------
  // Which entry a chunk has
  // ---------------------------------------------------------------------------------------

  /** Integer division as the source language has it: towards zero. */
  function Quotient(value: int, divisor: nat): int
    requires divisor > 0
  {
    if value >= 0 then value / divisor else -(-value / divisor)
  }

  function Remainder(value: int, divisor: nat): int
    requires divisor > 0
  {
    value - Quotient(value, divisor) * divisor
  }

  function FloorDiv(value: int, divisor: nat): int
    requires divisor > 0
  {
    if Remainder(value, divisor) < 0 then Quotient(value, divisor) - 1 else Quotient(value, divisor)
  }

  function FloorMod(value: int, divisor: nat): int
    requires divisor > 0
  {
    if Remainder(value, divisor) < 0 then Remainder(value, divisor) + divisor else Remainder(value, divisor)
  }

  /** Region and local coordinate together address each chunk coordinate exactly once. */
  lemma ChunkAddress(x: int, region: int, local: int)
    ensures FloorDiv(x, 32) == region && FloorMod(x, 32) == local <==> 0 <= local < 32 && x == 32 * region + local
  {
    var q, m := Quotient(x, 32), Remainder(x, 32);
    assert x == 32 * q + m && -32 < m < 32 && (x >= 0 ==> m >= 0) && (x < 0 ==> m <= 0);
  }

  // ---------------------------------------------------------------------------------------
  // Compression
  // ---------------------------------------------------------------------------------------

  datatype Inflation = Inflated(data: seq<byte>) | BufferTooSmall | Corrupt

  datatype Codec = Codec(compress: seq<byte> -> seq<byte>, inflate: (seq<byte>, nat) -> Inflation)

  /** Inflating into a large enough buffer undoes compression. */
  ghost predicate IsInverse(c: Codec) {
    forall p: seq<byte>, capacity: nat {:trigger c.inflate(c.compress(p), capacity)} :: |p| <= MAX_CHUNK ==>
      c.inflate(c.compress(p), capacity) == if |p| <= capacity then Inflated(p) else BufferTooSmall
  }

  datatype Error = TooLarge | BadCoordinate | TableFull | Unreadable | BadLength | BadCompression | BadData

  datatype Result = Absent | Payload(data: seq<byte>) | Failed(error: Error)

  /** `decompress_payload` from some buffer capacity on. */
  ghost function Decompressed(c: Codec, data: seq<byte>, capacity: nat): Result
    requires capacity > 0
    decreases MAX_CHUNK - capacity
  {
    if capacity > MAX_CHUNK then Failed(TooLarge)
    else
      match c.inflate(data, capacity)
      case Inflated(d) => Payload(d)
      case Corrupt => Failed(BadData)
      case BufferTooSmall => Decompressed(c, data, 2 * capacity)
  }

  method DecompressPayload(c: Codec, data: seq<byte>) returns (r: Result)
    ensures r == Decompressed(c, data, FIRST_CAPACITY)
  {
    var capacity := FIRST_CAPACITY;
    while capacity <= MAX_CHUNK
      invariant capacity > 0 && Decompressed(c, data, capacity) == Decompressed(c, data, FIRST_CAPACITY)
      decreases MAX_CHUNK - capacity
    {
      match c.inflate(data, capacity)
      case Inflated(d) => return Payload(d);
      case Corrupt => return Failed(BadData);
      case BufferTooSmall => capacity := 2 * capacity;
    }
    r := Failed(TooLarge);
  }

  /** Doubling reaches the size limit exactly, so every payload within the limit comes back. */
  lemma {:induction false} DecompressesAll(c: Codec, p: seq<byte>, k: nat)
    requires IsInverse(c) && |p| <= MAX_CHUNK && k <= 6
    ensures Decompressed(c, c.compress(p), FIRST_CAPACITY * Pow2(k)) == Payload(p)
    decreases 6 - k
  {
    assert Pow2(2) == 4 && Pow2(4) == 16 && Pow2(6) == 64;
    assert c.inflate(c.compress(p), FIRST_CAPACITY * Pow2(k)) ==
           if |p| <= FIRST_CAPACITY * Pow2(k) then Inflated(p) else BufferTooSmall;
    Pow2Monotone(k, 6);
    if |p| > FIRST_CAPACITY * Pow2(k) {
      DecompressesAll(c, p, k + 1);
    }
  }

  // ---------------------------------------------------------------------------------------
  // The file as bytes
  // ---------------------------------------------------------------------------------------

  /** Seek and write. */
  function WriteAt(file: seq<byte>, at: nat, data: seq<byte>): (r: seq<byte>)
    ensures |r| == Max(|file|, at + |data|)
  {
    var head := if at <= |file| then file[..at] else file + seq(at - |file|, _ => 0);
    head + data + if at + |data| < |file| then file[at + |data|..] else []
  }

  lemma WriteAtInside(file: seq<byte>, at: nat, data: seq<byte>)
    ensures WriteAt(file, at, data)[at..at + |data|] == data
  {
  }

  lemma WriteAtOutside(file: seq<byte>, at: nat, data: seq<byte>, lo: nat, hi: nat)
    requires lo <= hi <= |file| && (hi <= at || at + |data| <= lo)
    ensures WriteAt(file, at, data)[lo..hi] == file[lo..hi]
  {
    var r := WriteAt(file, at, data);
    forall k | lo <= k < hi
      ensures r[k] == file[k]
    {
    }
  }

  function U32At(file: seq<byte>, at: nat): (v: nat)
    requires at + 4 <= |file|
    ensures v < 0x1_0000_0000
  {
    FromBigEndianRange(file[at..at + 4]);
    RangeValues();
    FromBigEndian(file[at..at + 4])
  }

  // ---------------------------------------------------------------------------------------
  // Entries
  // ---------------------------------------------------------------------------------------

  function Location(file: seq<byte>, i: nat): nat
    requires |file| >= HEADER && i < ENTRIES
  {
    U32At(file, 4 * i)
  }

  function SectorOffset(file: seq<byte>, i: nat): nat
    requires |file| >= HEADER && i < ENTRIES
  {
    Location(file, i) / 256
  }

  function SectorCount(file: seq<byte>, i: nat): nat
    requires |file| >= HEADER && i < ENTRIES
  {
    Location(file, i) % 256
  }

  /** The read of one entry. */
  ghost function ReadEntry(c: Codec, file: seq<byte>, i: nat): Result
    requires |file| >= HEADER && i < ENTRIES
  {
    var offset, count := SectorOffset(file, i), SectorCount(file, i);
    if offset == 0 || count == 0 then Absent
    else if offset * SECTOR + 4 > |file| then Failed(Unreadable)
    else
      var length := U32At(file, offset * SECTOR);
      if length < 1 || length > count * SECTOR - 4 then Failed(BadLength)
      else if offset * SECTOR + 5 > |file| || file[offset * SECTOR + 4] != 2 then Failed(BadCompression)
      else if offset * SECTOR + 4 + length > |file| then Failed(Unreadable)
      else Decompressed(c, file[offset * SECTOR + 5..offset * SECTOR + 4 + length], FIRST_CAPACITY)
  }

  /** What a read of any file finds, from the three bytes of the first sector, the byte of their number, the
      length and the compression type. */
  lemma ReadJustWhen(c: Codec, file: seq<byte>, i: nat)
    requires |file| >= HEADER && i < ENTRIES
    ensures
      var word := FromBigEndian(file[4 * i..4 * i + 4]);
      var at, count, r := word / 256 * 4096, word % 256, ReadEntry(c, file, i);
      && (r.Absent? <==> at == 0 || count == 0)
      && (at > 0 && count > 0 ==>
            if at + 4 > |file| then r == Failed(Unreadable)
            else
              var length := FromBigEndian(file[at..at + 4]);
              if length == 0 || length + 4 > count * 4096 then r == Failed(BadLength)
              else if at + 5 > |file| || file[at + 4] != 2 then r == Failed(BadCompression)
              else if at + 4 + length > |file| then r == Failed(Unreadable)
              else r == Decompressed(c, file[at + 5..at + 4 + length], FIRST_CAPACITY))
  {
  }

  /** A populated entry owns sectors behind the header and inside the file. */
  ghost predicate EntrySane(file: seq<byte>, i: nat)
    requires |file| >= HEADER && i < ENTRIES
  {
    Location(file, i) != 0 ==>
      && SectorOffset(file, i) >= 2 && SectorCount(file, i) >= 1
      && (SectorOffset(file, i) + SectorCount(file, i)) * SECTOR <= |file|
  }

  ghost predicate Disjoint(file: seq<byte>, i: nat, j: nat)
    requires |file| >= HEADER && i < ENTRIES && j < ENTRIES
  {
    Location(file, i) != 0 && Location(file, j) != 0 ==>
      || SectorOffset(file, i) + SectorCount(file, i) <= SectorOffset(file, j)
      || SectorOffset(file, j) + SectorCount(file, j) <= SectorOffset(file, i)
  }

  ghost predicate Sane(file: seq<byte>) {
    && |file| >= HEADER
    && (forall i {:trigger EntrySane(file, i)} :: 0 <= i < ENTRIES ==> EntrySane(file, i))
    && (forall i, j {:trigger Disjoint(file, i, j)} :: 0 <= i < j < ENTRIES ==> Disjoint(file, i, j))
  }

  // ---------------------------------------------------------------------------------------
  // One write
  // ---------------------------------------------------------------------------------------

  function SectorsFor(bytes: nat): nat {
    (bytes + SECTOR - 1) / SECTOR
  }

  /** They are as many sectors of 4,096 bytes as are needed, and no more. */
  lemma SectorsForLeast(bytes: nat)
    ensures bytes <= SectorsFor(bytes) * 4096 && (bytes > 0 ==> (SectorsFor(bytes) - 1) * 4096 < bytes)
  {
  }

  /** Where a record of `required` sectors goes: in place if it fits, else behind the end of the file. */
  function Placement(file: seq<byte>, i: nat, required: nat): nat
    requires |file| >= HEADER && i < ENTRIES
  {
    if SectorOffset(file, i) < 2 || SectorCount(file, i) < required then Max(2, SectorsFor(|file|))
    else SectorOffset(file, i)
  }

  /** Length, compression type, data, and zeros up to the sector boundary. */
  function Record(compressed: seq<byte>, required: nat): (r: seq<byte>)
    requires 5 + |compressed| <= required * SECTOR <= 255 * SECTOR
    ensures |r| == required * SECTOR
  {
    BigEndian(|compressed| + 1, 4) + [2] + compressed + seq(required * SECTOR - 5 - |compressed|, _ => 0)
  }

  function Written(file: seq<byte>, i: nat, compressed: seq<byte>, required: nat, timestamp: nat): seq<byte>
    requires |file| >= HEADER && i < ENTRIES
    requires 5 + |compressed| <= required * SECTOR <= 255 * SECTOR
  {
    var offset := Placement(file, i, required);
    WriteAt(WriteAt(WriteAt(file, offset * SECTOR, Record(compressed, required)),
                    4 * i, BigEndian(offset * 256 + required, 4)),
            SECTOR + 4 * i, BigEndian(timestamp, 4))
  }

  /** Bytes a write of entry `i` at sectors [offset, offset + required) does not touch. */
  lemma WrittenElsewhere(file: seq<byte>, i: nat, compressed: seq<byte>, required: nat, timestamp: nat, lo: nat,
                         hi: nat)
    requires |file| >= HEADER && i < ENTRIES
    requires 5 + |compressed| <= required * SECTOR <= 255 * SECTOR
    requires lo <= hi <= |file|
    requires var at := Placement(file, i, required) * SECTOR; hi <= at || at + required * SECTOR <= lo
    requires hi <= 4 * i || 4 * i + 4 <= lo
    requires hi <= SECTOR + 4 * i || SECTOR + 4 * i + 4 <= lo
    ensures |Written(file, i, compressed, required, timestamp)| >= |file|
    ensures Written(file, i, compressed, required, timestamp)[lo..hi] == file[lo..hi]
  {
    var offset := Placement(file, i, required);
    var f1 := WriteAt(file, offset * SECTOR, Record(compressed, required));
    var f2 := WriteAt(f1, 4 * i, BigEndian(offset * 256 + required, 4));
    var f3 := WriteAt(f2, SECTOR + 4 * i, BigEndian(timestamp, 4));
    assert Written(file, i, compressed, required, timestamp) == f3;
    WriteAtOutside(file, offset * SECTOR, Record(compressed, required), lo, hi);
    WriteAtOutside(f1, 4 * i, BigEndian(offset * 256 + required, 4), lo, hi);
    WriteAtOutside(f2, SECTOR + 4 * i, BigEndian(timestamp, 4), lo, hi);
  }

  /** The record stays where it was put while the two header words are written. */
  lemma RecordWritten(file: seq<byte>, i: nat, compressed: seq<byte>, required: nat, timestamp: nat)
    requires |file| >= HEADER && i < ENTRIES && required >= 1
    requires 5 + |compressed| <= required * SECTOR <= 255 * SECTOR
    requires 2 <= Placement(file, i, required) <= 0xFF_FFFF
    ensures
      var file', offset := Written(file, i, compressed, required, timestamp), Placement(file, i, required);
      && |file'| >= HEADER && |file'| >= (offset + required) * SECTOR && |file'| >= |file|
      && file'[offset * SECTOR..(offset + required) * SECTOR] == Record(compressed, required)
  {
    var offset := Placement(file, i, required);
    var f1 := WriteAt(file, offset * SECTOR, Record(compressed, required));
    var f2 := WriteAt(f1, 4 * i, BigEndian(offset * 256 + required, 4));
    WriteAtInside(file, offset * SECTOR, Record(compressed, required));
    WriteAtOutside(f1, 4 * i, BigEndian(offset * 256 + required, 4), offset * SECTOR, (offset + required) * SECTOR);
    WriteAtOutside(f2, SECTOR + 4 * i, BigEndian(timestamp, 4), offset * SECTOR, (offset + required) * SECTOR);
  }

  /** The written entry's location and record. */
  lemma WrittenHere(file: seq<byte>, i: nat, compressed: seq<byte>, required: nat, timestamp: nat)
    requires |file| >= HEADER && i < ENTRIES && required >= 1
    requires 5 + |compressed| <= required * SECTOR <= 255 * SECTOR
    requires 2 <= Placement(file, i, required) <= 0xFF_FFFF
    ensures
      var file', offset := Written(file, i, compressed, required, timestamp), Placement(file, i, required);
      && |file'| >= HEADER && |file'| >= (offset + required) * SECTOR && |file'| >= |file|
      && SectorOffset(file', i) == offset && SectorCount(file', i) == required
      && file'[offset * SECTOR..(offset + required) * SECTOR] == Record(compressed, required)
  {
    var offset := Placement(file, i, required);
    var location := BigEndian(offset * 256 + required, 4);
    var f1 := WriteAt(file, offset * SECTOR, Record(compressed, required));
    var f2 := WriteAt(f1, 4 * i, location);
    var f3 := WriteAt(f2, SECTOR + 4 * i, BigEndian(timestamp, 4));
    RecordWritten(file, i, compressed, required, timestamp);
    WriteAtInside(f1, 4 * i, location);
    WriteAtOutside(f2, SECTOR + 4 * i, BigEndian(timestamp, 4), 4 * i, 4 * i + 4);
    RangeValues();
    BigEndianRoundTrip(offset * 256 + required, 4);
    assert Location(f3, i) == offset * 256 + required;
  }

  /** A record that fits where its entry has its sectors leaves the file as long as it was; any other goes
      behind its end, from the next sector on. */
  ghost function LengthAfter(file: seq<byte>, i: nat, required: nat): nat
    requires |file| >= HEADER && i < ENTRIES
  {
    if Location(file, i) != 0 && required <= SectorCount(file, i) then |file|
    else (Max(2, SectorsFor(|file|)) + required) * 4096
  }

  lemma WrittenLength(file: seq<byte>, i: nat, compressed: seq<byte>, required: nat, timestamp: nat)
    requires Sane(file) && i < ENTRIES && required >= 1
    requires 5 + |compressed| <= required * SECTOR <= 255 * SECTOR
    ensures |Written(file, i, compressed, required, timestamp)| == LengthAfter(file, i, required)
  {
    assert EntrySane(file, i);
    SectorsForLeast(|file|);
  }

  lemma LocationBytes(offset: nat, required: nat)
    requires offset <= 0xFF_FFFF && required <= 255
    ensures
      var v := offset * 256 + required;
      && v / 0x100_0000 % 256 == offset / 0x1_0000 && v / 0x1_0000 % 256 == offset / 256 % 256
      && v / 256 % 256 == offset % 256 && v % 256 == required
  {
    DivModUnique(offset * 256 + required, 256, offset, required);
    DivModUnique(offset * 256 + required, 0x1_0000, offset / 256, offset % 256 * 256 + required);
    DivModUnique(offset * 256 + required, 0x100_0000, offset / 0x1_0000, offset % 0x1_0000 * 256 + required);
  }

  /** What a write leaves in the table: three bytes of the first sector, one of the number of sectors. */
  lemma TableBytes(file: seq<byte>, i: nat, compressed: seq<byte>, required: nat, timestamp: nat)
    requires |file| >= HEADER && i < ENTRIES && required >= 1
    requires 5 + |compressed| <= required * SECTOR <= 255 * SECTOR
    requires 2 <= Placement(file, i, required) <= 0xFF_FFFF
    ensures
      var file', offset := Written(file, i, compressed, required, timestamp), Placement(file, i, required);
      && |file'| >= HEADER
      && file'[4 * i] as int == offset / 0x1_0000 && file'[4 * i + 1] as int == offset / 256 % 256
      && file'[4 * i + 2] as int == offset % 256 && file'[4 * i + 3] as int == required
  {
    var file', offset := Written(file, i, compressed, required, timestamp), Placement(file, i, required);
    WrittenHere(file, i, compressed, required, timestamp);
    WordBytes(file', 4 * i);
    assert U32At(file', 4 * i) == offset * 256 + required;
    LocationBytes(offset, required);
  }

  /** What a write leaves in its sectors of 4,096 bytes: the length, the compression type 2, the data. */
  lemma SectorBytes(file: seq<byte>, i: nat, compressed: seq<byte>, required: nat, timestamp: nat)
    requires |file| >= HEADER && i < ENTRIES && required >= 1
    requires 5 + |compressed| <= required * SECTOR <= 255 * SECTOR
    requires 2 <= Placement(file, i, required) <= 0xFF_FFFF
    ensures
      var file', at := Written(file, i, compressed, required, timestamp), Placement(file, i, required) * 4096;
      var length := |compressed| + 1;
      && |file'| >= at + 4 + length
      && file'[at] as int == length / 0x100_0000 % 256 && file'[at + 1] as int == length / 0x1_0000 % 256
      && file'[at + 2] as int == length / 256 % 256 && file'[at + 3] as int == length % 256
      && file'[at + 4] == 2 && file'[at + 5..at + 4 + length] == compressed
  {
    var file', offset := Written(file, i, compressed, required, timestamp), Placement(file, i, required);
    WrittenHere(file, i, compressed, required, timestamp);
    assert offset * SECTOR + required * SECTOR == (offset + required) * SECTOR;
    RecordAt(file', offset * SECTOR, compressed, required);
    WordBytes(file', offset * SECTOR);
  }

  /** The bytes of a word. */
  lemma WordBytes(file: seq<byte>, at: nat)
    requires at + 4 <= |file|
    ensures
      var v := U32At(file, at);
      && file[at] as int == v / 0x100_0000 % 256 && file[at + 1] as int == v / 0x1_0000 % 256
      && file[at + 2] as int == v / 256 % 256 && file[at + 3] as int == v % 256
  {
    var word := file[at..at + 4];
    FromBigEndianRoundTrip(word);
    RangeValues();
    assert Range(3) == 0x100_0000 && Range(0) == 1;
    forall k | 0 <= k < 4 ensures word[k] == file[at + k] && word[k] as int == U32At(file, at) / Range(3 - k) % 256 {
      BigEndianAt(U32At(file, at), 4, k);
    }
    assert word[0] == file[at] && word[1] == file[at + 1] && word[2] == file[at + 2] && word[3] == file[at + 3];
  }

  lemma OtherLocation(file: seq<byte>, i: nat, compressed: seq<byte>, required: nat, timestamp: nat, j: nat)
    requires |file| >= HEADER && i < ENTRIES && j < ENTRIES && i != j && required >= 1
    requires 5 + |compressed| <= required * SECTOR <= 255 * SECTOR
    requires 2 <= Placement(file, i, required)
    ensures
      var file' := Written(file, i, compressed, required, timestamp);
      |file'| >= |file| && Location(file', j) == Location(file, j)
  {
    WrittenElsewhere(file, i, compressed, required, timestamp, 4 * j, 4 * j + 4);
  }

  /** The sectors given to a write are taken by no other entry. */
  lemma PlacementIsFree(file: seq<byte>, i: nat, required: nat, j: nat)
    requires Sane(file) && i < ENTRIES && j < ENTRIES && i != j && required >= 1
    requires Location(file, j) != 0
    ensures
      var offset := Placement(file, i, required);
      offset >= 2 &&
      (offset + required <= SectorOffset(file, j) || SectorOffset(file, j) + SectorCount(file, j) <= offset)
  {
    assert EntrySane(file, i) && EntrySane(file, j);
    assert if i < j then Disjoint(file, i, j) else Disjoint(file, j, i);
  }

  /** A write keeps the table sound. */
  lemma WriteKeepsSane(file: seq<byte>, i: nat, compressed: seq<byte>, required: nat, timestamp: nat)
    requires Sane(file) && i < ENTRIES && required >= 1
    requires 5 + |compressed| <= required * SECTOR <= 255 * SECTOR
    requires Placement(file, i, required) <= 0xFF_FFFF
    ensures Placement(file, i, required) >= 2
    ensures Sane(Written(file, i, compressed, required, timestamp))
  {
    var file' := Written(file, i, compressed, required, timestamp);
    assert EntrySane(file, i);
    WrittenHere(file, i, compressed, required, timestamp);
    forall j | 0 <= j < ENTRIES
      ensures EntrySane(file', j)
    {
      if j != i {
        assert EntrySane(file, j);
        OtherLocation(file, i, compressed, required, timestamp, j);
      }
    }
    forall j, k | 0 <= j < k < ENTRIES
      ensures Disjoint(file', j, k)
    {
      assert Disjoint(file, j, k);
      if j != i {
        OtherLocation(file, i, compressed, required, timestamp, j);
      }
      if k != i {
        OtherLocation(file, i, compressed, required, timestamp, k);
      }
      if k == i && Location(file, j) != 0 {
        PlacementIsFree(file, i, required, j);
      }
      if j == i && Location(file, k) != 0 {
        PlacementIsFree(file, i, required, k);
      }
    }
  }

  /** A read looks only at the sectors its entry owns. */
  lemma ReadIsLocal(c: Codec, file: seq<byte>, file': seq<byte>, j: nat)
    requires |file| >= HEADER && |file'| >= HEADER && j < ENTRIES
    requires EntrySane(file, j) && EntrySane(file', j) && Location(file', j) == Location(file, j)
    requires Location(file, j) != 0 ==>
      var lo, hi := SectorOffset(file, j) * SECTOR, (SectorOffset(file, j) + SectorCount(file, j)) * SECTOR;
      file'[lo..hi] == file[lo..hi]
    ensures ReadEntry(c, file', j) == ReadEntry(c, file, j)
  {
    if Location(file, j) != 0 {
      var lo, hi := SectorOffset(file, j) * SECTOR, (SectorOffset(file, j) + SectorCount(file, j)) * SECTOR;
      SliceOfSlice(file, lo, hi, 0, 4);
      SliceOfSlice(file', lo, hi, 0, 4);
      assert file[lo + 4] == file[lo..hi][4] && file'[lo + 4] == file'[lo..hi][4];
      var length := U32At(file, lo);
      if 1 <= length <= SectorCount(file, j) * SECTOR - 4 {
        SliceOfSlice(file, lo, hi, 5, 4 + length);
        SliceOfSlice(file', lo, hi, 5, 4 + length);
      }
    }
  }

  lemma SliceOfSlice(s: seq<byte>, lo: nat, hi: nat, a: nat, b: nat)
    requires lo <= hi <= |s| && a <= b <= hi - lo
    ensures s[lo..hi][a..b] == s[lo + a..lo + b]
  {
    forall k | 0 <= k < b - a
      ensures s[lo..hi][a..b][k] == s[lo + a..lo + b][k]
    {
      assert s[lo..hi][a + k] == s[lo + (a + k)];
    }
  }

  /** A write leaves what any other entry reads unchanged. */
  lemma WriteKeepsOthers(c: Codec, file: seq<byte>, i: nat, compressed: seq<byte>, required: nat, timestamp: nat,
                         j: nat)
    requires Sane(file) && i < ENTRIES && j < ENTRIES && i != j && required >= 1
    requires 5 + |compressed| <= required * SECTOR <= 255 * SECTOR
    requires Placement(file, i, required) <= 0xFF_FFFF
    ensures
      var file' := Written(file, i, compressed, required, timestamp);
      |file'| >= HEADER && ReadEntry(c, file', j) == ReadEntry(c, file, j)
  {
    var file' := Written(file, i, compressed, required, timestamp);
    WriteKeepsSane(file, i, compressed, required, timestamp);
    OtherLocation(file, i, compressed, required, timestamp, j);
    assert EntrySane(file, j) && EntrySane(file', j);
    if Location(file, j) != 0 {
      PlacementIsFree(file, i, required, j);
      WrittenElsewhere(file, i, compressed, required, timestamp,
                       SectorOffset(file, j) * SECTOR, (SectorOffset(file, j) + SectorCount(file, j)) * SECTOR);
    }
    ReadIsLocal(c, file, file', j);
  }

  /** A read returns the payload last written. */
  lemma WriteThenRead(c: Codec, file: seq<byte>, i: nat, payload: seq<byte>, required: nat, timestamp: nat)
    requires IsInverse(c) && |payload| <= MAX_CHUNK
    requires Sane(file) && i < ENTRIES && required >= 1
    requires 5 + |c.compress(payload)| <= required * SECTOR <= 255 * SECTOR
    requires Placement(file, i, required) <= 0xFF_FFFF
    ensures
      var file' := Written(file, i, c.compress(payload), required, timestamp);
      |file'| >= HEADER && ReadEntry(c, file', i) == Payload(payload)
  {
    var compressed := c.compress(payload);
    var file' := Written(file, i, compressed, required, timestamp);
    WriteKeepsSane(file, i, compressed, required, timestamp);
    WrittenHere(file, i, compressed, required, timestamp);
    RecordReads(c, file', i, compressed, required);
    DecompressesAll(c, payload, 0);
  }

  /** An entry that points at a record reads what the record holds. */
  lemma RecordReads(c: Codec, file: seq<byte>, i: nat, compressed: seq<byte>, required: nat)
    requires |file| >= HEADER && i < ENTRIES && required >= 1
    requires 5 + |compressed| <= required * SECTOR <= 255 * SECTOR
    requires SectorOffset(file, i) > 0 && SectorCount(file, i) == required
    requires (SectorOffset(file, i) + required) * SECTOR <= |file|
    requires file[SectorOffset(file, i) * SECTOR..(SectorOffset(file, i) + required) * SECTOR] ==
             Record(compressed, required)
    ensures ReadEntry(c, file, i) == Decompressed(c, compressed, FIRST_CAPACITY)
  {
    var lo := SectorOffset(file, i) * SECTOR;
    assert lo + required * SECTOR == (SectorOffset(file, i) + required) * SECTOR;
    RecordAt(file, lo, compressed, required);
    EntryReads(c, file, i, compressed);
  }

  lemma EntryReads(c: Codec, file: seq<byte>, i: nat, data: seq<byte>)
    requires |file| >= HEADER && i < ENTRIES && SectorOffset(file, i) > 0
    requires 5 + |data| <= SectorCount(file, i) * SECTOR && SectorOffset(file, i) * SECTOR + 5 + |data| <= |file|
    requires
      var lo := SectorOffset(file, i) * SECTOR;
      U32At(file, lo) == |data| + 1 && file[lo + 4] == 2 && file[lo + 5..lo + 5 + |data|] == data
    ensures ReadEntry(c, file, i) == Decompressed(c, data, FIRST_CAPACITY)
  {
  }

  lemma RecordAt(file: seq<byte>, lo: nat, compressed: seq<byte>, required: nat)
    requires 5 + |compressed| <= required * SECTOR <= 255 * SECTOR && lo + required * SECTOR <= |file|
    requires file[lo..lo + required * SECTOR] == Record(compressed, required)
    ensures U32At(file, lo) == |compressed| + 1
    ensures file[lo + 4] == 2 && file[lo + 5..lo + 5 + |compressed|] == compressed
  {
    var hi := lo + required * SECTOR;
    SliceOfSlice(file, lo, hi, 0, 4);
    SliceOfSlice(file, lo, hi, 5, 5 + |compressed|);
    RecordFields(compressed, required);
    assert file[lo + 4] == file[lo..hi][4];
  }

  lemma RecordFields(compressed: seq<byte>, required: nat)
    requires 5 + |compressed| <= required * SECTOR <= 255 * SECTOR
    ensures
      var record := Record(compressed, required);
      && FromBigEndian(record[0..4]) == |compressed| + 1
      && record[4] == 2 && record[5..5 + |compressed|] == compressed
  {
    RangeValues();
    BigEndianRoundTrip(|compressed| + 1, 4);
    assert Record(compressed, required)[0..4] == BigEndian(|compressed| + 1, 4);
  }

  /** A local coordinate, and the one that entry `i` belongs to. */
  datatype Local = Local(x: nat, z: nat)

  ghost predicate InRegion(at: Local) {
    at.x < 32 && at.z < 32
  }

  ghost function LocalOf(i: nat): (at: Local)
    requires i < ENTRIES
    ensures InRegion(at)
  {
    Local(i % 32, i / 32)
  }

  lemma EntriesApart(i: nat, j: nat)
    requires i < ENTRIES && j < ENTRIES
    ensures LocalOf(i) == LocalOf(j) <==> i == j
  {
  }

  lemma EntryOf(x: nat, z: nat)
    requires x < 32 && z < 32
    ensures z * 32 + x < ENTRIES && LocalOf(z * 32 + x) == Local(x, z)
  {
  }

  /** Entry `i` reads as the payload last written at its coordinate. */
  ghost predicate Holds(c: Codec, file: seq<byte>, contents: map<Local, seq<byte>>, i: nat)
    requires |file| >= HEADER && i < ENTRIES
  {
    ReadEntry(c, file, i) == if LocalOf(i) in contents then Payload(contents[LocalOf(i)]) else Absent
  }

  ghost predicate AllHold(c: Codec, file: seq<byte>, contents: map<Local, seq<byte>>)
    requires |file| >= HEADER
  {
    forall i {:trigger Holds(c, file, contents, i)} :: 0 <= i < ENTRIES ==> Holds(c, file, contents, i)
  }

  /** All entries after a write. */
  lemma WriteSetsOne(c: Codec, file: seq<byte>, contents: map<Local, seq<byte>>, i: nat, payload: seq<byte>,
                     required: nat, timestamp: nat)
    requires IsInverse(c) && |payload| <= MAX_CHUNK
    requires Sane(file) && AllHold(c, file, contents) && i < ENTRIES && required >= 1
    requires 5 + |c.compress(payload)| <= required * SECTOR <= 255 * SECTOR
    requires Placement(file, i, required) <= 0xFF_FFFF
    ensures
      var file' := Written(file, i, c.compress(payload), required, timestamp);
      Sane(file') && AllHold(c, file', contents[LocalOf(i) := payload])
  {
    var file' := Written(file, i, c.compress(payload), required, timestamp);
    WriteKeepsSane(file, i, c.compress(payload), required, timestamp);
    var contents' := contents[LocalOf(i) := payload];
    forall j {:trigger Holds(c, file', contents', j)} | 0 <= j < ENTRIES
      ensures Holds(c, file', contents', j)
    {
      EntriesApart(i, j);
      if j == i {
        WriteThenRead(c, file, i, payload, required, timestamp);
      } else {
        assert Holds(c, file, contents, j);
        WriteKeepsOthers(c, file, i, c.compress(payload), required, timestamp, j);
      }
    }
  }

  /** What a file holds at a coordinate. */
  ghost function ReadLocal(c: Codec, file: seq<byte>, x: nat, z: nat): Result
    requires |file| >= HEADER && x < 32 && z < 32
  {
    ReadEntry(c, file, z * 32 + x)
  }

  /** Files that differ by one payload read alike at every other coordinate. */
  lemma OneChanges(c: Codec, was: seq<byte>, contents: map<Local, seq<byte>>, file: seq<byte>, x: nat, z: nat,
                   payload: seq<byte>)
    requires |was| >= HEADER && |file| >= HEADER && x < 32 && z < 32
    requires AllHold(c, was, contents) && AllHold(c, file, contents[Local(x, z) := payload])
    ensures ReadLocal(c, file, x, z) == Payload(payload)
    ensures forall u: nat, v: nat :: u < 32 && v < 32 && (u != x || v != z) ==>
      ReadLocal(c, file, u, v) == ReadLocal(c, was, u, v)
  {
    var contents' := contents[Local(x, z) := payload];
    EntryOf(x, z);
    assert Holds(c, file, contents', z * 32 + x);
    forall u: nat, v: nat {:trigger ReadLocal(c, file, u, v)} | u < 32 && v < 32 && (u != x || v != z)
      ensures ReadLocal(c, file, u, v) == ReadLocal(c, was, u, v)
    {
      EntryOf(u, v);
      assert Holds(c, file, contents', v * 32 + u) && Holds(c, was, contents, v * 32 + u);
    }
  }

  // ---------------------------------------------------------------------------------------
  // The program
  // ---------------------------------------------------------------------------------------

  class RegionFile {
    const codec: Codec
    var file: seq<byte>
    /** The payload last written at each coordinate. */
    ghost var contents: map<Local, seq<byte>>

    ghost predicate Valid()
      reads this
    {
      && IsInverse(codec) && Sane(file) && AllHold(codec, file, contents)
      && (forall at :: at in contents ==> InRegion(at))
    }

    /** What the file holds at a coordinate. */
    ghost function At(x: nat, z: nat): Result
      requires |file| >= HEADER && x < 32 && z < 32
      reads this
    {
      ReadLocal(codec, file, x, z)
    }

    /** A new region file is an empty header. */
    constructor Create(codec: Codec)
      requires IsInverse(codec)
      ensures Valid() && this.codec == codec && contents == map[]
    {
      this.codec := codec;
      file := seq(HEADER, _ => 0);
      contents := map[];
      new;
      forall i | 0 <= i < ENTRIES
        ensures Location(file, i) == 0
      {
        assert file[4 * i..4 * i + 4] == BigEndian(0, 4);
        BigEndianRoundTrip(0, 4);
      }
      forall i | 0 <= i < ENTRIES
        ensures EntrySane(file, i) && Holds(codec, file, contents, i)
      {
      }
    }

    /** Opening a file that was written before finds what it held. */
    constructor Open(codec: Codec, file: seq<byte>, ghost contents: map<Local, seq<byte>>)
      requires IsInverse(codec) && Sane(file) && AllHold(codec, file, contents)
      requires forall at :: at in contents ==> InRegion(at)
      ensures Valid() && this.codec == codec && this.file == file && this.contents == contents
    {
      this.codec, this.file, this.contents := codec, file, contents;
    }

    function LocationIndex(x: nat, z: nat): Option<nat> {
      if x >= 32 || z >= 32 then None else Some(z * 32 + x)
    }

    /** Any file with a header can be read; one this class wrote gives back what was last written. */
    method Read(x: nat, z: nat) returns (r: Result)
      requires |file| >= HEADER
      ensures r == if x < 32 && z < 32 then At(x, z) else Failed(BadCoordinate)
      ensures x < 32 && z < 32 && Valid() ==>
        r == if Local(x, z) in contents then Payload(contents[Local(x, z)]) else Absent
    {
      var index := LocationIndex(x, z);
      if index.None? {
        return Failed(BadCoordinate);
      }
      EntryOf(x, z);
      assert Valid() ==> Holds(codec, file, contents, index.value);
      r := ReadAt(index.value);
    }

    method ReadAt(index: nat) returns (r: Result)
      requires |file| >= HEADER && index < ENTRIES
      ensures r == ReadEntry(codec, file, index)
    {
      var location := U32At(file, 4 * index);
      var offset, count := location / 256, location % 256;
      if offset == 0 || count == 0 {
        return Absent;
      }
      if offset * SECTOR + 4 > |file| {
        return Failed(Unreadable);
      }
      var length := U32At(file, offset * SECTOR);
      if length < 1 || length > count * SECTOR - 4 {
        return Failed(BadLength);
      }
      if offset * SECTOR + 5 > |file| || file[offset * SECTOR + 4] != 2 {
        return Failed(BadCompression);
      }
      if offset * SECTOR + 4 + length > |file| {
        return Failed(Unreadable);
      }
      r := DecompressPayload(codec, file[offset * SECTOR + 5..offset * SECTOR + 4 + length]);
    }

    /** A refused write changes nothing; an accepted one changes what its own entry reads, and only that. */
    method Write(x: nat, z: nat, payload: seq<byte>, timestamp: nat) returns (error: Option<Error>)
      requires Valid()
      modifies this
      ensures Valid()
      ensures error.Some? ==> file == old(file) && contents == old(contents)
      ensures error.None? ==> contents == old(contents)[Local(x, z) := payload]
      ensures error.None? ==> x < 32 && z < 32 && At(x, z) == Payload(payload)
      ensures forall u: nat, v: nat :: u < 32 && v < 32 && (u != x || v != z) ==> At(u, v) == old(At(u, v))
      ensures error.None? ==>
        |file| == LengthAfter(old(file), z * 32 + x, SectorsFor(5 + |codec.compress(payload)|))
      ensures error.None? <==>
        && x < 32 && z < 32 && |payload| <= MAX_CHUNK
        && SectorsFor(5 + |codec.compress(payload)|) <= 255
        && Placement(old(file), z * 32 + x, SectorsFor(5 + |codec.compress(payload)|)) <= 0xFF_FFFF
    {
      if |payload| > MAX_CHUNK {
        return Some(TooLarge);
      }
      var compressed := codec.compress(payload);
      var required := SectorsFor(5 + |compressed|);
      if required > 255 {
        return Some(TooLarge);
      }
      var index := LocationIndex(x, z);
      if index.None? {
        return Some(BadCoordinate);
      }
      ghost var was, held := file, contents;
      EntryOf(x, z);
      error := Put(index.value, payload, compressed, required, timestamp);
      if error.None? {
        OneChanges(codec, was, held, file, x, z, payload);
      }
    }

    method Put(i: nat, ghost payload: seq<byte>, compressed: seq<byte>, required: nat, timestamp: nat)
      returns (error: Option<Error>)
      requires Valid() && i < ENTRIES && |payload| <= MAX_CHUNK && compressed == codec.compress(payload)
      requires required == SectorsFor(5 + |compressed|) <= 255
      modifies this
      ensures Valid()
      ensures error == if Placement(old(file), i, required) <= 0xFF_FFFF then None else Some(TableFull)
      ensures error.Some? ==> file == old(file) && contents == old(contents)
      ensures error.None? ==> contents == old(contents)[LocalOf(i) := payload]
      ensures error.None? ==> |file| == LengthAfter(old(file), i, required)
    {
      var offset := SectorOffset(file, i);
      if offset < 2 || SectorCount(file, i) < required {
        offset := Max(2, SectorsFor(|file|));
      }
      if offset > 0xFF_FFFF {
        return Some(TableFull);
      }
      WriteSetsOne(codec, file, contents, i, payload, required, timestamp);
      WrittenLength(file, i, compressed, required, timestamp);
      Store(i, offset, compressed, required, timestamp);
      contents := contents[LocalOf(i) := payload];
      error := None;
    }

    /** The three writes of `Write`: record, location, timestamp. */
    method Store(i: nat, offset: nat, compressed: seq<byte>, required: nat, timestamp: nat)
      requires |file| >= HEADER && i < ENTRIES
      requires 5 + |compressed| <= required * SECTOR <= 255 * SECTOR && offset == Placement(file, i, required)
      modifies this`file
      ensures file == Written(old(file), i, compressed, required, timestamp)
    {
      file := WriteAt(file, offset * SECTOR, Record(compressed, required));
      file := WriteAt(file, 4 * i, BigEndian(offset * 256 + required, 4));
      file := WriteAt(file, SECTOR + 4 * i, BigEndian(timestamp, 4));
    }
  }
}
