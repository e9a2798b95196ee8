/** The stored form of a chunk: `serialize_chunk` and `deserialize_chunk`. */
module ChunkFormat {
  import opened Arithmetic
  import opened Blocks
  import opened Bytes
  import opened Chunks
  import opened Wrappers

  const MAGIC: seq<byte> := [77, 67, 67, 49]
  const HEIGHTS_AT := 12
  const BIOMES_AT := 1036
  const BLOCKS_AT := 2572
  const PAYLOAD_SIZE := 199180

  // ---------------------------------------------------------------------------------------
  // Fixed-width fields
  // ---------------------------------------------------------------------------------------

  function Heights(heights: seq<int>): (b: seq<byte>)
    requires forall k :: 0 <= k < |heights| ==> IsSigned(heights[k], 4)
    ensures |b| == 4 * |heights|
  {
    if heights == [] then [] else Heights(heights[..|heights| - 1]) + EncodeSigned(heights[|heights| - 1], 4)
  }

  function BiomeBytes(biomes: seq<BiomeId>): (b: seq<byte>)
    ensures |b| == |biomes|
  {
    seq(|biomes|, i requires 0 <= i < |biomes| => biomes[i] as int as byte)
  }

  function BlockBytes(blocks: seq<BlockId>): (b: seq<byte>)
    ensures |b| == 2 * |blocks|
  {
    if blocks == [] then [] else BlockBytes(blocks[..|blocks| - 1]) + BigEndian(blocks[|blocks| - 1] as int, 2)
  }

  lemma {:induction false} HeightAt(heights: seq<int>, k: nat)
    requires forall i :: 0 <= i < |heights| ==> IsSigned(heights[i], 4)
    requires k < |heights|
    ensures Heights(heights)[4 * k..4 * k + 4] == EncodeSigned(heights[k], 4)
  {
    var n := |heights| - 1;
    if k < n {
      HeightAt(heights[..n], k);
    }
  }

  lemma {:induction false} BlockAt(blocks: seq<BlockId>, k: nat)
    requires k < |blocks|
    ensures BlockBytes(blocks)[2 * k..2 * k + 2] == BigEndian(blocks[k] as int, 2)
  {
    var n := |blocks| - 1;
    if k < n {
      BlockAt(blocks[..n], k);
    }
  }

  // ---------------------------------------------------------------------------------------
  // The format
  // ---------------------------------------------------------------------------------------

  /** What a chunk holds. */
  datatype ChunkData = ChunkData(position: ChunkPosition, heights: seq<int>, biomes: seq<BiomeId>, blocks: seq<BlockId>)

  ghost predicate WellFormed(d: ChunkData) {
    && IsSigned(d.position.x, 4) && IsSigned(d.position.z, 4)
    && |d.heights| == COLUMNS && |d.biomes| == BIOMES && |d.blocks| == BLOCKS
    && (forall c :: 0 <= c < COLUMNS ==> MIN_BUILD_Y <= d.heights[c] < MAX_BUILD_Y)
  }

  ghost function DataOf(c: Chunk): (d: ChunkData)
    requires c.Valid()
    reads c, c.blocks, c.nonAir, c.heightmap, c.biomes
    ensures IsSigned(c.position.x, 4) && IsSigned(c.position.z, 4) ==> WellFormed(d)
  {
    ChunkData(c.position, c.heightmap[..], c.biomes[..], c.blocks[..])
  }

  lemma BuildHeightsAreSigned(h: int)
    ensures MIN_BUILD_Y <= h < MAX_BUILD_Y ==> IsSigned(h, 4)
  {
    RangeValues();
  }

  ghost function Layout(d: ChunkData): (b: seq<byte>)
    requires WellFormed(d)
  {
    forall h: int { BuildHeightsAreSigned(h); }
    MAGIC + EncodeSigned(d.position.x, 4) + EncodeSigned(d.position.z, 4)
    + Heights(d.heights) + BiomeBytes(d.biomes) + BlockBytes(d.blocks)
  }

  /** The fields of a payload, by their offsets. */
  ghost function StoredHeight(b: seq<byte>, c: nat): int
    requires |b| == PAYLOAD_SIZE && c < COLUMNS
  {
    DecodeSigned(b[HEIGHTS_AT + 4 * c..HEIGHTS_AT + 4 * c + 4])
  }

  ghost function StoredBiome(b: seq<byte>, k: nat): BiomeId
    requires |b| == PAYLOAD_SIZE && k < BIOMES
  {
    b[BIOMES_AT + k] as int as BiomeId
  }

  ghost function StoredBlock(b: seq<byte>, k: nat): BlockId
    requires |b| == PAYLOAD_SIZE && k < BLOCKS
  {
    BlockValue(b[BLOCKS_AT + 2 * k..BLOCKS_AT + 2 * k + 2])
  }

  function BlockValue(b: seq<byte>): BlockId
    requires |b| == 2
  {
    RangeValues();
    FromBigEndianRange(b);
    FromBigEndian(b) as BlockId
  }

  /** The payloads that load. */
  ghost predicate Loads(b: seq<byte>) {
    && |b| == PAYLOAD_SIZE
    && b[..4] == MAGIC
    && (forall c :: 0 <= c < COLUMNS ==> MIN_BUILD_Y <= StoredHeight(b, c) < MAX_BUILD_Y)
  }

  /** The chunk a payload describes. */
  ghost predicate Describes(b: seq<byte>, d: ChunkData)
    requires |b| == PAYLOAD_SIZE
  {
    && d.position == ChunkPosition(DecodeSigned(b[4..8]), DecodeSigned(b[8..12]))
    && |d.heights| == COLUMNS && |d.biomes| == BIOMES && |d.blocks| == BLOCKS
    && (forall k :: 0 <= k < BIOMES ==> d.biomes[k] == StoredBiome(b, k))
    && (forall k :: 0 <= k < BLOCKS ==> d.blocks[k] == StoredBlock(b, k))
    && (forall c :: 0 <= c < COLUMNS ==> d.heights[c] == Max(StoredHeight(b, c), Highest(d.blocks, c, HEIGHT)))
  }

  /** Each height, or that of its column's highest block where that is larger. */
  function Raised(heights: seq<int>, blocks: seq<BlockId>): seq<int>
    requires |heights| == COLUMNS && |blocks| == BLOCKS
  {
    seq(COLUMNS, c requires 0 <= c < COLUMNS => Max(heights[c], Highest(blocks, c, HEIGHT)))
  }

  /** Writing then reading restores position, biomes and blocks; each column's height comes back as
      the larger of the stored height and its highest block. */
  lemma RoundTrip(d: ChunkData)
    requires WellFormed(d)
    ensures Loads(Layout(d))
    ensures Describes(Layout(d), d.(heights := Raised(d.heights, d.blocks)))
  {
    var b := Layout(d);
    LayoutPieces(d);
    EncodeSignedRoundTrip(d.position.x, 4);
    EncodeSignedRoundTrip(d.position.z, 4);
    forall c | 0 <= c < COLUMNS
      ensures StoredHeight(b, c) == d.heights[c]
    {
      LayoutHeight(d, c);
    }
    forall k | 0 <= k < BLOCKS
      ensures StoredBlock(b, k) == d.blocks[k]
    {
      LayoutBlock(d, k);
    }
    forall k | 0 <= k < BIOMES
      ensures StoredBiome(b, k) == d.biomes[k]
    {
      assert b[BIOMES_AT..BLOCKS_AT][k] == b[BIOMES_AT + k];
    }
  }

  lemma LayoutPieces(d: ChunkData)
    requires WellFormed(d)
    ensures forall c :: 0 <= c < COLUMNS ==> IsSigned(d.heights[c], 4)
    ensures
      var b := Layout(d);
      && |b| == PAYLOAD_SIZE && b[..4] == MAGIC
      && b[4..8] == EncodeSigned(d.position.x, 4) && b[8..12] == EncodeSigned(d.position.z, 4)
      && b[HEIGHTS_AT..BIOMES_AT] == Heights(d.heights)
      && b[BIOMES_AT..BLOCKS_AT] == BiomeBytes(d.biomes)
      && b[BLOCKS_AT..] == BlockBytes(d.blocks)
  {
    forall h: int { BuildHeightsAreSigned(h); }
    var b := Layout(d);
    var b5 := MAGIC + EncodeSigned(d.position.x, 4) + EncodeSigned(d.position.z, 4);
    assert b == b5 + (Heights(d.heights) + (BiomeBytes(d.biomes) + BlockBytes(d.blocks)));
  }

  lemma LayoutHeight(d: ChunkData, c: nat)
    requires WellFormed(d) && c < COLUMNS
    ensures |Layout(d)| == PAYLOAD_SIZE && StoredHeight(Layout(d), c) == d.heights[c]
  {
    LayoutPieces(d);
    var b := Layout(d);
    assert b[HEIGHTS_AT + 4 * c..HEIGHTS_AT + 4 * c + 4] == b[HEIGHTS_AT..BIOMES_AT][4 * c..4 * c + 4];
    HeightAt(d.heights, c);
    EncodeSignedRoundTrip(d.heights[c], 4);
  }

  lemma LayoutBlock(d: ChunkData, k: nat)
    requires WellFormed(d) && k < BLOCKS
    ensures |Layout(d)| == PAYLOAD_SIZE && StoredBlock(Layout(d), k) == d.blocks[k]
  {
    LayoutPieces(d);
    var b := Layout(d);
    assert b[BLOCKS_AT + 2 * k..BLOCKS_AT + 2 * k + 2] == b[BLOCKS_AT..][2 * k..2 * k + 2];
    BlockAt(d.blocks, k);
    RangeValues();
    BigEndianRoundTrip(d.blocks[k] as int, 2);
  }

  /** Where the parts of a chunk lie in its payload, by their coordinates. */
  lemma LayoutOffsets(d: ChunkData, x: nat, y: int, z: nat)
    requires WellFormed(d) && x < 16 && z < 16 && -64 <= y < 320
    ensures
      var b, height, block := Layout(d), 12 + 4 * (16 * z + x), 2572 + 2 * ((y + 64) * 256 + 16 * z + x);
      && |b| == 199180 && b[..4] == [77, 67, 67, 49]
      && IsSigned(d.heights[Column(x, z)], 4) && b[height..height + 4] == EncodeSigned(d.heights[Column(x, z)], 4)
      && b[block..block + 2] == BigEndian(d.blocks[Index(x, y, z)] as int, 2)
      && b[4..8] == EncodeSigned(d.position.x, 4) && b[8..12] == EncodeSigned(d.position.z, 4)
  {
    LayoutPieces(d);
    var b, c, k := Layout(d), Column(x, z), Index(x, y, z);
    HeightAt(d.heights, c);
    BlockAt(d.blocks, k);
    assert b[HEIGHTS_AT + 4 * c..HEIGHTS_AT + 4 * c + 4] == b[HEIGHTS_AT..BIOMES_AT][4 * c..4 * c + 4];
    assert b[BLOCKS_AT + 2 * k..BLOCKS_AT + 2 * k + 2] == b[BLOCKS_AT..][2 * k..2 * k + 2];
  }

  /** A biome is the byte of its own cell, cells being counted by x, then z, then y. */
  lemma BiomeOffset(d: ChunkData, x: nat, y: nat, z: nat)
    requires WellFormed(d) && x < 4 && z < 4 && y < 96
    ensures Layout(d)[1036 + 16 * y + 4 * z + x] as int == d.biomes[(y * 4 + z) * 4 + x] as int
  {
    LayoutPieces(d);
    var k := (y * 4 + z) * 4 + x;
    assert Layout(d)[BIOMES_AT + k] == Layout(d)[BIOMES_AT..BLOCKS_AT][k];
  }

  /** A payload determines the chunk it describes. */
  lemma DescribesOnce(b: seq<byte>, d: ChunkData, e: ChunkData)
    requires |b| == PAYLOAD_SIZE && Describes(b, d) && Describes(b, e)
    ensures d == e
  {
    assert d.blocks == e.blocks;
    assert d.biomes == e.biomes;
    assert d.heights == e.heights;
  }

  /** The round trip is exact just when no recorded height lies below its column's highest block. */
  lemma RoundTripIsExact(d: ChunkData)
    requires WellFormed(d)
    ensures Loads(Layout(d))
    ensures Describes(Layout(d), d) <==> forall c :: 0 <= c < COLUMNS ==> Highest(d.blocks, c, HEIGHT) <= d.heights[c]
  {
    RoundTrip(d);
    var r := d.(heights := Raised(d.heights, d.blocks));
    if Describes(Layout(d), d) {
      DescribesOnce(Layout(d), d, r);
      forall c | 0 <= c < COLUMNS
        ensures Highest(d.blocks, c, HEIGHT) <= d.heights[c]
      {
        assert r.heights[c] == d.heights[c];
      }
    }
    if forall c :: 0 <= c < COLUMNS ==> Highest(d.blocks, c, HEIGHT) <= d.heights[c] {
      assert r.heights == d.heights;
      assert r == d;
    }
  }

  // ---------------------------------------------------------------------------------------
  // The program
  // ---------------------------------------------------------------------------------------

  method SerializeChunk(c: Chunk) returns (output: seq<byte>)
    requires c.Valid() && IsSigned(c.position.x, 4) && IsSigned(c.position.z, 4)
    ensures output == Layout(DataOf(c))
  {
    forall h: int { BuildHeightsAreSigned(h); }
    output := MAGIC + EncodeSigned(c.position.x, 4) + EncodeSigned(c.position.z, 4);
    output := AppendHeights(output, c);
    output := AppendBiomes(output, c);
    output := AppendBlocks(output, c);
  }

  method AppendHeights(head: seq<byte>, c: Chunk) returns (output: seq<byte>)
    requires c.Valid() && forall k :: 0 <= k < COLUMNS ==> IsSigned(c.heightmap[k], 4)
    ensures output == head + Heights(c.heightmap[..])
  {
    output := head;
    for column := 0 to COLUMNS
      invariant output == head + Heights(c.heightmap[..column])
    {
      assert c.heightmap[..column + 1][..column] == c.heightmap[..column];
      output := output + EncodeSigned(c.heightmap[column], 4);
    }
    assert c.heightmap[..COLUMNS] == c.heightmap[..];
  }

  method AppendBiomes(head: seq<byte>, c: Chunk) returns (output: seq<byte>)
    requires c.Valid()
    ensures output == head + BiomeBytes(c.biomes[..])
  {
    output := head;
    for k := 0 to BIOMES
      invariant output == head + BiomeBytes(c.biomes[..k])
    {
      output := output + [c.biomes[k] as int as byte];
      assert BiomeBytes(c.biomes[..k + 1]) == BiomeBytes(c.biomes[..k]) + [c.biomes[k] as int as byte];
    }
    assert c.biomes[..BIOMES] == c.biomes[..];
  }

  method AppendBlocks(head: seq<byte>, c: Chunk) returns (output: seq<byte>)
    requires c.Valid()
    ensures output == head + BlockBytes(c.blocks[..])
  {
    output := head;
    for k := 0 to BLOCKS
      invariant output == head + BlockBytes(c.blocks[..k])
    {
      assert c.blocks[..k + 1][..k] == c.blocks[..k];
      RangeValues();
      output := output + BigEndian(c.blocks[k] as int, 2);
    }
    assert c.blocks[..BLOCKS] == c.blocks[..];
  }

  datatype LoadError = BadMarker | Truncated | HeightOutOfRange | TrailingData

  datatype Loaded = Ok(chunk: Chunk) | Failed(error: LoadError)

  method DeserializeChunk(payload: seq<byte>) returns (r: Loaded)
    ensures r.Ok? <==> Loads(payload)
    ensures r.Ok? ==> fresh(r.chunk) && r.chunk.Valid() && Describes(payload, DataOf(r.chunk)) && r.chunk.dirty
    ensures r == Failed(BadMarker) <==> |payload| < 4 || payload[..4] != MAGIC
    // after the marker, a height out of range fails first, and then the size
    ensures |payload| >= 4 && payload[..4] == MAGIC ==>
      && (r == Failed(HeightOutOfRange) <==> HeightAstray(payload))
      && (r == Failed(Truncated) <==> !HeightAstray(payload) && |payload| < PAYLOAD_SIZE)
      && (r == Failed(TrailingData) <==> !HeightAstray(payload) && |payload| > PAYLOAD_SIZE)
  {
    if |payload| < 4 || payload[..4] != MAGIC {
      return Failed(BadMarker);
    }
    if |payload| < 12 {
      return Failed(Truncated);
    }
    var chunk := new Chunk(ChunkPosition(DecodeSigned(payload[4..8]), DecodeSigned(payload[8..12])));
    var error := LoadHeights(payload, chunk);
    if error.Some? {
      return Failed(error.value);
    }
    error := LoadBiomes(payload, chunk);
    if error.Some? {
      return Failed(error.value);
    }
    if |payload| == PAYLOAD_SIZE {
      forall c | 0 <= c < COLUMNS
        ensures MIN_BUILD_Y <= StoredHeight(payload, c) < MAX_BUILD_Y
      {
        assert StoredHeight(payload, c) == chunk.heightmap[c];
      }
    }
    error := LoadBlocks(payload, chunk);
    if error.Some? {
      return Failed(error.value);
    }
    if |payload| != PAYLOAD_SIZE {
      return Failed(TrailingData);
    }
    r := Ok(chunk);
  }

  /** Some height that is there is outside the build range. */
  ghost predicate HeightAstray(payload: seq<byte>) {
    exists c: nat :: c < COLUMNS && AstrayAt(payload, c)
  }

  ghost predicate AstrayAt(payload: seq<byte>, c: nat) {
    HEIGHTS_AT + 4 * c + 4 <= |payload| &&
    !(MIN_BUILD_Y <= DecodeSigned(payload[HEIGHTS_AT + 4 * c..HEIGHTS_AT + 4 * c + 4]) < MAX_BUILD_Y)
  }

  /** Columns are stored in the order of their index: z outside, x inside. */
  method LoadHeights(payload: seq<byte>, chunk: Chunk) returns (error: Option<LoadError>)
    requires chunk.Valid()
    modifies chunk.heightmap, chunk`dirty
    ensures chunk.Valid()
    ensures error.Some? ==> error.value != BadMarker && !Loads(payload)
    ensures error == Some(HeightOutOfRange) <==> HeightAstray(payload)
    ensures error.Some? ==> error.value == HeightOutOfRange || (error.value == Truncated && |payload| < BIOMES_AT)
    ensures error.None? ==> |payload| >= BIOMES_AT && chunk.dirty
    ensures error.None? ==> forall c :: 0 <= c < COLUMNS ==>
      && chunk.heightmap[c] == DecodeSigned(payload[HEIGHTS_AT + 4 * c..HEIGHTS_AT + 4 * c + 4])
      && MIN_BUILD_Y <= chunk.heightmap[c] < MAX_BUILD_Y
  {
    for column := 0 to COLUMNS
      invariant chunk.Valid() && (column > 0 ==> chunk.dirty)
      invariant |payload| >= HEIGHTS_AT + 4 * column || column == 0
      invariant forall c: nat :: c < column ==> !AstrayAt(payload, c)
      invariant forall c :: 0 <= c < column ==>
        chunk.heightmap[c] == DecodeSigned(payload[HEIGHTS_AT + 4 * c..HEIGHTS_AT + 4 * c + 4])
    {
      error := LoadHeight(payload, chunk, column);
      if error.Some? {
        AstrayFails(payload);
        return;
      }
    }
    error := None;
  }

  lemma AstrayFails(payload: seq<byte>)
    ensures HeightAstray(payload) ==> !Loads(payload)
  {
    if c: nat :| c < COLUMNS && AstrayAt(payload, c) {
      assert |payload| == PAYLOAD_SIZE ==> !(MIN_BUILD_Y <= StoredHeight(payload, c) < MAX_BUILD_Y);
    }
  }

  method LoadHeight(payload: seq<byte>, chunk: Chunk, column: nat) returns (error: Option<LoadError>)
    requires chunk.Valid() && column < COLUMNS
    modifies chunk.heightmap, chunk`dirty
    ensures chunk.Valid() && (old(chunk.dirty) ==> chunk.dirty)
    ensures
      error == if |payload| < HEIGHTS_AT + 4 * column + 4 then Some(Truncated)
               else if AstrayAt(payload, column) then Some(HeightOutOfRange) else None
    ensures error.None? ==>
      var at := HEIGHTS_AT + 4 * column;
      chunk.dirty && chunk.heightmap[..] == old(chunk.heightmap[..])[column := DecodeSigned(payload[at..at + 4])]
  {
    var at := HEIGHTS_AT + 4 * column;
    if |payload| < at + 4 {
      return Some(Truncated);
    }
    assert Column(column % 16, column / 16) == column;
    var ok := chunk.SetHeight(column % 16, column / 16, DecodeSigned(payload[at..at + 4]));
    return if ok then None else Some(HeightOutOfRange);
  }

  /** Biome cells are stored in the order of their index: y outside, then z, then x. */
  method LoadBiomes(payload: seq<byte>, chunk: Chunk) returns (error: Option<LoadError>)
    requires chunk.Valid() && |payload| >= BIOMES_AT
    modifies chunk.biomes, chunk`dirty
    ensures chunk.Valid() && (old(chunk.dirty) ==> chunk.dirty)
    ensures error.Some? ==> error.value == Truncated && |payload| < BLOCKS_AT
    ensures error.None? ==> |payload| >= BLOCKS_AT
    ensures error.None? ==> forall k :: 0 <= k < BIOMES ==> chunk.biomes[k] == payload[BIOMES_AT + k] as int as BiomeId
  {
    for cell := 0 to BIOMES
      invariant chunk.Valid() && (old(chunk.dirty) ==> chunk.dirty) && |payload| >= BIOMES_AT + cell
      invariant forall k :: 0 <= k < cell ==> chunk.biomes[k] == payload[BIOMES_AT + k] as int as BiomeId
    {
      if |payload| == BIOMES_AT + cell {
        return Some(Truncated);
      }
      assert (cell / 16 * 4 + cell / 4 % 4) * 4 + cell % 4 == cell;
      var _ := chunk.SetBiome(cell % 4, cell / 16, cell / 4 % 4, payload[BIOMES_AT + cell] as int as BiomeId);
    }
    error := None;
  }

  /** Blocks are stored in the order of their index: section and y outside, then z, then x. */
  method LoadBlocks(payload: seq<byte>, chunk: Chunk) returns (error: Option<LoadError>)
    requires chunk.Valid() && |payload| >= BLOCKS_AT
    requires forall k :: 0 <= k < BLOCKS ==> chunk.blocks[k] == AIR
    modifies chunk.blocks, chunk.nonAir, chunk.heightmap, chunk`dirty
    ensures chunk.Valid() && (old(chunk.dirty) ==> chunk.dirty)
    ensures error.Some? ==> error.value == Truncated && |payload| < PAYLOAD_SIZE
    ensures error.None? ==> |payload| >= PAYLOAD_SIZE
    ensures error.None? ==> forall k :: 0 <= k < BLOCKS ==>
      chunk.blocks[k] == BlockValue(payload[BLOCKS_AT + 2 * k..BLOCKS_AT + 2 * k + 2])
    ensures error.None? ==> Topped(chunk.blocks[..], chunk.heightmap[..], old(chunk.heightmap[..]))
  {
    ghost var stored := chunk.heightmap[..];
    forall c | 0 <= c < COLUMNS {
      HighestOfAir(chunk.blocks[..], c, HEIGHT);
    }
    for k := 0 to BLOCKS
      invariant chunk.Valid() && (old(chunk.dirty) ==> chunk.dirty) && |payload| >= BLOCKS_AT + 2 * k
      invariant forall j :: k <= j < BLOCKS ==> chunk.blocks[j] == AIR
      invariant forall j :: 0 <= j < k ==>
        chunk.blocks[j] == BlockValue(payload[BLOCKS_AT + 2 * j..BLOCKS_AT + 2 * j + 2])
      invariant Topped(chunk.blocks[..], chunk.heightmap[..], stored)
    {
      if |payload| < BLOCKS_AT + 2 * k + 2 {
        return Some(Truncated);
      }
      var b := BlockValue(payload[BLOCKS_AT + 2 * k..BLOCKS_AT + 2 * k + 2]);
      LoadBlock(chunk, k, b, stored);
    }
    error := None;
  }

  /** Heights are the larger of the stored one and the highest block. */
  ghost predicate Topped(blocks: seq<BlockId>, heights: seq<int>, stored: seq<int>)
    requires |blocks| == BLOCKS
  {
    |heights| == |stored| == COLUMNS &&
    forall c :: 0 <= c < COLUMNS ==> heights[c] == Max(stored[c], Highest(blocks, c, HEIGHT))
  }

  method LoadBlock(chunk: Chunk, k: nat, b: BlockId, ghost stored: seq<int>)
    requires chunk.Valid() && k < BLOCKS
    requires forall j :: k <= j < BLOCKS ==> chunk.blocks[j] == AIR
    requires Topped(chunk.blocks[..], chunk.heightmap[..], stored)
    modifies chunk.blocks, chunk.nonAir, chunk.heightmap, chunk`dirty
    ensures chunk.Valid() && (old(chunk.dirty) ==> chunk.dirty)
    ensures chunk.blocks[..] == old(chunk.blocks[..])[k := b]
    ensures Topped(chunk.blocks[..], chunk.heightmap[..], stored)
  {
    ghost var was, heights := chunk.blocks[..], chunk.heightmap[..];
    BlockOfIndex(k);
    var _ := chunk.SetBlock(k % 16, MIN_BUILD_Y + k / COLUMNS, k / 16 % 16, b);
    ToppedNext(was, heights, stored, k, b);
  }

  lemma BlockOfIndex(k: nat)
    requires k < BLOCKS
    ensures Index(k % 16, MIN_BUILD_Y + k / COLUMNS, k / 16 % 16) == k
    ensures Column(k % 16, k / 16 % 16) == k % COLUMNS
  {
    var q := k / 16;
    assert k == 16 * q + k % 16 && q == 16 * (q / 16) + q % 16;
    DivModUnique(k, COLUMNS, q / 16, 16 * (q % 16) + k % 16);
  }

  lemma ToppedNext(blocks: seq<BlockId>, heights: seq<int>, stored: seq<int>, k: nat, b: BlockId)
    requires |blocks| == BLOCKS && k < BLOCKS && forall j :: k <= j < BLOCKS ==> blocks[j] == AIR
    requires Topped(blocks, heights, stored)
    ensures
      var (x, y, z) := (k % 16, MIN_BUILD_Y + k / COLUMNS, k / 16 % 16);
      var height := NewHeight(blocks, x, y, z, b, heights[k % COLUMNS]);
      Topped(blocks[k := b], heights[k % COLUMNS := height], stored)
  {
    BlockOfIndex(k);
    PlacedOnTop(blocks, k, b);
  }

  /** A block placed above everything placed before. */
  lemma PlacedOnTop(blocks: seq<BlockId>, k: nat, b: BlockId)
    requires |blocks| == BLOCKS && k < BLOCKS && forall j :: k <= j < BLOCKS ==> blocks[j] == AIR
    ensures Highest(blocks, k % COLUMNS, HEIGHT) <= MIN_BUILD_Y + k / COLUMNS
    ensures Highest(blocks[k := b], k % COLUMNS, HEIGHT) ==
            if b == AIR then Highest(blocks, k % COLUMNS, HEIGHT) else MIN_BUILD_Y + k / COLUMNS
    ensures forall c :: 0 <= c < COLUMNS && c != k % COLUMNS ==>
      Highest(blocks[k := b], c, HEIGHT) == Highest(blocks, c, HEIGHT)
  {
    var c, n := k % COLUMNS, k / COLUMNS;
    forall m | n <= m < HEIGHT
      ensures blocks[m * COLUMNS + c] == AIR
    {
      assert m * COLUMNS + c >= n * COLUMNS + c == k;
    }
    HighestFrom(blocks, c, n, HEIGHT);
    HighestFromSet(blocks, k, b, c, HEIGHT);
    HighestUnchanged(blocks, k, b, c, n);
    if b == AIR {
      assert blocks[k := b] == blocks;
    }
    forall d | 0 <= d < COLUMNS && d != c {
      OtherColumns(blocks, k, b, d);
    }
  }
}
