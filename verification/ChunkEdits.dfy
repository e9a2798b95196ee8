/** What the callers of a chunk can change in it, on values, and what becomes of it in storage. */
module ChunkEdits {
  import opened Arithmetic
  import opened Blocks
  import opened Bytes
  import opened Chunks
  import ChunkFormat

  /** What a chunk holds besides its position. */
  datatype Parts = Parts(heights: seq<int>, biomes: seq<BiomeId>, blocks: seq<BlockId>)

  predicate Sized(c: Parts) {
    && |c.heights| == COLUMNS && |c.biomes| == BIOMES && |c.blocks| == BLOCKS
    && forall k :: 0 <= k < COLUMNS ==> MIN_BUILD_Y <= c.heights[k] < MAX_BUILD_Y
  }

  type Content = c: Parts | Sized(c)
    witness Parts(seq(COLUMNS, _ => MIN_BUILD_Y), seq(BIOMES, _ => 0), seq(BLOCKS, _ => AIR))

  type StorablePosition = p: ChunkPosition | IsSigned(p.x, 4) && IsSigned(p.z, 4) witness ChunkPosition(0, 0)

  ghost function ContentOf(c: Chunk): Content
    requires c.Valid()
    reads c, c.blocks, c.nonAir, c.heightmap, c.biomes
  {
    Parts(c.heightmap[..], c.biomes[..], c.blocks[..])
  }

  // ---------------------------------------------------------------------------------------
  // Storage
  // ---------------------------------------------------------------------------------------

  /** The content that storage gives back for one that was saved. */
  function Reloaded(c: Content): Content {
    c.(heights := ChunkFormat.Raised(c.heights, c.blocks))
  }

  /** No recorded height lies below its column's highest block. */
  ghost predicate Tall(c: Content) {
    forall k :: 0 <= k < COLUMNS ==> Highest(c.blocks, k, HEIGHT) <= c.heights[k]
  }

  ghost function Described(p: StorablePosition, c: Content): ChunkFormat.ChunkData {
    ChunkFormat.ChunkData(p, c.heights, c.biomes, c.blocks)
  }

  /** `Reloaded` is what the payload written for a content describes. */
  lemma ReloadedIsDescribed(p: StorablePosition, c: Content)
    ensures ChunkFormat.WellFormed(Described(p, c))
    ensures
      var payload := ChunkFormat.Layout(Described(p, c));
      ChunkFormat.Loads(payload) && ChunkFormat.Describes(payload, Described(p, Reloaded(c)))
  {
    ChunkFormat.RoundTrip(Described(p, c));
  }

  /** Content survives storage just when it is tall, and what comes back survives. */
  lemma ReloadedJustWhenTall(c: Content)
    ensures Reloaded(c) == c <==> Tall(c)
    ensures Tall(Reloaded(c)) && Reloaded(Reloaded(c)) == Reloaded(c)
  {
    SameJustWhenTall(c);
    SameJustWhenTall(Reloaded(c));
  }

  lemma SameJustWhenTall(c: Content)
    ensures Reloaded(c) == c <==> Tall(c)
  {
    if Tall(c) {
      assert Reloaded(c).heights == c.heights;
    } else {
      var k :| 0 <= k < COLUMNS && Highest(c.blocks, k, HEIGHT) > c.heights[k];
      assert Reloaded(c).heights[k] != c.heights[k];
    }
  }

  // ---------------------------------------------------------------------------------------
  // Edits
  // ---------------------------------------------------------------------------------------

  datatype Edit =
    | SetBlock(x: nat, y: int, z: nat, b: BlockId)
    | SetHeight(x: nat, z: nat, h: int)
    | SetBiome(quartX: nat, quartY: nat, quartZ: nat, biome: BiomeId)

  predicate Accepted(e: Edit) {
    match e
    case SetBlock(x, y, z, _) => x < 16 && z < 16 && MIN_BUILD_Y <= y < MAX_BUILD_Y
    case SetHeight(x, z, h) => x < 16 && z < 16 && MIN_BUILD_Y <= h < MAX_BUILD_Y
    case SetBiome(x, y, z, _) => x < 4 && z < 4 && y < 96
  }

  /** The content after the edit; a refused one changes nothing. */
  function Outcome(c: Content, e: Edit): Content {
    if !Accepted(e) then c
    else
      match e
      case SetBlock(x, y, z, b) =>
        var k := Column(x, z);
        c.(blocks := c.blocks[Index(x, y, z) := b],
           heights := c.heights[k := NewHeight(c.blocks, x, y, z, b, c.heights[k])])
      case SetHeight(x, z, h) => c.(heights := c.heights[Column(x, z) := h])
      case SetBiome(x, y, z, biome) => c.(biomes := c.biomes[(y * 4 + z) * 4 + x := biome])
  }

  /** The edit marks the chunk dirty. */
  predicate Marks(c: Content, e: Edit) {
    Accepted(e) && (e.SetBlock? ==> c.blocks[Index(e.x, e.y, e.z)] != e.b)
  }

  /** The three operations of a chunk do this. */
  method Perform(c: Chunk, e: Edit) returns (ok: bool)
    requires c.Valid()
    modifies c`dirty, c.blocks, c.nonAir, c.heightmap, c.biomes
    ensures c.Valid() && ok == Accepted(e)
    ensures ContentOf(c) == Outcome(old(ContentOf(c)), e)
    ensures c.dirty == (old(c.dirty) || Marks(old(ContentOf(c)), e))
  {
    match e
    case SetBlock(x, y, z, b) => ok := c.SetBlock(x, y, z, b);
    case SetHeight(x, z, h) => ok := c.SetHeight(x, z, h);
    case SetBiome(x, y, z, biome) => ok := c.SetBiome(x, y, z, biome);
  }

  /** The edit records a height below the highest block of its column. */
  predicate Lowers(c: Content, e: Edit) {
    e.SetHeight? && Accepted(e) && e.h < Highest(c.blocks, Column(e.x, e.z), HEIGHT)
  }

  /** Of all edits only recording a height that is too low makes a tall content low. */
  lemma TallUnlessLowered(c: Content, e: Edit)
    requires Tall(c)
    ensures Tall(Outcome(c, e)) <==> !Lowers(c, e)
  {
    if Accepted(e) && e.SetBlock? {
      BlockKeepsTall(c, e);
    } else if Lowers(c, e) {
      assert Outcome(c, e).heights[Column(e.x, e.z)] == e.h;
    }
  }

  lemma BlockKeepsTall(c: Content, e: Edit)
    requires Tall(c) && e.SetBlock? && Accepted(e)
    ensures Tall(Outcome(c, e))
  {
    var d, k := Outcome(c, e), Column(e.x, e.z);
    forall j | 0 <= j < COLUMNS
      ensures Highest(d.blocks, j, HEIGHT) <= d.heights[j]
    {
      if j == k {
        HeightStaysAbove(c.blocks, e.x, e.y, e.z, e.b, c.heights[k]);
      } else {
        OtherColumns(c.blocks, Index(e.x, e.y, e.z), e.b, j);
      }
    }
  }

  /** A height at or above the highest block stays so. */
  lemma HeightStaysAbove(blocks: seq<BlockId>, x: nat, y: int, z: nat, b: BlockId, h: int)
    requires |blocks| == BLOCKS && x < 16 && z < 16 && MIN_BUILD_Y <= y < MAX_BUILD_Y
    requires Highest(blocks, Column(x, z), HEIGHT) <= h
    ensures Highest(blocks[Index(x, y, z) := b], Column(x, z), HEIGHT) <= NewHeight(blocks, x, y, z, b, h)
  {
    NewHeightIsHighest(blocks, x, y, z, b);
    HighestIsHighest(blocks, Column(x, z), HEIGHT);
  }

  /** An edit that marks nothing dirty leaves what storage will give back. */
  lemma UnmarkedKeepsReloaded(c: Content, e: Edit)
    requires !Marks(c, e)
    ensures Reloaded(Outcome(c, e)) == Reloaded(c)
  {
    if Accepted(e) {
      var d, k := Outcome(c, e), Column(e.x, e.z);
      assert d.blocks == c.blocks;
      HighestIsHighest(c.blocks, k, HEIGHT);
      assert Index(e.x, e.y, e.z) == (e.y - MIN_BUILD_Y) * COLUMNS + k;
      assert Max(d.heights[k], Highest(c.blocks, k, HEIGHT)) == Max(c.heights[k], Highest(c.blocks, k, HEIGHT));
      assert Reloaded(d).heights == Reloaded(c).heights;
    }
  }

  /** But it may change the content, just when it places a block where it is, above the recorded height. */
  lemma UnmarkedChanges(c: Content, e: Edit)
    requires !Marks(c, e)
    ensures Outcome(c, e) != c <==> Accepted(e) && e.b != AIR && e.y > c.heights[Column(e.x, e.z)]
    ensures Tall(c) ==> Outcome(c, e) == c
  {
    if Accepted(e) {
      var k := Column(e.x, e.z);
      CleanKeepsHeight(c.blocks, e.x, e.y, e.z, e.b, c.heights[k]);
      HighestIsHighest(c.blocks, k, HEIGHT);
      assert Index(e.x, e.y, e.z) == (e.y - MIN_BUILD_Y) * COLUMNS + k;
      assert Outcome(c, e).heights[k] == NewHeight(c.blocks, e.x, e.y, e.z, e.b, c.heights[k]);
      if Outcome(c, e).heights[k] == c.heights[k] {
        assert Outcome(c, e).heights == c.heights;
      }
    }
  }

  /** The same blocks and biomes; the heights may differ. */
  ghost predicate Alike(c: Content, d: Content) {
    c.blocks == d.blocks && c.biomes == d.biomes
  }

  lemma OutcomesAlike(c: Content, d: Content, e: Edit)
    requires Alike(c, d)
    ensures Alike(Outcome(c, e), Outcome(d, e)) && (Lowers(c, e) <==> Lowers(d, e))
  {
  }

  /** A content of solid blocks whose heights are at the bottom: saving and reading raises them to the
      top, and setting a block that is there raises one of them without a mark. */
  lemma LowExample(c: Content, b: BlockId)
    requires b != AIR
    requires c.heights == seq(COLUMNS, _ => MIN_BUILD_Y) && c.blocks == seq(BLOCKS, _ => b)
    ensures !Tall(c) && Reloaded(c).heights[0] == MAX_BUILD_Y - 1
    ensures
      var e := SetBlock(0, 0, 0, b);
      !Marks(c, e) && Outcome(c, e) == c.(heights := c.heights[0 := 0]) != c
  {
    assert c.blocks[(HEIGHT - 1) * COLUMNS] == b;
    assert Highest(c.blocks, 0, HEIGHT) == MAX_BUILD_Y - 1;
    var e := SetBlock(0, 0, 0, b);
    assert c.blocks[Index(0, 0, 0) := b] == c.blocks;
    assert Outcome(c, e).heights[0] == 0;
  }
}
