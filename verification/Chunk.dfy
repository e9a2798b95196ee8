/** One chunk: block sections with their non-air counts, and the incrementally kept heightmap. */
module Chunks {
  import opened Blocks

  datatype ChunkPosition = ChunkPosition(x: int, z: int)

  newtype BiomeId = n: int | 0 <= n < 256

  const COLUMNS := 256
  const SECTIONS := 24
  const SECTION_BLOCKS := 4096
  const BLOCKS := 98304
  const BIOMES := 1536

  /** Blocks of all sections lie behind one another, so block (x, y, z) is found at this index and
      belongs to section `index / SECTION_BLOCKS`. */
  function Index(x: nat, y: int, z: nat): (i: nat)
    requires x < 16 && z < 16 && MIN_BUILD_Y <= y < MAX_BUILD_Y
    ensures i < BLOCKS && i % COLUMNS == Column(x, z) && i / COLUMNS == y - MIN_BUILD_Y
  {
    (y - MIN_BUILD_Y) * COLUMNS + Column(x, z)
  }

  function Column(x: nat, z: nat): (c: nat)
    requires x < 16 && z < 16
    ensures c < COLUMNS
  {
    z * 16 + x
  }

  // ---------------------------------------------------------------------------------------
  // Heights and counts
  // ---------------------------------------------------------------------------------------

  /** The height of the highest block of column `c` among the lowest `n` that is not air, or the bottom. */
  function Highest(blocks: seq<BlockId>, c: nat, n: nat): (h: int)
    requires |blocks| == BLOCKS && c < COLUMNS && n <= HEIGHT
    ensures MIN_BUILD_Y <= h && (n > 0 ==> h < MIN_BUILD_Y + n)
  {
    if n == 0 then MIN_BUILD_Y
    else if blocks[(n - 1) * COLUMNS + c] != AIR then MIN_BUILD_Y + n - 1
    else Highest(blocks, c, n - 1)
  }

  function CountNonAir(blocks: seq<BlockId>): nat {
    if blocks == [] then 0 else CountNonAir(blocks[..|blocks| - 1]) + if blocks[|blocks| - 1] != AIR then 1 else 0
  }

  /** The blocks of one section. */
  function Section(blocks: seq<BlockId>, s: nat): seq<BlockId>
    requires |blocks| == BLOCKS && s < SECTIONS
  {
    blocks[s * SECTION_BLOCKS..(s + 1) * SECTION_BLOCKS]
  }

  /** `Highest` means: that block is not air unless the column is empty, and all above it are. */
  lemma {:induction false} HighestIsHighest(blocks: seq<BlockId>, c: nat, n: nat)
    requires |blocks| == BLOCKS && c < COLUMNS && n <= HEIGHT
    ensures
      var h := Highest(blocks, c, n);
      && (forall k :: h - MIN_BUILD_Y < k < n ==> blocks[k * COLUMNS + c] == AIR)
      && (h > MIN_BUILD_Y ==> blocks[(h - MIN_BUILD_Y) * COLUMNS + c] != AIR)
  {
    if n > 0 && blocks[(n - 1) * COLUMNS + c] == AIR {
      HighestIsHighest(blocks, c, n - 1);
    }
  }

  /** The height left in a column, whatever was recorded: a block above it raises it there; taking away the
      block at it lowers it to the next block below, or the bottom; and nothing else changes it. */
  lemma NewHeightIs(blocks: seq<BlockId>, x: nat, y: int, z: nat, b: BlockId, h: int)
    requires |blocks| == BLOCKS && x < 16 && z < 16 && MIN_BUILD_Y <= y < MAX_BUILD_Y
    ensures
      var i, r, c := Index(x, y, z), NewHeight(blocks, x, y, z, b, h), Column(x, z);
      && (b != AIR && y > h ==> r == y)
      && (!(b != AIR && y > h) && !(b == AIR && blocks[i] != AIR && y == h) ==> r == h)
      && (b == AIR && blocks[i] != AIR && y == h ==>
            && MIN_BUILD_Y <= r <= y && (r > MIN_BUILD_Y ==> r < y && blocks[(r - MIN_BUILD_Y) * COLUMNS + c] != AIR)
            && forall k :: r - MIN_BUILD_Y < k < y - MIN_BUILD_Y ==> blocks[k * COLUMNS + c] == AIR)
  {
    var i, c := Index(x, y, z), Column(x, z);
    if b == AIR && blocks[i] != AIR && y == h {
      HighestWithout(blocks, i, c, y - MIN_BUILD_Y);
      HighestIsHighest(blocks, c, y - MIN_BUILD_Y);
    }
  }

  lemma HighestWithout(blocks: seq<BlockId>, i: nat, c: nat, n: nat)
    requires |blocks| == BLOCKS && i < BLOCKS && i % COLUMNS == c && i / COLUMNS == n < HEIGHT
    ensures Highest(blocks[i := AIR], c, n + 1) == Highest(blocks, c, n)
  {
    assert i == n * COLUMNS + c;
    HighestUnchanged(blocks, i, AIR, c, n);
  }

  lemma {:induction false} HighestUnchanged(blocks: seq<BlockId>, i: nat, b: BlockId, c: nat, n: nat)
    requires |blocks| == BLOCKS && i < BLOCKS && c < COLUMNS && n <= HEIGHT
    requires i % COLUMNS != c || n <= i / COLUMNS
    ensures Highest(blocks[i := b], c, n) == Highest(blocks, c, n)
  {
    if n > 0 {
      assert (n - 1) * COLUMNS + c != i;
      HighestUnchanged(blocks, i, b, c, n - 1);
    }
  }

  /** All air above `h`: the scan may as well begin at `h`. */
  lemma {:induction false} HighestFrom(blocks: seq<BlockId>, c: nat, m: nat, n: nat)
    requires |blocks| == BLOCKS && c < COLUMNS && m <= n <= HEIGHT
    requires forall k :: m <= k < n ==> blocks[k * COLUMNS + c] == AIR
    ensures Highest(blocks, c, n) == Highest(blocks, c, m)
  {
    if m < n {
      HighestFrom(blocks, c, m, n - 1);
    }
  }

  /** The height `Chunk::set_block` leaves in a column whose height was `h`, once the block is placed. */
  function NewHeight(blocks: seq<BlockId>, x: nat, y: int, z: nat, b: BlockId, h: int): int
    requires |blocks| == BLOCKS && x < 16 && z < 16 && MIN_BUILD_Y <= y < MAX_BUILD_Y
  {
    var i := Index(x, y, z);
    if b != AIR && y > h then y
    else if blocks[i] != AIR && b == AIR && y == h then Highest(blocks[i := b], Column(x, z), y - MIN_BUILD_Y + 1)
    else h
  }

  /** All air above the block that is set: the scan may as well begin there. */
  lemma {:induction false} HighestFromSet(blocks: seq<BlockId>, i: nat, b: BlockId, c: nat, n: nat)
    requires |blocks| == BLOCKS && i < BLOCKS && i % COLUMNS == c && i / COLUMNS < n <= HEIGHT
    requires forall k :: i / COLUMNS < k < n ==> blocks[k * COLUMNS + c] == AIR
    ensures Highest(blocks[i := b], c, n) == Highest(blocks[i := b], c, i / COLUMNS + 1)
  {
    if i / COLUMNS + 1 < n {
      assert (n - 1) * COLUMNS + c != i;
      HighestFromSet(blocks, i, b, c, n - 1);
    }
  }

  /** A block set below the highest one does not matter. */
  lemma {:induction false} HighestOverSet(blocks: seq<BlockId>, i: nat, b: BlockId, c: nat, n: nat)
    requires |blocks| == BLOCKS && i < BLOCKS && i % COLUMNS == c && n <= HEIGHT
    requires MIN_BUILD_Y + i / COLUMNS < Highest(blocks, c, n)
    ensures Highest(blocks[i := b], c, n) == Highest(blocks, c, n)
  {
    assert (n - 1) * COLUMNS + c != i;
    if blocks[(n - 1) * COLUMNS + c] == AIR {
      HighestOverSet(blocks, i, b, c, n - 1);
    }
  }

  /** The block is set at the highest one or above it. */
  lemma HeightAbove(blocks: seq<BlockId>, x: nat, y: int, z: nat, b: BlockId)
    requires |blocks| == BLOCKS && x < 16 && z < 16 && MIN_BUILD_Y <= y < MAX_BUILD_Y
    requires y >= Highest(blocks, Column(x, z), HEIGHT)
    ensures
      var c, i := Column(x, z), Index(x, y, z);
      NewHeight(blocks, x, y, z, b, Highest(blocks, c, HEIGHT)) == Highest(blocks[i := b], c, HEIGHT)
  {
    var c, i, k := Column(x, z), Index(x, y, z), y - MIN_BUILD_Y;
    assert i == k * COLUMNS + c;
    HighestIsHighest(blocks, c, HEIGHT);
    HighestFromSet(blocks, i, b, c, HEIGHT);
    if b == AIR && blocks[i] == AIR {
      assert blocks[i := b] == blocks;
    }
  }

  /** A height that was the highest block stays the highest block. */
  lemma NewHeightIsHighest(blocks: seq<BlockId>, x: nat, y: int, z: nat, b: BlockId)
    requires |blocks| == BLOCKS && x < 16 && z < 16 && MIN_BUILD_Y <= y < MAX_BUILD_Y
    ensures
      var c, i := Column(x, z), Index(x, y, z);
      NewHeight(blocks, x, y, z, b, Highest(blocks, c, HEIGHT)) == Highest(blocks[i := b], c, HEIGHT)
  {
    if y < Highest(blocks, Column(x, z), HEIGHT) {
      HighestOverSet(blocks, Index(x, y, z), b, Column(x, z), HEIGHT);
    } else {
      HeightAbove(blocks, x, y, z, b);
    }
  }

  lemma OtherColumns(blocks: seq<BlockId>, i: nat, b: BlockId, c: nat)
    requires |blocks| == BLOCKS && i < BLOCKS && c < COLUMNS && i % COLUMNS != c
    ensures Highest(blocks[i := b], c, HEIGHT) == Highest(blocks, c, HEIGHT)
  {
    HighestUnchanged(blocks, i, b, c, HEIGHT);
  }

  lemma {:induction false} CountUpdate(s: seq<BlockId>, i: nat, b: BlockId)
    requires i < |s|
    ensures CountNonAir(s[i := b]) + (if s[i] != AIR then 1 else 0) == CountNonAir(s) + (if b != AIR then 1 else 0)
  {
    var n := |s| - 1;
    if i == n {
      assert s[i := b][..n] == s[..n];
    } else {
      assert s[i := b][..n] == s[..n][i := b];
      CountUpdate(s[..n], i, b);
    }
  }

  lemma {:induction false} CountOfAir(s: seq<BlockId>)
    requires forall k :: 0 <= k < |s| ==> s[k] == AIR
    ensures CountNonAir(s) == 0
  {
    if s != [] {
      CountOfAir(s[..|s| - 1]);
    }
  }

  lemma SectionUpdate(blocks: seq<BlockId>, i: nat, b: BlockId, s: nat)
    requires |blocks| == BLOCKS && i < BLOCKS && s < SECTIONS
    ensures Section(blocks[i := b], s) ==
            if i / SECTION_BLOCKS == s then Section(blocks, s)[i % SECTION_BLOCKS := b] else Section(blocks, s)
  {
  }

  /** The counts of all sections after a block is set. */
  lemma CountsUpdate(blocks: seq<BlockId>, counts: seq<nat>, i: nat, b: BlockId)
    requires |blocks| == BLOCKS && |counts| == SECTIONS && i < BLOCKS
    requires forall s :: 0 <= s < SECTIONS ==> counts[s] == CountNonAir(Section(blocks, s))
    ensures forall s :: 0 <= s < SECTIONS && s != i / SECTION_BLOCKS ==>
      counts[s] == CountNonAir(Section(blocks[i := b], s))
    ensures CountNonAir(Section(blocks[i := b], i / SECTION_BLOCKS)) + (if blocks[i] != AIR then 1 else 0) ==
            counts[i / SECTION_BLOCKS] + (if b != AIR then 1 else 0)
  {
    forall s | 0 <= s < SECTIONS {
      SectionUpdate(blocks, i, b, s);
    }
    var s := i / SECTION_BLOCKS;
    assert Section(blocks, s)[i % SECTION_BLOCKS] == blocks[i];
    CountUpdate(Section(blocks, s), i % SECTION_BLOCKS, b);
  }

  lemma {:induction false} HighestOfAir(blocks: seq<BlockId>, c: nat, n: nat)
    requires |blocks| == BLOCKS && c < COLUMNS && n <= HEIGHT
    requires forall k :: 0 <= k < BLOCKS ==> blocks[k] == AIR
    ensures Highest(blocks, c, n) == MIN_BUILD_Y
  {
    if n > 0 {
      HighestOfAir(blocks, c, n - 1);
    }
  }

  // ---------------------------------------------------------------------------------------
  // The chunk
  // ---------------------------------------------------------------------------------------

  class Chunk {
    const position: ChunkPosition
    const blocks: array<BlockId>
    const nonAir: array<nat>
    const heightmap: array<int>
    const biomes: array<BiomeId>
    var dirty: bool

    ghost predicate Valid()
      reads this, blocks, nonAir, heightmap, biomes
    {
      && blocks.Length == BLOCKS && nonAir.Length == SECTIONS && heightmap.Length == COLUMNS && biomes.Length == BIOMES
      && heightmap != nonAir as object
      && (forall c :: 0 <= c < COLUMNS ==> MIN_BUILD_Y <= heightmap[c] < MAX_BUILD_Y)
      && (forall s :: 0 <= s < SECTIONS ==> nonAir[s] == CountNonAir(Section(blocks[..], s)))
    }

    /** Every column's height is that of its highest block. */
    ghost predicate HeightsExact()
      requires Valid()
      reads this, blocks, nonAir, heightmap, biomes
    {
      forall c :: 0 <= c < COLUMNS ==> heightmap[c] == Highest(blocks[..], c, HEIGHT)
    }

    constructor (position: ChunkPosition)
      ensures Valid() && HeightsExact() && this.position == position && !dirty
      ensures fresh(blocks) && fresh(nonAir) && fresh(heightmap) && fresh(biomes)
      ensures forall k :: 0 <= k < BLOCKS ==> blocks[k] == AIR
      ensures forall k :: 0 <= k < COLUMNS ==> heightmap[k] == MIN_BUILD_Y
      ensures forall k :: 0 <= k < BIOMES ==> biomes[k] == 0
    {
      this.position := position;
      blocks := new BlockId[BLOCKS](_ => AIR);
      nonAir := new nat[SECTIONS](_ => 0);
      heightmap := new int[COLUMNS](_ => MIN_BUILD_Y);
      biomes := new BiomeId[BIOMES](_ => 0);
      dirty := false;
      new;
      forall s | 0 <= s < SECTIONS
        ensures nonAir[s] == CountNonAir(Section(blocks[..], s))
      {
        CountOfAir(Section(blocks[..], s));
      }
      forall c | 0 <= c < COLUMNS
        ensures heightmap[c] == Highest(blocks[..], c, HEIGHT)
      {
        HighestOfAir(blocks[..], c, HEIGHT);
      }
    }

    /** Refused outside the chunk; otherwise places the block and keeps count, height and dirt. */
    method SetBlock(x: nat, y: int, z: nat, b: BlockId) returns (ok: bool)
      requires Valid()
      modifies blocks, nonAir, heightmap, this`dirty
      ensures Valid()
      ensures ok == (x < 16 && z < 16 && MIN_BUILD_Y <= y < MAX_BUILD_Y)
      ensures !ok ==> blocks[..] == old(blocks[..]) && heightmap[..] == old(heightmap[..]) && dirty == old(dirty)
      ensures ok ==> blocks[..] == old(blocks[..])[Index(x, y, z) := b]
      ensures ok ==>
        var c := Column(x, z);
        heightmap[..] == old(heightmap[..])[c := NewHeight(old(blocks[..]), x, y, z, b, old(heightmap[..])[c])]
      ensures ok ==> dirty == (old(dirty) || old(blocks[..])[Index(x, y, z)] != b)
    {
      if y < MIN_BUILD_Y || y >= MAX_BUILD_Y || x >= 16 || z >= 16 {
        return false;
      }
      var i, c := Index(x, y, z), Column(x, z);
      var previous := blocks[i];
      Place(i, b);
      dirty := dirty || previous != b;
      if b != AIR && y > heightmap[c] {
        heightmap[c] := y;
      } else if previous != AIR && b == AIR && y == heightmap[c] {
        heightmap[c] := ScanDown(c, y);
      }
      ok := true;
    }

    /** `ChunkSection::set_block`. */
    method Place(i: nat, b: BlockId)
      requires Valid() && i < BLOCKS
      modifies blocks, nonAir
      ensures Valid() && blocks[..] == old(blocks[..])[i := b]
    {
      var s := i / SECTION_BLOCKS;
      ghost var was, counts := blocks[..], nonAir[..];
      CountsUpdate(was, counts, i, b);
      if blocks[i] == AIR && b != AIR {
        nonAir[s] := nonAir[s] + 1;
      } else if blocks[i] != AIR && b == AIR {
        nonAir[s] := nonAir[s] - 1;
      }
      blocks[i] := b;
      assert blocks[..] == was[i := b] && nonAir[..] == counts[s := nonAir[s]];
    }

    /** The downward scan for the next block that is not air. */
    method ScanDown(c: nat, y: int) returns (h: int)
      requires Valid() && c < COLUMNS && MIN_BUILD_Y <= y < MAX_BUILD_Y
      ensures h == Highest(blocks[..], c, y - MIN_BUILD_Y + 1)
    {
      h := y;
      while h > MIN_BUILD_Y && blocks[(h - MIN_BUILD_Y) * COLUMNS + c] == AIR
        invariant MIN_BUILD_Y <= h <= y
        invariant Highest(blocks[..], c, h - MIN_BUILD_Y + 1) == Highest(blocks[..], c, y - MIN_BUILD_Y + 1)
      {
        h := h - 1;
      }
      assert Highest(blocks[..], c, 0) == MIN_BUILD_Y;
    }

    method SetHeight(x: nat, z: nat, h: int) returns (ok: bool)
      requires Valid()
      modifies heightmap, this`dirty
      ensures Valid()
      ensures ok == (x < 16 && z < 16 && MIN_BUILD_Y <= h < MAX_BUILD_Y)
      ensures heightmap[..] == if ok then old(heightmap[..])[Column(x, z) := h] else old(heightmap[..])
      ensures dirty == (old(dirty) || ok)
    {
      if h < MIN_BUILD_Y || h >= MAX_BUILD_Y || x >= 16 || z >= 16 {
        return false;
      }
      heightmap[Column(x, z)] := h;
      dirty := true;
      ok := true;
    }

    method SetBiome(quartX: nat, quartY: nat, quartZ: nat, b: BiomeId) returns (ok: bool)
      requires Valid()
      modifies biomes, this`dirty
      ensures Valid()
      ensures ok == (quartX < 4 && quartZ < 4 && quartY < 96)
      ensures biomes[..] == if ok then old(biomes[..])[(quartY * 4 + quartZ) * 4 + quartX := b] else old(biomes[..])
      ensures dirty == (old(dirty) || ok)
    {
      if quartX >= 4 || quartZ >= 4 || quartY >= 96 {
        return false;
      }
      biomes[(quartY * 4 + quartZ) * 4 + quartX] := b;
      dirty := true;
      ok := true;
    }
  }

  /** Over any run of `set_block` the heights stay exact. */
  method Build(c: Chunk, edits: seq<(nat, int, nat, BlockId)>)
    requires c.Valid() && c.HeightsExact()
    modifies c.blocks, c.nonAir, c.heightmap, c`dirty
    ensures c.Valid() && c.HeightsExact()
    // and a chunk left clean still holds what it held
    ensures !c.dirty ==> c.blocks[..] == old(c.blocks[..]) && c.heightmap[..] == old(c.heightmap[..])
  {
    for k := 0 to |edits|
      invariant c.Valid() && c.HeightsExact()
      invariant old(c.dirty) ==> c.dirty
      invariant !c.dirty ==> c.blocks[..] == old(c.blocks[..]) && c.heightmap[..] == old(c.heightmap[..])
    {
      var (x, y, z, b) := edits[k];
      ghost var was, heights := c.blocks[..], c.heightmap[..];
      var ok := c.SetBlock(x, y, z, b);
      if ok {
        NewHeightIsHighest(was, x, y, z, b);
        forall d | 0 <= d < COLUMNS && d != Column(x, z) {
          OtherColumns(was, Index(x, y, z), b, d);
        }
        if was[Index(x, y, z)] == b {
          CleanKeepsHeight(was, x, y, z, b, heights[Column(x, z)]);
        }
      }
    }
  }

  /** Setting the block that is already there marks nothing dirty.  It leaves the height alone too,
      except on a column whose recorded height lies below that block. */
  lemma CleanKeepsHeight(blocks: seq<BlockId>, x: nat, y: int, z: nat, b: BlockId, h: int)
    requires |blocks| == BLOCKS && x < 16 && z < 16 && MIN_BUILD_Y <= y < MAX_BUILD_Y
    requires blocks[Index(x, y, z)] == b
    ensures blocks[Index(x, y, z) := b] == blocks
    ensures NewHeight(blocks, x, y, z, b, h) == h <==> b == AIR || y <= h
    ensures h == Highest(blocks, Column(x, z), HEIGHT) ==> NewHeight(blocks, x, y, z, b, h) == h
  {
    HighestIsHighest(blocks, Column(x, z), HEIGHT);
  }
}
