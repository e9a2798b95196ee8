/** The storage of a level: chunks by their position, in one region file for every 32 by 32 of them. */
module Levels {
  import opened Bytes
  import opened RegionFiles
  import opened Wrappers
  import Chunks

  type ChunkPosition = Chunks.ChunkPosition

  type RegionKey = (int, int)

  function RegionOf(p: ChunkPosition): RegionKey {
    (FloorDiv(p.x, 32), FloorDiv(p.z, 32))
  }

  function LocalIn(p: ChunkPosition): (at: Local)
    ensures at.x < 32 && at.z < 32
  {
    ChunkAddress(p.x, FloorDiv(p.x, 32), FloorMod(p.x, 32));
    ChunkAddress(p.z, FloorDiv(p.z, 32), FloorMod(p.z, 32));
    Local(FloorMod(p.x, 32), FloorMod(p.z, 32))
  }

  /** Every place of every region belongs to exactly one chunk. */
  lemma PlacesApart(p: ChunkPosition, q: ChunkPosition)
    ensures RegionOf(p) == RegionOf(q) && LocalIn(p) == LocalIn(q) <==> p == q
  {
    ChunkAddress(p.x, FloorDiv(p.x, 32), FloorMod(p.x, 32));
    ChunkAddress(p.z, FloorDiv(p.z, 32), FloorMod(p.z, 32));
    ChunkAddress(q.x, FloorDiv(q.x, 32), FloorMod(q.x, 32));
    ChunkAddress(q.z, FloorDiv(q.z, 32), FloorMod(q.z, 32));
  }

  class LevelStorage {
    const codec: Codec
    var regions: map<RegionKey, RegionFile>

    ghost predicate Valid()
      reads this, regions.Values
    {
      && IsInverse(codec)
      && (forall r :: r in regions ==> regions[r].Valid() && regions[r].codec == codec)
      && (forall r, s :: r in regions && s in regions && r != s ==> regions[r] != regions[s])
    }

    /** What was last saved for a chunk. */
    ghost function Saved(p: ChunkPosition): Result
      reads this, regions.Values
    {
      if RegionOf(p) in regions && LocalIn(p) in regions[RegionOf(p)].contents
      then Payload(regions[RegionOf(p)].contents[LocalIn(p)])
      else Absent
    }

    constructor (codec: Codec)
      requires IsInverse(codec)
      ensures Valid() && this.codec == codec && forall p :: Saved(p) == Absent
    {
      this.codec := codec;
      regions := map[];
    }

    /** The region file of a chunk, which is created when there is none. */
    method Region(p: ChunkPosition) returns (file: RegionFile)
      requires Valid()
      modifies this
      ensures Valid() && RegionOf(p) in regions && file == regions[RegionOf(p)]
      ensures forall q :: Saved(q) == old(Saved(q))
      ensures fresh(regions.Values - old(regions.Values))
    {
      var key := RegionOf(p);
      if key !in regions {
        var created := new RegionFile.Create(codec);
        regions := regions[key := created];
      }
      file := regions[key];
    }

    /** Reads what was last saved for this very chunk. */
    method Load(p: ChunkPosition) returns (r: Result)
      requires Valid()
      modifies this
      ensures Valid() && r == old(Saved(p)) && forall q :: Saved(q) == old(Saved(q))
    {
      var file := Region(p);
      r := file.Read(LocalIn(p).x, LocalIn(p).z);
    }

    /** Saves one chunk and touches no other; a refused save changes none. */
    method Save(p: ChunkPosition, payload: seq<byte>, timestamp: nat) returns (error: Option<Error>)
      requires Valid()
      modifies this, regions.Values
      ensures Valid()
      ensures Saved(p) == if error.None? then Payload(payload) else old(Saved(p))
      ensures forall q :: q != p ==> Saved(q) == old(Saved(q))
    {
      var file := Region(p);
      error := file.Write(LocalIn(p).x, LocalIn(p).z, payload, timestamp);
      forall q | q != p {
        PlacesApart(p, q);
      }
    }
  }
}
