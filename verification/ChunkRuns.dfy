/** Whole runs of the chunk cache, against a map that never evicts.

    Blocks and biomes always look as in that map.  A height that lies below its column's highest block when
    the last holder lets go may or may not come back as the height of that block, so the map also keeps
    what a cache may show; every one of these contents is shown by some cache. */
module ChunkRuns {
  import opened ChunkCache
  import opened ChunkEdits
  import opened Wrappers
  import Blocks
  import Chunks

  datatype Op =
    | OpLoad(p: ChunkPosition)
    | OpRelease(p: ChunkPosition)
    | OpEdit(p: ChunkPosition, e: Edit)
    | OpUnload(p: ChunkPosition)
    | OpUnloadUnused
    | OpSaveDirty

  ghost function AllReloaded(contents: set<Content>): set<Content> {
    set c | c in contents :: Reloaded(c)
  }

  ghost function Outcomes(contents: set<Content>, e: Edit): set<Content> {
    set c | c in contents :: Outcome(c, e)
  }

  /** A world that never evicts: the chunks edited so far, what a cache may show instead, and the handles
      held. */
  datatype World = World(edits: map<ChunkPosition, Content>, may: map<ChunkPosition, set<Content>>,
                         held: map<ChunkPosition, nat>)
  {
    ghost function At(base: Generator, p: ChunkPosition): Content {
      if p in edits then edits[p] else base(p)
    }

    ghost function May(base: Generator, p: ChunkPosition): set<Content> {
      if p in may then may[p] else {base(p), Reloaded(base(p))}
    }

    ghost function Held(p: ChunkPosition): nat {
      if p in held then held[p] else 0
    }

    ghost predicate Kept(base: Generator, p: ChunkPosition, k: nat)
      requires k < Chunks.COLUMNS
    {
      Keeps(May(base, p), At(base, p), k)
    }

    ghost function Next(op: Op, base: Generator): World {
      match op
      case OpLoad(p) => this.(held := held[p := Held(p) + 1])
      case OpRelease(p) =>
        if Held(p) == 0 then this
        else
          var left := May(base, p) + if Held(p) == 1 then AllReloaded(May(base, p)) else {};
          this.(held := held[p := Held(p) - 1], may := may[p := left])
      case OpEdit(p, e) =>
        if Held(p) == 0 then this
        else this.(edits := edits[p := Outcome(At(base, p), e)], may := may[p := Outcomes(May(base, p), e)])
      case OpUnload(p) =>
        if p in held && Held(p) == 0 then this.(may := may[p := AllReloaded(May(base, p))]) else this
      case _ => this
    }

    /** What a cache may show has the blocks and biomes of the world, and storage may have got hold of a
        chunk that nobody holds. */
    ghost predicate Sound(base: Generator, p: ChunkPosition) {
      && May(base, p) != {}
      && (forall c :: c in May(base, p) ==> Alike(c, At(base, p)))
      && (Held(p) == 0 ==> forall c :: c in May(base, p) ==> Reloaded(c) in May(base, p))
    }
  }

  const NEW_WORLD := World(map[], map[], map[])

  /** All the contents show the height of column `k` of this one. */
  ghost predicate Keeps(contents: set<Content>, content: Content, k: nat)
    requires k < Chunks.COLUMNS
  {
    forall c :: c in contents ==> c.heights[k] == content.heights[k]
  }

  /** The world after a run. */
  ghost function After(ops: seq<Op>, base: Generator): World {
    if ops == [] then NEW_WORLD
    else After(ops[..|ops| - 1], base).Next(ops[|ops| - 1], base)
  }

  lemma NextIsSound(w: World, op: Op, base: Generator)
    requires forall p :: w.Sound(base, p)
    ensures forall p :: w.Next(op, base).Sound(base, p)
  {
    forall p
      ensures w.Next(op, base).Sound(base, p)
    {
      assert w.Sound(base, p);
      NextIsSoundAt(w, op, base, p);
    }
  }

  lemma NextIsSoundAt(w: World, op: Op, base: Generator, p: ChunkPosition)
    requires w.Sound(base, p)
    ensures w.Next(op, base).Sound(base, p)
  {
    if op == OpRelease(p) && w.Held(p) == 1 {
      ReleasedIsSound(w, base, p);
    } else if op.OpEdit? && op.p == p && w.Held(p) > 0 {
      EditedIsSound(w, base, p, op.e);
    } else if op == OpUnload(p) && p in w.held && w.Held(p) == 0 {
      UnloadedIsSound(w, base, p);
    } else {
      assert w.Next(op, base).May(base, p) == w.May(base, p);
    }
  }

  lemma ReleasedIsSound(w: World, base: Generator, p: ChunkPosition)
    requires w.Sound(base, p) && w.Held(p) == 1
    ensures w.Next(OpRelease(p), base).Sound(base, p)
  {
    var may, w' := w.May(base, p), w.Next(OpRelease(p), base);
    assert w'.May(base, p) == may + AllReloaded(may);
    var c :| c in may;
    assert c in w'.May(base, p);
    forall d | d in may + AllReloaded(may)
      ensures Alike(d, w'.At(base, p)) && Reloaded(d) in w'.May(base, p)
    {
      ReloadedMember(may, d);
    }
  }

  lemma EditedIsSound(w: World, base: Generator, p: ChunkPosition, e: Edit)
    requires w.Sound(base, p) && w.Held(p) > 0
    ensures w.Next(OpEdit(p, e), base).Sound(base, p)
  {
    var may, w' := w.May(base, p), w.Next(OpEdit(p, e), base);
    var c :| c in may;
    assert Outcome(c, e) in w'.May(base, p);
    forall d | d in w'.May(base, p)
      ensures Alike(d, w'.At(base, p))
    {
      var d0 :| d0 in may && d == Outcome(d0, e);
      OutcomesAlike(d0, w.At(base, p), e);
    }
  }

  lemma UnloadedIsSound(w: World, base: Generator, p: ChunkPosition)
    requires w.Sound(base, p) && p in w.held && w.Held(p) == 0
    ensures w.Next(OpUnload(p), base).Sound(base, p)
  {
    var may, w' := w.May(base, p), w.Next(OpUnload(p), base);
    var c :| c in may;
    assert Reloaded(c) in w'.May(base, p);
    forall d | d in w'.May(base, p)
      ensures Alike(d, w'.At(base, p)) && Reloaded(d) in w'.May(base, p)
    {
      ReloadedMember(may, d);
    }
  }

  lemma ReloadedMember(may: set<Content>, d: Content)
    requires d in may + AllReloaded(may)
    ensures Reloaded(d) in AllReloaded(may)
    ensures exists c :: c in may && Alike(d, c)
  {
    if d !in may {
      var c :| c in may && d == Reloaded(c);
      ReloadedJustWhenTall(c);
      assert Alike(d, c);
    }
  }

  lemma NewIsSound(base: Generator, p: ChunkPosition)
    ensures NEW_WORLD.Sound(base, p)
  {
    ReloadedJustWhenTall(base(p));
  }

  lemma {:induction false} AfterIsSound(ops: seq<Op>, base: Generator)
    ensures forall p :: After(ops, base).Sound(base, p)
  {
    if ops == [] {
      forall p { NewIsSound(base, p); }
    } else {
      AfterIsSound(ops[..|ops| - 1], base);
      NextIsSound(After(ops[..|ops| - 1], base), ops[|ops| - 1], base);
    }
  }

  // ---------------------------------------------------------------------------------------
  // When a height is kept
  // ---------------------------------------------------------------------------------------

  /** A height is kept when the last holder lets go just when it does not lie below the highest block. */
  lemma KeptByLastRelease(w: World, base: Generator, p: ChunkPosition, k: nat)
    requires k < Chunks.COLUMNS && w.Sound(base, p) && w.Held(p) == 1 && w.Kept(base, p, k)
    ensures
      var c := w.At(base, p);
      w.Next(OpRelease(p), base).Kept(base, p, k) <==> Chunks.Highest(c.blocks, k, Blocks.HEIGHT) <= c.heights[k]
  {
    var w', may := w.Next(OpRelease(p), base), w.May(base, p);
    var c :| c in may;
    assert Reloaded(c) in w'.May(base, p);
    forall d | d in may
      ensures Reloaded(d).heights[k] == Reloaded(w.At(base, p)).heights[k]
    {
    }
  }

  /** Every edit keeps the heights that are kept, and setting a height makes it kept. */
  lemma KeptByEdit(w: World, base: Generator, p: ChunkPosition, e: Edit, k: nat)
    requires k < Chunks.COLUMNS && w.Sound(base, p) && w.Held(p) > 0
    requires w.Kept(base, p, k) || (e.SetHeight? && Accepted(e) && Chunks.Column(e.x, e.z) == k)
    ensures w.Next(OpEdit(p, e), base).Kept(base, p, k)
  {
    forall d | d in w.Next(OpEdit(p, e), base).May(base, p)
      ensures d.heights[k] == Outcome(w.At(base, p), e).heights[k]
    {
      var c :| c in w.May(base, p) && d == Outcome(c, e);
    }
  }

  /** Nothing else takes a height away. */
  lemma KeptOtherwise(w: World, base: Generator, p: ChunkPosition, op: Op, k: nat)
    requires k < Chunks.COLUMNS && w.Sound(base, p) && w.Kept(base, p, k)
    requires op != OpRelease(p) || w.Held(p) != 1
    ensures w.Next(op, base).Kept(base, p, k)
  {
    if op.OpEdit? && op.p == p && w.Held(p) > 0 {
      KeptByEdit(w, base, p, op.e, k);
    }
  }

  // ---------------------------------------------------------------------------------------
  // What a run sees
  // ---------------------------------------------------------------------------------------

  /** What a load meets in a world that never evicts, and what a cache may show instead. */
  datatype Sight = Sight(content: Content, may: set<Content>)

  ghost function SightOf(w: World, base: Generator, p: ChunkPosition): Sight {
    Sight(w.At(base, p), w.May(base, p))
  }

  ghost function Seen(ops: seq<Op>, w: World, base: Generator): seq<Sight> {
    if ops == [] then []
    else (if ops[0].OpLoad? then [SightOf(w, base, ops[0].p)] else []) + Seen(ops[1..], w.Next(ops[0], base), base)
  }

  lemma SeenNext(ops: seq<Op>, i: nat, w: World, base: Generator, before: seq<Sight>)
    requires i < |ops|
    ensures before + Seen(ops[i..], w, base) ==
            (if ops[i].OpLoad? then before + [SightOf(w, base, ops[i].p)] else before) +
            Seen(ops[i + 1..], w.Next(ops[i], base), base)
  {
    assert ops[i..][1..] == ops[i + 1..];
  }

  /** The content shows the blocks and biomes of the world, and every height that is kept. */
  ghost predicate Shows(content: Content, sight: Sight) {
    && content in sight.may && Alike(content, sight.content)
    && forall k :: 0 <= k < Chunks.COLUMNS && Keeps(sight.may, sight.content, k) ==>
      content.heights[k] == sight.content.heights[k]
  }

  ghost predicate AllShow(seen: seq<Content>, sights: seq<Sight>) {
    |seen| == |sights| && forall k :: 0 <= k < |seen| ==> Shows(seen[k], sights[k])
  }

  // ---------------------------------------------------------------------------------------
  // The manager looks like the world
  // ---------------------------------------------------------------------------------------

  ghost function OwnersOf(s: State, p: ChunkPosition): nat {
    if p in s.cache then s.cache[p].owners else 0
  }

  /** What is seen is one of the contents the world allows; what was loaded and has left came from storage. */
  ghost predicate LooksAlike(s: State, g: Generator, w: World, base: Generator, p: ChunkPosition) {
    && View(s, g, p) in w.May(base, p) && OwnersOf(s, p) == w.Held(p) && w.Sound(base, p)
    && (p in w.held && p !in s.cache ==> Reloaded(View(s, g, p)) == View(s, g, p))
  }

  ghost predicate Refines(s: State, g: Generator, w: World, base: Generator) {
    s.hasStorage && forall p {:trigger LooksAlike(s, g, w, base, p)} :: LooksAlike(s, g, w, base, p)
  }

  ghost predicate SameState(s: State, s': State, g: Generator, p: ChunkPosition) {
    View(s', g, p) == View(s, g, p) && OwnersOf(s', p) == OwnersOf(s, p) && (p in s.cache <==> p in s'.cache)
  }

  ghost predicate SameWorld(w: World, w': World, base: Generator, p: ChunkPosition) {
    && w'.At(base, p) == w.At(base, p) && w'.May(base, p) == w.May(base, p)
    && w'.Held(p) == w.Held(p) && (p in w.held <==> p in w'.held)
  }

  /** States and worlds that differ in step at `p` and nowhere else. */
  lemma SameLook(s: State, s': State, g: Generator, w: World, w': World, base: Generator, p: ChunkPosition)
    requires Refines(s, g, w, base) && s'.hasStorage
    requires forall q :: q != p ==> SameState(s, s', g, q)
    requires forall q :: q != p ==> SameWorld(w, w', base, q)
    requires LooksAlike(s', g, w', base, p)
    ensures Refines(s', g, w', base)
  {
    forall q
      ensures LooksAlike(s', g, w', base, q)
    {
      assert LooksAlike(s, g, w, base, q);
      assert q != p ==> SameState(s, s', g, q) && SameWorld(w, w', base, q);
    }
  }

  lemma NextElsewhere(w: World, op: Op, base: Generator, p: ChunkPosition)
    requires !op.OpUnloadUnused? && !op.OpSaveDirty? && op.p == p
    ensures forall q :: q != p ==> SameWorld(w, w.Next(op, base), base, q)
  {
  }

  lemma EvictionRefines(s: State, limit: nat, counter: nat, g: Generator, w: World, base: Generator)
    requires Consistent(s) && Stamped(s, counter) && Refines(s, g, w, base)
    ensures Refines(Evicted(s, limit), g, w, base)
  {
    forall p
      ensures LooksAlike(Evicted(s, limit), g, w, base, p)
    {
      assert LooksAlike(s, g, w, base, p);
      EvictionKeepsView(s, g, limit, counter, p);
      EvictedSubset(s, limit);
      if p in s.cache {
        ReloadedJustWhenTall(s.cache[p].content);
      }
    }
    EvictionKeepsView(s, g, limit, counter, Chunks.ChunkPosition(0, 0));
  }

  lemma FetchRefines(s: State, counter: nat, g: Generator, w: World, base: Generator, p: ChunkPosition, c: Chunk)
    requires Consistent(s) && Stamped(s, counter) && Refines(s, g, w, base)
    ensures Refines(Fetched(s, g, p, counter + 1, c), g, w.Next(OpLoad(p), base), base)
  {
    var s' := Fetched(s, g, p, counter + 1, c);
    assert LooksAlike(s, g, w, base, p);
    FetchedKeepsView(s, g, p, counter, c);
    NextElsewhere(w, OpLoad(p), base, p);
    NextIsSoundAt(w, OpLoad(p), base, p);
    forall q | q != p
      ensures SameState(s, s', g, q)
    {
      assert View(s', g, q) == View(s, g, q);
    }
    SameLook(s, s', g, w, w.Next(OpLoad(p), base), base, p);
  }

  lemma LoadRefines(s: State, limit: nat, counter: nat, g: Generator, w: World, base: Generator, p: ChunkPosition,
                    c: Chunk, s': State)
    requires Consistent(s) && Stamped(s, counter) && Refines(s, g, w, base)
    requires s' == Loaded(s, g, limit, p, counter + 1, c)
    ensures Refines(s', g, w.Next(OpLoad(p), base), base) && Shows(View(s', g, p), SightOf(w, base, p))
  {
    FetchRefines(s, counter, g, w, base, p, c);
    FetchedKeepsView(s, g, p, counter, c);
    EvictionRefines(Fetched(s, g, p, counter + 1, c), limit, counter + 1, g, w.Next(OpLoad(p), base), base);
    assert LooksAlike(s, g, w, base, p);
    assert LooksAlike(s', g, w.Next(OpLoad(p), base), base, p);
  }

  lemma ReleaseRefines(s: State, counter: nat, g: Generator, w: World, base: Generator, p: ChunkPosition)
    requires Consistent(s) && Stamped(s, counter) && Refines(s, g, w, base)
    ensures OwnersOf(s, p) == 0 ==> w.Next(OpRelease(p), base) == w
    ensures OwnersOf(s, p) > 0 ==> Refines(Released(s, p), g, w.Next(OpRelease(p), base), base)
  {
    assert LooksAlike(s, g, w, base, p);
    if OwnersOf(s, p) > 0 {
      ReleasedKeepsView(s, g, p, counter);
      NextElsewhere(w, OpRelease(p), base, p);
      NextIsSoundAt(w, OpRelease(p), base, p);
      SameLook(s, Released(s, p), g, w, w.Next(OpRelease(p), base), base, p);
    }
  }

  lemma EditRefines(s: State, counter: nat, g: Generator, w: World, base: Generator, p: ChunkPosition, e: Edit)
    requires Consistent(s) && Stamped(s, counter) && Refines(s, g, w, base)
    ensures OwnersOf(s, p) == 0 ==> w.Next(OpEdit(p, e), base) == w
    ensures OwnersOf(s, p) > 0 ==> Refines(Edited(s, p, e), g, w.Next(OpEdit(p, e), base), base)
  {
    assert LooksAlike(s, g, w, base, p);
    if OwnersOf(s, p) > 0 {
      EditedChangesView(s, g, p, e, counter);
      NextElsewhere(w, OpEdit(p, e), base, p);
      NextIsSoundAt(w, OpEdit(p, e), base, p);
      SameLook(s, Edited(s, p, e), g, w, w.Next(OpEdit(p, e), base), base, p);
    }
  }

  /** Dropping a chunk nobody holds stays within what a cache may show. */
  lemma DropRefines(s: State, counter: nat, g: Generator, w: World, base: Generator, p: ChunkPosition)
    requires Consistent(s) && Stamped(s, counter) && Refines(s, g, w, base)
    requires p in s.cache && s.cache[p].owners == 0
    ensures Refines(Dropped(s, p), g, w, base)
  {
    DroppedView(s, g, p, counter);
    assert LooksAlike(s, g, w, base, p);
    ReloadedJustWhenTall(s.cache[p].content);
    SameLook(s, Dropped(s, p), g, w, w, base, p);
  }

  /** An unload that is asked for settles what a chunk shows that was loaded and is not held. */
  lemma UnloadRefines(s: State, counter: nat, g: Generator, w: World, base: Generator, p: ChunkPosition)
    requires Consistent(s) && Stamped(s, counter) && Refines(s, g, w, base)
    ensures
      var s' := if p in s.cache && s.cache[p].owners == 0 then Dropped(s, p) else s;
      Refines(s', g, w.Next(OpUnload(p), base), base)
  {
    assert LooksAlike(s, g, w, base, p);
    if p in s.cache && s.cache[p].owners == 0 {
      DropRefines(s, counter, g, w, base, p);
      DroppedView(s, g, p, counter);
      SettledRefines(Dropped(s, p), g, w, base, p);
    } else {
      SettledRefines(s, g, w, base, p);
    }
  }

  /** A chunk that was loaded and has left is settled. */
  lemma SettledRefines(s: State, g: Generator, w: World, base: Generator, p: ChunkPosition)
    requires Refines(s, g, w, base) && (p !in s.cache || s.cache[p].owners > 0)
    ensures Refines(s, g, w.Next(OpUnload(p), base), base)
  {
    assert LooksAlike(s, g, w, base, p);
    if p in w.held && w.Held(p) == 0 {
      assert Reloaded(View(s, g, p)) in AllReloaded(w.May(base, p));
      NextElsewhere(w, OpUnload(p), base, p);
      UnloadedIsSound(w, base, p);
      SameLook(s, s, g, w, w.Next(OpUnload(p), base), base, p);
    }
  }

  lemma SaveRefines(s: State, g: Generator, w: World, base: Generator)
    requires Refines(s, g, w, base)
    ensures Refines(SavedSome(s, s.cache.Keys), g, w, base)
  {
    SavedSomeKeepsView(s, g, s.cache.Keys);
    forall p
      ensures LooksAlike(SavedSome(s, s.cache.Keys), g, w, base, p)
    {
      assert LooksAlike(s, g, w, base, p);
    }
  }

  /** A height that was kept under the last handle survives the drop just when the world keeps it. */
  lemma LastReleaseDecides(s: State, counter: nat, g: Generator, w: World, base: Generator, p: ChunkPosition, k: nat)
    requires Consistent(s) && Stamped(s, counter) && Refines(s, g, w, base)
    requires k < Chunks.COLUMNS && OwnersOf(s, p) == 1 && w.Kept(base, p, k)
    ensures View(Dropped(Released(s, p), p), g, p).heights[k] == w.At(base, p).heights[k] <==>
            w.Next(OpRelease(p), base).Kept(base, p, k)
  {
    assert LooksAlike(s, g, w, base, p);
    ReleasedKeepsView(s, g, p, counter);
    DroppedView(Released(s, p), g, p, counter);
    KeptByLastRelease(w, base, p, k);
  }

  // ---------------------------------------------------------------------------------------
  // Everything the world allows is shown
  // ---------------------------------------------------------------------------------------

  /** One operation on a cache with room for everything. */
  ghost function Step(s: State, g: Generator, stamp: nat, op: Op, brought: Chunk): State {
    match op
    case OpLoad(p) => Fetched(s, g, p, stamp, brought)
    case OpRelease(p) => if OwnersOf(s, p) > 0 then Released(s, p) else s
    case OpEdit(p, e) => if OwnersOf(s, p) > 0 then Edited(s, p, e) else s
    case OpUnload(p) => if p in s.cache && s.cache[p].owners == 0 then Dropped(s, p) else s
    case OpUnloadUnused => s
    case OpSaveDirty => SavedSome(s, s.cache.Keys)
  }

  /** What loading and evicting do to it when its limit is not reached. */
  lemma RoomIsEnough(s: State, g: Generator, limit: nat, stamp: nat, p: ChunkPosition, brought: Chunk)
    requires |s.cache| < limit
    ensures Loaded(s, g, limit, p, stamp, brought) == Step(s, g, stamp, OpLoad(p), brought)
    ensures Evicted(s, limit) == Step(s, g, stamp, OpUnloadUnused, brought)
  {
    FetchedSize(s, g, p, stamp, brought);
  }

  lemma FetchedSize(s: State, g: Generator, p: ChunkPosition, stamp: nat, brought: Chunk)
    ensures |Fetched(s, g, p, stamp, brought).cache| <= |s.cache| + 1
  {
    assert Fetched(s, g, p, stamp, brought).cache.Keys == s.cache.Keys + {p};
  }

  lemma KeysKept(s: State, g: Generator, stamp: nat, op: Op, brought: Chunk)
    requires !op.OpLoad?
    ensures Step(s, g, stamp, op, brought).cache.Keys <= s.cache.Keys
  {
  }

  lemma StepSize(s: State, g: Generator, stamp: nat, op: Op, brought: Chunk)
    ensures |Step(s, g, stamp, op, brought).cache| <= |s.cache| + 1
  {
    if op.OpLoad? {
      FetchedSize(s, g, op.p, stamp, brought);
    } else {
      KeysKept(s, g, stamp, op, brought);
      Fewer(Step(s, g, stamp, op, brought).cache, s.cache);
    }
  }

  lemma Fewer<K, V>(a: map<K, V>, b: map<K, V>)
    requires a.Keys <= b.Keys
    ensures |a| <= |b|
  {
    assert a.Keys + (b.Keys - a.Keys) == b.Keys;
  }

  lemma StepRefines(s: State, counter: nat, g: Generator, w: World, base: Generator, op: Op, c: Chunk)
    requires Consistent(s) && Stamped(s, counter) && Refines(s, g, w, base)
    ensures Refines(Step(s, g, counter + 1, op, c), g, w.Next(op, base), base)
  {
    match op
    case OpLoad(p) => FetchRefines(s, counter, g, w, base, p, c);
    case OpRelease(p) => ReleaseRefines(s, counter, g, w, base, p);
    case OpEdit(p, e) => EditRefines(s, counter, g, w, base, p, e);
    case OpUnload(p) => UnloadRefines(s, counter, g, w, base, p);
    case OpUnloadUnused =>
    case OpSaveDirty => SaveRefines(s, g, w, base);
  }

  lemma StepIsConsistent(s: State, g: Generator, counter: nat, op: Op, c: Chunk)
    requires s.hasStorage && Consistent(s) && Stamped(s, counter)
    ensures Consistent(Step(s, g, counter + 1, op, c)) && Stamped(Step(s, g, counter + 1, op, c), counter + 1)
  {
    StampedLater(s, counter);
    match op
    case OpLoad(p) => FetchedKeepsView(s, g, p, counter, c);
    case OpRelease(p) =>
      if OwnersOf(s, p) > 0 {
        ReleasedKeepsView(s, g, p, counter + 1);
      }
    case OpEdit(p, e) =>
      if OwnersOf(s, p) > 0 {
        EditedChangesView(s, g, p, e, counter + 1);
      }
    case OpUnload(p) =>
      if p in s.cache {
        DroppedKeepsSync(s, p, counter + 1);
      }
    case OpUnloadUnused =>
    case OpSaveDirty => SavedSomeKeepsSync(s, counter + 1);
  }

  lemma StampedLater(s: State, counter: nat)
    requires Stamped(s, counter)
    ensures Stamped(s, counter + 1)
  {
    forall p, q | p in s.cache && q in s.cache
      ensures StampsApart(s, counter + 1, p, q)
    {
      assert StampsApart(s, counter, p, q);
    }
  }

  lemma SavedSomeKeepsSync(s: State, counter: nat)
    requires s.hasStorage && Consistent(s) && Stamped(s, counter)
    ensures Consistent(SavedSome(s, s.cache.Keys)) && Stamped(SavedSome(s, s.cache.Keys), counter)
  {
    var s' := SavedSome(s, s.cache.Keys);
    forall p | p in s'.cache
      ensures InSync(s', p)
    {
      assert InSync(s, p);
    }
    SyncTransfer(s, s', counter, s.cache.Keys);
  }

  /** What a step makes of a view. */
  ghost function Viewed(c: Content, s: State, p: ChunkPosition, op: Op): Content {
    if op.OpEdit? && op.p == p && OwnersOf(s, p) > 0 then Outcome(c, op.e)
    else if op == OpUnload(p) && p in s.cache && s.cache[p].owners == 0 then Reloaded(c)
    else c
  }

  lemma StepView(s: State, g: Generator, counter: nat, op: Op, brought: Chunk, p: ChunkPosition)
    requires s.hasStorage && Consistent(s) && Stamped(s, counter)
    ensures View(Step(s, g, counter + 1, op, brought), g, p) == Viewed(View(s, g, p), s, p, op)
  {
    match op
    case OpLoad(q) => FetchedKeepsView(s, g, q, counter, brought);
    case OpRelease(q) =>
      if OwnersOf(s, q) > 0 {
        ReleasedKeepsView(s, g, q, counter);
      }
    case OpEdit(q, e) =>
      if OwnersOf(s, q) > 0 {
        EditedChangesView(s, g, q, e, counter);
      }
    case OpUnload(q) =>
      if q in s.cache {
        DroppedView(s, g, q, counter);
      }
    case OpUnloadUnused =>
    case OpSaveDirty => SavedSomeKeepsView(s, g, s.cache.Keys);
  }

  ghost function RunOn(s: State, g: Generator, ops: seq<Op>, brought: Chunk): State {
    if ops == [] then s else Step(RunOn(s, g, ops[..|ops| - 1], brought), g, |ops|, ops[|ops| - 1], brought)
  }

  lemma RunOnLast(s: State, g: Generator, ops: seq<Op>, op: Op, brought: Chunk)
    ensures RunOn(s, g, ops + [op], brought) == Step(RunOn(s, g, ops, brought), g, |ops| + 1, op, brought)
  {
    assert (ops + [op])[..|ops|] == ops;
  }

  /** The run `plan` is `ops` with some more unloads of `p` in it. */
  ghost predicate Woven(ops: seq<Op>, plan: seq<Op>, p: ChunkPosition)
    decreases |plan|
  {
    if plan == [] then ops == []
    else
      var last, done := plan[|plan| - 1], plan[..|plan| - 1];
      || (ops != [] && ops[|ops| - 1] == last && Woven(ops[..|ops| - 1], done, p))
      || (last == OpUnload(p) && Woven(ops, done, p))
  }

  lemma WovenLast(ops: seq<Op>, plan: seq<Op>, p: ChunkPosition, op: Op)
    requires Woven(ops, plan, p)
    ensures Woven(ops + [op], plan + [op], p)
    ensures op == OpUnload(p) ==> Woven(ops, plan + [op], p)
  {
    assert (ops + [op])[..|ops|] == ops && (plan + [op])[..|plan|] == plan;
  }

  /** A new manager, and one in which a chunk has been loaded and let go: in both, nothing is held and
      everything looks as generated. */
  ghost function Cold(): State {
    State(true, map[], map[])
  }

  ghost function Warm(g: Generator, p: ChunkPosition, brought: Chunk): State {
    State(true, map[p := Slot(brought, g(p), false, 0, 0)], map[p := g(p)])
  }

  ghost predicate InStep(s: State, g: Generator, counter: nat, w: World) {
    Consistent(s) && Stamped(s, counter) && Refines(s, g, w, g)
  }

  lemma BothBegin(g: Generator, p: ChunkPosition, brought: Chunk)
    ensures InStep(Cold(), g, 0, NEW_WORLD) && InStep(Warm(g, p, brought), g, 0, NEW_WORLD)
  {
    forall q
      ensures LooksAlike(Cold(), g, NEW_WORLD, g, q) && LooksAlike(Warm(g, p, brought), g, NEW_WORLD, g, q)
    {
      NewIsSound(g, q);
    }
  }

  lemma StepInStep(s: State, g: Generator, counter: nat, w: World, op: Op, brought: Chunk)
    requires InStep(s, g, counter, w)
    ensures InStep(Step(s, g, counter + 1, op, brought), g, counter + 1, w.Next(op, g))
  {
    StepRefines(s, counter, g, w, g, op, brought);
    StepIsConsistent(s, g, counter, op, brought);
  }

  /** A drop that the run does not ask for. */
  lemma DropInStep(s: State, g: Generator, counter: nat, w: World, p: ChunkPosition, brought: Chunk)
    requires InStep(s, g, counter, w)
    ensures InStep(Step(s, g, counter + 1, OpUnload(p), brought), g, counter + 1, w)
  {
    StepIsConsistent(s, g, counter, OpUnload(p), brought);
    if p in s.cache && s.cache[p].owners == 0 {
      DropRefines(s, counter, g, w, g, p);
    }
  }

  /** Whenever the chunk is dropped in a run, the cache looks as the world allows. */
  lemma {:induction false} PlanInStep(s: State, g: Generator, ops: seq<Op>, plan: seq<Op>, p: ChunkPosition,
                                      brought: Chunk)
    requires InStep(s, g, 0, NEW_WORLD) && Woven(ops, plan, p)
    ensures InStep(RunOn(s, g, plan, brought), g, |plan|, After(ops, g))
    decreases |plan|
  {
    if plan != [] {
      var n := |plan| - 1;
      if ops != [] && ops[|ops| - 1] == plan[n] && Woven(ops[..|ops| - 1], plan[..n], p) {
        var before := ops[..|ops| - 1];
        PlanInStep(s, g, before, plan[..n], p, brought);
        StepInStep(RunOn(s, g, plan[..n], brought), g, n, After(before, g), plan[n], brought);
      } else {
        PlanInStep(s, g, ops, plan[..n], p, brought);
        DropInStep(RunOn(s, g, plan[..n], brought), g, n, After(ops, g), p, brought);
      }
    }
  }

  /** A cache in step with the world that shows `c` and has loaded the chunk only for the run. */
  ghost predicate Reached(s: State, g: Generator, n: nat, w: World, p: ChunkPosition, c: Content) {
    InStep(s, g, n, w) && View(s, g, p) == c && (p in s.cache ==> p in w.held) && |s.cache| <= n + 1
  }

  /** What an operation makes of one of the contents the world allows. */
  ghost function Moved(w: World, p: ChunkPosition, op: Op, c: Content): Content {
    if op.OpEdit? && op.p == p && w.Held(p) > 0 then Outcome(c, op.e)
    else if op == OpUnload(p) && p in w.held && w.Held(p) == 0 then Reloaded(c)
    else c
  }

  lemma StepReaches(s: State, g: Generator, n: nat, w: World, p: ChunkPosition, c: Content, op: Op, brought: Chunk)
    requires Reached(s, g, n, w, p, c)
    ensures Reached(Step(s, g, n + 1, op, brought), g, n + 1, w.Next(op, g), p, Moved(w, p, op, c))
  {
    assert LooksAlike(s, g, w, g, p);
    StepInStep(s, g, n, w, op, brought);
    StepView(s, g, n, op, brought, p);
    StepSize(s, g, n + 1, op, brought);
    if op != OpLoad(p) {
      StaysAway(s, g, n + 1, op, brought, p);
    }
  }

  lemma StaysAway(s: State, g: Generator, stamp: nat, op: Op, brought: Chunk, p: ChunkPosition)
    requires op != OpLoad(p)
    ensures p in Step(s, g, stamp, op, brought).cache ==> p in s.cache
  {
  }

  lemma DropReaches(s: State, g: Generator, n: nat, w: World, p: ChunkPosition, c: Content, brought: Chunk)
    requires Reached(s, g, n, w, p, c) && p in w.held && w.Held(p) == 0
    ensures Reached(Step(s, g, n + 1, OpUnload(p), brought), g, n + 1, w, p, Reloaded(c))
  {
    assert LooksAlike(s, g, w, g, p);
    DropInStep(s, g, n, w, p, brought);
    StepView(s, g, n, OpUnload(p), brought, p);
    StepSize(s, g, n + 1, OpUnload(p), brought);
  }

  /** The content from which the last operation makes `c`, and whether the chunk is then dropped. */
  lemma Predecessor(w: World, op: Op, g: Generator, p: ChunkPosition, c: Content) returns (c0: Content, drop: bool)
    requires c in w.Next(op, g).May(g, p)
    ensures c0 in w.May(g, p) && (drop ==> op == OpRelease(p) && w.Held(p) == 1)
    ensures c == if drop then Reloaded(c0) else Moved(w, p, op, c0)
  {
    drop := false;
    if op.OpEdit? && op.p == p && w.Held(p) > 0 {
      c0 :| c0 in w.May(g, p) && c == Outcome(c0, op.e);
    } else if op == OpUnload(p) && p in w.held && w.Held(p) == 0 {
      c0 :| c0 in w.May(g, p) && c == Reloaded(c0);
    } else if c in w.May(g, p) {
      c0 := c;
    } else {
      drop := true;
      c0 :| c0 in w.May(g, p) && c == Reloaded(c0);
    }
  }

  lemma BeginReaches(g: Generator, p: ChunkPosition, c: Content, brought: Chunk) returns (s: State, plan: seq<Op>)
    requires c in NEW_WORLD.May(g, p)
    ensures (s == Cold() || s == Warm(g, p, brought)) && (plan == [] || plan == [OpUnload(p)])
    ensures Reached(RunOn(s, g, plan, brought), g, |plan|, NEW_WORLD, p, c)
  {
    BothBegin(g, p, brought);
    if c == g(p) {
      s, plan := Cold(), [];
    } else {
      s, plan := Warm(g, p, brought), [OpUnload(p)];
      RunOnLast(s, g, [], OpUnload(p), brought);
      DropInStep(s, g, 0, NEW_WORLD, p, brought);
      StepView(s, g, 0, OpUnload(p), brought, p);
      StepSize(s, g, 1, OpUnload(p), brought);
    }
  }

  lemma StepOn(s: State, g: Generator, w: World, plan: seq<Op>, p: ChunkPosition, c: Content, op: Op, brought: Chunk)
    requires Reached(RunOn(s, g, plan, brought), g, |plan|, w, p, c)
    ensures Reached(RunOn(s, g, plan + [op], brought), g, |plan| + 1, w.Next(op, g), p, Moved(w, p, op, c))
  {
    RunOnLast(s, g, plan, op, brought);
    StepReaches(RunOn(s, g, plan, brought), g, |plan|, w, p, c, op, brought);
  }

  lemma DropOn(s: State, g: Generator, w: World, plan: seq<Op>, p: ChunkPosition, c: Content, brought: Chunk)
    requires Reached(RunOn(s, g, plan, brought), g, |plan|, w, p, c) && p in w.held && w.Held(p) == 0
    ensures Reached(RunOn(s, g, plan + [OpUnload(p)], brought), g, |plan| + 1, w, p, Reloaded(c))
  {
    RunOnLast(s, g, plan, OpUnload(p), brought);
    DropReaches(RunOn(s, g, plan, brought), g, |plan|, w, p, c, brought);
  }

  /** Every content the world allows after a run is shown by some cache with room for everything, in which
      the chunk is dropped at the right moments. */
  lemma {:induction false} MayIsReached(ops: seq<Op>, g: Generator, p: ChunkPosition, c: Content, brought: Chunk)
    returns (s: State, plan: seq<Op>)
    requires c in After(ops, g).May(g, p)
    ensures s == Cold() || s == Warm(g, p, brought)
    ensures Woven(ops, plan, p)
    ensures Reached(RunOn(s, g, plan, brought), g, |plan|, After(ops, g), p, c)
  {
    if ops == [] {
      s, plan := BeginReaches(g, p, c, brought);
      assert Woven(ops, [], p);
    } else {
      var before, op := ops[..|ops| - 1], ops[|ops| - 1];
      assert ops == before + [op];
      var w := After(before, g);
      var c0, drop := Predecessor(w, op, g, p, c);
      s, plan := MayIsReached(before, g, p, c0, brought);
      StepOn(s, g, w, plan, p, c0, op, brought);
      WovenLast(before, plan, p, op);
      plan := plan + [op];
      if drop {
        DropOn(s, g, After(ops, g), plan, p, c0, brought);
        WovenLast(ops, plan, p, OpUnload(p));
        plan := plan + [OpUnload(p)];
      }
    }
  }

  /** A height is kept just when every such cache shows it: here is one that decides. */
  lemma KeptJustWhenShown(ops: seq<Op>, g: Generator, p: ChunkPosition, k: nat, brought: Chunk)
    returns (s: State, plan: seq<Op>)
    requires k < Chunks.COLUMNS
    ensures (s == Cold() || s == Warm(g, p, brought)) && Woven(ops, plan, p)
    ensures After(ops, g).Kept(g, p, k) <==>
            View(RunOn(s, g, plan, brought), g, p).heights[k] == After(ops, g).At(g, p).heights[k]
  {
    var w := After(ops, g);
    AfterIsSound(ops, g);
    assert w.Sound(g, p);
    var c :| c in w.May(g, p) && (w.Kept(g, p, k) || c.heights[k] != w.At(g, p).heights[k]);
    s, plan := MayIsReached(ops, g, p, c, brought);
  }

  // ---------------------------------------------------------------------------------------
  // The program
  // ---------------------------------------------------------------------------------------

  /** One operation on the manager does what it does to the world. */
  method Apply(m: ChunkManager, op: Op, ghost w: World, ghost base: Generator) returns (seen: Option<Content>)
    requires m.Valid() && Refines(m.Now(), m.generator, w, base)
    modifies m, m.issued
    ensures m.issued >= old(m.issued) && fresh(m.issued - old(m.issued))
    ensures m.Valid() && Refines(m.Now(), m.generator, w.Next(op, base), base)
    ensures seen.Some? == op.OpLoad?
    ensures op.OpLoad? ==> Shows(seen.value, SightOf(w, base, op.p))
  {
    match op
    case OpLoad(p) =>
      var content := LoadContent(m, p, w, base);
      seen := Some(content);
    case _ =>
      ApplyUnseen(m, op, w, base);
      seen := None;
  }

  method LoadContent(m: ChunkManager, p: ChunkPosition, ghost w: World, ghost base: Generator)
    returns (content: Content)
    requires m.Valid() && Refines(m.Now(), m.generator, w, base)
    modifies m, m.issued
    ensures m.issued >= old(m.issued) && fresh(m.issued - old(m.issued))
    ensures m.Valid() && Refines(m.Now(), m.generator, w.Next(OpLoad(p), base), base)
    ensures Shows(content, SightOf(w, base, p))
  {
    ghost var s, counter := m.Now(), m.accessCounter;
    var c := m.Load(p);
    content := c.content;
    LoadRefines(s, m.limit, counter, m.generator, w, base, p, c, m.Now());
  }

  /** The operations that show nothing. */
  method ApplyUnseen(m: ChunkManager, op: Op, ghost w: World, ghost base: Generator)
    requires m.Valid() && Refines(m.Now(), m.generator, w, base) && !op.OpLoad?
    modifies m`chunks, m`stored, m.issued
    ensures m.Valid() && Refines(m.Now(), m.generator, w.Next(op, base), base)
  {
    ghost var s, counter := m.Now(), m.accessCounter;
    match op
    case OpRelease(p) =>
      ReleaseRefines(s, counter, m.generator, w, base, p);
      if p in m.chunks && m.chunks[p].chunk.owners > 0 {
        m.Release(m.chunks[p].chunk);
      }
    case OpEdit(p, e) =>
      EditRefines(s, counter, m.generator, w, base, p, e);
      if p in m.chunks && m.chunks[p].chunk.owners > 0 {
        var _ := m.Perform(m.chunks[p].chunk, e);
      }
    case OpUnload(p) =>
      UnloadRefines(s, counter, m.generator, w, base, p);
      var _ := m.Unload(p);
    case OpUnloadUnused =>
      EvictionRefines(s, m.limit, counter, m.generator, w, base);
      m.UnloadUnused();
    case OpSaveDirty =>
      SaveRefines(s, m.generator, w, base);
      var _ := m.SaveDirty();
  }

  /** Any run over a manager with storage shows its callers the blocks and biomes that a map that never
      evicts would, and every height that is kept. */
  method Run(m: ChunkManager, ops: seq<Op>, ghost base: Generator) returns (seen: seq<Content>)
    requires m.Valid() && m.hasStorage
    requires forall p :: View(m.Now(), m.generator, p) == base(p) && OwnersOf(m.Now(), p) == 0
    modifies m, m.issued
    ensures m.Valid() && AllShow(seen, Seen(ops, NEW_WORLD, base))
  {
    seen := [];
    ghost var w, sights := NEW_WORLD, [];
    NewRefines(m.Now(), m.generator, base);
    for i := 0 to |ops|
      invariant m.Valid() && Refines(m.Now(), m.generator, w, base)
      invariant m.issued >= old(m.issued) && fresh(m.issued - old(m.issued))
      invariant AllShow(seen, sights) && sights + Seen(ops[i..], w, base) == Seen(ops, NEW_WORLD, base)
    {
      SeenNext(ops, i, w, base, sights);
      var content := Apply(m, ops[i], w, base);
      if content.Some? {
        sights := sights + [SightOf(w, base, ops[i].p)];
        seen := seen + [content.value];
      }
      w := w.Next(ops[i], base);
    }
  }

  lemma NewRefines(s: State, g: Generator, base: Generator)
    requires s.hasStorage && forall p :: View(s, g, p) == base(p) && OwnersOf(s, p) == 0
    ensures Refines(s, g, NEW_WORLD, base)
  {
    forall p
      ensures LooksAlike(s, g, NEW_WORLD, base, p)
    {
      assert View(s, g, p) == base(p) && OwnersOf(s, p) == 0;
      NewIsSound(base, p);
    }
  }
}
