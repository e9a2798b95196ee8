/** The chunk cache: `ChunkManager`, a bounded LRU cache with pinned entries and dirty write-back
    over persistent storage.

    A `shared_ptr` to a chunk is a `Chunk` reference; `owners` counts the pointers held outside the
    cache, so `use_count() == 1` in the cache reads `owners == 0`. */
module ChunkCache {

  import opened ChunkEdits
  import opened Wrappers
  import Blocks
  import Chunks

  type ChunkPosition = Chunks.ChunkPosition

  type Generator = ChunkPosition -> Content

  class Chunk {
    const position: ChunkPosition
    var content: Content
    var dirty: bool
    var owners: nat

    constructor (position: ChunkPosition, content: Content)
      ensures this.position == position && this.content == content && !dirty && owners == 1
    {
      this.position, this.content, dirty, owners := position, content, false, 1;
    }
  }

  // ---------------------------------------------------------------------------------------
  // The state of a manager as a value
  // ---------------------------------------------------------------------------------------

  datatype Slot = Slot(chunk: Chunk, content: Content, dirty: bool, owners: nat, lastAccess: nat)

  /** `stored` holds the contents that were saved; a read gives them back `Reloaded`. */
  datatype State = State(hasStorage: bool, cache: map<ChunkPosition, Slot>, stored: map<ChunkPosition, Content>)

  /** The content a caller finds at `p`. */
  ghost function View(s: State, g: Generator, p: ChunkPosition): Content {
    if p in s.cache then s.cache[p].content else if p in s.stored then Reloaded(s.stored[p]) else g(p)
  }

  /** A clean cached chunk reads back like its stored copy.  The two need not be equal: an edit can
      change a height without marking the chunk (`UnmarkedChanges`). */
  ghost predicate InSync(s: State, p: ChunkPosition)
    requires p in s.cache
  {
    !s.cache[p].dirty ==> p in s.stored && Reloaded(s.stored[p]) == Reloaded(s.cache[p].content)
  }

  ghost predicate Consistent(s: State) {
    && (s.hasStorage ==> forall p {:trigger InSync(s, p)} :: p in s.cache ==> InSync(s, p))
    && (!s.hasStorage ==> s.stored == map[])
  }

  ghost predicate StampsApart(s: State, counter: nat, p: ChunkPosition, q: ChunkPosition)
    requires p in s.cache && q in s.cache
  {
    s.cache[p].lastAccess <= counter && (p != q ==> s.cache[p].lastAccess != s.cache[q].lastAccess)
  }

  /** Access stamps are distinct and no later than the counter. */
  ghost predicate Stamped(s: State, counter: nat) {
    forall p, q {:trigger StampsApart(s, counter, p, q)} :: p in s.cache && q in s.cache ==>
        StampsApart(s, counter, p, q)
  }

  ghost function Saved(s: State, p: ChunkPosition): State
    requires p in s.cache
  {
    if s.hasStorage && s.cache[p].dirty then
      s.(stored := s.stored[p := s.cache[p].content], cache := s.cache[p := s.cache[p].(dirty := false)])
    else s
  }

  ghost function Dropped(s: State, p: ChunkPosition): State
    requires p in s.cache
  {
    var saved := Saved(s, p);
    saved.(cache := saved.cache - {p})
  }

  /** Unpinned and used less recently than every other unpinned entry. */
  ghost predicate LeastRecent(s: State, p: ChunkPosition) {
    && p in s.cache && s.cache[p].owners == 0
    && forall q :: q in s.cache && s.cache[q].owners == 0 && q != p ==> s.cache[p].lastAccess < s.cache[q].lastAccess
  }

  ghost predicate Evictable(s: State) {
    exists p :: LeastRecent(s, p)
  }

  ghost function Victim(s: State): (p: ChunkPosition)
    requires Evictable(s)
    ensures LeastRecent(s, p)
  {
    var p :| LeastRecent(s, p);
    p
  }

  /** Evictions as `evict_to_limit` makes them, one least recently used entry after the other. */
  ghost function Evicted(s: State, limit: nat): State
    decreases |s.cache|
  {
    if |s.cache| > limit && Evictable(s) then Evicted(Dropped(s, Victim(s)), limit) else s
  }

  lemma SavedKeepsView(s: State, g: Generator, p: ChunkPosition, counter: nat)
    requires p in s.cache && Consistent(s) && Stamped(s, counter)
    ensures Consistent(Saved(s, p)) && Stamped(Saved(s, p), counter)
    ensures forall q :: View(Saved(s, p), g, q) == View(s, g, q)
  {
    SyncTransfer(s, Saved(s, p), counter, {p});
  }

  /** Dropping a chunk shows the others as they were.  It shows itself as storage gives it back: as it
      was just when it is tall. */
  lemma DroppedView(s: State, g: Generator, p: ChunkPosition, counter: nat)
    requires p in s.cache && Consistent(s) && Stamped(s, counter)
    ensures forall q :: q != p ==> View(Dropped(s, p), g, q) == View(s, g, q)
    ensures View(Dropped(s, p), g, p) == Left(s, g, p)
    ensures s.hasStorage ==> (View(Dropped(s, p), g, p) == View(s, g, p) <==> Tall(View(s, g, p)))
  {
    assert InSync(s, p) || !s.hasStorage;
    ReloadedJustWhenTall(s.cache[p].content);
  }

  /** What is found where a cached chunk was. */
  ghost function Left(s: State, g: Generator, p: ChunkPosition): Content
    requires p in s.cache
  {
    if s.hasStorage then Reloaded(s.cache[p].content) else g(p)
  }

  lemma DroppedKeepsSync(s: State, p: ChunkPosition, counter: nat)
    requires p in s.cache && Consistent(s) && Stamped(s, counter)
    ensures Consistent(Dropped(s, p)) && Stamped(Dropped(s, p), counter)
  {
    assert InSync(s, p) || !s.hasStorage;
    SyncTransfer(s, Dropped(s, p), counter, {});
  }

  /** Entries other than `changed` that keep content, dirt and stored copy stay in sync. */
  lemma SyncTransfer(s: State, s': State, counter: nat, changed: set<ChunkPosition>)
    requires Consistent(s) && Stamped(s, counter)
    requires s'.hasStorage == s.hasStorage && (!s.hasStorage ==> s'.stored == map[])
    requires s'.cache.Keys <= s.cache.Keys
    requires forall p :: p in s'.cache ==> s'.cache[p].lastAccess == s.cache[p].lastAccess
    requires forall p :: p in s'.cache && p !in changed ==>
      && s'.cache[p].dirty == s.cache[p].dirty && s'.cache[p].content == s.cache[p].content
      && (p in s.stored ==> p in s'.stored && s'.stored[p] == s.stored[p])
    requires forall p :: p in changed && p in s'.cache && s.hasStorage ==> InSync(s', p)
    ensures Consistent(s') && Stamped(s', counter)
  {
    forall p | p in s'.cache && s'.hasStorage
      ensures InSync(s', p)
    {
      assert InSync(s, p);
    }
    forall p, q | p in s'.cache && q in s'.cache
      ensures StampsApart(s', counter, p, q)
    {
      assert StampsApart(s, counter, p, q);
    }
  }

  /** Eviction shows a chunk that left as storage gives it back, or without storage as generated; it
      shows all others as they were. */
  lemma {:induction false} EvictionKeepsView(s: State, g: Generator, limit: nat, counter: nat, q: ChunkPosition)
    requires Consistent(s) && Stamped(s, counter)
    ensures Consistent(Evicted(s, limit)) && Stamped(Evicted(s, limit), counter)
    ensures Evicted(s, limit).hasStorage == s.hasStorage
    ensures View(Evicted(s, limit), g, q) ==
            if q in Evicted(s, limit).cache || q !in s.cache then View(s, g, q) else Left(s, g, q)
    decreases |s.cache|
  {
    if |s.cache| > limit && Evictable(s) {
      var p := Victim(s);
      DroppedView(s, g, p, counter);
      DroppedKeepsSync(s, p, counter);
      DropShrinks(s, p);
      EvictionKeepsView(Dropped(s, p), g, limit, counter, q);
      EvictedSubset(Dropped(s, p), limit);
    }
  }

  lemma DropShrinks(s: State, p: ChunkPosition)
    requires p in s.cache
    ensures |Dropped(s, p).cache| == |s.cache| - 1
  {
    assert s.cache.Keys == (s.cache - {p}).Keys + {p};
  }

  /** Remaining entries are untouched, pinned entries remain, and none is evicted below the limit. */
  lemma {:induction false} EvictedSubset(s: State, limit: nat)
    ensures Evicted(s, limit).cache.Keys <= s.cache.Keys
    ensures forall p :: p in Evicted(s, limit).cache ==> Evicted(s, limit).cache[p] == s.cache[p]
    ensures forall p :: p in s.cache && s.cache[p].owners > 0 ==> p in Evicted(s, limit).cache
    ensures |Evicted(s, limit).cache| >= limit || Evicted(s, limit) == s
    decreases |s.cache|
  {
    if |s.cache| > limit && Evictable(s) {
      var p := Victim(s);
      DropShrinks(s, p);
      EvictedSubset(Dropped(s, p), limit);
    }
  }

  /** Eviction follows recency: whoever left was used before any unpinned entry that stayed. */
  lemma {:induction false} EvictionIsLeastRecentlyUsed(s: State, limit: nat, p: ChunkPosition, q: ChunkPosition)
    requires p in s.cache && p !in Evicted(s, limit).cache
    requires q in Evicted(s, limit).cache && Evicted(s, limit).cache[q].owners == 0
    ensures q in s.cache && s.cache[p].lastAccess < s.cache[q].lastAccess
    decreases |s.cache|
  {
    EvictedSubset(s, limit);
    var r := Victim(s);
    EvictedSubset(Dropped(s, r), limit);
    if p != r {
      DropShrinks(s, r);
      EvictionIsLeastRecentlyUsed(Dropped(s, r), limit, p, q);
    }
  }

  /** Afterwards the size is within the limit unless every remaining entry is pinned. */
  lemma {:induction false} EvictionMeetsLimit(s: State, limit: nat, counter: nat)
    requires Consistent(s) && Stamped(s, counter)
    ensures |Evicted(s, limit).cache| <= limit ||
            forall p :: p in Evicted(s, limit).cache ==> Evicted(s, limit).cache[p].owners > 0
    decreases |s.cache|
  {
    if |s.cache| > limit {
      if Evictable(s) {
        var p := Victim(s);
        DroppedKeepsSync(s, p, counter);
        DropShrinks(s, p);
        EvictionMeetsLimit(Dropped(s, p), limit, counter);
        assert Evicted(s, limit) == Evicted(Dropped(s, p), limit);
      } else {
        AllPinned(s, counter);
      }
    }
  }

  /** Who leaves was used before every unpinned entry that stays, and the limit is kept but for pinned ones. */
  ghost predicate EvictedApart(s: State, limit: nat) {
    var left := Evicted(s, limit).cache;
    && (forall p, q :: p in s.cache && p !in left && q in left && left[q].owners == 0 ==>
          s.cache[p].lastAccess < left[q].lastAccess)
    && (|left| <= limit || forall p :: p in left ==> left[p].owners > 0)
  }

  lemma EvictedKeys(s: State, limit: nat, counter: nat)
    requires Consistent(s) && Stamped(s, counter)
    ensures Evicted(s, limit).cache.Keys <= s.cache.Keys && EvictedApart(s, limit)
  {
    EvictedSubset(s, limit);
    EvictionMeetsLimit(s, limit, counter);
    forall p, q | p in s.cache && p !in Evicted(s, limit).cache && q in Evicted(s, limit).cache &&
                  Evicted(s, limit).cache[q].owners == 0
      ensures s.cache[p].lastAccess < Evicted(s, limit).cache[q].lastAccess
    {
      EvictionIsLeastRecentlyUsed(s, limit, p, q);
    }
  }

  /** Among unpinned entries with distinct stamps there is a least recent one. */
  lemma AllPinned(s: State, counter: nat)
    requires Stamped(s, counter) && !Evictable(s)
    ensures forall p :: p in s.cache ==> s.cache[p].owners > 0
  {
    forall p | p in s.cache
      ensures s.cache[p].owners > 0
    {
      if s.cache[p].owners == 0 {
        LeastRecentExists(s, counter, {}, p);
      }
    }
  }

  lemma {:induction false} LeastRecentExists(s: State, counter: nat, seen: set<ChunkPosition>, p: ChunkPosition)
    requires Stamped(s, counter) && seen <= s.cache.Keys
    requires p in s.cache && s.cache[p].owners == 0 && p !in seen
    requires forall q :: q in seen ==> s.cache[p].lastAccess < s.cache[q].lastAccess
    ensures exists r :: LeastRecent(s, r)
    decreases s.cache.Keys - seen
  {
    if q :| q in s.cache && s.cache[q].owners == 0 && q != p && s.cache[q].lastAccess <= s.cache[p].lastAccess {
      assert StampsApart(s, counter, q, p);
      LeastRecentExists(s, counter, seen + {p}, q);
    } else {
      assert LeastRecent(s, p);
    }
  }

  lemma SameSize<K, V, W>(a: map<K, V>, b: map<K, W>)
    requires a.Keys == b.Keys
    ensures |a| == |b|
  {
    assert |a.Keys| == |b.Keys|;
  }

  lemma SmallerWithout<K, V>(a: map<K, V>, k: K)
    requires k in a
    ensures |a - {k}| < |a|
  {
    assert a.Keys == (a - {k}).Keys + {k};
  }

  lemma LeastRecentUnique(s: State, p: ChunkPosition, q: ChunkPosition)
    requires LeastRecent(s, p) && LeastRecent(s, q)
    ensures p == q
  {
  }

  /** What loading `p` makes of a state, before eviction. */
  ghost function Fetched(s: State, g: Generator, p: ChunkPosition, stamp: nat, brought: Chunk): State {
    if p in s.cache then
      s.(cache := s.cache[p := s.cache[p].(owners := s.cache[p].owners + 1, lastAccess := stamp)])
    else
      s.(cache := s.cache[p := Slot(brought, View(s, g, p), false, 1, stamp)],
         stored := if s.hasStorage && p !in s.stored then s.stored[p := g(p)] else s.stored)
  }

  /** A miss is followed by eviction. */
  ghost function Loaded(s: State, g: Generator, limit: nat, p: ChunkPosition, stamp: nat, brought: Chunk): State {
    if p in s.cache then Fetched(s, g, p, stamp, brought) else Evicted(Fetched(s, g, p, stamp, brought), limit)
  }

  ghost function Edited(s: State, p: ChunkPosition, e: Edit): State
    requires p in s.cache
  {
    var slot := s.cache[p];
    s.(cache := s.cache[p := slot.(content := Outcome(slot.content, e), dirty := slot.dirty || Marks(slot.content, e))])
  }

  ghost function Released(s: State, p: ChunkPosition): State
    requires p in s.cache && s.cache[p].owners > 0
  {
    s.(cache := s.cache[p := s.cache[p].(owners := s.cache[p].owners - 1)])
  }

  lemma FetchedKeepsView(s: State, g: Generator, p: ChunkPosition, counter: nat, brought: Chunk)
    requires Consistent(s) && Stamped(s, counter)
    ensures Consistent(Fetched(s, g, p, counter + 1, brought)) &&
        Stamped(Fetched(s, g, p, counter + 1, brought), counter + 1)
    ensures forall q :: View(Fetched(s, g, p, counter + 1, brought), g, q) == View(s, g, q)
  {
    var s' := Fetched(s, g, p, counter + 1, brought);
    forall q | q in s'.cache && s'.hasStorage
      ensures InSync(s', q)
    {
      assert q in s.cache ==> InSync(s, q);
      if q in s.stored {
        ReloadedJustWhenTall(s.stored[q]);
      }
    }
    forall q, r | q in s'.cache && r in s'.cache
      ensures StampsApart(s', counter + 1, q, r)
    {
      assert q in s.cache && r in s.cache ==> StampsApart(s, counter, q, r);
      assert q in s.cache ==> StampsApart(s, counter, q, q);
      assert r in s.cache ==> StampsApart(s, counter, r, r);
    }
  }

  lemma EditedChangesView(s: State, g: Generator, p: ChunkPosition, e: Edit, counter: nat)
    requires p in s.cache && Consistent(s) && Stamped(s, counter)
    ensures Consistent(Edited(s, p, e)) && Stamped(Edited(s, p, e), counter)
    ensures forall q :: View(Edited(s, p, e), g, q) == if q == p then Outcome(View(s, g, p), e) else View(s, g, q)
  {
    if s.hasStorage {
      EditedKeepsSync(s, p, e);
    }
    SyncTransfer(s, Edited(s, p, e), counter, {p});
  }

  lemma EditedKeepsSync(s: State, p: ChunkPosition, e: Edit)
    requires p in s.cache && s.hasStorage && Consistent(s)
    ensures InSync(Edited(s, p, e), p)
  {
    assert InSync(s, p);
    if !Marks(s.cache[p].content, e) {
      UnmarkedKeepsReloaded(s.cache[p].content, e);
    }
  }

  lemma ReleasedKeepsView(s: State, g: Generator, p: ChunkPosition, counter: nat)
    requires p in s.cache && s.cache[p].owners > 0 && Consistent(s) && Stamped(s, counter)
    ensures Consistent(Released(s, p)) && Stamped(Released(s, p), counter)
    ensures forall q :: View(Released(s, p), g, q) == View(s, g, q)
  {
    SyncTransfer(s, Released(s, p), counter, {});
  }

  /** An edit of a tall chunk is still there once its last holder let go and it was unloaded, except for
      a height recorded below the highest block, which comes back as the height of that block. */
  lemma EditSurvivesUnload(s: State, g: Generator, p: ChunkPosition, e: Edit, counter: nat)
    requires Consistent(s) && Stamped(s, counter) && s.hasStorage
    requires p in s.cache && s.cache[p].owners == 1 && Tall(View(s, g, p))
    ensures
      var c, left := View(s, g, p), View(Dropped(Released(Edited(s, p, e), p), p), g, p);
      && (left == Outcome(c, e) <==> !Lowers(c, e))
      && (Lowers(c, e) ==> left.heights[Chunks.Column(e.x, e.z)] ==
                           Chunks.Highest(c.blocks, Chunks.Column(e.x, e.z), Blocks.HEIGHT) > e.h)
  {
    var edited := Edited(s, p, e);
    EditedChangesView(s, g, p, e, counter);
    ReleasedKeepsView(edited, g, p, counter);
    DroppedView(Released(edited, p), g, p, counter);
    TallUnlessLowered(View(s, g, p), e);
  }

  /** A clean chunk equal to its stored copy stays equal to it under an edit that marks nothing, except
      where that places a block that is there above the recorded height. */
  lemma CleanMayDiffer(s: State, p: ChunkPosition, e: Edit)
    requires p in s.cache && p in s.stored && s.stored[p] == s.cache[p].content && !s.cache[p].dirty
    requires !Marks(s.cache[p].content, e)
    ensures
      var c, s' := s.cache[p].content, Edited(s, p, e);
      && !s'.cache[p].dirty
      && (s'.stored[p] == s'.cache[p].content <==>
          !(Accepted(e) && e.b != Blocks.AIR && e.y > c.heights[Chunks.Column(e.x, e.z)]))
  {
    UnmarkedChanges(s.cache[p].content, e);
  }

  lemma EvictStep(s: State, limit: nat, p: ChunkPosition)
    requires |s.cache| > limit && LeastRecent(s, p)
    ensures Evicted(s, limit) == Evicted(Dropped(s, p), limit)
  {
    var r := Victim(s);
    LeastRecentUnique(s, p, r);
  }

  /** The entries in `done` written back if they were dirty. */
  ghost function SavedSome(s: State, done: set<ChunkPosition>): State {
    s.(stored := s.stored + (map p | p in s.cache && p in done && s.cache[p].dirty :: s.cache[p].content),
       cache := map p | p in s.cache :: if p in done then s.cache[p].(dirty := false) else s.cache[p])
  }

  ghost function DirtyIn(s: State, some: set<ChunkPosition>): set<ChunkPosition> {
    set p | p in some && p in s.cache && s.cache[p].dirty
  }

  lemma SavedNone(s: State)
    ensures SavedSome(s, s.cache.Keys - s.cache.Keys) == s
    ensures DirtyIn(s, s.cache.Keys - s.cache.Keys) == {}
  {
    assert SavedSome(s, s.cache.Keys - s.cache.Keys).cache == s.cache;
    assert SavedSome(s, s.cache.Keys - s.cache.Keys).stored == s.stored;
  }

  lemma SavedSomeStep(s: State, done: set<ChunkPosition>, p: ChunkPosition)
    requires s.hasStorage && p in s.cache && p !in done
    ensures Saved(SavedSome(s, done), p) == SavedSome(s, done + {p})
    ensures SavedSome(s, done).cache[p].dirty == s.cache[p].dirty
    ensures |DirtyIn(s, done + {p})| == |DirtyIn(s, done)| + if s.cache[p].dirty then 1 else 0
  {
    SavedMapStep(s, done, p);
    assert DirtyIn(s, done + {p}) == DirtyIn(s, done) + if s.cache[p].dirty then {p} else {};
  }

  lemma SavedMapStep(s: State, done: set<ChunkPosition>, p: ChunkPosition)
    requires s.hasStorage && p in s.cache && p !in done
    ensures Saved(SavedSome(s, done), p) == SavedSome(s, done + {p})
  {
    SavedCacheStep(s, done, p);
    if s.cache[p].dirty {
      SavedStoreStep(s, done, p);
    } else {
      assert SavedSome(s, done + {p}).stored == SavedSome(s, done).stored;
    }
  }

  lemma SavedCacheStep(s: State, done: set<ChunkPosition>, p: ChunkPosition)
    requires p in s.cache && p !in done
    ensures SavedSome(s, done).cache[p] == s.cache[p]
    ensures SavedSome(s, done + {p}).cache ==
            if s.cache[p].dirty then SavedSome(s, done).cache[p := s.cache[p].(dirty := false)]
            else SavedSome(s, done).cache
  {
  }

  lemma SavedStoreStep(s: State, done: set<ChunkPosition>, p: ChunkPosition)
    requires p in s.cache && s.cache[p].dirty
    ensures SavedSome(s, done + {p}).stored == SavedSome(s, done).stored[p := s.cache[p].content]
  {
    var dirty := map q | q in s.cache && q in done && s.cache[q].dirty :: s.cache[q].content;
    var dirty' := map q | q in s.cache && q in done + {p} && s.cache[q].dirty :: s.cache[q].content;
    assert dirty' == dirty[p := s.cache[p].content];
    AddedLast(s.stored, dirty, p, s.cache[p].content);
  }

  lemma AddedLast<K, V>(a: map<K, V>, b: map<K, V>, k: K, v: V)
    ensures a + b[k := v] == (a + b)[k := v]
  {
  }

  lemma SavedSomeKeepsView(s: State, g: Generator, done: set<ChunkPosition>)
    ensures forall q :: View(SavedSome(s, done), g, q) == View(s, g, q)
  {
  }

  // ---------------------------------------------------------------------------------------
  // The manager
  // ---------------------------------------------------------------------------------------

  datatype Entry = Entry(chunk: Chunk, lastAccess: nat)

  ghost function SlotOf(e: Entry): Slot
    reads e.chunk
  {
    Slot(e.chunk, e.chunk.content, e.chunk.dirty, e.chunk.owners, e.lastAccess)
  }

  /** The number of the last load of `p` in a history of the positions loaded, or zero. */
  ghost function LastLoad(history: seq<ChunkPosition>, p: ChunkPosition): (n: nat)
    ensures n <= |history|
  {
    if history == [] then 0
    else if history[|history| - 1] == p then |history|
    else LastLoad(history[..|history| - 1], p)
  }

  lemma {:induction false} LastLoadIsLast(history: seq<ChunkPosition>, p: ChunkPosition)
    ensures LastLoad(history, p) == 0 <==> p !in history
    ensures LastLoad(history, p) > 0 ==> history[LastLoad(history, p) - 1] == p
    ensures forall k :: LastLoad(history, p) <= k < |history| ==> history[k] != p
  {
    if history != [] {
      var less := history[..|history| - 1];
      assert history == less + [history[|history| - 1]];
      LastLoadIsLast(less, p);
    }
  }

  lemma LastLoadNext(history: seq<ChunkPosition>, p: ChunkPosition)
    ensures LastLoad(history + [p], p) == |history| + 1
    ensures forall q :: q != p ==> LastLoad(history + [p], q) == LastLoad(history, q)
  {
    assert (history + [p])[..|history|] == history;
  }

  /** Saving all leaves nothing dirty and the contents that were dirty stored, and changes nothing else. */
  lemma SavedAll(s: State)
    requires s.hasStorage
    ensures
      var s' := SavedSome(s, s.cache.Keys);
      && s'.hasStorage && s'.cache.Keys == s.cache.Keys
      && (forall p :: p in s.cache ==> s'.cache[p] == s.cache[p].(dirty := false))
      && (forall p :: p in s.cache && s.cache[p].dirty ==> p in s'.stored && s'.stored[p] == s.cache[p].content)
      && (forall p :: !(p in s.cache && s.cache[p].dirty) ==>
            (p in s'.stored <==> p in s.stored) && (p in s.stored ==> s'.stored[p] == s.stored[p]))
  {
  }

  class ChunkManager {
    const generator: Generator
    const limit: nat
    const hasStorage: bool
    var stored: map<ChunkPosition, Content>
    var chunks: map<ChunkPosition, Entry>
    var accessCounter: nat
    /** Every chunk ever handed out. */
    ghost var issued: set<Chunk>
    /** The positions loaded so far. */
    ghost var history: seq<ChunkPosition>

    /** The stamps are the numbers of the last loads. */
    ghost predicate Dated()
      reads this`chunks, this`history, this`accessCounter
    {
      accessCounter == |history| && forall p :: p in chunks ==> 0 < chunks[p].lastAccess == LastLoad(history, p)
    }

    /** Who has left `was` was last loaded before every chunk nobody holds that is still there. */
    ghost predicate EvictedByHistory(was: set<ChunkPosition>)
      requires Linked()
      reads this`chunks, this`history, this`issued, issued
    {
      forall p, q :: p in was && p !in chunks && q in chunks && chunks[q].chunk.owners == 0 ==>
        LastLoad(history, p) < LastLoad(history, q)
    }

    /** The limit is kept but for chunks that are held. */
    ghost predicate WithinLimit()
      requires Linked()
      reads this`chunks, this`issued, issued
    {
      |chunks| <= limit || forall p :: p in chunks ==> chunks[p].chunk.owners > 0
    }

    ghost predicate Linked()
      reads this`chunks, this`issued
    {
      forall p :: p in chunks ==> chunks[p].chunk in issued && chunks[p].chunk.position == p
    }

    /** The chunk is the one cached for its position. */
    ghost predicate Cached(c: Chunk)
      reads this`chunks
    {
      c.position in chunks && chunks[c.position].chunk == c
    }

    ghost function Now(): State
      requires Linked()
      reads this`chunks, this`stored, this`issued, issued
    {
      State(hasStorage, map p | p in chunks :: SlotOf(chunks[p]), stored)
    }

    ghost predicate Valid()
      reads this, issued
    {
      Linked() && Consistent(Now()) && Stamped(Now(), accessCounter) && Dated()
    }

    constructor Init(generator: Generator, limit: nat, storage: Option<map<ChunkPosition, Content>>)
      requires limit > 0
      ensures Valid() && this.generator == generator && this.limit == limit && issued == {}
      ensures Now() == State(storage.Some?, map[], if storage.Some? then storage.value else map[])
    {
      this.generator, this.limit, hasStorage := generator, limit, storage.Some?;
      stored := if storage.Some? then storage.value else map[];
      chunks, accessCounter, issued, history := map[], 0, {}, [];
    }

    /** A manager is refused when its limit is zero. */
    static method Create(generator: Generator, limit: nat, storage: Option<map<ChunkPosition, Content>>)
      returns (r: Option<ChunkManager>)
      ensures r.Some? <==> limit > 0
      ensures r.Some? ==> fresh(r.value) && r.value.Valid() && r.value.issued == {}
      ensures r.Some? ==> r.value.generator == generator && r.value.limit == limit
      ensures r.Some? ==> r.value.Now() == State(storage.Some?, map[], if storage.Some? then storage.value else map[])
    {
      if limit == 0 {
        return None;
      }
      var m := new ChunkManager.Init(generator, limit, storage);
      return Some(m);
    }

    method Load(p: ChunkPosition) returns (c: Chunk)
      requires Valid()
      modifies this, issued
      ensures issued == old(issued) + {c} && (c in old(issued) || fresh(c)) && accessCounter == old(accessCounter) + 1
      ensures Valid() && Cached(c) && c.position == p && c.content == View(Now(), generator, p)
      ensures Now() == Loaded(old(Now()), generator, limit, p, accessCounter, c)
      ensures history == old(history) + [p]
      // a hit is the cached chunk, held once more, and nothing leaves
      ensures old(p in chunks) ==> c == old(chunks[p].chunk) && chunks.Keys == old(chunks.Keys)
      // a miss is clean and held once, and what leaves is what was loaded longest ago
      ensures old(p !in chunks) ==> !c.dirty && c.owners == 1 && chunks.Keys <= old(chunks.Keys) + {p}
      ensures old(p !in chunks) ==> WithinLimit() && EvictedByHistory(old(chunks.Keys) + {p})
    {
      var hit := p in chunks;
      c := Fetch(p);
      if !hit {
        EvictedSubset(Now(), limit);
        EvictToLimit();
        assert p in Now().cache;
      }
    }

    /** Loads without evicting. */
    method Fetch(p: ChunkPosition) returns (c: Chunk)
      requires Valid()
      modifies this, issued
      ensures issued == old(issued) + {c} && (c in old(issued) || fresh(c)) && accessCounter == old(accessCounter) + 1
      ensures history == old(history) + [p] && chunks == old(chunks)[p := Entry(c, accessCounter)]
      ensures if old(p in chunks) then c == old(chunks[p].chunk) else !c.dirty && c.owners == 1
      ensures Valid() && Cached(c) && c.position == p
      ensures Now() == Fetched(old(Now()), generator, p, accessCounter, c)
    {
      ghost var was := Now();
      c := Access(p);
      FetchedKeepsView(was, generator, p, accessCounter - 1, c);
      LastLoadNext(history, p);
      history := history + [p];
    }

    method Access(p: ChunkPosition) returns (c: Chunk)
      requires Linked()
      modifies this`chunks, this`stored, this`issued, this`accessCounter, issued`owners
      ensures issued == old(issued) + {c} && (c in old(issued) || fresh(c)) && accessCounter == old(accessCounter) + 1
      ensures chunks == old(chunks)[p := Entry(c, accessCounter)]
      ensures if old(p in chunks) then c == old(chunks[p].chunk) else !c.dirty && c.owners == 1
      ensures Linked() && Cached(c) && c.position == p
      ensures Now() == Fetched(old(Now()), generator, p, accessCounter, c)
    {
      accessCounter := accessCounter + 1;
      if p in chunks {
        c := Touch(p);
      } else {
        c := Bring(p);
      }
    }

    /** The hit branch of `Load`. */
    method Touch(p: ChunkPosition) returns (c: Chunk)
      requires Linked() && p in chunks
      modifies this`chunks, issued`owners
      ensures chunks == old(chunks)[p := Entry(c, accessCounter)]
      ensures Linked() && c == old(chunks[p].chunk) && Cached(c) && c in issued
      ensures Now() == Fetched(old(Now()), generator, p, accessCounter, c)
    {
      c := chunks[p].chunk;
      chunks := chunks[p := Entry(c, accessCounter)];
      c.owners := c.owners + 1;
      assert Now() == Fetched(old(Now()), generator, p, accessCounter, c);
    }

    /** The miss branch of `Load`: reads storage or generates, and stores a generated chunk. */
    method Bring(p: ChunkPosition) returns (c: Chunk)
      requires Linked() && p !in chunks
      modifies this`chunks, this`stored, this`issued
      ensures chunks == old(chunks)[p := Entry(c, accessCounter)] && !c.dirty && c.owners == 1
      ensures fresh(c) && c.position == p && issued == old(issued) + {c} && Linked() && Cached(c)
      ensures Now() == Fetched(old(Now()), generator, p, accessCounter, c)
    {
      ghost var was := Now();
      var content := if p in stored then Reloaded(stored[p]) else generator(p);
      if hasStorage && p !in stored {
        stored := stored[p := content];
      }
      c := new Chunk(p, content);
      assert Now() == was.(stored := stored);
      Enter(c);
    }

    method Enter(c: Chunk)
      requires Linked() && c !in issued && c.position !in chunks
      modifies this`chunks, this`issued
      ensures chunks == old(chunks)[c.position := Entry(c, accessCounter)]
      ensures issued == old(issued) + {c} && Linked() && Cached(c)
      ensures Now() == old(Now()).(cache := old(Now()).cache[c.position := SlotOf(Entry(c, accessCounter))])
    {
      ghost var slots := Now().cache;
      issued := issued + {c};
      chunks := chunks[c.position := Entry(c, accessCounter)];
      assert Now().cache == slots[c.position := SlotOf(Entry(c, accessCounter))];
    }

    /** Unloading succeeds exactly on a cached chunk that nobody holds. */
    method Unload(p: ChunkPosition) returns (done: bool)
      requires Valid()
      modifies this`chunks, this`stored, issued`dirty
      ensures Valid() && done == old(p in chunks && chunks[p].chunk.owners == 0)
      ensures Now() == if done then Dropped(old(Now()), p) else old(Now())
    {
      if p !in chunks || chunks[p].chunk.owners != 0 {
        return false;
      }
      Drop(p);
      return true;
    }

    /** Writes an unpinned entry back and removes it. */
    method Drop(p: ChunkPosition)
      requires Valid() && p in chunks && chunks[p].chunk.owners == 0
      modifies this`chunks, this`stored, issued`dirty
      ensures chunks == old(chunks) - {p} && Now() == Dropped(old(Now()), p) && Valid()
    {
      DroppedKeepsSync(Now(), p, accessCounter);
      Store(chunks[p].chunk);
      Forget(p);
    }

    method Forget(p: ChunkPosition)
      requires Linked() && p in chunks
      modifies this`chunks
      ensures Linked() && chunks == old(chunks) - {p}
      ensures Now() == old(Now()).(cache := old(Now()).cache - {p})
    {
      ghost var was := Now();
      chunks := chunks - {p};
      assert Now().cache == was.cache - {p};
    }

    method Save(c: Chunk)
      requires Valid() && Cached(c)
      modifies this`stored, c`dirty
      ensures Valid() && Now() == Saved(old(Now()), c.position)
    {
      SavedKeepsView(Now(), generator, c.position, accessCounter);
      Store(c);
    }

    method Store(c: Chunk)
      requires Linked() && Cached(c)
      modifies this`stored, c`dirty
      ensures Linked() && Now() == Saved(old(Now()), c.position)
    {
      if hasStorage && c.dirty {
        stored := stored[c.position := c.content];
        c.dirty := false;
      }
      assert Now() == Saved(old(Now()), c.position);
    }

    /** Evicts least recently used, unpinned entries until the size fits or only pinned ones are left. */
    method EvictToLimit()
      requires Valid()
      modifies this`chunks, this`stored, issued`dirty
      ensures Valid() && Now() == Evicted(old(Now()), limit)
      ensures chunks.Keys <= old(chunks.Keys) && WithinLimit() && EvictedByHistory(old(chunks.Keys))
    {
      ghost var was, keys := Now(), chunks.Keys;
      EvictAll();
      EvictedKeys(was, limit, accessCounter);
      ByHistory(was, keys);
    }

    /** Stamps of what left and of what stayed are the numbers of their last loads. */
    lemma ByHistory(was: State, keys: set<ChunkPosition>)
      requires Valid() && Now() == Evicted(was, limit) && was.cache.Keys == keys
      requires EvictedApart(was, limit) && Evicted(was, limit).cache.Keys <= keys
      requires forall p :: p in was.cache ==> was.cache[p].lastAccess == LastLoad(history, p)
      ensures chunks.Keys <= keys && WithinLimit() && EvictedByHistory(keys)
    {
      assert Now().cache.Keys == chunks.Keys;
      SameSize(Now().cache, chunks);
      forall p, q | p in keys && p !in chunks && q in chunks && chunks[q].chunk.owners == 0
        ensures LastLoad(history, p) < LastLoad(history, q)
      {
        assert Now().cache[q].owners == 0 && Now().cache[q].lastAccess == LastLoad(history, q);
      }
      assert forall p :: p in chunks ==> Now().cache[p].owners == chunks[p].chunk.owners;
    }

    method EvictAll()
      requires Valid()
      modifies this`chunks, this`stored, issued`dirty
      ensures Valid() && Now() == Evicted(old(Now()), limit)
    {
      while |chunks| > limit
        invariant Valid() && Evicted(Now(), limit) == Evicted(old(Now()), limit)
        decreases |chunks|
      {
        SameSize(Now().cache, chunks);
        var done := EvictOldest();
        if done {
          return;
        }
      }
      SameSize(Now().cache, chunks);
    }

    method EvictOldest() returns (done: bool)
      requires Valid() && |Now().cache| > limit
      modifies this`chunks, this`stored, issued`dirty
      ensures Valid() && Evicted(Now(), limit) == Evicted(old(Now()), limit)
      ensures if done then Now() == old(Now()) == Evicted(Now(), limit) else |chunks| < |old(chunks)|
    {
      var oldest := Oldest();
      if oldest.None? {
        return true;
      }
      EvictStep(Now(), limit, oldest.value);
      SmallerWithout(chunks, oldest.value);
      Drop(oldest.value);
      return false;
    }

    /** The scan for the unpinned entry with the least access stamp. */
    method Oldest() returns (oldest: Option<ChunkPosition>)
      requires Valid()
      ensures oldest.None? ==> forall p :: !LeastRecent(Now(), p)
      ensures oldest.Some? ==> oldest.value in chunks && LeastRecent(Now(), oldest.value)
    {
      oldest := None;
      var rest := chunks.Keys;
      while rest != {}
        invariant rest <= chunks.Keys
        invariant oldest.None? ==> forall p :: p in chunks && p !in rest ==> chunks[p].chunk.owners > 0
        invariant oldest.Some? ==>
          oldest.value in chunks && oldest.value !in rest && chunks[oldest.value].chunk.owners == 0
        invariant oldest.Some? ==> forall p ::
          p in chunks && p !in rest && chunks[p].chunk.owners == 0 && p != oldest.value ==>
            chunks[oldest.value].lastAccess < chunks[p].lastAccess
        decreases rest
      {
        var p :| p in rest;
        rest := rest - {p};
        assert oldest.Some? ==> StampsApart(Now(), accessCounter, p, oldest.value);
        if chunks[p].chunk.owners == 0 && (oldest.None? || chunks[p].lastAccess < chunks[oldest.value].lastAccess) {
          oldest := Some(p);
        }
      }
    }

    method UnloadUnused()
      requires Valid()
      modifies this`chunks, this`stored, issued`dirty
      ensures Valid() && Now() == Evicted(old(Now()), limit)
      ensures chunks.Keys <= old(chunks.Keys) && WithinLimit() && EvictedByHistory(old(chunks.Keys))
    {
      EvictToLimit();
    }

    /** Writes every dirty chunk back and counts them. */
    method SaveDirty() returns (saved: nat)
      requires Valid()
      modifies this`stored, issued`dirty
      ensures Valid()
      ensures Now() == if hasStorage then SavedSome(old(Now()), old(Now()).cache.Keys) else old(Now())
      ensures saved == if hasStorage then |DirtyIn(old(Now()), old(Now()).cache.Keys)| else 0
    {
      saved := 0;
      if !hasStorage {
        return;
      }
      ghost var was := Now();
      var rest := chunks.Keys;
      SavedNone(was);
      while rest != {}
        invariant rest <= chunks.Keys
        invariant Valid() && Now() == SavedSome(was, was.cache.Keys - rest)
        invariant saved == |DirtyIn(was, was.cache.Keys - rest)|
        decreases rest
      {
        var p :| p in rest;
        assert was.cache.Keys - (rest - {p}) == (was.cache.Keys - rest) + {p};
        var wrote := SaveIfDirty(p, was, was.cache.Keys - rest);
        rest := rest - {p};
        saved := saved + wrote;
      }
      assert was.cache.Keys - {} == was.cache.Keys;
    }

    method SaveIfDirty(p: ChunkPosition, ghost was: State, ghost done: set<ChunkPosition>) returns (wrote: nat)
      requires Valid() && hasStorage && p in chunks && p !in done && Now() == SavedSome(was, done)
      modifies this`stored, issued`dirty
      ensures Valid() && Now() == SavedSome(was, done + {p})
      ensures |DirtyIn(was, done + {p})| == |DirtyIn(was, done)| + wrote
    {
      wrote := 0;
      assert p in Now().cache;
      SavedSomeStep(was, done, p);
      if chunks[p].chunk.dirty {
        Save(chunks[p].chunk);
        wrote := 1;
      }
    }

    /** An edit through a held chunk. */
    method Perform(c: Chunk, e: Edit) returns (ok: bool)
      requires Valid() && Cached(c) && c.owners > 0
      modifies c`content, c`dirty
      ensures Valid() && ok == Accepted(e) && c.content == Outcome(old(c.content), e)
      ensures Now() == Edited(old(Now()), c.position, e)
    {
      EditedChangesView(Now(), generator, c.position, e, accessCounter);
      ok := Accepted(e);
      Become(c, Outcome(c.content, e), c.dirty || Marks(c.content, e));
    }

    method Become(c: Chunk, content: Content, dirty: bool)
      requires Linked() && Cached(c)
      modifies c`content, c`dirty
      ensures Linked() && c.content == content
      ensures
        var was, p := old(Now()), c.position;
        Now() == was.(cache := was.cache[p := was.cache[p].(content := content, dirty := dirty)])
    {
      ghost var was := Now();
      c.content, c.dirty := content, dirty;
      assert Now().cache == was.cache[c.position := was.cache[c.position].(content := content, dirty := dirty)];
    }

    /** A holder lets go of a chunk. */
    method Release(c: Chunk)
      requires Valid() && Cached(c) && c.owners > 0
      modifies c`owners
      ensures Valid() && c.owners == old(c.owners) - 1
      ensures Now() == Released(old(Now()), c.position)
    {
      ReleasedKeepsView(Now(), generator, c.position, accessCounter);
      c.owners := c.owners - 1;
      assert Now() == Released(old(Now()), c.position);
    }
  }
}
