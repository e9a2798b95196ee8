# A verified model of the server's stateful cores

This project models, in Dafny, the parts of a Minecraft-compatible server whose correctness does not show
in any one function body, and proves what they promise. To verify it, run `dafny verify dfyconfig.toml`.

| module | file | what it models |
|---|---|---|
| `Navigation` | `Navigation.dfy` | A\* path finding with re-opened cells, stale queue entries and a visit budget |
| `Goals` | `Goals.dfy` | the goal selector, a preemptive arbiter over control bits |
| `ChunkEdits`, `ChunkCache`, `ChunkRuns` | `ChunkEdits.dfy`, `ChunkCache.dfy`, `ChunkRuns.dfy` | what callers change in a chunk and what storage makes of it; the write-back chunk cache with pinned entries; and what whole runs of it show against a map that never evicts |
| `FallingColumn` | `FallingColumn.dfy` | settling sand and gravel in a column |
| `Chunks`, `ChunkFormat` | `Chunk.dfy`, `ChunkFormat.dfy` | chunks with an incrementally kept heightmap, and their storage format |
| `RegionFiles`, `Levels` | `RegionFile.dfy`, `LevelStorage.dfy` | the sector allocator of region files, and the storage of chunks in them by position |
| `Entities` | `Entities.dfy` | the riding forest, leashes, snapshots and their restoration |
| `ModifiedUtf`, `Nbt`, `NbtStream` | `ModifiedUtf.dfy`, `Nbt.dfy`, `NbtStream.dfy` | the NBT writer and reader and the two string encodings |
| `NbtAcceptance` | `NbtAcceptance.dfy` | which tags can be written and in how many bytes, said of the tag alone |
| `UtfReading`, `NbtReading` | `UtfReading.dfy`, `NbtReading.dfy` | the other way round: which strings are read, and writing back what was read |
| `Items`, `Containers` | `Items.dfy`, `Containers.dfy` | item stacks and containers |
| `Recipes`, `Crafting` | `Recipes.dfy`, `Crafting.dfy` | recipe matching with backtracking, and crafting |
| `Varints`, `Palette` | `Varints.dfy`, `Palette.dfy` | variable-length integers and the paletted containers of chunk packets |
| `Experience` | `Experience.dfy` | levels and progress from experience points |
| `Admission` | `Admission.dfy` | connection limits and rate flags |
| `OutputQueues` | `OutputQueue.dfy` | the output queue of a connection |

`Arithmetic`, `Blocks`, `Bytes`, `Sequences` and `Wrappers` hold what several of them share.

The modules are built alike. What an operation does to the state is a function on values; lemmas prove the
properties of that function; the program itself is a class or a method with loops whose contract ties the
new state to the function. `old` state, exceptions and refusals are part of the contracts: where the program
throws, the method returns an error and says exactly when.

## What the proofs found

Where the code does less than its name or its tests suggest, the exact condition is proved.

- A chunk comes back unchanged from storage exactly when no recorded height lies below its column's highest
  block (`ChunkFormat.RoundTripIsExact`); chunks made by `set_block` alone always do (`Chunks.Build`).
- Setting a block that is already there leaves the chunk clean, but on a column whose height `set_height` put
  too low it still moves the height (`Chunks.CleanKeepsHeight`), so a clean chunk may differ from its stored
  copy (`ChunkCache.CleanMayDiffer`).
- Hence the cache is invisible for blocks and biomes over every run, but not for heights. A height that lies
  below its column's highest block when the last holder lets go may come back as that block's, depending on
  what the cache drops. So the map that never evicts also keeps the set of contents a cache may show: no run
  shows anything else (`ChunkRuns.Run`), and each of them is shown by some cache (`ChunkRuns.MayIsReached`).
  A height is safe exactly when all of them agree with the map on it (`ChunkRuns.KeptJustWhenShown`): only the
  last release can lose one, exactly when it is then too low (`ChunkRuns.KeptByLastRelease`), and setting it
  again makes it safe (`ChunkRuns.KeptByEdit`). `ChunkEdits.LowExample` is a chunk for which it fails.
- Restored passengers come back in id order, so a restored manager equals the saved one exactly when every
  passenger list was in that order (`Entities.RestoreIsExact`). A new manager that restores goes on with the
  same next id exactly when the last id handed out is still in use, or none ever was; otherwise it hands out
  ids of removed entities again (`Entities.RestoredNextId`). A restore that fails leaves what it had built, so
  the next one is refused too, unless it failed at the first entity (`Entities.LeftoverIsEmpty`).
- Without storage, an evicted chunk reverts to its generated content (`ChunkCache.EvictionKeepsView`).
- The NBT writer takes overlong UTF-8, which reads back in shortest form; a string comes back unchanged exactly
  when it was valid UTF-8 (`ModifiedUtf.ExactJustWhenValid`, with `ModifiedUtf.OverlongExample`;
  `Nbt.AnyRoundTrip`). The writer's byte limit counts the bytes already in the buffer (`Nbt.Written`).
- The NBT writer takes collections of 2^31 or more elements when the limits allow them, but their count
  wraps and reads back negative or smaller (`Nbt.CountReadsBack`): a written tag reads back exactly when it
  holds none (`Nbt.AnyRoundTrip`).
- The NBT reader does not check the continuation bytes of the second half of a surrogate pair. What was read
  is written in as many bytes, and in the same ones exactly when every such pair is proper
  (`UtfReading.WriteBack`, `NbtReading.AnyBack`, with `UtfReading.ImproperPair`).
- Crafting with one container as both grid and output adds the result and consumes nothing, because the second
  of two moves overwrites the first; the ingredients are consumed exactly when the two differ
  (`Crafting.CraftingManager.CraftOnce`).
- Into an over-full stack, which no container holds, the capacity wraps and the whole source goes; items are
  lost exactly when the target is over-full and the sum reaches 65,536 (`Items.MergeConserves`, with
  `Items.OverfullExamples`).
- At the level cap of 21,863, which 32-bit totals do reach, the points beyond it no longer show: two totals
  look the same exactly when they are equal or both at least 2,147,407,943, negative totals counting as zero
  (`Experience.LookAlike`).
- Empty buffers in the output queue go only together with bytes behind them. A queue that ends in one, or has
  sixteen in a row, never drains and its flush goes by a stale error number; every other queue drains in at
  most one send a byte when the socket takes something each time (`OutputQueues.OutputQueue.Flush`, with
  `OutputQueues.StuckExamples`).

## Model

| member | source | states |
|---|---|---|
| `Navigation.FindPath` | src/entity/ai.cpp:116-161 | a path returned runs from start to destination over passable neighbouring cells and no path is shorter; the search takes least entries and relaxes their cells, as a relation of its own says, until one is for the destination, which takes at most the budget, as does the path; an empty answer between passable ends means that no entry is left, and then there is no path, or that exactly the budget was taken, which is then at most four times the cells any search up to a path's length can reach |
| `Navigation.Reconstruct` | src/entity/ai.cpp:138-147 | following the back links ends, because the cost falls at each, and gives a path no longer than the recorded cost |
| `Navigation.Expand` | src/entity/ai.cpp:148-157 | relaxing the four neighbours keeps costs realised by routes, links descending, closed cells final, and every costed cell either queued exactly or relaxed |
| `Navigation.RelaxedAll` | src/entity/ai.cpp:148-157 | relaxing the four directions in turn lowers exactly the cells that are cheaper from here, with one new entry each |
| `Navigation.MadeOneMore` | src/entity/ai.cpp:130-157 | a cell known at some cost became known after at least as many entries were taken |
| `Navigation.NothingMissed` | src/entity/ai.cpp:130-161 | a search that stops with no entry left has missed no path, and any other only for want of budget |
| `Navigation.LeastEntryIsOptimal` | src/entity/ai.cpp:130-138 | the least entry popped, even with stale entries queued, carries the true distance of its cell |
| `Navigation.PathMeetsFrontier` | src/entity/ai.cpp:130-157 | every path to a cell not yet final passes a queued cell whose entry is exact |
| `Navigation.ImprovedIsNew` | src/entity/ai.cpp:151-155 | a cheaper route never leads to a closed cell or back to the start, so no cell is expanded twice at its final cost |
| `Navigation.RelaxingKeepsExpansion` | src/entity/ai.cpp:151-156 | one relaxation keeps the state between two relaxations |
| `Navigation.DistanceAlongPath` | src/entity/ai.cpp:20-24 | the Manhattan estimate never exceeds the steps left on a path |
| `Navigation.DistanceIsAttained` | src/entity/ai.cpp:20-24 | on level ground some step always lowers the estimate by one, and it is zero only at the goal |
| `Navigation.EllipseCovers` | src/entity/ai.cpp:116-161 | the cells within the Manhattan ellipse of a length cover the search for paths of that length |
| `Navigation.EnclosureCovers` | src/entity/ai.cpp:116-161 | the cells of an enclosed area around the start cover every search in it |
| `Goals.GoalSelector.Tick` | src/entity/ai.cpp:70-100 | afterwards no two running goals share a control, starts and stops alternate, nothing started in the tick is stopped in it; each goal that ran was asked exactly once whether it goes on and stopped if not; each goal was asked to start exactly once unless it ran throughout, and it started if and only if it agreed and no running goal as urgent shared a control at that moment; all are asked in order, whoever stopped had declined or gave way to a strictly more urgent goal, and exactly the running goals are ticked in order |
| `Goals.GoalSelector.Consider` | src/entity/ai.cpp:77-96 | one candidate of the second pass: one that runs is passed by, any other is asked; it starts if and only if it agrees and is not blocked, after just the goals in its way are stopped; all the tick promises is kept for the goals considered so far |
| `Goals.GoalSelector.StopDeclined` | src/entity/ai.cpp:71-76 | the first pass asks exactly the running goals, each once, and one runs on if and only if its answer was yes |
| `Goals.GoalSelector.Arbitrate` | src/entity/ai.cpp:70-96 | the two passes together leave the state the tick promises, with the same account of who was asked, started and stopped |
| `Goals.GoalSelector.Add` | src/entity/ai.cpp:62-68 | a goal is placed behind all goals of equal priority, which keeps order and running set; no goal is refused but null |
| `Goals.GoalSelector.StopAll` | src/entity/ai.cpp:102-108 | exactly the running goals are stopped, and none runs |
| `Goals.StartKeepsExclusive` | src/entity/ai.cpp:80-95 | starting a goal after stopping those in its way leaves no two sharing a control |
| `Goals.StartKeepsPassing` | src/entity/ai.cpp:77-96 | a start keeps the state between two candidates of the second pass |
| `Goals.TurnConsiders` | src/entity/ai.cpp:77-96 | after its turn a goal was asked once unless it ran throughout, and started just when it agreed and nothing as urgent was in its way |
| `Goals.TurnKeepsSecondPass` | src/entity/ai.cpp:77-96 | a turn leaves that account right for the goals before and open for those after |
| `Goals.StartInOrder` | src/entity/ai.cpp:77-96 | goals are asked in order of priority, all that continue before any that starts |
| `ChunkRuns.Run` | src/world/world.cpp:88-172 | over any run of loads, releases, edits through held handles, unloads, evictions and saves, with storage that raises heights as the format does, each load shows one of the contents the run allows: the blocks and biomes a map that never evicts shows, and each height of it that is safe |
| `ChunkRuns.Apply` | src/world/world.cpp:88-172 | each single operation keeps the cache within what the run allows |
| `ChunkCache.ChunkManager.Load` | src/world/world.cpp:88-105 | the chunk returned is cached, has the content the state shows at that position, and the new state is the old one with it fetched, stamped and evicted to the limit; a hit is the cached chunk and drops nothing, a miss is clean, leaves the limit kept but for held chunks, and drops only what was loaded before every unheld chunk that stays, by the history of loads |
| `ChunkCache.ChunkManager.Unload` | src/world/world.cpp:107-116 | it succeeds exactly on a cached chunk nobody holds, which is written back and dropped |
| `ChunkCache.ChunkManager.SaveDirty` | src/world/world.cpp:123-135 | with storage every dirty chunk is written back and counted, without it nothing happens |
| `ChunkCache.SavedAll` | src/world/world.cpp:123-135 | saving all leaves nothing dirty, what was dirty stored, and nothing else changed |
| `ChunkCache.ChunkManager.EvictToLimit` | src/world/world.cpp:155-172 | the state becomes the one evicted to the limit, and who left was last loaded before every unheld chunk that stayed |
| `ChunkCache.LastLoadIsLast` | src/world/world.cpp:88-105 | the stamp of a chunk is the place of its last load in the history |
| `ChunkCache.ChunkManager.Oldest` | src/world/world.cpp:157-165 | the scan finds the unpinned entry used least recently, or that all are pinned |
| `ChunkCache.ChunkManager.Create` | src/world/world.cpp:70-79 | a limit of zero is refused |
| `ChunkCache.EvictionKeepsView` | src/world/world.cpp:155-172 | a chunk that was evicted shows as storage gives it back, without storage as generated, and all others as they were; clean entries go on reading back like their stored copies |
| `ChunkCache.EvictedSubset` | src/world/world.cpp:160-170 | entries that remain are untouched, pinned entries remain, and nothing is evicted within the limit |
| `ChunkCache.EvictionIsLeastRecentlyUsed` | src/world/world.cpp:157-165 | whoever was evicted was used before every unpinned entry that stayed |
| `ChunkCache.EvictionMeetsLimit` | src/world/world.cpp:156-168 | afterwards the size is within the limit unless every entry is pinned |
| `ChunkRuns.EvictionRefines` | src/world/world.cpp:118-121 | eviction stays within what the run allows |
| `ChunkRuns.LoadRefines` | src/world/world.cpp:88-105 | a load shows what the run allows, whether it hits, reads storage or generates: the map's blocks, biomes and safe heights |
| `ChunkRuns.EditRefines` | src/world/chunk.cpp:70-124 | an edit through a held handle, with the dirty rule of its own kind, is the same edit of the map and of all that a cache may show |
| `ChunkRuns.MayIsReached` | src/world/world.cpp:88-172 | every content the run allows for a chunk is shown by a cache that starts new, or with that chunk loaded and let go, and drops it at the right moments |
| `ChunkRuns.PlanInStep` | src/world/world.cpp:107-116 | whenever the chunk is dropped in addition, the cache stays within what the run allows |
| `ChunkRuns.RoomIsEnough` | src/world/world.cpp:88-105 | that cache is one whose limit is not reached: loading and evicting do the same to it |
| `ChunkRuns.KeptJustWhenShown` | src/world/world.cpp:88-172 | a height is safe if and only if no such cache shows another than the map; the cache that decides is given |
| `ChunkRuns.KeptByLastRelease` | src/world/world.cpp:107-172 | the last release leaves a safe height safe if and only if it does not lie below its column's highest block |
| `ChunkRuns.LastReleaseDecides` | src/world/world.cpp:107-116 | for a height safe under the last handle, the manager shows it after release and unload if and only if the run keeps it safe |
| `ChunkRuns.KeptByEdit` | src/world/chunk.cpp:70-124 | edits through a handle leave safe heights safe, and setting a height makes it safe |
| `ChunkRuns.KeptOtherwise` | src/world/world.cpp:88-172 | no other operation takes a safe height away |
| `ChunkCache.DroppedView` | src/world/world.cpp:107-116 | a chunk written back and dropped shows as it was if and only if no height of it lies below its column's highest block |
| `ChunkCache.EditSurvivesUnload` | src/world/world.cpp:107-116 | an edit of a chunk without low heights is there after release and unload if and only if it did not record a height that is too low, which comes back as that of the highest block |
| `ChunkCache.CleanMayDiffer` | src/world/chunk.cpp:77-90 | a clean chunk equal to its stored copy stays so under an edit that marks nothing, unless that sets a block already there above the recorded height |
| `ChunkEdits.Perform` | src/world/chunk.cpp:70-124 | the three operations of a chunk refuse, change and mark it as the edits on values do |
| `ChunkEdits.ReloadedIsDescribed` | src/world/storage.cpp:194-264 | what the cache reads for a saved content is what the payload written for it describes |
| `ChunkEdits.TallUnlessLowered` | src/world/chunk.cpp:70-124 | with no height below its column's highest block, an edit leaves it so if and only if it does not record one that is |
| `ChunkEdits.UnmarkedKeepsReloaded` | src/world/chunk.cpp:77-90 | an edit that marks nothing leaves what storage will give back |
| `ChunkEdits.LowExample` | src/world/chunk.cpp:77-111 | solid columns with heights at the bottom: storage raises them to the top, and setting a block that is there moves a height without a mark |
| `FallingColumn.SettleFallingColumn` | src/world/world.cpp:384-405 | the column becomes the settled one and the list returned is that of the moves; from the given height on, or the second lowest place, nothing that falls hangs over air, and blocks below it stay |
| `FallingColumn.SettlingKeepsBlocks` | src/world/world.cpp:395-399 | settling keeps the multiset of blocks and the vertical order of all that are not air |
| `FallingColumn.SettlingStabilizes` | src/world/world.cpp:387-394 | afterwards no sand or gravel at or above the start has air directly below |
| `FallingColumn.SettlingIsIdempotent` | src/world/world.cpp:384-405 | a second run changes and reports nothing |
| `FallingColumn.SettlingMovesOnlyFalling` | src/world/world.cpp:388-389 | other blocks, and everything below the start, stay where they are |
| `FallingColumn.FallenRest` | src/world/world.cpp:391-399 | whatever is new at a place rests on a block or on the bottom |
| `FallingColumn.MovesGoDown` | src/world/world.cpp:400-403 | the list is of moves downwards, each from above the one before |
| `FallingColumn.ChangesAreReported` | src/world/world.cpp:400-403 | every position whose block differs is in the list |
| `Chunks.Chunk.SetBlock` | src/world/chunk.cpp:70-90 | refused outside the chunk; otherwise it changes the one block, its column's height and the dirt mark as said |
| `Chunks.Chunk.Place` | src/world/chunk.cpp:32-43 | every section's count stays the number of its blocks that are not air |
| `Chunks.NewHeightIsHighest` | src/world/chunk.cpp:82-89 | a height that was that of the highest block stays so, through raising, lowering and replacing |
| `Chunks.NewHeightIs` | src/world/chunk.cpp:82-89 | whatever height was recorded, a block above raises it there, taking away the block at it lowers it to the next block below or the bottom, and nothing else changes it |
| `Chunks.Build` | src/world/chunk.cpp:70-90 | over any run of `set_block` every height is that of the highest block, and a chunk left clean is unchanged |
| `Chunks.CleanKeepsHeight` | src/world/chunk.cpp:77-90 | setting the block already there keeps the height if and only if it is air or not above the recorded height |
| `ChunkFormat.SerializeChunk` | src/world/storage.cpp:194-217 | the output is the layout of the chunk |
| `ChunkFormat.DeserializeChunk` | src/world/storage.cpp:219-264 | a payload loads if and only if it has the marker, the size and heights in range, and the chunk is the one it describes; each failure has its exact condition |
| `ChunkFormat.RoundTrip` | src/world/storage.cpp:194-264 | position, biomes and blocks come back, and each height as the larger of the stored one and the highest block |
| `ChunkFormat.RoundTripIsExact` | src/world/storage.cpp:194-264 | the chunk comes back unchanged if and only if no recorded height is below its highest block |
| `ChunkFormat.LayoutOffsets` | src/world/storage.cpp:194-217 | the marker, the position, each height and each block lie at the bytes their coordinates give |
| `ChunkFormat.BiomeOffset` | src/world/storage.cpp:194-217 | and so does each biome |
| `ChunkFormat.DescribesOnce` | src/world/storage.cpp:219-264 | a payload describes at most one chunk |
| `ChunkFormat.PlacedOnTop` | src/world/storage.cpp:247-259 | placing blocks bottom-up rebuilds each column's highest block |
| `RegionFiles.ChunkAddress` | src/world/storage.cpp:26-40 | region and local coordinate are the only pair that addresses a chunk coordinate, also for negative ones |
| `RegionFiles.DecompressPayload` | src/world/storage.cpp:154-171 | the loop over doubling buffers computes the decompression |
| `RegionFiles.DecompressesAll` | src/world/storage.cpp:154-171 | every payload within the size limit decompresses, because doubling reaches the limit itself |
| `RegionFiles.RegionFile.Read` | src/world/storage.cpp:283-311 | any file with a header reads as its table says, and coordinates of 32 or more are refused; a file this class wrote gives the payload last written at that very coordinate |
| `RegionFiles.RegionFile.Write` | src/world/storage.cpp:313-361 | accepted exactly within the limits; a refused write changes nothing, an accepted one changes what its own coordinate reads and nothing at any other, and the file grows only when the record does not fit in its place |
| `RegionFiles.PlacementIsFree` | src/world/storage.cpp:328-336 | the sectors given to a write belong to no other entry |
| `RegionFiles.WriteKeepsSane` | src/world/storage.cpp:325-352 | populated entries stay pairwise disjoint, at or above sector 2 and inside the file |
| `RegionFiles.WriteKeepsOthers` | src/world/storage.cpp:313-361 | every other entry reads as before |
| `RegionFiles.WriteThenRead` | src/world/storage.cpp:283-361 | a read returns the payload just written |
| `RegionFiles.ReadIsLocal` | src/world/storage.cpp:283-311 | a read depends only on the sectors its entry owns |
| `RegionFiles.ReadJustWhen` | src/world/storage.cpp:283-311 | what a read of any file finds or why it fails, from the bytes of the table entry, the length and the type |
| `RegionFiles.TableBytes` | src/world/storage.cpp:338-352 | what a write leaves in the table: three bytes of the first sector and one of their number |
| `RegionFiles.SectorBytes` | src/world/storage.cpp:338-352 | what it leaves in its sectors: the length, the compression type, the data |
| `RegionFiles.WrittenLength` | src/world/storage.cpp:325-336 | a record that fits in its place leaves the file as long as it was, any other goes behind the end |
| `RegionFiles.OneChanges` | src/world/storage.cpp:173-178 | different coordinates have different entries |
| `Levels.LevelStorage.Save` | src/world/storage.cpp:401-405 | what is stored for one chunk position changes, and for no other, across all regions |
| `Levels.LevelStorage.Load` | src/world/storage.cpp:389-399 | a chunk position gives what was last saved for it, or nothing |
| `Levels.PlacesApart` | src/world/storage.cpp:26-40 | two chunk positions have the same region and the same place in it if and only if they are the same |
| `Entities.EntityManager.Mount` | src/entity/entity.cpp:490-502 | it succeeds if and only if both exist and no cycle arises, keeps the forest, and changes nothing when refused |
| `Entities.EntityManager.AboveIsFree` | src/entity/entity.cpp:494-497 | the walk up the vehicles ends and finds the passenger if and only if mounting would close a cycle |
| `Entities.EntityManager.Dismount` | src/entity/entity.cpp:504-512 | both ends of the link are removed and the forest is kept |
| `Entities.EntityManager.Remove` | src/entity/entity.cpp:476-488 | the entity goes, its riders dismount, its leashes are released, and the forest is kept |
| `Entities.EntityManager.SetLeash` | src/entity/entity.cpp:536-540 | it succeeds exactly with an existing other holder, or none |
| `Entities.EntityManager.Spawn` | src/entity/entity.cpp:456-467 | a fresh id joins the forest without links, a living entity at the full health of its type; an unknown type is refused |
| `Entities.EntityManager.Snapshots` | src/entity/entity.cpp:587-611 | one snapshot for each entity, in id order |
| `Entities.EntityManager.Restore` | src/entity/entity.cpp:613-652 | an empty manager accepts exactly the lists that describe a forest over their own ids, then holds just them, and its next id is the least from its old one on above all of theirs; refused, it stays sound and holds what was restored before the first snapshot that does not fit |
| `Entities.LeftoverIsEmpty` | src/entity/entity.cpp:613-652 | a refused restore leaves the manager empty if and only if it failed to create the first entity |
| `Entities.SubsetIsAcyclic` | src/entity/entity.cpp:645-652 | any part of an acyclic relation is acyclic |
| `Entities.MountKeepsAcyclic` | src/entity/entity.cpp:490-502 | hanging a passenger under a vehicle whose ancestry is without it closes no cycle |
| `Entities.AncestorClosesCycle` | src/entity/entity.cpp:494-497 | hanging an ancestor under its descendant closes one |
| `Entities.MountKeepsForest` | src/entity/entity.cpp:490-502 | after dismounting and mounting, each rides what lists it exactly once, and nothing dangles |
| `Entities.DismountKeepsForest` | src/entity/entity.cpp:504-512 | the forest survives a dismount |
| `Entities.RemoveKeepsForest` | src/entity/entity.cpp:476-488 | the forest survives a removal |
| `Entities.WantedMountAccepted` | src/entity/entity.cpp:645-652 | each partial re-mount of a restorable list succeeds |
| `Entities.SnapshotsAreRestorable` | src/entity/entity.cpp:587-652 | the snapshots of every reachable manager are accepted |
| `Entities.RestoreReproduces` | src/entity/entity.cpp:587-652 | ids, bodies, vehicles and leashes come back, and the same passengers in id order |
| `Entities.RestoreIsExact` | src/entity/entity.cpp:587-652 | the whole table comes back if and only if all passenger lists were in id order |
| `Entities.RestoredNextId` | src/entity/entity.cpp:613-652 | the next id is the saved manager's if and only if the restoring one began there, or began no later and the last id handed out is still in use; it is lower, so that ids are handed out again, if and only if it began lower and that last id is gone |
| `ModifiedUtf.EncodeModifiedUtf` | src/protocol/nbt.cpp:102-135 | the loop computes the encoding, or refuses just what it refuses |
| `ModifiedUtf.ReadCodePoint` | src/protocol/nbt.cpp:105-125 | one round reads the first code point, its continuation bytes checked one by one |
| `ModifiedUtf.DecodeModifiedUtf` | src/protocol/nbt.cpp:24-86 | the loop computes the decoding, or refuses |
| `ModifiedUtf.RoundTrip` | src/protocol/nbt.cpp:18-135 | what was encoded decodes to the string with each code point in shortest form, through NUL and surrogate pairs |
| `ModifiedUtf.ExactJustWhenValid` | src/protocol/nbt.cpp:102-135 | all valid UTF-8 is taken, and a string taken comes back unchanged if and only if it is valid |
| `ModifiedUtf.FirstOfUnits` | src/protocol/nbt.cpp:27-68 | the reader takes exactly the one or two code units of a code point, whatever follows |
| `ModifiedUtf.FirstOfUtf8` | src/protocol/nbt.cpp:105-125 | the writer reads every code point back from its UTF-8 |
| `UtfReading.ReadJustWhen` | src/protocol/nbt.cpp:18-87 | a string is read if and only if it is the units of scalar values one after the other, but for the upper bits of the last two bytes of surrogate pairs, and then gives those values |
| `UtfReading.WriteBack` | src/protocol/nbt.cpp:18-135 | what was read is written in as many bytes, and in the same ones if and only if the last two bytes of every surrogate pair are continuation bytes |
| `UtfReading.ImproperPair` | src/protocol/nbt.cpp:54-66 | a pair with other bytes there is read |
| `UtfReading.KnownUnits` | src/protocol/nbt.cpp:70-135 | known code points of each length and their bytes in both encodings |
| `Nbt.AnyRoundTrip` | src/protocol/nbt.cpp:288-302 | a tag written reads back under the same limits, whatever follows, taking exactly its bytes, if and only if every counted collection in it has fewer than 2^31 elements; it is the same tag if and only if its strings are valid UTF-8 and END tags carry nothing |
| `Nbt.LimitsMakeCountable` | src/protocol/nbt.cpp:224-302 | limits below 2^31, on entries or on bytes, keep every tag the writer takes to such collections |
| `Nbt.ReadIsCountable` | src/protocol/nbt.cpp:147-215 | what the reader returns holds only such collections |
| `Nbt.CountReadsBack` | src/protocol/nbt.cpp:147-153 | a count is written modulo 2^32 and read as a signed number: it is refused from 2^31 on or beyond the limit, and otherwise what is left of it is read |
| `Nbt.LargeCountsChange` | src/protocol/nbt.cpp:147-153 | a count reads back as itself if and only if it is below 2^31 and within the limit |
| `Nbt.PayloadRoundTrip` | src/protocol/nbt.cpp:155-284 | payloads of every type at every depth read back, when every counted collection has fewer than 2^31 elements |
| `Nbt.EntriesRoundTrip` | src/protocol/nbt.cpp:186-200 | the entries of a compound read back up to and with their END byte |
| `Nbt.ElementsRoundTrip` | src/protocol/nbt.cpp:173-185 | the elements of a list read back |
| `Nbt.NormalJustWhenWellFormed` | src/protocol/nbt.cpp:224-284 | among the tags the writer takes, the well-formed ones are those that reading does not change |
| `NbtAcceptance.WrittenJustWhen` | src/protocol/nbt.cpp:224-302 | a tag is written if and only if its type numbers and values agree, depth, counts and encoded strings are within the limits, elements are of one type, no entry is of type 0, and its size fits; it takes just that many bytes |
| `NbtAcceptance.PayloadJustWhen` | src/protocol/nbt.cpp:224-284 | the same for payloads at every depth |
| `NbtAcceptance.TakenIsRead` | src/protocol/nbt.cpp:288-302 | such a tag is read back if and only if every counted collection in it has fewer than 2^31 elements |
| `NbtAcceptance.WrittenExample` | src/protocol/nbt.cpp:224-302 | a compound with a byte and a list of shorts, byte for byte |
| `Bytes.BigEndianAt` | src/protocol/codec.cpp:297-314 | the most significant byte comes first |
| `Bytes.SignedRanges` | src/protocol/codec.cpp:265-314 | the ranges of signed integers of one, two, four and eight bytes |
| `NbtStream.WriteThenRead` | src/protocol/nbt.cpp:288-302 | written into an empty buffer exactly when the tag can be, and read back by the programs themselves, it returns normalised if and only if every counted collection in it has fewer than 2^31 elements, as limits below that ensure, and unchanged if and only if it is well formed too |
| `NbtStream.ByteBuffer.WriteAnyTag` | src/protocol/nbt.cpp:297-302 | it succeeds exactly when types and values agree, depth, counts and strings are within the limits and the size fits, and appends just its bytes; refused or not, what was in the buffer stays and the type byte follows it |
| `NbtStream.ByteBuffer.WritePayload` | src/protocol/nbt.cpp:224-284 | success appends exactly the payload within the byte limit; failure means there is none or it does not fit |
| `NbtStream.Reader.TakeAnyTag` | src/protocol/nbt.cpp:288-295 | the reader returns what the bytes mean and advances just past them, or refuses |
| `NbtStream.Reader.TakePayload` | src/protocol/nbt.cpp:155-215 | the same for a payload of a given type |
| `NbtReading.AnyBack` | src/protocol/nbt.cpp:155-302 | a tag that was read can be written under the same limits in as many bytes, and in the same ones if and only if the surrogate pairs of all its strings were proper |
| `NbtReading.PayloadBack` | src/protocol/nbt.cpp:155-284 | the same for payloads of every type at every depth |
| `NbtReading.EntriesBack` | src/protocol/nbt.cpp:186-200 | the same for the entries of a compound |
| `Containers.Container.Insert` | src/inventory/inventory.cpp:94-130 | no item is lost or made, what is left is exactly what the accepting slots have no room for, slots that hold the kind fill before free ones and each in order, and the state id moves once exactly when contents change |
| `Containers.Container.Take` | src/inventory/inventory.cpp:132-141 | up to the requested items leave the slot, none are lost, and the state id moves exactly when some left |
| `Containers.Container.SetSlot` | src/inventory/inventory.cpp:82-92 | accepted exactly for an existing slot and a valid stack it takes |
| `Containers.Container.ApplyTransaction` | src/inventory/inventory.cpp:145-172 | all changes or none: accepted if and only if the state id is current and every change is allowed, each slot then holds the last change to it, and the state id moves exactly when contents change |
| `Items.Take` | src/item/item.cpp:192-198 | what is removed and what stays add up for every kind, and fewer than requested leave only when the stack is used up |
| `Items.MergeConserves` | src/item/item.cpp:171-190 | into an over-full target the whole source goes; merging conserves the items if and only if the target is not over-full or the sum stays below 65,536 |
| `Containers.PourInto` | src/item/item.cpp:171-190 | pouring into one slot conserves every kind, lowers the room by what moved, and leaves items only when the slot is full |
| `Containers.AmendedStep` | src/inventory/inventory.cpp:150-164 | one more change makes a slot hold the last change to it |
| `Recipes.MatchShaped` | src/inventory/inventory.cpp:253-291 | it matches if and only if the pattern, mirrored or not, lies somewhere in the grid with all else empty; then one item is consumed exactly from each occupied slot |
| `Recipes.FitsJustWhen` | src/inventory/inventory.cpp:258-285 | what fits slot by slot is the pattern lying in the grid row by row, from left to right or mirrored, with every slot beside it empty |
| `Recipes.MirrorJustWhen` | src/inventory/inventory.cpp:259-276 | a grid matches if and only if its mirror image does |
| `Recipes.Assign` | src/inventory/inventory.cpp:302-322 | the backtracking search succeeds if and only if an assignment of unused ingredients to the remaining slots exists, and a failed search leaves both buffers as they were |
| `Recipes.MatchShapeless` | src/inventory/inventory.cpp:293-323 | it matches if and only if occupied slots and ingredients can be paired one to one; then one item is consumed exactly from each occupied slot |
| `Recipes.FirstChoice` | src/inventory/inventory.cpp:302-322 | an assignment of the later slots extends by a choice for the first |
| `Recipes.SomeFirstChoice` | src/inventory/inventory.cpp:302-322 | an assignment makes a first choice that the search will meet |
| `Recipes.MatchRecipe` | src/inventory/inventory.cpp:243-324 | a grid of other dimensions is refused, and otherwise both kinds of recipe are matched exactly |
| `Crafting.CraftingManager.CraftOnce` | src/inventory/inventory.cpp:478-502 | it succeeds if and only if a recipe matches and the result of the first such has room; then the output gains exactly the result and the grid loses one item from each occupied slot if and only if it is another container; otherwise neither container changes |
| `Crafting.CraftingManager.FindMatch` | src/inventory/inventory.cpp:466-476 | the recipe found is the first that matches |
| `Crafting.CraftingManager.ConsumeFrom` | src/inventory/inventory.cpp:487-496 | one item leaves each occupied slot of the copy, and never fewer than were asked for |
| `Crafting.CraftingManager.Register` | src/inventory/inventory.cpp:354-362 | a recipe joins exactly with a valid result and a new id |
| `Varints.VarintRoundTrip` | src/protocol/codec.cpp:95-112 | every 32-bit value, negative ones too, reads back whatever follows it |
| `Varints.WriteVarint` | src/protocol/codec.cpp:275-285 | the loop appends the seven-bit groups |
| `Varints.GroupAt` | src/protocol/codec.cpp:275-285 | byte i holds seven bits from 7i on and the top bit unless it is the last, and there are no more than needed |
| `Palette.RoundTrip` | src/protocol/packets.cpp:3098-3151 | the values come back through all three forms, whatever follows |
| `Palette.EncodePalettedContainer` | src/protocol/packets.cpp:3098-3151 | it refuses exactly empty input, widths out of order and values out of range, and else writes the encoding |
| `Palette.FormJustWhen` | src/protocol/packets.cpp:3122-3151 | one different value is written alone, more than the widest indices can tell apart as themselves, others as indices of the least width |
| `Palette.Distinct` | src/protocol/packets.cpp:3107-3121 | the palette holds just the values that occur, none twice |
| `Palette.DistinctInOrder` | src/protocol/packets.cpp:3107-3121 | the palette is in the order in which the values first occur |
| `Palette.Width` | src/protocol/packets.cpp:3129-3132 | the width is the least, from the minimum on, that gives each palette entry an index |
| `Palette.WritePacked` | src/protocol/packets.cpp:3078-3094 | the nested loops append the packed words |
| `Palette.PackedRoundTrip` | src/protocol/packets.cpp:3078-3094 | packed words unpack to the values |
| `Palette.DigitAt` | src/protocol/packets.cpp:3084-3091 | value i is the bits from i times the width on of its word, so none straddles two words |
| `Palette.WordAppend` | src/protocol/packets.cpp:3084-3091 | the next value goes into bits of the word that are still zero |
| `Palette.BuildPalette` | src/protocol/packets.cpp:3107-3121 | palette and indices are those of the values, or a value is out of range |
| `Experience.ExperienceFromTotal` | src/player/player.cpp:21-36 | the level is the greatest whose closed-form cost the total pays, which the cap never cuts off; progress is the exact fraction to the next level, below one by at least the step of a 32-bit float, and zero at the cap |
| `Experience.CostIsSum` | src/player/player.cpp:28-30 | the closed-form cost adds up the steps of the loop |
| `Experience.CostMonotone` | src/player/player.cpp:28-30 | each level costs at least seven points more |
| `Experience.KnownCosts` | src/player/player.cpp:28-30 | the costs of levels at the bends of the formula |
| `Experience.LookAlike` | src/player/player.cpp:21-36 | two totals have the same level and progress if and only if they give the same points or both reach the cost of the cap, 2,147,407,943 |
| `Experience.ExperienceDropOnDeath` | src/player/player.cpp:38-40 | never more points than the player has, a hundred from level 15 on, and seven a level below |
| `Admission.Run` | src/server/server.cpp:708-771 | over every interleaving of arrivals, pick-ups and releases the limits hold, the active count is queued plus in service, and the counts by host are those of these connections with no zero stored |
| `Admission.Admission.Enqueue` | src/server/server.cpp:708-732 | a connection is queued exactly when no limit is reached, flagged exactly when at least the limit of earlier attempts by its host fall in the last second, and every attempt counts |
| `Admission.Admission.PickUp` | src/server/server.cpp:748-755 | the connection that waited longest goes into service |
| `Admission.Admission.Release` | src/server/server.cpp:734-743 | one place is given back and the counts stay right |
| `Admission.RecentAttempts` | src/server/server.cpp:711-717 | pruning from the front leaves just the attempts of the last second |
| `Admission.PrunedCounts` | src/server/server.cpp:712-716 | on ascending times, the pruned length is the number of recent attempts |
| `Admission.PrunedTwice` | src/server/server.cpp:712-714 | having pruned before does not change what pruning leaves |
| `Admission.HostsRemove` | src/server/server.cpp:734-743 | releasing one connection takes its host from the count once |
| `OutputQueues.OutputQueue.Flush` | src/server/server.cpp:253-273 | whatever the socket takes, bytes sent followed by bytes queued stay the bytes enqueued; it drains exactly when nothing is queued; all answers but the last let it go on, and it blocks or fails exactly by the error of a send that took nothing; it keeps a queue stuck or not stuck, and with a socket that takes something each time drains within one send a byte if and only if the queue does not end in an empty buffer and has no sixteen empty ones in a row |
| `OutputQueues.OutputQueue.Enqueue` | src/server/server.cpp:244-251 | refused exactly past the backpressure limit, and else the bytes join the stream |
| `OutputQueues.OutputQueue.Consume` | src/server/server.cpp:319-331 | the loop ends and drops exactly the bytes sent |
| `OutputQueues.OutputQueue.SendScattered` | src/server/server.cpp:279-317 | what the socket takes is the front of the queue |
| `OutputQueues.WindowIsFront` | src/server/server.cpp:298-306 | up to sixteen slices hold the front of what is queued |
| `OutputQueues.StaysStuck` | src/server/server.cpp:279-331 | whatever one send takes of a queue that ends in an empty buffer or has sixteen in a row, the queue stays such a one |
| `OutputQueues.StaysFree` | src/server/server.cpp:319-331 | consuming from any other queue leaves it another |
| `OutputQueues.FreeSends` | src/server/server.cpp:298-306 | and its next send has bytes to offer |
| `OutputQueues.StuckExamples` | src/server/server.cpp:253-273 | one empty buffer, or sixteen before a byte, never drain; an empty first or middle buffer does no harm |

## Left out

- Machine-integer wrap of positions, path costs, priorities and of access, id and state counters: they are unbounded; the 16-bit item counts, 32-bit totals, location words and packed words are modelled as they wrap.
- Threads: each method runs under its lock, so a run is a sequence of calls; shutdown, which closes waiting connections, is not modelled.
- Navigation.FindPath: the order among equal queue entries is arbitrary and the passability callback is a fixed function; a missing callback, which the program also answers with no path, is not modelled.
- Goals: what a goal's callbacks answer is an arbitrary function of the goal and of all calls made before; callbacks that change the selector are not modelled.
- ChunkCache: the generator is an arbitrary function, storage is a map that does not fail and gives contents back as `ChunkEdits.Reloaded`, a cached chunk holds its content as a value that `ChunkEdits.Perform` ties to the arrays of `Chunks.Chunk`, and the destructor's last save is not modelled.
- FallingColumn.SettleFallingColumn: the column is an array, not read and written through the chunk cache, and the heightmap changes that go with it are those of `Chunks`.
- Chunks.Chunk: the blocks of all sections lie in one array and the nested loops over z and x run over the index they compute.
- RegionFiles: zlib is a pair of functions that undo each other; file creation, timestamps and crashes between the three writes of one record are not modelled.
- RegionFiles.RegionFile.Write: only for files whose table is sound, as every file this class writes has.
- Entities: entities are records in a table; uuids, transforms, ticks, deaths, attributes and external passengers are not modelled.
- NbtStream.ByteBuffer: of what a refused write appends only the type byte is stated.
- Items: a stack is a value, as containers hold it; wear and tear of tools is not modelled.
- Containers.Container: a slot validator looks at the slot and the kind of a stack, as the armour validator does, not at its count.
- Crafting.CraftingManager.CraftOnce: manager and output share one item registry.
- Recipes: the catalogue of built-in recipes and the loader of recipe files are data.
- Palette.Decode: the decoder is the reading of the format that the integration test gives, with the form of values that are not indices added.
- Palette.WritePacked: or-ing a value into zero bits is written as an addition, the bits being zero.
- Experience.ExperienceFromTotal: progress is a real number, not a rounded float; it stays one float step below one, so rounding cannot reach one.
- OutputQueues: the socket is a sequence of answers; waiting for it ends or fails.
- Packet loops, field-by-field packet encoders, physics, terrain, registry loaders and command parsing: long but shallow, or rounding and noise.
