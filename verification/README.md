# WaterStructure in Dafny

WaterStructure converts Minecraft structure files between formats and writes them
into Bedrock worlds. Its fast paths stream: they never hold a whole structure, and
each must agree with a simple meaning. This project models those paths in Dafny and
proves the agreement. `dafny verify dfyconfig.toml` checks everything.

## What is modelled

**BDX to world.** `BdxStructure::write_to_world` keeps a write-back cache: live
chunks under an approximate LRU, two direct-mapped lookaside tables, a remembered
last subchunk, a queue of asynchronous saves, a byte-budgeted LRU of encoded
payloads, and the store. `WorldCaches` has all of these as mutable state
with aliasing; `FlatWorld` is the meaning, one map updated in placement order;
`WorldSinks.WriteToWorld` proves that the store ends up with exactly that map for
any limits and any order, element by element, and `BdxConversions.Convert` extends
this back to the decompressed bytes.

**BDX command machine.** `BdxMachine` is one command at a time. `BdxBatches` and
`BdxReaders` show that batched runs and the bounds-only window scanner compute the
same however the bytes are cut into windows. `BdxExecutables` says exactly which
streams the full reader accepts, `PlainMachines` when the lookup memos make no
difference. `BdxFormats` lays every command out byte for byte. `BdxWriters` models
`write_bdx` and proves that reading its output back gives the structure's blocks.

**BDX placement spool.** `PlacementSpools` is the sharded append log with its LRU of
open streams, its reader and the fallback without it; `AirPlacements` compares its
answers with the world's; `SpoolLeases` is the protocol of builders, readers and
invalidators over one mutex.

**Concurrency.** `ChunkStreams` and `ThreadPools` are step systems: each step is one
critical section or one call outside it, a condition wait is a step enabled while
its predicate holds, and the theorems range over all runs.

**Comparison oracles and text.** `Canonicals`, `CanonicalStates`, `CanonicalFields`
(canonical encodings and RFC 6901 paths), `BlockStateRoundTrips` (printer and
parser of BDX block states), `CanonicalForms` (both of them byte for byte), `FuHongCiphers` and `FuHongStreams` (the FuHongV5 rune
cipher over UTF-8), `AxiomPacking`, `AxiomRegions` and `AxiomBps` (bit-packed
palettes and regions).

**Streaming JSON.** `JsonEvents` relates documents to parser events.
`RootArraySaxes` rebuilds root array entries, `GangBanStreams` turns them into blocks
(field groups of V5, deltas of V6 and V7, two passes), `FormatProbes` detects formats,
`JsonPasses`, `JsonNodes` and the `Cov` modules are CovStructure's three passes; each
is equated with one reading of the whole tree. The three CovStructure handlers share
their frame and serial handling, so it is written once, as `JsonPasses.SaxHandler`,
and proved once to be a walk over the tree. `CovDocuments` and `CovPlainDocuments`
state what a document gives without the passes.

**Materialisers and matching.** `SparseStores`, `BcfStructures`, `Constructions` and
`ChunkIndexes` turn a map, a list of cuboids, a list of sections and an indexed list
into chunk layers; `JavaMatching` picks runtime ids for Java block states
independently of hash-map order.

## Where the code differs from what one would expect

Each of these is a lemma with a concrete case, an exact condition, or both.

- A batched run touches the subchunks of its all-air segments, so these are saved as
  air; single blocks do not (`FlatWorld.RunTouchesMoreExactlyWhen`).
- The state memo of the BDX reader remembers that a constant was missing: a pair used
  too early stays air for good (`PlainMachines.EarlyUseStaysAir`), while streams that
  define constants in time never notice (`PlainMachines.RunIsPlain`).
- The bounds-only reader accepts streams the full one rejects
  (`BdxExecutables.RunsExactlyWhen`, `BdxMachine.BoundsAloneCanSucceed`).
- The pool cache starts out naming pool 255 and empty, so that pool looks empty until
  another one has been used (`BdxExecutables.UnusedPoolLooksEmpty`).
- The world path never sees air placements, while the spool replays them: air erases
  in chunks read through the spool, not in the world
  (`AirPlacements.AnswersDifferExactlyWhen`).
- A would-be spool builder does not re-check invalidation after its second wait:
  building and removing can overlap (`SpoolLeases.OverlapBeginsExactlyWhen`), and a
  directory still being read can be forgotten (`SpoolLeases.RebuildLeaks`,
  `SpoolLeases.LeakBeginsExactlyWhen`), for good (`SpoolLeases.LeaksAreForever`).
- Printed block states come back exactly when there are at most 128 properties, no
  name ends in a backslash and at most the last string value does
  (`BlockStateRoundTrips.TextRoundTripsExactlyWhen`).
- The canonical block state encoding is coarser than equality for values with leading
  zeros or beyond their type (`CanonicalStates.CanonicalStatesAgreeExactlyWhen`,
  `CanonicalStates.NonCanonicalValuesCollide`).
- `SparseBlockStore` loses out-of-bounds blocks in chunk columns that do not meet the
  declared size (`SparseStores.SparseBlockStore.GetChunk`,
  `SparseStores.OverlayBlockLost`).
- The BCF block counter is too small for records that name their larger corner first
  (`BcfStructures.CountIsExactExactlyWhen`).
- CovStructure's non-air count includes elements past the volume and palette index -1,
  which are never placed (`CovBlocks.CountMatchesExactlyWhen`).
- A GangBan block placed over a container keeps the container's block entity
  (`GangBanStreams.EntityIsForeignExactlyWhen`).
- An AxiomBP structure comes back smaller when one of its far planes is all air
  (`AxiomBps.SizeComesBackExactlyWhen`).
- The 32-bit `floor_div` is not a floor for negative divisors; every caller passes 16
  (`Coordinates.FloorDivIsFloorExactlyWhen`).

## Reading the model

Encoded payloads are values that decode to what was encoded; the store maps subchunk
positions to payloads. Registries, resolved palettes, hash-map iteration orders and
text comparisons enter as parameters or nondeterministic choices. Errors are
`Option` or boolean results without text. Steps that can fail outside the modelled
code (encoding, saving, fetching chunks, sinks) may fail at any time; the world
cache records in `storeFailed` that one did. Integers are
unbounded, with the widths that matter written out.

## Model

| member | source | states |
|---|---|---|
| Coordinates.FloorDivIsFloorExactlyWhen | include/WaterStructure/coordinates.hpp:11-16 | the 32-bit `floor_div` is a floor exactly when the divisor is positive or divides the value |
| Coordinates.NegativeDivisorIsNoFloor | include/WaterStructure/coordinates.hpp:11-16 | concrete: 7 by -2 |
| Coordinates.FloorDiv64IsFloor | include/WaterStructure/coordinates.hpp:23-29 | the 64-bit form is a floor for every non-zero divisor |
| Coordinates.NativeBlockUndoesIndex | src/formats/bdx.cpp:2825-2836 | subchunk position and native cell index together determine the absolute position |
| Coordinates.IndexUndoesNativeBlock | src/formats/bdx.cpp:2825-2836 | every cell of every subchunk has an absolute position that leads back to it |
| ColdPayloads.ColdCache.Insert | src/formats/bdx.cpp:2350-2388 | payloads are split without loss between cache and evicted batch, the batch is the old end of the list and no longer than needed, bytes equal the sum of charges and stay within the limit |
| ColdPayloads.ColdCache.EvictToLimit | src/formats/bdx.cpp:2372-2386 | eviction loses nothing and stops at the first fit: the last evicted payload would not have fitted |
| ColdPayloads.ColdCache.InsertAll | src/formats/bdx.cpp:2484-2521 | a whole saved batch enters the cold cache; the displaced payloads are exactly what the cache no longer has |
| ColdPayloads.ColdCache.TakeOldest | src/formats/bdx.cpp:3208-3221 | the final drain takes the oldest payloads in order, and they are gone from the cache |
| ColdPayloads.SplitAgain | src/formats/bdx.cpp:2372-2386 | two evictions in a row compose to one without loss |
| ColdPayloads.ApplyTwice | src/formats/bdx.cpp:2372-2386 | batches that name different positions reach the store in either order |
| WorldCaches.WorldCache.InvalidateChunkLookaside | src/formats/bdx.cpp:2472-2483 | no lookaside entry names a chunk that leaves; all others are unchanged |
| WorldCaches.WorldCache.CompleteNextPendingSave | src/formats/bdx.cpp:2484-2521 | the oldest queued batch moves to the cold cache and the store, the flat contents staying the same; failures are reported |
| WorldCaches.WorldCache.FlushChunks | src/formats/bdx.cpp:2523-2579 | flushed chunks leave the cache for the queue, whose length stays within the worker limit |
| WorldCaches.WorldCache.LeastRecent | src/formats/bdx.cpp:2587-2598 | the chosen chunks are cached, distinct, as many as wanted, and none is younger than one that stays |
| WorldCaches.WorldCache.FlushOldest | src/formats/bdx.cpp:2581-2600 | flushing by age keeps the cache consistent and moves no younger chunk before an older one |
| WorldCaches.WorldCache.AwaitChunk | src/formats/bdx.cpp:2640-2656 | afterwards the chunk is in no queued batch |
| WorldCaches.WorldCache.AcquireChunk | src/formats/bdx.cpp:2602-2665 | the result is the one live chunk at the position, cache and queue limits hold, contents unchanged |
| WorldCaches.WorldCache.AcquireSubChunk | src/formats/bdx.cpp:2667-2797 | the result is the one live layer of the position holding its current contents, reloaded from wherever it was, air if new |
| WorldCaches.WorldCache.MaterializeLayer | src/formats/bdx.cpp:2712-2797 | a layer missing from memory comes back with its current contents, or as air if it was never touched; nothing else changes |
| WorldCaches.WorldCache.Locate | src/formats/bdx.cpp:2831-2834 | the remembered last subchunk is the live layer of the wanted position |
| WorldCaches.WorldCache.Overwrite | src/formats/bdx.cpp:2837-2838 | writing through the remembered pointer changes exactly that subchunk of the model |
| WorldCaches.WorldCache.WriteCell | src/formats/bdx.cpp:2835-2838 | one cell of one subchunk changes, nothing else |
| WorldCaches.WorldCache.WriteSegment | src/formats/bdx.cpp:2945-2962 | bulk copy and air-skipping loop write the same non-air cells |
| WorldCaches.WorldCache.Authoritative | src/formats/bdx.cpp:2667-2797 | at every moment the live layer, else the queued save, else the cold payload, else the flushed store payload, else air is what the model says |
| WorldCaches.WorldCache.DrainCold | src/formats/bdx.cpp:3208-3237 | the cold cache empties into the store |
| WorldCaches.WorldCache.Drain | src/formats/bdx.cpp:3199-3237 | after the three drains the store holds the model for every touched subchunk and is unchanged elsewhere |
| CacheLevels.CopiesAgree | src/formats/bdx.cpp:2336-2388 | every copy of a subchunk in memory, in the queue or in the cold cache is current |
| CacheLevels.SettleAll | src/formats/bdx.cpp:2484-2521 | completing a save keeps every consistency condition of the levels |
| FlatWorld.CellAfterRun | src/formats/bdx.cpp:2866-2994 | a run written in segments puts exactly its non-air cells at consecutive z |
| FlatWorld.RunWritesWhatBlocksWrite | src/formats/bdx.cpp:2807-2994 | segment-wise writing and per-block routing leave the same block at every position |
| FlatWorld.RunTouchesMoreExactlyWhen | src/formats/bdx.cpp:2934-2962 | the two differ in the touched subchunks exactly where a segment holds nothing but air |
| FlatWorld.AirRunTouches | src/formats/bdx.cpp:2934-2962 | a concrete all-air run that touches a subchunk no block would touch |
| FlatWorld.PlacedIsFlat | src/formats/bdx.cpp:2807-2994 | folding all placements into layers is folding them into one flat map |
| FlatWorld.PlacedTouches | src/formats/bdx.cpp:2807-2994 | the touched subchunks are exactly those some placement lands in or passes through |
| FlatWorld.SetIsTouched | src/formats/bdx.cpp:2807-2994 | every position the stream sets lies in a touched subchunk |
| WorldSinks.LimitsFitTheBudget | src/formats/bdx.cpp:2243-2314 | each limit is the largest that fits the budget, or 8 MiB: cached chunks, workers, flushes at once, cold payload bytes |
| WorldSinks.WorldSink.ConsumeBlock | src/formats/bdx.cpp:2807-2838 | one block lands at its target, or is refused because the target is out of range or the store failed |
| WorldSinks.WorldSink.ConsumeZRun | src/formats/bdx.cpp:2866-2994 | a whole run lands at its targets, or is refused because an end of it is out of range or the store failed; the remembered route stays true |
| WorldSinks.WorldSink.Resolve | src/formats/bdx.cpp:2876-2916 | the continuation shortcut computes the route a fresh computation would |
| WorldSinks.WriteToWorld | src/formats/bdx.cpp:2243-3237 | for any limits and placement order: success exactly when the stream parsed, the store never failed and every cell lands in the world (y from -64 to 319); then element k of every touched subchunk is the last non-air placement whose position, less the minimum, plus offset and start, is that element's position, air if there is none; the rest of the store is unchanged |
| BdxBytes.CStringExtent | src/formats/bdx.cpp:451-475 | reading and skipping a string stop together; reading succeeds exactly when skipping does and the string is short enough |
| BdxCommands.PassFollowsDecode | src/formats/bdx.cpp:1404-1609 | wherever the full decoder accepts a command the skipping one ends at the same byte with the same motion |
| RuntimeMemos.StateOfIsMeaning | src/formats/bdx.cpp:1076-1101 | a truthful state memo (direct-mapped slot and map) never changes a lookup |
| RuntimeMemos.LegacyOfIsMeaning | src/formats/bdx.cpp:1049-1064 | a lookup through the legacy memo answers what the registry does and keeps it exact |
| RuntimeMemos.StatesSurviveDefinitionExactlyWhen | src/formats/bdx.cpp:1076-1101 | defining a constant keeps the state memo truthful exactly when the registry answers air for every remembered pair the constant completes |
| RuntimeMemos.EarlyUseIsRemembered | src/formats/bdx.cpp:1076-1101 | concrete: a pair looked up before its state constant exists is still air afterwards |
| RuntimeMemos.LookupRemembers | src/formats/bdx.cpp:1076-1101 | a lookup keeps the two tables in agreement, forgets nothing in the bounded one, and remembers an undefined pair as air |
| PlainMachines.RunIsPlain | src/formats/bdx.cpp:1049-1101 | with the memos every run is the run of the machine without them, unless a constant is defined after a state lookup named its id |
| PlainMachines.DefinedBeforeUseRunsPlainly | src/formats/bdx.cpp:1049-1101 | so it is whenever every state lookup names defined constants only |
| PlainMachines.EarlyUseStaysAir | src/formats/bdx.cpp:1076-1101 | a pair looked up too early, while the bounded table has room, is placed as air after any further commands, which differs from the machine without memos exactly when the registry has come to answer something else |
| BdxMachine.BoundsFollowFull | src/formats/bdx.cpp:1201-1255 | when the full reader succeeds so does the bounds-only one, with the same cursor and box |
| BdxMachine.BoundsAloneCanSucceed | src/formats/bdx.cpp:1102-1112 | a concrete stream only the bounds-only reader accepts |
| BdxExecutables.DecodesExactlyWhen | src/formats/bdx.cpp:451-475 | a command can be decoded exactly when it can be skipped and its strings are within the limit |
| BdxExecutables.RunsExactlyWhen | src/formats/bdx.cpp:1201-1614 | the full reader accepts a stream exactly when the bounds-only one does and every command passes its checks: string lengths, constant limits, pool index, command-block mode, state and NBT parsing, entity limits |
| BdxExecutables.UnusedPoolLooksEmpty | src/formats/bdx.cpp:1102-1112 | concrete: an indexed placement from pool 255 fails until another pool has been used |
| BdxMachine.RunEncloses | src/formats/bdx.cpp:1154-1157 | the final box holds every placement and entity |
| BdxMachine.RebasingSucceeds | src/formats/bdx.cpp:1616-1662 | the size spans the box, both ends included; once it is accepted rebasing cannot fail and subtracts the low corner, staying inside the size |
| BdxBatches.BatchIsSingles | src/formats/bdx.cpp:1257-1402 | a batched run of (5, 18) pairs has the effect of its commands one at a time, failure included |
| BdxReaders.FlatIsCells | src/formats/bdx.cpp:1257-1402 | how consumer calls are batched does not change what they place |
| BdxReaders.BdxReader.CountPairs | src/formats/bdx.cpp:1257-1268 | the look-ahead counts all whole pairs inside the window, and only those |
| BdxReaders.BdxReader.RunBatch | src/formats/bdx.cpp:1266-1402 | the batched path does what the batch means |
| BdxReaders.BdxReader.ReadFull | src/formats/bdx.cpp:1201-1614 | however the bytes are cut into windows the full reader computes the run of single commands |
| BdxFormats.DecodeUndoesLayout | src/formats/bdx.cpp:1404-1609 | every form of every command, laid out field after field behind its code, decodes to the command with those fields, wherever it stands |
| BdxFormats.RunLaid | src/formats/bdx.cpp:1404-1614 | reading any sequence of laid-out commands executes them |
| BdxFormats.FilePlaces | src/formats/bdx.cpp:1404-1609 | a file with one placing command of any code places exactly the block the registry has for its fields at the origin, with its entity, or fails exactly when state text, pool index, mode or entity is refused |
| BdxFormats.FileAttaches | src/formats/bdx.cpp:1404-1609 | a file with one entity command attaches that entity or fails |
| BdxFormats.LegacyFile | src/formats/bdx.cpp:1447-1449 | concrete: eleven bytes that place legacy block "s" with data 3 |
| BdxFormats.NumbersAreWritten | src/formats/bdx.cpp:405-444 | concrete numbers, highest byte first |
| BdxReaders.BoundsReader.ScanWindow | src/formats/bdx.cpp:1202-1254 | the window scanner does what skipping the commands one by one does |
| BdxReaders.BoundsReader.ReadBounds | src/formats/bdx.cpp:1201-1614 | however the bytes are cut the bounds-only reader computes the run of single commands |
| BdxConversions.Convert | src/formats/bdx.cpp:2243-3237 | from bytes to store: success exactly when the single-command run accepts the bytes, the store never failed and every cell lands in the world; then element k of every touched subchunk is the last non-air placement of the run that belongs there, air if there is none |
| BdxConversions.StoreIsStructure | src/formats/bdx.cpp:2807-2838 | for a finished run the block stored at the start subchunk plus p is the last non-air placement the structure has, rebased and moved by the offset, at p |
| AirPlacements.AnswersDifferExactlyWhen | src/formats/bdx.cpp:1133-1153 | the world and the spooled chunks disagree at a position exactly when the last placement there is air and an earlier one was not |
| AirPlacements.AirErasesInChunksOnly | src/formats/bdx.cpp:1133-1153 | concrete: stone, then air |
| BdxEncodings.DecodeUndoesEncode | src/formats/bdx_writer.cpp:135-153 | decoding an emitted command gives it back anywhere in the stream |
| BdxEncodings.RunExecutes | src/formats/bdx_writer.cpp:254-375 | reading the emitted commands executes them |
| StructureCells.AllCellsListed | src/formats/bdx_writer.cpp:326-365 | the chunk, subchunk and cell loops visit exactly the in-bounds non-air blocks, each once |
| StructureCells.ListsAreElements | src/formats/bdx_writer.cpp:326-365 | a list of the solid cells lists exactly the layer elements that are not air, each with the position its subchunk and index give, once |
| BdxWriters.MovesLand | src/formats/bdx_writer.cpp:155-196 | the moves for one axis reach any target, beyond int32 distances too, with all intermediate cursors in int32 |
| BdxWriters.MoveLands | src/formats/bdx_writer.cpp:198-207 | moving axis by axis reaches the target and the box grows by it alone |
| BdxWriters.DefineUnderstood | src/formats/bdx_writer.cpp:304-325 | constant ids match the table the reader builds, or the reader fails |
| BdxWriters.PlaceUnderstood | src/formats/bdx_writer.cpp:304-325 | placing puts the block at the cursor |
| BdxWriters.BdxWriter.AppendMoveAxis | src/formats/bdx_writer.cpp:155-196 | the emitting loop emits those moves |
| BdxWriters.BdxWriter.WriteAll | src/formats/bdx_writer.cpp:326-365 | the nested loops emit the whole walk in fetch batches of any size, failing exactly on a failed fetch or a full palette |
| BdxWriters.WriteBdx | src/formats/bdx_writer.cpp:254-375 | a successful write reads back as exactly the in-bounds non-air blocks, each once, with minimum at the origin; it succeeds exactly when no fetch fails and at most 32768 different blocks occur |
| PlacementRecords.RecordRoundTrip | src/formats/bdx.cpp:61-109 | sixteen-byte records decode to what was encoded |
| PlacementRecords.ReplayIsPerChunk | src/formats/bdx.cpp:2040-2107 | replaying a stream does to each requested chunk what its own records do |
| PlacementRecords.ShardDecidesChunk | src/formats/bdx.cpp:757-770 | all records of a chunk are in its shard, in order |
| PlacementRecords.ChunksHoldLastPlacements | src/formats/bdx.cpp:2021-2107 | every cell is the last placement there, air included, and no all-air subchunk is returned |
| PlacementRecords.ChunksHoldElements | src/formats/bdx.cpp:2078-2107 | element k of subchunk s of chunk c is the last record at (16 c.x + k mod 16, 16 s + 64 + k div 256, 16 c.z + k div 16 mod 16), less the offset, in the stream; a missing subchunk would be all air |
| PlacementSpools.PlacementSpool.Touch | src/formats/bdx.cpp:1778-1800 | opening, closing and reopening streams under the LRU loses no record; at most the limit are open |
| PlacementSpools.PlacementSpool.Append | src/formats/bdx.cpp:1801-1860 | one record reaches the end of its own shard, or is skipped outside the box, or the size limit refuses it |
| PlacementSpools.PlacementSpool.Build | src/formats/bdx.cpp:1774-1883 | the shards hold the in-box records of the stream, each shard in stream order |
| PlacementSpools.AllHeld | src/formats/bdx.cpp:1774-1883 | together the shards hold every record once |
| PlacementSpools.PersistedSize | src/formats/bdx.cpp:1861-1883 | the persisted size is the counted one |
| PlacementSpools.ReadShard | src/formats/bdx.cpp:2040-2107 | an intact shard file is read without error, record by record |
| PlacementSpools.GetChunks | src/formats/bdx.cpp:1972-2107 | reading only the requested shards gives what sequential replay of everything gives, element by element the last record at its position |
| PlacementSpools.GetChunksDirectly | src/formats/bdx.cpp:2117-2191 | the fallback without a spool gives the same answer, element by element |
| SpoolLeases.RunsKeepInv | src/formats/bdx.cpp:1729-1970 | over all interleavings: at most one builder and one invalidator, and the reader count is exact |
| SpoolLeases.ReadersKeepTheirDirectory | src/formats/bdx.cpp:873-907 | no step of any run removes a directory a registered reader holds |
| SpoolLeases.OverlapBeginsExactlyWhen | src/formats/bdx.cpp:1740-1762 | building and removing overlap exactly when a second waiter proceeds during an invalidation |
| SpoolLeases.RebuildBeginsExactlyWhen | src/formats/bdx.cpp:1740-1762 | building over a published directory begins exactly where a second waiter proceeds during an invalidation |
| SpoolLeases.LeakBeginsExactlyWhen | src/formats/bdx.cpp:1729-1970 | in every run a directory is forgotten exactly when a builder publishes or fails over it, or a removal does not succeed |
| SpoolLeases.RebuildLeaks | src/formats/bdx.cpp:1740-1762 | a reachable state in which a directory still being read is forgotten |
| SpoolLeases.LeaksAreForever | src/formats/bdx.cpp:873-907 | no continuation of any run removes a forgotten directory |
| SpoolLeases.NoDeadlock | src/formats/bdx.cpp:1740-2017 | while some thread is unfinished, some unfinished thread can step |
| ChunkStreams.BoundedAndOrdered | src/core/chunk_stream.cpp:35-116 | the queue never exceeds its bound and what was delivered is a prefix of what was accepted, in order |
| ChunkStreams.SuccessMeansComplete | src/core/chunk_stream.cpp:141-167 | success means everything produced was delivered and `finish` ran once |
| ChunkStreams.FailureMeansUnfinished | src/core/chunk_stream.cpp:141-167 | after any failure the sink is cancelled and never finished |
| ChunkStreams.FinishIsLast | src/core/chunk_stream.cpp:141-167 | nothing is delivered after `finish` |
| ChunkStreams.RunsAreFinite | src/core/chunk_stream.cpp:35-116 | a finite producer makes every run finite, with an explicit bound |
| ChunkStreams.NeverStuck | src/core/chunk_stream.cpp:35-116 | no reachable state before the return is stuck |
| ChunkStreams.BackpressureIsReleased | src/core/chunk_stream.cpp:35-116 | when a push blocks, the consumer can step |
| ChunkStreams.CapacityFits | src/core/chunk_stream.cpp:118-134 | the window is the largest of at most 128 chunks, within the request, that fits the budget at 2 MiB a chunk, one chunk being always allowed |
| ChunkBatches.GridBatches | src/core/chunk_stream.cpp:201-226 | the batches cover every grid column exactly once, in order, and only the last may be short |
| ChunkBatches.PositionBatches | src/core/chunk_stream.cpp:180-199 | the batches are consecutive slices that concatenate to the list |
| ThreadPools.BoundedFifoOnce | src/core/bounded_thread_pool.hpp:49-117 | over all interleavings the queue stays within the capacity it was made with, tasks leave in FIFO order and none runs twice |
| ThreadPools.NoneAfterShutdown | src/core/bounded_thread_pool.hpp:58-67 | nothing is accepted once the shutdown has begun |
| ThreadPools.DestroyedMeansAllRan | src/core/bounded_thread_pool.hpp:36-47 | destruction returns only when every accepted task has run exactly once |
| ThreadPools.FullQueueDrains | src/core/bounded_thread_pool.hpp:58-62 | a submission blocked on a full queue is not stuck |
| ThreadPools.DestructorProceeds | src/core/bounded_thread_pool.hpp:36-47 | the destructor is never stuck: while it waits, it or a worker can step |
| ThreadPools.WorkIsUsedUp | src/core/bounded_thread_pool.hpp:98-117 | worker and owner steps use up a measure, so destruction takes boundedly many |
| Decimals.ParseUndoesDecimal | src/core/canonical.cpp:37-45 | parsing a printed integer gives it back exactly within the type's range |
| Canonicals.TagUnique | src/core/canonical.cpp:74-137 | no encoding continues another: equal streams start with equal trees |
| Canonicals.CanonicalNbtIsInjective | src/core/canonical.cpp:210-221 | two trees encode equally exactly when they are equal |
| CanonicalForms.ByteOfInteger | src/core/canonical.cpp:18-26 | byte i of an integer is its value shifted down by 8i bits |
| CanonicalForms.TreesAreWritten | src/core/canonical.cpp:74-137 | scalar trees and texts byte for byte, type codes 1 to 6 and 8 |
| CanonicalForms.ArraysAreWritten | src/core/canonical.cpp:103-133 | arrays byte for byte, type codes 7, 11 and 12 |
| CanonicalForms.ContainersAreWritten | src/core/canonical.cpp:109-123 | a list and a compound byte for byte, type codes 9 and 10 |
| CanonicalForms.OrderMeans | src/core/canonical.cpp:195-199 | properties are ordered by name, then type, then value, texts by their first different byte |
| CanonicalBuffers.Buffer.AppendInteger | src/core/canonical.cpp:18-26 | the shifting loop appends the little-endian two's complement form |
| CanonicalBuffers.Buffer.AppendTag | src/core/canonical.cpp:74-137 | the recursive in-place encoder appends the encoding and touches nothing before it |
| CanonicalStates.SortProperties | src/core/canonical.cpp:189-208 | sorting yields an ordered permutation |
| CanonicalStates.SortedIsUnique | src/core/canonical.cpp:189-208 | equal contents sort alike, whatever order they came in |
| CanonicalStates.CanonicalBlockState | src/core/canonical.cpp:189-208 | the method computes the canonical encoding, or fails on an unparsable value |
| CanonicalForms.StateIsWritten | src/core/canonical.cpp:47-72 | a state with a property of every kind, byte for byte |
| CanonicalStates.PropertiesAlikeExactlyWhen | src/core/canonical.cpp:37-72 | property encodings are self-delimiting and agree exactly on equal names, types and texts, numbers counting modulo the width of the type |
| CanonicalStates.CanonicalStatesAgreeExactlyWhen | src/core/canonical.cpp:189-208 | for distinct property names two states encode equally exactly when names and versions agree and every property of one means what one of the other does, in any order |
| CanonicalStates.CanonicalStateIsInjective | src/core/canonical.cpp:47-72 | with canonical values two states encode equally exactly when names, versions and property multisets agree |
| CanonicalStates.NonCanonicalValuesCollide | src/core/canonical.cpp:37-72 | concrete different states that encode alike: leading zeros and out-of-type numbers |
| CanonicalFields.PathsIdentifyNodes | src/core/canonical.cpp:139-177 | equal paths lead to the same node (escaping of section 3 of RFC 6901) |
| CanonicalForms.PathIsWritten | src/core/canonical.cpp:139-149 | concrete path with both escapes |
| CanonicalFields.CollectedIsRendered | src/core/canonical.cpp:151-177 | the collected fields are the nodes of the tree under their paths |
| CanonicalFields.FieldPathsAreUnique | src/core/canonical.cpp:223-241 | field paths are pairwise different and never empty, and each field holds the encoding of a node below the root |
| CanonicalFields.FieldsAreTheNodes | src/core/canonical.cpp:223-241 | the fields are exactly those of the nodes below the root: none is missing, none made up |
| BlockStateRoundTrips.TextRoundTripsExactlyWhen | src/formats/bdx.cpp:519-601 | for properties in any order, `parse_block_states(state_string(s))` gives them back exactly when there are at most 128, no name ends in a backslash, and only the last may have a string value that does |
| BlockStateRoundTrips.BackslashNameIsLost | src/formats/bdx.cpp:519-601 | concrete: a name ending in a backslash |
| BlockStateRoundTrips.OrdinaryTextRoundTrips | src/formats/bdx_writer.cpp:209-242 | without final backslashes every state round trips, commas, quotes, separators and brackets included |
| BlockStateRoundTrips.UnquoteUndoesQuoted | src/formats/bdx.cpp:527-537 | `unquote` undoes the escaping |
| BlockStateRoundTrips.UncleanPart | src/formats/bdx.cpp:539-601 | a property whose closing quote is missed is read as another or fails the parse |
| BlockStateLoops.StateText | src/formats/bdx_writer.cpp:220-242 | the printing loop prints the properties ordered by name, those of one name in any order |
| BlockStateLoops.ParseContents | src/formats/bdx.cpp:539-601 | the one-scan parsing loop computes the part-wise parse |
| CanonicalForms.StateTextIsWritten | src/formats/bdx_writer.cpp:209-242 | a printed state character for character |
| CanonicalForms.OtherTextIsRead | src/formats/bdx.cpp:519-601 | concrete: braces, a colon, blanks and upper case are read too |
| FuHongCiphers.DecodeUndoesAppend | src/formats/fuhong_writer.cpp:183-218 | decoding an appended rune gives it back (section 3 of RFC 3629) |
| FuHongCiphers.DecryptOfEncode | src/formats/fuhong_writer.cpp:220-238 | decrypting an encoded text normalises it |
| FuHongCiphers.CipherRoundTripsExactlyWhen | src/formats/fuhong_writer.cpp:220-238 | decryption returns the text exactly when it is non-empty well-formed UTF-8 (section 4 of RFC 3629) |
| FuHongCiphers.MaskedTextDecrypts | src/formats/fuhong.cpp:456-583 | text whose runes are masked bit by bit by the characters of "FuHongBuild" in turn and shifted by 0, 1, 2 in turn is what is written for the plain text, and decrypts to it |
| FuHongCiphers.Utf8Examples | src/formats/fuhong_writer.cpp:202-218 | concrete characters of each UTF-8 length (section 3 of RFC 3629) |
| FuHongStreams.EncodeV5 | src/formats/fuhong_writer.cpp:220-238 | the encoding loop computes the cipher |
| FuHongStreams.DecryptBuffer.Underflow | src/formats/fuhong.cpp:456-583 | one refill of the output window continues the decryption where the last one stopped, rune index included |
| FuHongStreams.DecryptBuffer.ReadAll | src/formats/fuhong.cpp:456-583 | window after window the whole text is decrypted, whatever the input window |
| FuHongStreams.EncodeAndDecrypt | src/formats/fuhong.cpp:456-583 | the round trip through the streams, for all window sizes of at least four |
| AxiomPacking.WidthFits | src/formats/axiom_bp_writer.cpp:96-101 | every index fits the width chosen for its palette |
| AxiomPacking.PackIndices | src/formats/axiom_bp_writer.cpp:103-121 | the or-ing loop stores every index in its field and leaves the rest zero |
| AxiomPacking.UnpackUndoesPack | src/formats/axiom_bp.cpp:296-321 | unpacking gives every index back for every palette up to 4097 entries |
| AxiomRegions.RegionsCover | src/formats/axiom_bp_writer.cpp:213-216 | `region_count` regions cover every cell, with exactly 0, 1 or 2 too many depending on where the far plane lies in its region |
| AxiomRegions.EncodeRegion | src/formats/axiom_bp_writer.cpp:245-293 | cell k of a region is kept in the narrowest fields of at least four bits that tell the palette apart, lowest first, none across two words, and names the block at (16 x + k mod 16, 16 y + k div 256, 16 z + k div 16 mod 16) |
| AxiomBps.WrittenCells | src/formats/axiom_bp_writer.cpp:245-293 | the written regions list exactly the solid cells |
| AxiomBps.ReadAxiom | src/formats/axiom_bp.cpp:182-328 | the reader lists the cells of all regions relative to the lowest one, with their number and the size they reach, or refuses a span beyond int32 |
| AxiomBps.WriteAxiom | src/formats/axiom_bp_writer.cpp:167-305 | the writer succeeds exactly when nothing else fails, the extents are positive and the volume is within int32; its regions then encode the grid |
| AxiomBps.FewerRegionsThanCells | src/formats/axiom_bp_writer.cpp:212-223 | there are never more regions than cells, so the guard on their number only repeats the one on the volume |
| AxiomBps.SizeComesBackExactlyWhen | src/formats/axiom_bp.cpp:277-323 | the size read back is the written one exactly when no far plane is all air |
| AxiomBps.WriteAndRead | src/formats/axiom_bp.cpp:182-328 | writing then reading returns exactly the in-bounds non-air blocks, each once and where it was; it succeeds exactly when nothing else fails, the extents are positive, the volume is within int32 and so are the region spans; the size comes back exactly when no far plane is all air |
| AxiomBps.LargeVolumeIsRefused | src/formats/axiom_bp_writer.cpp:178-181 | concrete: 2000 x 2000 x 2000 fits the reader but not the writer |
| SparseStores.SparseBlockStore.Put | src/core/decoded_structure.cpp:31-44 | the map, the overlay and the non-air count stay exact |
| SparseStores.SparseBlockStore.SetSize | include/WaterStructure/decoded_structure.hpp:20-25 | changing the size keeps the overlay right exactly when it is not wanted or the same blocks are outside both sizes |
| SparseStores.SparseBlockStore.GetChunk | src/core/decoded_structure.cpp:62-138 | a chunk shows, element by element, exactly the visible blocks of its column, or nothing where the column misses the declared size; so it is right exactly when the column meets the size or holds nothing solid |
| SparseStores.OverlayBlockLost | src/core/decoded_structure.cpp:82-82 | a concrete out-of-bounds block that no chunk shows |
| BcfStructures.BcfStructure.ScanSections | src/formats/bcf.cpp:260-344 | each pass visits the kept records of all sections in order and refuses exactly when a limit is passed |
| BcfStructures.BcfStructure.Read | src/formats/bcf.cpp:345-361 | reading succeeds exactly when something is kept within the limits; regions are the kept records rebased to tight bounds |
| BcfStructures.RebasedMeansTheSame | src/formats/bcf.cpp:280-297 | rebasing keeps the last covering record of every position |
| BcfStructures.CountIsExactExactlyWhen | src/formats/bcf.cpp:298-324 | the block counter never exceeds the expanded volume and equals it exactly when every record names its smaller corner first |
| BcfStructures.ReversedRecordIsMiscounted | src/formats/bcf.cpp:298-324 | concrete: two blocks counted as none |
| BcfStructures.BcfStructure.GetChunk | src/formats/bcf.cpp:375-438 | a chunk shows, element by element, the last covering region of every position, or fails exactly when the offset moves one of its regions out of the y range |
| BcfStructures.ReadAndShow | src/formats/bcf.cpp:375-438 | reading then materialising shows, element by element, the last kept record that reaches the position between its two corners from the section's origin, relative to the tight lower corner; nothing lies outside the size |
| Constructions.SkippedSectionHasNothing | src/formats/construction.cpp:737-772 | the prefilter drops nothing a requested chunk shows |
| Constructions.PlaceRow | src/formats/construction.cpp:840-873 | a row places its non-air in-bounds cells, or fails exactly on a y beyond int32 |
| Constructions.MaterializeChunks | src/formats/construction.cpp:707-882 | every requested chunk shows, element by element, the last non-air section entry at every position; failure exactly when a requested section fails |
| Constructions.ListedBlock | src/formats/construction.cpp:840-850 | at the position the digits of n give, a section has the palette entry its n-th index names, or the unknown block |
| Constructions.FailsAfterReadingExactlyWhen | src/formats/construction.cpp:707-882 | after a successful read materialising fails exactly when the footprint of a requested section leaves int32 once moved, or a solid block a chunk should show does |
| Constructions.FittingStructuresNeverFail | src/formats/construction.cpp:707-882 | so it never fails for a moved structure within int32 |
| ChunkIndexes.BucketsPartition | include/WaterStructure/chunk_index.hpp:22-44 | every index is in the bucket of its own chunk, once, in order, and in no other |
| ChunkIndexes.ChunkBlockIndex.Ensure | include/WaterStructure/chunk_index.hpp:22-43 | groups once until cleared, and refuses more blocks than 32-bit indices name |
| ChunkIndexes.BucketReplaysTheList | include/WaterStructure/chunk_index.hpp:46-50 | replaying a bucket is replaying the whole list into that chunk |
| ChunkIndexes.IndexedStructure.GetChunk | src/formats/runaway.cpp:147-171 | a chunk read through the index shows, element by element, the last block at each position |
| ChunkIndexes.WorldsAnswer | src/formats/runaway.cpp:147-171 | the list moved by the offset, looked up at a position, is the list looked up the offset back |
| RootArraySaxes.FeedsLikeAppend | src/formats/gangban.cpp:191-324 | the events of a document do what appending its tree does |
| RootArraySaxes.RootArrayIsHandedOn | src/formats/gangban.cpp:191-324 | a root array hands on exactly (i, A[i]) in order; other roots are refused |
| RootArraySaxes.BrokenDocumentHandsOnAPrefix | src/formats/gangban.cpp:253-267 | a document that breaks off has handed on only right entries |
| RootArraySaxes.ForEachRootEntry | src/formats/gangban.cpp:326-352 | the handler class driven over a whole document, with `finish` |
| GangBanStreams.ReadV5 | src/formats/gangban.cpp:1154-1193 | the loop that groups fields into blocks computes the grammar of the stream |
| GangBanStreams.ResumeIsGrammar | src/formats/gangban.cpp:1171-1192 | stopping between any two entries and going on is reading the grammar, truncation included |
| GangBanStreams.GrammarUndoesLayOut | src/formats/gangban.cpp:1171-1192 | laid-out V5 blocks read back as they were, payloads included |
| GangBanStreams.ReadDeltas | src/formats/gangban.cpp:1195-1236 | the delta cursor computes the trail of its entries, or fails where one is malformed or leaves int32 |
| GangBanStreams.TrailUndoesDeltas | src/formats/gangban.cpp:1195-1236 | adding the deltas up undoes taking them |
| GangBanStreams.Materialize | src/formats/gangban.cpp:1121-1153 | both passes: success exactly when there is a block, each is a command block or within the palette, and the bounds fit; then every cell holds the block that stands there last and the block entity that came there first, measured from the tight lower bound, and nothing else is held |
| GangBanStreams.EntityIsForeignExactlyWhen | src/formats/gangban.cpp:1148-1151 | block and block entity at a position come from different blocks exactly when an earlier block there has a payload that becomes one |
| GangBanStreams.ContainerEntityStays | src/formats/gangban.cpp:1148-1151 | concrete: a block over a container keeps its block entity |
| FormatProbes.RecordedShape | src/formats/format_registry.cpp:414-441 | recording a member is reading the longer object, last value winning |
| FormatProbes.FeedsElement | src/formats/format_registry.cpp:556-611 | a whole root element leaves its shape in the rolling summary |
| FormatProbes.SummaryIs | src/formats/format_registry.cpp:644-661 | the summary holds first, second, last but one and last shape and whether all are alike |
| FormatProbes.ProbeReadsTheTree | src/formats/format_registry.cpp:397-685 | accepted exactly within the depth limit, and `detected()` is the tree's answer |
| FormatProbes.Detect | src/formats/format_registry.cpp:504-551 | the class driven over a document answers each format exactly when the document is one: nested at most 256 deep, with the keys and elements that format needs and without those of the formats asked for first |
| FormatProbes.DetectedTable | src/formats/format_registry.cpp:506-551 | the decision format by format, on the members of the root object or the elements of the root array |
| JsonPasses.FeedsLikeWalk | src/formats/covstructure.cpp:357-400 | the frame stack does no more than a walk over the tree; nesting beyond 1024 is refused |
| JsonPasses.SaxHandler.BeginValue | src/formats/covstructure.cpp:357-392 | every value gets the next serial, in every pass alike |
| JsonPasses.ParseSax | src/formats/covstructure.cpp:988-1000 | a pass over a document yields the outcome of the walk |
| JsonNodes.LocatedNode | src/formats/covstructure.cpp:226-241 | a serial found in one pass names the same value in another |
| JsonNodes.PassSelects | src/formats/covstructure.cpp:934-973 | a pass with a selected serial is the walk of that value alone |
| CovBlocks.PassFlattens | src/formats/covstructure.cpp:834-973 | the third pass emits the flattened elements of the selected value in order, or fails on nesting beyond 128 |
| CovBlocks.PlacedExactly | src/formats/covstructure.cpp:883-932 | the k-th element below the volume is in the cell of index k unless it is air; no other cell is set |
| CovBlocks.CellGivesIndex | src/formats/covstructure.cpp:895-904 | x = k mod w, z = (k div w) mod l, y = k div (w * l) is the in-bounds cell of k |
| CovBlocks.CountMatchesExactlyWhen | src/formats/covstructure.cpp:883-932 | the non-air count is the number of placed blocks exactly when nothing counted is past the volume or has index -1 |
| CovBlocks.MinusOneIsMiscounted | src/formats/covstructure.cpp:883-932 | concrete: index -1 is counted and never placed |
| CovPalettes.PassReadsEntries | src/formats/covstructure.cpp:580-717 | the second pass reads the entries of the selected array or object, duplicate keys last-wins |
| CovDiscoveries.PassDiscovers | src/formats/covstructure.cpp:269-511 | the first pass is a fold over the root members |
| CovDiscoveries.DiscoveryFindsLast | src/formats/covstructure.cpp:423-511 | for every key it finds the last member |
| CovStructures.SelectedPaletteIsRead | src/formats/covstructure.cpp:205-267 | the palette chosen by serial is the palette of the tree |
| Arithmetic.GuardsAreExact | src/formats/covstructure.cpp:1026-1033 | the division guards reject exactly volumes beyond 64 bits |
| CovStructures.Read | src/formats/covstructure.cpp:1003-1072 | three streaming passes equal one tree-based read; it succeeds exactly when the root is an object nested at most 1024 deep, its last "size" (else "dimensions") starts with three positive sides whose product fits 64 bits, and the block elements lie at most 128 arrays deep; then the size has those sides and the k-th element stands at x = k mod w, z = k div w mod l, y = k div (w * l) |
| CovStructures.ReadShows | src/formats/covstructure.cpp:1003-1065 | what a document that can be read holds, cell by cell and nothing else |
| CovStructures.ReadsExactlyWhen | src/formats/covstructure.cpp:1014-1045 | a document is read exactly when it can be, with the size it gives |
| CovDocuments.FirstSidesAre | src/formats/covstructure.cpp:412-421 | the captured dimensions start with the first three elements that are whole numbers of 32 bits, whatever stands between |
| CovDocuments.FlattensExactlyWhen | src/formats/covstructure.cpp:953-968 | flattening succeeds exactly when the elements lie at most 128 arrays deep |
| CovPlainDocuments.PlainDocumentReads | src/formats/covstructure.cpp:1003-1072 | a document with integer sides w, h, l, integer indices and a list of named entries is read exactly when the sides are positive and their product fits 64 bits, and shows the entry each index names at (k mod w, k div (w * l), k div w mod l) |
| CovPlainDocuments.IntegralMeans | src/formats/covstructure.cpp:73-108 | integers count as themselves within 64 bits, floats towards zero, texts as the number they print, blanks around it allowed |
| CovPlainDocuments.AirNames | src/formats/covstructure.cpp:55-71 | a name is no block exactly when nothing but blanks is left of it or "minecraft:air" in any case |
| CovPlainDocuments.EntryMeans | src/formats/covstructure.cpp:110-148 | the fields of an entry are those of the last members with their keys |
| CovPlainDocuments.EntryPrefers | src/formats/covstructure.cpp:150-167 | the first name that is not empty and the first number that is there |
| CovPlainDocuments.ArrayPaletteHolds | src/formats/covstructure.cpp:673-678 | an array palette holds under every number the last entry with it, its "val" or its position |
| JavaMatching.BestIsUnique | src/core/runtime_registry.cpp:1271-1328 | there is one best candidate by (same, penalty, order, runtime id) |
| JavaMatching.OrderDoesNotMatter | src/core/runtime_registry.cpp:1282-1328 | any order of the same candidates gives the same answer |
| JavaMatching.BestCandidate | src/core/runtime_registry.cpp:1271-1328 | the lazy scan finds it, looking up orders only on a tie |
| JavaMatching.FreeOfPenaltyExactlyWhen | src/core/runtime_registry.cpp:1285-1310 | no penalty exactly when all requested properties agree and none is extra; then the score is unbeaten |
| JavaMatching.BestLegacy | src/core/runtime_registry.cpp:1332-1385 | the scan over legacy states finds the best in any iteration order |
| JavaMatching.BuildRoundTrip | src/core/runtime_registry.cpp:1072-1083 | the round-trip map holds exactly the encodings one runtime id produces |
| JavaMatching.RoundTripExactlyWhen | src/core/runtime_registry.cpp:1072-1083 | an id comes back from its encoding exactly when no other id is encoded alike |
| JavaMatching.RuntimeRegistry.CompatibleJavaRuntimeId | src/core/runtime_registry.cpp:1251-1386 | exact forms first, then the best Java candidate, then the best legacy state |
| JavaMatching.RuntimeRegistry.MatchIsUnique | src/core/runtime_registry.cpp:1251-1386 | the answer is determined by the tables alone |

## Left out

- Brotli, zlib, LevelDB, NBT and JSON parsing themselves: byte sequences, trees and event lists stand for them, and reading an NBT compound is taken to consume the bytes that skipping it does.
- Files, seeking, directory creation and removal errors, environment variables and archives.
- Telemetry, progress callbacks, timings and error text.
- Layer 1 of subchunks: the paths modelled fill it with air.
- `WorldSinks.WriteToWorld`: does not model writing the surviving block entities at the end of the conversion.
- The choice of spool file names and the writing of spool files through stream buffers.
- The BDX `mBlocks` path (`ensure_blocks_loaded` and the index branch of `get_chunks`): it drops air, so it is not meant to equal the spool.
- `PlacementSpools.GetChunks`: does not model reading a spool file that something else has damaged.
- Short and Long properties in printed block states: the printer has no form for them that the parser reads back as such.
- `AxiomBps.WriteAndRead`: takes the mapping between runtime ids and palette entries as invertible, and memory limits, files and streams as one thing that may fail; region counting is unbounded, while the code's 32-bit sum overflows for most extents within 21 of the maximum.
- `BcfStructures.BcfStructure.ScanSections`: starts from decoded sections; the offset table, the string tables and sections with an offset outside the file are not modelled.
- `Constructions.MaterializeChunks`: starts from the section index and decoded payloads; reading the metadata and the entities is not modelled.
- `SparseStores.SparseBlockStore.GetChunk`: local plus offset sums are unbounded here, 32 bits in the code.
- `ChunkIndexes.IndexedStructure.GetChunk`: local plus offset sums are unbounded here, 32 bits in the code.
- `CovStructures.Read`: JSON floats are reals, so neither their rounding while being parsed nor infinities appear; the order of the map of keys is any function of the keys, the map's own order among them.
- `JavaMatching.RuntimeRegistry.CompatibleJavaRuntimeId`: normalising and splitting the requested state, and the fuzzy comparison of values, are parameters.
- The upgrade closure and the loading of mapping assets in the runtime registry.
- `GangBanStreams.Materialize`: takes the registry and the making of block entities as total functions, and starts after the palette and the area entry have been read.
- The other entry formats of GangBan, and those of FuHong beyond the cipher: field-by-field mapping.
- `ChunkStreams.SuccessMeansComplete`: memory order is not modelled; a step under the mutex is atomic.
- The C API, the command line and the Python bindings.
